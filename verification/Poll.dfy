/** The poll sets of src/dw_poll.c: arrays of registered descriptors with swap-with-last deletion, for the
    select and the poll backend. */
module Poll {
  const MAX_POLLFD: nat := 8192

  /** The bits of dw_poll_flags that callers pass. */
  datatype Flags = Flags(in_: bool, out: bool, oneshot: bool)

  predicate NoFlags(f: Flags) {
    !f.in_ && !f.out && !f.oneshot
  }

  /** The events that poll() reports of a descriptor. */
  datatype Revents = Revents(in_: bool, out: bool, err: bool, hup: bool, other: bool)

  const NoEvents := Revents(false, false, false, false, false)

  /** A registered descriptor. `revents` is what the last poll() reported (poll backend only). */
  datatype Entry = Entry(fd: int, flags: Flags, aux: int, revents: Revents)

  predicate Got(e: Entry) {
    e.revents != NoEvents
  }

  function Lasting(f: Flags): Flags {
    f.(oneshot := false)
  }

  // ---------- arrays ----------

  /** Deletion of position i: the last entry takes its place. */
  function DelPos(s: seq<Entry>, i: nat): (r: seq<Entry>)
    requires i < |s|
    ensures |r| == |s| - 1
    ensures forall j :: 0 <= j < |r| ==> r[j] == if j == i then s[|s| - 1] else s[j]
  {
    if i < |s| - 1 then s[..|s| - 1][i := s[|s| - 1]] else s[..|s| - 1]
  }

  ghost predicate Distinct(s: seq<Entry>) {
    forall i, j :: 0 <= i < j < |s| ==> s[i].fd != s[j].fd
  }

  /** The position of fd, or |s|. */
  function Find(s: seq<Entry>, fd: int): (i: nat)
    ensures i <= |s| && (i < |s| ==> s[i].fd == fd) && forall j :: 0 <= j < i ==> s[j].fd != fd
  {
    if s == [] then 0 else if s[0].fd == fd then 0 else 1 + Find(s[1..], fd)
  }

  /** A list represents a map from descriptors to their data. */
  ghost predicate Holds(s: seq<Entry>, f: map<int, int>) {
    && Distinct(s)
    && (forall i :: 0 <= i < |s| ==> s[i].fd in f && f[s[i].fd] == s[i].aux)
    && (forall fd :: fd in f ==> Find(s, fd) < |s|)
  }

  // ---------- select: one direction ----------

  /** dw_poll_mod on the descriptors of one direction: `want` says whether fd is to be watched. */
  function HalfMod(s: seq<Entry>, fd: int, want: bool, flags: Flags, aux: int): seq<Entry> {
    var i := Find(s, fd);
    if i < |s| && !want then DelPos(s, i)
    else if i == |s| && want then s + [Entry(fd, flags, aux, NoEvents)]
    else if i < |s| then s[i := Entry(fd, Lasting(flags), aux, NoEvents)]
    else s
  }

  lemma {:induction false} HalfModHolds(s: seq<Entry>, f: map<int, int>, fd: int, want: bool, flags: Flags, aux: int)
    requires Holds(s, f)
    ensures Holds(HalfMod(s, fd, want, flags, aux), if want then f[fd := aux] else f - {fd})
  {
    var i, r := Find(s, fd), HalfMod(s, fd, want, flags, aux);
    var g := if want then f[fd := aux] else f - {fd};
    forall x | x in g ensures Find(r, x) < |r| {
      var j := Find(s, x);
      if x == fd {
        if i == |s| { assert r[|s|].fd == fd; } else { assert r[i].fd == fd; }
      } else {
        assert j < |s| && s[j].fd == x;
        if i < |s| && !want && j == |s| - 1 { assert r[i].fd == x; } else { assert r[j].fd == x; }
      }
    }
  }

  // ---------- poll ----------

  /** dw_poll_mod of the poll backend. The check after the loop compares the position found with the count
      as it is by then, that is, after a deletion. */
  function PollMod(s: seq<Entry>, fd: int, flags: Flags, aux: int): seq<Entry> {
    var i := Find(s, fd);
    var r :=
      if i == |s| then s
      else if !flags.in_ && !flags.out then DelPos(s, i)
      else s[i := Entry(fd, Lasting(flags), aux, s[i].revents)];
    if i == |r| && !NoFlags(flags) then r + [Entry(fd, flags, aux, NoEvents)] else r
  }

  /** Whether fd stays registered after its interest in both directions is withdrawn: it should not, and
      does exactly when ONESHOT is passed alone for a descriptor in the last position or not registered. */
  lemma {:induction false} WithdrawnStays(s: seq<Entry>, fd: int, flags: Flags, aux: int)
    requires Distinct(s) && !flags.in_ && !flags.out
    ensures var r := PollMod(s, fd, flags, aux);
      Find(r, fd) < |r| <==> flags.oneshot && Find(s, fd) + 1 >= |s|
  {
    var i, r := Find(s, fd), PollMod(s, fd, flags, aux);
    if flags.oneshot && i + 1 >= |s| {
      assert r[|r| - 1].fd == fd;
    } else if i < |s| {
      forall j | 0 <= j < |r| ensures r[j].fd != fd {
        if j == i { assert s[i].fd != s[|s| - 1].fd; }
      }
    }
  }

  /** A change of a registered descriptor stays in its place and lasts: its data and interest are the new ones,
      ONESHOT is cleared even if passed, and what poll() reported of it is kept; a new one is added at the end as it
      is passed. All other entries stay. */
  lemma {:induction false} ModLasts(s: seq<Entry>, fd: int, flags: Flags, aux: int)
    requires flags.in_ || flags.out
    ensures var i, r := Find(s, fd), PollMod(s, fd, flags, aux);
      && |r| == |s| + (if i == |s| then 1 else 0)
      && (forall j :: 0 <= j < |s| && j != i ==> r[j] == s[j])
      && r[i].fd == fd && r[i].aux == aux && r[i].flags.in_ == flags.in_ && r[i].flags.out == flags.out
      && r[i].flags.oneshot == (flags.oneshot && i == |s|)
      && r[i].revents == if i == |s| then NoEvents else s[i].revents
  {
  }

  /** The same for one direction of the select backend. */
  lemma {:induction false} HalfModLasts(s: seq<Entry>, fd: int, flags: Flags, aux: int)
    ensures var i, r := Find(s, fd), HalfMod(s, fd, true, flags, aux);
      && |r| == |s| + (if i == |s| then 1 else 0)
      && (forall j :: 0 <= j < |s| && j != i ==> r[j] == s[j])
      && r[i].fd == fd && r[i].aux == aux && r[i].flags.in_ == flags.in_ && r[i].flags.out == flags.out
      && r[i].flags.oneshot == (flags.oneshot && i == |s|)
  {
  }

  // ---------- both backends against a plain map ----------

  /** What a descriptor is registered for. */
  datatype Interest = Interest(in_: bool, out: bool, aux: int)

  type Registry = map<int, Interest>

  datatype Op = Add(fd: int, flags: Flags, aux: int) | Mod(fd: int, flags: Flags, aux: int)

  function Apply(m: Registry, op: Op): Registry {
    if op.flags.in_ || op.flags.out then m[op.fd := Interest(op.flags.in_, op.flags.out, op.aux)] else m - {op.fd}
  }

  datatype Select = Select(rd: seq<Entry>, wr: seq<Entry>)

  function SelectOp(st: Select, op: Op): Select {
    match op
    case Add(fd, flags, aux) =>
      Select(if flags.in_ then st.rd + [Entry(fd, flags, aux, NoEvents)] else st.rd,
             if flags.out then st.wr + [Entry(fd, flags, aux, NoEvents)] else st.wr)
    case Mod(fd, flags, aux) =>
      Select(HalfMod(st.rd, fd, flags.in_, flags, aux), HalfMod(st.wr, fd, flags.out, flags, aux))
  }

  function PollOp(s: seq<Entry>, op: Op): seq<Entry> {
    match op
    case Add(fd, flags, aux) => s + [Entry(fd, flags, aux, NoEvents)]
    case Mod(fd, flags, aux) => PollMod(s, fd, flags, aux)
  }

  /** What an addition leaves behind in both backends: the descriptor at the end, as it was passed, ONESHOT included,
      and watched for the directions asked for; all others as they were. */
  lemma {:induction false} AddsAtEnd(st: Select, s: seq<Entry>, fd: int, flags: Flags, aux: int)
    ensures var r, t := PollOp(s, Add(fd, flags, aux)), SelectOp(st, Add(fd, flags, aux));
      && Grown(s, r, fd, flags, aux)
      && (if flags.in_ then Grown(st.rd, t.rd, fd, flags, aux) else t.rd == st.rd)
      && (if flags.out then Grown(st.wr, t.wr, fd, flags, aux) else t.wr == st.wr)
  {
  }

  predicate Grown(s: seq<Entry>, r: seq<Entry>, fd: int, flags: Flags, aux: int) {
    && |r| == |s| + 1 && s <= r && !Got(r[|s|])
    && r[|s|].fd == fd && r[|s|].flags == flags && r[|s|].aux == aux
  }

  function Readers(m: Registry): map<int, int> {
    map fd | fd in m && m[fd].in_ :: m[fd].aux
  }

  function Writers(m: Registry): map<int, int> {
    map fd | fd in m && m[fd].out :: m[fd].aux
  }

  ghost predicate SelectIs(st: Select, m: Registry) {
    Holds(st.rd, Readers(m)) && Holds(st.wr, Writers(m))
  }

  ghost predicate PollIs(s: seq<Entry>, m: Registry) {
    && Distinct(s)
    && (forall i :: 0 <= i < |s| ==> s[i].fd in m && m[s[i].fd] == Interest(s[i].flags.in_, s[i].flags.out, s[i].aux))
    && (forall fd :: fd in m ==> Find(s, fd) < |s|)
    && (forall fd :: fd in m ==> m[fd].in_ || m[fd].out)
  }

  /** An operation of a ONESHOT-free run: an addition is of a new descriptor with some interest. */
  predicate Allowed(m: Registry, op: Op) {
    !op.flags.oneshot && (op.Add? ==> op.fd !in m && (op.flags.in_ || op.flags.out))
  }

  lemma {:induction false} AppendIsMod(s: seq<Entry>, f: map<int, int>, fd: int, flags: Flags, aux: int)
    requires Holds(s, f) && fd !in f
    ensures HalfMod(s, fd, true, flags, aux) == s + [Entry(fd, flags, aux, NoEvents)]
    ensures HalfMod(s, fd, false, flags, aux) == s
  {
  }

  lemma {:induction false} SelectStep(st: Select, m: Registry, op: Op)
    requires SelectIs(st, m) && Allowed(m, op)
    ensures SelectIs(SelectOp(st, op), Apply(m, op))
  {
    hide Holds; hide HalfMod;
    var fd, flags, aux := op.fd, op.flags, op.aux;
    HalfModHolds(st.rd, Readers(m), fd, flags.in_, flags, aux);
    HalfModHolds(st.wr, Writers(m), fd, flags.out, flags, aux);
    if op.Add? {
      AppendIsMod(st.rd, Readers(m), fd, flags, aux);
      AppendIsMod(st.wr, Writers(m), fd, flags, aux);
    }
    assert Readers(Apply(m, op)) == if flags.in_ then Readers(m)[fd := aux] else Readers(m) - {fd};
    assert Writers(Apply(m, op)) == if flags.out then Writers(m)[fd := aux] else Writers(m) - {fd};
  }

  lemma {:induction false} PollStep(s: seq<Entry>, m: Registry, op: Op)
    requires PollIs(s, m) && Allowed(m, op)
    ensures PollIs(PollOp(s, op), Apply(m, op))
  {
    hide PollIs; hide DelPos;
    var i := Find(s, op.fd);
    FoundIs(s, m, op.fd);
    if !op.flags.in_ && !op.flags.out {
      if i < |s| { DelIs(s, m, i); } else { assert m - {op.fd} == m; }
    } else if i < |s| {
      PutIs(s, m, i, PollOp(s, op)[i]);
    } else {
      AddIs(s, m, Entry(op.fd, op.flags, op.aux, NoEvents));
    }
  }

  lemma {:induction false} FoundIs(s: seq<Entry>, m: Registry, fd: int)
    requires PollIs(s, m)
    ensures Find(s, fd) < |s| <==> fd in m
  {
  }

  lemma {:induction false} DelIs(s: seq<Entry>, m: Registry, i: nat)
    requires PollIs(s, m) && i < |s|
    ensures PollIs(DelPos(s, i), m - {s[i].fd})
  {
    var r, g := DelPos(s, i), m - {s[i].fd};
    forall x | x in g ensures Find(r, x) < |r| {
      var j := Find(s, x);
      if j == |s| - 1 { assert r[i].fd == x; } else { assert r[j].fd == x; }
    }
  }

  lemma {:induction false} PutIs(s: seq<Entry>, m: Registry, i: nat, e: Entry)
    requires PollIs(s, m) && i < |s| && e.fd == s[i].fd && (e.flags.in_ || e.flags.out)
    ensures PollIs(s[i := e], m[e.fd := Interest(e.flags.in_, e.flags.out, e.aux)])
  {
    var r, g := s[i := e], m[e.fd := Interest(e.flags.in_, e.flags.out, e.aux)];
    forall x | x in g ensures Find(r, x) < |r| {
      var j := Find(s, x);
      assert r[j].fd == x;
    }
  }

  lemma {:induction false} AddIs(s: seq<Entry>, m: Registry, e: Entry)
    requires PollIs(s, m) && e.fd !in m && (e.flags.in_ || e.flags.out)
    ensures PollIs(s + [e], m[e.fd := Interest(e.flags.in_, e.flags.out, e.aux)])
  {
    var r, g := s + [e], m[e.fd := Interest(e.flags.in_, e.flags.out, e.aux)];
    forall x | x in g ensures Find(r, x) < |r| {
      if x == e.fd { assert r[|s|].fd == x; } else { assert r[Find(s, x)].fd == x; }
    }
  }

  ghost predicate AllowedRun(m: Registry, ops: seq<Op>)
    decreases |ops|
  {
    ops == [] || (Allowed(m, ops[0]) && AllowedRun(Apply(m, ops[0]), ops[1..]))
  }

  function RunMap(m: Registry, ops: seq<Op>): Registry
    decreases |ops|
  {
    if ops == [] then m else RunMap(Apply(m, ops[0]), ops[1..])
  }

  function RunSelect(st: Select, ops: seq<Op>): Select
    decreases |ops|
  {
    if ops == [] then st else RunSelect(SelectOp(st, ops[0]), ops[1..])
  }

  function RunPoll(s: seq<Entry>, ops: seq<Op>): seq<Entry>
    decreases |ops|
  {
    if ops == [] then s else RunPoll(PollOp(s, ops[0]), ops[1..])
  }

  /** Backend refinement: after any ONESHOT-free run of registrations, changes and removals, the select arrays
      and the poll array hold exactly what a plain map would. */
  lemma {:induction false} BackendsAgree(st: Select, s: seq<Entry>, m: Registry, ops: seq<Op>)
    requires SelectIs(st, m) && PollIs(s, m) && AllowedRun(m, ops)
    ensures SelectIs(RunSelect(st, ops), RunMap(m, ops)) && PollIs(RunPoll(s, ops), RunMap(m, ops))
    decreases |ops|
  {
    hide SelectIs; hide PollIs; hide Allowed;
    if ops != [] {
      SelectStep(st, m, ops[0]);
      PollStep(s, m, ops[0]);
      BackendsAgree(SelectOp(st, ops[0]), PollOp(s, ops[0]), Apply(m, ops[0]), ops[1..]);
    }
  }

  /** So do the backends of a new poll set. */
  lemma {:induction false} BackendsAgreeFromStart(ops: seq<Op>)
    requires AllowedRun(map[], ops)
    ensures SelectIs(RunSelect(Select([], []), ops), RunMap(map[], ops)) && PollIs(RunPoll([], ops), RunMap(map[], ops))
  {
    assert SelectIs(Select([], []), map[]) && PollIs([], map[]);
    BackendsAgree(Select([], []), [], map[], ops);
  }

  // ---------- draining ----------

  /** What one call of dw_poll_next does to a list of descriptors with cursor `iter`: `ready` says which
      entries the wait reported. */
  datatype Next = Next(reported: seq<Entry>, list: seq<Entry>, iter: nat)

  function Advance(s: seq<Entry>, iter: nat, ready: Entry -> bool): (r: Next)
    requires iter <= |s|
    ensures r.iter <= |r.list| && |r.list| - r.iter <= |s| - iter
    ensures |r.reported| <= 1 && (r.reported == [] ==> r.iter == |s| && r.list == s)
    ensures r.reported != [] ==> |r.list| - r.iter < |s| - iter
    decreases |s| - iter
  {
    if iter == |s| then Next([], s, iter)
    else if !ready(s[iter]) then Advance(s, iter + 1, ready)
    else if s[iter].flags.oneshot then Next([s[iter]], DelPos(s, iter), iter)
    else Next([s[iter]], s, iter + 1)
  }

  /** What a call reports is an entry of the list that the wait found ready. */
  lemma {:induction false} AdvanceReports(s: seq<Entry>, iter: nat, ready: Entry -> bool)
    requires iter <= |s|
    ensures var r := Advance(s, iter, ready); r.reported != [] ==> r.reported[0] in s && ready(r.reported[0])
    decreases |s| - iter
  {
    if iter < |s| && !ready(s[iter]) { AdvanceReports(s, iter + 1, ready); }
  }

  /** Calling dw_poll_next until it returns 0. */
  function Drain(s: seq<Entry>, iter: nat, ready: Entry -> bool): (r: Next)
    requires iter <= |s|
    decreases |s| - iter
  {
    var n := Advance(s, iter, ready);
    if n.reported == [] then n
    else
      var rest := Drain(n.list, n.iter, ready);
      Next(n.reported + rest.reported, rest.list, rest.iter)
  }

  lemma {:induction false} DelPosCounts(s: seq<Entry>, i: nat)
    requires i < |s|
    ensures DelPos(s, i)[..i] == s[..i]
    ensures multiset(s[i..]) == multiset{s[i]} + multiset(DelPos(s, i)[i..])
  {
    var r, n := DelPos(s, i), |s| - 1;
    assert s[i..] == [s[i]] + s[i + 1..];
    if i < n {
      assert r[i..] == [s[n]] + s[i + 1..n];
      assert s[i + 1..] == s[i + 1..n] + [s[n]];
    }
  }

  /** Drain, one entry at a time. */
  lemma {:induction false} DrainStep(s: seq<Entry>, iter: nat, ready: Entry -> bool)
    requires iter < |s|
    ensures Drain(s, iter, ready) ==
      if !ready(s[iter]) then Drain(s, iter + 1, ready)
      else
        var rest := if s[iter].flags.oneshot then Drain(DelPos(s, iter), iter, ready) else Drain(s, iter + 1, ready);
        Next([s[iter]] + rest.reported, rest.list, rest.iter)
  {
  }

  function Times(s: seq<Entry>, e: Entry): nat {
    multiset(s)[e]
  }

  lemma {:induction false} TimesAppend(a: seq<Entry>, b: seq<Entry>, e: Entry)
    ensures Times(a + b, e) == Times(a, e) + Times(b, e)
  {
  }

  lemma {:induction false} TimesOne(x: Entry, e: Entry)
    ensures Times([x], e) == if x == e then 1 else 0
  {
  }

  lemma {:induction false} TimesAt(s: seq<Entry>, i: nat, e: Entry)
    requires i < |s|
    ensures var one := if s[i] == e then 1 else 0;
      && Times(s[i..], e) == one + Times(s[i + 1..], e) && Times(s[..i + 1], e) == Times(s[..i], e) + one
      && Times(s[i..], e) == one + Times(DelPos(s, i)[i..], e) && DelPos(s, i)[..i] == s[..i]
  {
    assert s[i..] == [s[i]] + s[i + 1..] && s[..i + 1] == s[..i] + [s[i]];
    DelPosCounts(s, i);
  }

  lemma {:induction false} DrainTimes(s: seq<Entry>, iter: nat, ready: Entry -> bool, e: Entry)
    requires iter <= |s|
    ensures var d := Drain(s, iter, ready);
      && Times(d.reported, e) == (if ready(e) then Times(s[iter..], e) else 0)
      && Times(d.list, e) == Times(s[..iter], e) + if ready(e) && e.flags.oneshot then 0 else Times(s[iter..], e)
    decreases |s| - iter
  {
    if iter == |s| {
      assert s[..iter] == s && s[iter..] == [];
    } else {
      hide Drain; hide Times; hide DelPos;
      DrainStep(s, iter, ready);
      TimesAt(s, iter, e);
      var again := ready(s[iter]) && s[iter].flags.oneshot;
      DrainTimes(if again then DelPos(s, iter) else s, if again then iter else iter + 1, ready, e);
      var rest := if again then Drain(DelPos(s, iter), iter, ready) else Drain(s, iter + 1, ready);
      TimesAppend([s[iter]], rest.reported, e);
      TimesOne(s[iter], e);
    }
  }

  /** Poll drain: every entry that the wait reported ready is reported exactly once, and exactly the reported
      ONESHOT entries are removed, although each removal moves the last entry to the cursor. */
  lemma {:induction false} DrainExact(s: seq<Entry>, ready: Entry -> bool)
    ensures var d := Drain(s, 0, ready);
      && (forall e :: Times(d.reported, e) == if ready(e) then Times(s, e) else 0)
      && (forall e :: Times(d.list, e) == if ready(e) && e.flags.oneshot then 0 else Times(s, e))
  {
    hide Drain;
    forall e ensures
      var d := Drain(s, 0, ready);
      && Times(d.reported, e) == (if ready(e) then Times(s, e) else 0)
      && Times(d.list, e) == if ready(e) && e.flags.oneshot then 0 else Times(s, e)
    {
      DrainTimes(s, 0, ready, e);
      assert s[0..] == s && s[..0] == [];
    }
  }

  // ---------- draining the select backend ----------

  /** The two arrays and the one cursor over both: first the readers, then the writers. */
  datatype Selecting = Selecting(rd: seq<Entry>, wr: seq<Entry>, iter: nat)

  /** What dw_poll_next reports: an entry of the readers or of the writers. */
  datatype Hit = None | In(entry: Entry) | Out(entry: Entry)

  function SelectAdvance(st: Selecting, rdReady: Entry -> bool, wrReady: Entry -> bool): (r: (Hit, Selecting))
    ensures st.iter <= |st.rd| + |st.wr| ==> r.1.iter <= |r.1.rd| + |r.1.wr|
    ensures !r.0.None? ==> |r.1.rd| + |r.1.wr| - r.1.iter < |st.rd| + |st.wr| - st.iter
  {
    if st.iter > |st.rd| + |st.wr| then (None, st) else
    var a := if st.iter < |st.rd| then Advance(st.rd, st.iter, rdReady) else Next([], st.rd, st.iter);
    if a.reported != [] then (In(a.reported[0]), Selecting(a.list, st.wr, a.iter))
    else
      var b := Advance(st.wr, a.iter - |st.rd|, wrReady);
      (if b.reported != [] then Out(b.reported[0]) else None, Selecting(st.rd, b.list, |st.rd| + b.iter))
  }

  function SelectDrain(st: Selecting, rdReady: Entry -> bool, wrReady: Entry -> bool): (seq<Hit>, Selecting)
    requires st.iter <= |st.rd| + |st.wr|
    decreases |st.rd| + |st.wr| - st.iter
  {
    var (hit, next) := SelectAdvance(st, rdReady, wrReady);
    if hit.None? then ([], next)
    else
      var (hits, last) := SelectDrain(next, rdReady, wrReady);
      ([hit] + hits, last)
  }

  function AsIn(es: seq<Entry>): seq<Hit> {
    if es == [] then [] else [In(es[0])] + AsIn(es[1..])
  }

  function AsOut(es: seq<Entry>): seq<Hit> {
    if es == [] then [] else [Out(es[0])] + AsOut(es[1..])
  }

  /** One call past the readers only looks at the writers. */
  lemma {:induction false} DrainWriter(st: Selecting, rdReady: Entry -> bool, wrReady: Entry -> bool)
    requires |st.rd| <= st.iter <= |st.rd| + |st.wr|
    ensures var b := Advance(st.wr, st.iter - |st.rd|, wrReady);
      var next := Selecting(st.rd, b.list, |st.rd| + b.iter);
      SelectDrain(st, rdReady, wrReady)
      == if b.reported == [] then ([], next)
         else var more := SelectDrain(next, rdReady, wrReady); ([Out(b.reported[0])] + more.0, more.1)
  {
    hide Advance;
  }

  lemma {:induction false} AsOutStep(s: seq<Entry>, t: seq<Entry>)
    requires |s| == 1
    ensures AsOut(s + t) == [Out(s[0])] + AsOut(t)
  {
    assert (s + t)[1..] == t;
  }

  lemma {:induction false} AsInStep(s: seq<Entry>, t: seq<Entry>)
    requires |s| == 1
    ensures AsIn(s + t) == [In(s[0])] + AsIn(t)
  {
    assert (s + t)[1..] == t;
  }

  lemma {:induction false} DrainWriters(st: Selecting, rdReady: Entry -> bool, wrReady: Entry -> bool)
    requires |st.rd| <= st.iter <= |st.rd| + |st.wr|
    ensures var d := Drain(st.wr, st.iter - |st.rd|, wrReady);
      SelectDrain(st, rdReady, wrReady) == (AsOut(d.reported), Selecting(st.rd, d.list, |st.rd| + d.iter))
    decreases |st.rd| + |st.wr| - st.iter
  {
    hide Advance; hide SelectDrain; hide SelectAdvance;
    var b := Advance(st.wr, st.iter - |st.rd|, wrReady);
    DrainWriter(st, rdReady, wrReady);
    if b.reported != [] {
      hide AsOut;
      DrainWriters(Selecting(st.rd, b.list, |st.rd| + b.iter), rdReady, wrReady);
      AsOutStep(b.reported, Drain(b.list, b.iter, wrReady).reported);
    }
  }

  /** One call among the readers: it reports a reader, or goes on with the writers. */
  lemma {:induction false} DrainReader(st: Selecting, rdReady: Entry -> bool, wrReady: Entry -> bool)
    requires st.iter <= |st.rd|
    ensures var a := Advance(st.rd, st.iter, rdReady);
      SelectDrain(st, rdReady, wrReady)
      == if a.reported == [] then SelectDrain(st.(iter := |st.rd|), rdReady, wrReady)
         else
           var more := SelectDrain(Selecting(a.list, st.wr, a.iter), rdReady, wrReady);
           ([In(a.reported[0])] + more.0, more.1)
  {
    var a := Advance(st.rd, st.iter, rdReady);
    hide Advance;
    if a.reported == [] {
      assert SelectAdvance(st, rdReady, wrReady) == SelectAdvance(st.(iter := |st.rd|), rdReady, wrReady);
    }
  }

  /** Draining the select backend is draining its readers and then its writers, so DrainExact speaks of both. */
  lemma {:induction false} SelectDrainsBoth(st: Selecting, rdReady: Entry -> bool, wrReady: Entry -> bool)
    requires st.iter <= |st.rd|
    ensures var r, w := Drain(st.rd, st.iter, rdReady), Drain(st.wr, 0, wrReady);
      && SelectDrain(st, rdReady, wrReady).0 == AsIn(r.reported) + AsOut(w.reported)
      && SelectDrain(st, rdReady, wrReady).1.rd == r.list && SelectDrain(st, rdReady, wrReady).1.wr == w.list
    decreases |st.rd| - st.iter
  {
    hide Advance; hide SelectDrain; hide SelectAdvance;
    var a := Advance(st.rd, st.iter, rdReady);
    DrainReader(st, rdReady, wrReady);
    if a.reported != [] {
      hide AsIn;
      SelectDrainsBoth(Selecting(a.list, st.wr, a.iter), rdReady, wrReady);
      AsInStep(a.reported, Drain(a.list, a.iter, rdReady).reported);
    } else {
      DrainWriters(st.(iter := |st.rd|), rdReady, wrReady);
    }
  }

  // ---------- no descriptor is reported twice ----------

  /** What happens between two waits: a call of dw_poll_next, or a registration or change in between. */
  datatype Event = Report | Change(op: Op)

  /** The poll array, its cursor, and the entries reported since the wait, in order. */
  datatype Iteration = Iteration(list: seq<Entry>, iter: nat, reported: seq<Entry>)

  ghost predicate Reported(it: Iteration, fd: int) {
    exists i :: 0 <= i < |it.reported| && it.reported[i].fd == fd
  }

  function IsReady(): Entry -> bool {
    (e: Entry) => Got(e)
  }

  function Happen(it: Iteration, ev: Event): Iteration {
    match ev
    case Report =>
      if it.iter >= |it.list| then it
      else
        var n := Advance(it.list, it.iter, IsReady());
        Iteration(n.list, n.iter, it.reported + n.reported)
    case Change(op) => it.(list := PollOp(it.list, op))
  }

  /** Descriptors are registered once, none was reported twice, and none already reported waits behind the
      cursor. */
  ghost predicate Fresh(it: Iteration) {
    && Distinct(it.list)
    && Distinct(it.reported)
    && (forall i :: it.iter <= i < |it.list| && Got(it.list[i]) ==> !Reported(it, it.list[i].fd))
  }

  lemma {:induction false} AdvanceFresh(it: Iteration)
    requires Fresh(it) && it.iter < |it.list|
    ensures Fresh(Happen(it, Report))
    decreases |it.list| - it.iter
  {
    var s, i := it.list, it.iter;
    if !Got(s[i]) {
      var it1 := it.(iter := i + 1);
      if i + 1 < |s| { AdvanceFresh(it1); }
    } else {
      var r := Happen(it, Report);
      if s[i].flags.oneshot {
        forall j | i <= j < |r.list| && Got(r.list[j]) ensures !Reported(r, r.list[j].fd) {
          if j == i { assert r.list[j] == s[|s| - 1]; } else { assert r.list[j] == s[j]; }
        }
      }
    }
  }

  lemma {:induction false} ChangeFresh(it: Iteration, op: Op)
    requires Fresh(it) && (op.Add? ==> forall i :: 0 <= i < |it.list| ==> it.list[i].fd != op.fd)
    ensures Fresh(Happen(it, Change(op)))
  {
    var s, r := it.list, PollOp(it.list, op);
    var i := Find(s, op.fd);
    forall j | it.iter <= j < |r| && Got(r[j]) ensures !Reported(it, r[j].fd) {
      if op.Mod? && i < |s| && !op.flags.in_ && !op.flags.out && j == i {
        assert r[j] == s[|s| - 1];
      }
    }
  }

  ghost predicate FreshAdds(it: Iteration, evs: seq<Event>)
    decreases |evs|
  {
    evs == [] ||
    (&& (evs[0].Change? && evs[0].op.Add? ==> forall i :: 0 <= i < |it.list| ==> it.list[i].fd != evs[0].op.fd)
     && FreshAdds(Happen(it, evs[0]), evs[1..]))
  }

  function HappenAll(it: Iteration, evs: seq<Event>): Iteration
    decreases |evs|
  {
    if evs == [] then it else HappenAll(Happen(it, evs[0]), evs[1..])
  }

  /** After a wait, no descriptor is reported twice, whatever registrations, changes and removals happen
      between the calls of dw_poll_next. */
  lemma {:induction false} ReportedOnce(it: Iteration, evs: seq<Event>)
    requires Fresh(it) && FreshAdds(it, evs)
    ensures Fresh(HappenAll(it, evs))
    decreases |evs|
  {
    hide Fresh; hide Happen;
    if evs != [] {
      match evs[0] {
        case Report =>
          if it.iter < |it.list| { AdvanceFresh(it); } else { AtEnd(it); }
        case Change(op) => ChangeFresh(it, op);
      }
      ReportedOnce(Happen(it, evs[0]), evs[1..]);
    }
  }

  lemma {:induction false} AtEnd(it: Iteration)
    requires it.iter >= |it.list|
    ensures Happen(it, Report) == it
  {
  }

  // ---------- what is reported is what was registered ----------

  /** The list is the registry `m`, without ONESHOT. */
  ghost predicate Lists(it: Iteration, m: Registry) {
    PollIs(it.list, m) && forall i :: 0 <= i < |it.list| ==> !it.list[i].flags.oneshot
  }

  /** `e` is registered in `m` with the data and the interest that it shows. */
  predicate Registered(e: Entry, m: Registry) {
    e.fd in m && m[e.fd] == Interest(e.flags.in_, e.flags.out, e.aux)
  }

  /** Every report of the run shows what the registry holds at that time. */
  ghost predicate ReportsRight(it: Iteration, m: Registry, evs: seq<Event>)
    decreases |evs|
  {
    evs == [] ||
    (match evs[0]
     case Report =>
       var next := Happen(it, Report);
       && |it.reported| <= |next.reported| <= |it.reported| + 1
       && (|next.reported| > |it.reported| ==>
             Got(next.reported[|it.reported|]) && Registered(next.reported[|it.reported|], m))
       && ReportsRight(next, m, evs[1..])
     case Change(op) => ReportsRight(Happen(it, evs[0]), Apply(m, op), evs[1..]))
  }

  ghost predicate AllowedEvents(m: Registry, evs: seq<Event>)
    decreases |evs|
  {
    evs == [] ||
    (match evs[0]
     case Report => AllowedEvents(m, evs[1..])
     case Change(op) => Allowed(m, op) && AllowedEvents(Apply(m, op), evs[1..]))
  }

  /** In a ONESHOT-free run every descriptor is reported with the data it is registered with. */
  lemma {:induction false} ReportsRegistered(it: Iteration, m: Registry, evs: seq<Event>)
    requires Lists(it, m) && AllowedEvents(m, evs)
    ensures ReportsRight(it, m, evs)
    decreases |evs|
  {
    hide Happen; hide Apply; hide Allowed; hide Lists;
    if evs != [] {
      match evs[0] {
        case Report => ReportKeeps(it, m);
        case Change(op) => ChangeLists(it, m, op);
      }
      ReportsRegistered(Happen(it, evs[0]), if evs[0].Report? then m else Apply(m, evs[0].op), evs[1..]);
    }
  }

  lemma {:induction false} ReportKeeps(it: Iteration, m: Registry)
    requires Lists(it, m)
    ensures var next := Happen(it, Report);
      && Lists(next, m) && |it.reported| <= |next.reported| <= |it.reported| + 1
      && (|next.reported| > |it.reported| ==>
            Got(next.reported[|it.reported|]) && Registered(next.reported[|it.reported|], m))
  {
    if it.iter < |it.list| {
      hide Advance; hide PollIs;
      AdvanceReports(it.list, it.iter, IsReady());
      AdvanceLasts(it.list, it.iter, IsReady());
      var n := Advance(it.list, it.iter, IsReady());
      if n.reported != [] {
        var i :| 0 <= i < |it.list| && it.list[i] == n.reported[0];
        EntryRegistered(it.list, m, i);
      }
    }
  }

  lemma {:induction false} EntryRegistered(s: seq<Entry>, m: Registry, i: nat)
    requires PollIs(s, m) && i < |s|
    ensures Registered(s[i], m)
  {
  }

  lemma {:induction false} AdvanceLasts(s: seq<Entry>, iter: nat, ready: Entry -> bool)
    requires iter <= |s| && forall i :: 0 <= i < |s| ==> !s[i].flags.oneshot
    ensures Advance(s, iter, ready).list == s
    decreases |s| - iter
  {
    if iter < |s| && !ready(s[iter]) { AdvanceLasts(s, iter + 1, ready); }
  }

  lemma {:induction false} ChangeLists(it: Iteration, m: Registry, op: Op)
    requires Lists(it, m) && Allowed(m, op)
    ensures Lists(Happen(it, Change(op)), Apply(m, op))
  {
    hide PollIs;
    PollStep(it.list, m, op);
  }
}
