/** One FORWARD context under replies and timeouts: quorum counting and bounded retransmission
    (start_forward, handle_forward_reply and the retry part of handle_timeout in src/dw_node.c). */
module Quorum {
  import opened Layout
  import opened Walk
  import opened Tree
  import opened Node

  /** What can reach a request while it waits in the context. */
  datatype Input = Reply(addr: seq<byte>, status: nat) | Expire

  /** `Open`: still in the context. `Past`: a reply completed it, `after` is how the request went on.
      `GaveUp`: the timer expired with no retry left. `rounds` are the packets sent, round by round, and `done`
      the commands executed since the request entered the context. */
  datatype State =
    | Open(req: Req, rounds: seq<seq<Packet>>, done: seq<Command>)
    | Past(after: Result, rounds: seq<seq<Packet>>, done: seq<Command>)
    | GaveUp(after: Result, rounds: seq<seq<Packet>>, done: seq<Command>)

  /** A context `c` followed by commands `t`, with at most 31 destinations of distinct addresses. */
  ghost predicate Context(c: Ctx, t: seq<Command>) {
    && GoodCtx(c, BranchedCtx(c)) && DistinctCtx(c) && |Dests(c)| <= 31
    && t != [] && t[0].ctype != FORWARD_CONTINUE
    && NAck(c) >= 1
  }

  function First(c: Ctx): Command
    requires c.dests != []
  {
    Command(FORWARD_BEGIN, c.dests[0])
  }

  function NAck(c: Ctx): nat
    requires c.dests != []
  {
    FwdNAck(First(c))
  }

  function Retries(c: Ctx): nat
    requires c.dests != []
  {
    FwdRetries(First(c))
  }

  /** The request enters the context: process_single_message reaches its FORWARD_BEGIN. */
  function Enter(r: Req, c: Ctx, t: seq<Command>, devs: nat): State {
    var res := Process(r, FlatCtx(c, FORWARD_BEGIN, t), devs);
    Open(res.req, [res.sent], res.done)
  }

  /** One input. The request is past the context when the handler has moved its cursor. */
  function Next(st: State, input: Input, devs: nat): State {
    if !st.Open? || !AtForward(st.req.cur) then st
    else match input
      case Reply(addr, status) =>
        var res := HandleReply(st.req, addr, status, devs);
        if res.req.cur == st.req.cur then Open(res.req, st.rounds, st.done + res.done)
        else Past(res, st.rounds, st.done + res.done)
      case Expire =>
        var res := HandleTimeout(st.req, devs);
        if st.req.retries > 0 then Open(res.req, st.rounds + [res.sent], st.done + res.done)
        else GaveUp(res, st.rounds, st.done + res.done)
  }

  // ---------- what a history of inputs amounts to ----------

  /** The ids of the destinations that have replied. */
  function Heard(c: Ctx, inputs: seq<Input>): (ids: set<nat>)
    requires SizedDests(Dests(c))
    ensures forall i :: i in ids ==> i < |Dests(c)|
  {
    if inputs == [] then {}
    else
      var before, last := Heard(c, inputs[..|inputs| - 1]), inputs[|inputs| - 1];
      if last.Reply? && IndexOf(Dests(c), last.addr) != -1 then before + {IndexOf(Dests(c), last.addr)} else before
  }

  function Expired(inputs: seq<Input>): nat {
    if inputs == [] then 0
    else Expired(inputs[..|inputs| - 1]) + if inputs[|inputs| - 1].Expire? then 1 else 0
  }

  /** The rounds sent: one on entering and one at each timeout, each to the destinations not heard by then. */
  function Rounds(c: Ctx, inputs: seq<Input>): (rs: seq<seq<Packet>>)
    requires GoodCtx(c, BranchedCtx(c)) && SizedDests(Dests(c))
    ensures |rs| == 1 + Expired(inputs)
  {
    if inputs == [] then [Owed(c, BranchedCtx(c), 0, {})]
    else
      var before := inputs[..|inputs| - 1];
      Rounds(c, before)
      + if inputs[|inputs| - 1].Expire? then [Owed(c, BranchedCtx(c), 0, Heard(c, before))] else []
  }

  /** The request while it is in the context, after `inputs`. */
  function Waiting(r: Req, c: Ctx, t: seq<Command>, inputs: seq<Input>): Req
    requires c.dests != [] && SizedDests(Dests(c))
  {
    Req(FlatCtx(c, FORWARD_BEGIN, t), NAck(c) - |Heard(c, inputs)|, Heard(c, inputs), FwdTimeout(First(c)),
        Retries(c) - Expired(inputs), FwdOnFailSkip(First(c)), r.status)
  }

  ghost predicate InContext(c: Ctx, inputs: seq<Input>)
    requires c.dests != [] && SizedDests(Dests(c))
  {
    |Heard(c, inputs)| < NAck(c) && Expired(inputs) <= Retries(c)
  }

  function After(r: Req, c: Ctx, t: seq<Command>, inputs: seq<Input>, devs: nat): State {
    if inputs == [] then Enter(r, c, t, devs)
    else Next(After(r, c, t, inputs[..|inputs| - 1], devs), inputs[|inputs| - 1], devs)
  }

  // ---------- one round and one reply ----------

  /** Serving the FORWARD_BEGIN of a context, the first time or again: no other command is executed, and
      the packets owed to the destinations not yet recorded are sent. */
  lemma {:induction false} RoundOf(r: Req, c: Ctx, t: seq<Command>, devs: nat)
    requires Context(c, t)
    requires r.left == -1 || r.cur == FlatCtx(c, FORWARD_BEGIN, t)
    ensures var s := FlatCtx(c, FORWARD_BEGIN, t);
      && s != [] && s[0] == First(c) && AtForward(s)
      && var r1 := OpenContext(r.(cur := s), First(c));
      Process(r, s, devs) == Result(r1, [], Owed(c, BranchedCtx(c), 0, r1.mask), WaitForward)
  {
    hide SendRound; hide FlatCtx; hide Owed;
    var s := FlatCtx(c, FORWARD_BEGIN, t);
    FlatCtxHead(c, FORWARD_BEGIN, t);
    var r1 := OpenContext(r.(cur := s), First(c));
    GoodDests(c, BranchedCtx(c));
    RoundSends(r1, c, c, BranchedCtx(c), FORWARD_BEGIN, t, 0);
  }

  /** A reply from an address outside the context, or already recorded, changes nothing; a new one is
      recorded, and completes the context exactly when it is the last one waited for. */
  lemma {:induction false} ReplyOf(r: Req, c: Ctx, t: seq<Command>, addr: seq<byte>, status: nat, devs: nat)
    requires Context(c, t) && r.cur == FlatCtx(c, FORWARD_BEGIN, t)
    ensures AtForward(r.cur) && SizedDests(Dests(c))
    ensures var i := IndexOf(Dests(c), addr);
      HandleReply(r, addr, status, devs) ==
        if i == -1 || i in r.mask then Result(r, [], [], WaitForward)
        else if r.left > 1 then Result(r.(mask := r.mask + {i}, left := r.left - 1), [], [], WaitForward)
        else Process(r.(cur := t, mask := {}, left := -1, timeout := 0, retries := 0, status := status), t, devs)
  {
    hide Process; hide FlatCtx; hide FindReplyId;
    FindIsIndex(c, FORWARD_BEGIN, BranchedCtx(c), t, addr);
    assert Skip(r.cur, 1) == t by { SkipCtx(c, FORWARD_BEGIN, BranchedCtx(c), t, 0); FlatCtxHead(c, FORWARD_BEGIN, t); }
  }

  // ---------- any run ----------

  function Front(inputs: seq<Input>): seq<Input>
    requires inputs != []
  {
    inputs[..|inputs| - 1]
  }

  function Final(inputs: seq<Input>): Input
    requires inputs != []
  {
    inputs[|inputs| - 1]
  }

  lemma {:induction false} InContextBefore(c: Ctx, inputs: seq<Input>)
    requires c.dests != [] && SizedDests(Dests(c)) && inputs != []
    ensures Heard(c, Front(inputs)) <= Heard(c, inputs) && |Heard(c, Front(inputs))| <= |Heard(c, inputs)|
    ensures InContext(c, inputs) ==> InContext(c, Front(inputs))
  {
    var ids, before := Heard(c, inputs), Heard(c, Front(inputs));
    assert |ids - before| == |ids| - |before|;
  }

  lemma {:induction false} WaitingReply(r: Req, c: Ctx, t: seq<Command>, inputs: seq<Input>)
    requires inputs != [] && Final(inputs).Reply? && c.dests != [] && SizedDests(Dests(c)) && InContext(c, inputs)
    ensures var w := Waiting(r, c, t, Front(inputs));
      var i := IndexOf(Dests(c), Final(inputs).addr);
      if i == -1 || i in w.mask then Waiting(r, c, t, inputs) == w
      else w.left > 1 && Waiting(r, c, t, inputs) == w.(mask := w.mask + {i}, left := w.left - 1)
  {
    hide FlatCtx; hide IndexOf;
    var h, i := Heard(c, Front(inputs)), IndexOf(Dests(c), Final(inputs).addr);
    if i == -1 || i in h {
      assert Heard(c, inputs) == h;
    } else {
      assert Heard(c, inputs) == h + {i} && |h + {i}| == |h| + 1;
    }
  }

  /** A reply that leaves the request in the context. */
  lemma {:induction false} ReplyKeeps(r: Req, c: Ctx, t: seq<Command>, inputs: seq<Input>, devs: nat)
    requires Context(c, t) && inputs != [] && Final(inputs).Reply? && SizedDests(Dests(c)) && InContext(c, inputs)
    ensures Next(Open(Waiting(r, c, t, Front(inputs)), Rounds(c, Front(inputs)), []), Final(inputs), devs)
         == Open(Waiting(r, c, t, inputs), Rounds(c, inputs), [])
  {
    hide Process; hide FlatCtx; hide Owed; hide HandleReply; hide InContext; hide IndexOf;
    WaitingReply(r, c, t, inputs);
    ReplyOf(Waiting(r, c, t, Front(inputs)), c, t, Final(inputs).addr, Final(inputs).status, devs);
    assert Rounds(c, inputs) == Rounds(c, Front(inputs));
  }

  /** A timeout with a retry left sends one more round. */
  lemma {:induction false} ExpireOf(w: Req, c: Ctx, t: seq<Command>, devs: nat)
    requires Context(c, t) && w.cur == FlatCtx(c, FORWARD_BEGIN, t) && w.left != -1 && w.retries > 0
    ensures HandleTimeout(w, devs)
         == Result(w.(retries := w.retries - 1), [], Owed(c, BranchedCtx(c), 0, w.mask), WaitForward)
  {
    hide Process; hide FlatCtx; hide Owed;
    RoundOf(w.(retries := w.retries - 1), c, t, devs);
  }

  lemma {:induction false} ExpireKeeps(r: Req, c: Ctx, t: seq<Command>, inputs: seq<Input>, devs: nat)
    requires Context(c, t) && inputs != [] && Final(inputs).Expire? && SizedDests(Dests(c)) && InContext(c, inputs)
    ensures Next(Open(Waiting(r, c, t, Front(inputs)), Rounds(c, Front(inputs)), []), Final(inputs), devs)
         == Open(Waiting(r, c, t, inputs), Rounds(c, inputs), [])
  {
    hide HandleTimeout; hide FlatCtx; hide Owed;
    FlatCtxHead(c, FORWARD_BEGIN, t);
    assert Heard(c, inputs) == Heard(c, Front(inputs));
    hide Heard; hide Context;
    ExpireOf(Waiting(r, c, t, Front(inputs)), c, t, devs);
  }

  /** Quorum counting and retransmission, for every history of replies and timeouts. While fewer than
      n_ack distinct destinations have replied and the timer has not expired more than `retries` times, the
      request is in the context with exactly those destinations recorded and n_ack minus their number left;
      it has executed no command since it entered, and the packets of each round went to exactly the destinations not
      heard before it. */
  lemma {:induction false} WhileInContext(r: Req, c: Ctx, t: seq<Command>, inputs: seq<Input>, devs: nat)
    requires Context(c, t) && r.left == -1 && InContext(c, inputs)
    ensures After(r, c, t, inputs, devs) == Open(Waiting(r, c, t, inputs), Rounds(c, inputs), [])
    decreases |inputs|
  {
    hide Process; hide FlatCtx; hide Owed; hide Waiting; hide Rounds; hide Next;
    if inputs == [] {
      EnterOpens(r, c, t, devs);
    } else {
      InContextBefore(c, inputs);
      WhileInContext(r, c, t, Front(inputs), devs);
      if Final(inputs).Reply? { ReplyKeeps(r, c, t, inputs, devs); }
      else { ExpireKeeps(r, c, t, inputs, devs); }
    }
  }

  lemma {:induction false} EnterOpens(r: Req, c: Ctx, t: seq<Command>, devs: nat)
    requires Context(c, t) && r.left == -1
    ensures Enter(r, c, t, devs) == Open(Waiting(r, c, t, []), Rounds(c, []), [])
  {
    hide Process; hide FlatCtx; hide Owed;
    RoundOf(r, c, t, devs);
  }

  /** The cursor of a request only moves over the commands it serves. */
  lemma {:induction false} ProcessCursor(r: Req, s: seq<Command>, devs: nat)
    ensures |Process(r, s, devs).req.cur| <= if |r.cur| > |s| then |r.cur| else |s|
    decreases |s|
  {
    if s != [] && s[0].ctype != EOM {
      ProcessCursor(r, SkipOne(s, 0), devs);
    }
  }

  lemma {:induction false} PastMoves(r: Req, c: Ctx, t: seq<Command>, devs: nat)
    requires Context(c, t) && r.cur == t
    ensures Process(r, t, devs).req.cur != FlatCtx(c, FORWARD_BEGIN, t)
  {
    hide Process; hide FlatCtx;
    ProcessCursor(r, t, devs);
    SkipCtx(c, FORWARD_BEGIN, BranchedCtx(c), t, 0);
  }

  /** The request once a last reply has taken it past the context. */
  function Resumed(r: Req, c: Ctx, t: seq<Command>, inputs: seq<Input>): Req
    requires c.dests != [] && SizedDests(Dests(c)) && inputs != [] && Final(inputs).Reply?
  {
    Waiting(r, c, t, Front(inputs)).(cur := t, mask := {}, left := -1, timeout := 0, retries := 0,
                                     status := Final(inputs).status)
  }

  /** The request moves past the context exactly when the n_ack-th distinct destination is recorded, and
      it then goes on with the commands behind the context, with no context open. */
  lemma {:induction false} MovesPast(r: Req, c: Ctx, t: seq<Command>, inputs: seq<Input>, devs: nat)
    requires Context(c, t) && r.left == -1 && inputs != [] && InContext(c, Front(inputs)) && Final(inputs).Reply?
    ensures SizedDests(Dests(c))
    ensures var resumed := Resumed(r, c, t, inputs);
      After(r, c, t, inputs, devs) ==
        if |Heard(c, inputs)| < NAck(c) then Open(Waiting(r, c, t, inputs), Rounds(c, inputs), [])
        else Past(Process(resumed, t, devs), Rounds(c, inputs), Process(resumed, t, devs).done)
  {
    hide Process; hide FlatCtx; hide Owed; hide Next; hide Waiting; hide Rounds; hide Resumed;
    WhileInContext(r, c, t, Front(inputs), devs);
    if |Heard(c, inputs)| < NAck(c) {
      WhileInContext(r, c, t, inputs, devs);
    } else {
      LastReply(r, c, t, inputs, devs);
    }
  }

  /** The reply of the n_ack-th destination. */
  lemma {:induction false} LastReply(r: Req, c: Ctx, t: seq<Command>, inputs: seq<Input>, devs: nat)
    requires Context(c, t) && inputs != [] && Final(inputs).Reply? && InContext(c, Front(inputs))
    requires |Heard(c, inputs)| >= NAck(c)
    ensures var after := Process(Resumed(r, c, t, inputs), t, devs);
      Next(Open(Waiting(r, c, t, Front(inputs)), Rounds(c, Front(inputs)), []), Final(inputs), devs)
      == Past(after, Rounds(c, inputs), after.done)
  {
    hide Process; hide FlatCtx; hide Owed; hide HandleReply; hide IndexOf;
    var w := Waiting(r, c, t, Front(inputs));
    ReplyOf(w, c, t, Final(inputs).addr, Final(inputs).status, devs);
    PastMoves(Resumed(r, c, t, inputs), c, t, devs);
    assert Rounds(c, inputs) == Rounds(c, Front(inputs));
  }

  /** Where a request goes on when its retries are used up: `on_fail_skip` items further on, with the status TIMEOUT;
      with more items than the message has left it ends without a reply, and with none it is dropped. */
  lemma {:induction false} TimeoutSkips(p: Prog, t: seq<Command>, w: Req, devs: nat)
    requires Good(p) && w.cur == Flat(p, t) && w.retries <= 0
    ensures var res := HandleTimeout(w, devs);
      && (w.onFailSkip <= 0 ==> res == Result(w.(status := TIMEOUT), [], [], Dropped))
      && (0 < w.onFailSkip <= Items(p) ==>
            var s := Flat(DropItems(p, w.onFailSkip), t);
            res == Process(w.(cur := s, status := TIMEOUT), s, devs))
      && (w.onFailSkip > Items(p) && t == [EomCommand] ==>
            res.outcome == Ended && res.done == [] && res.sent == [] && res.req.status == TIMEOUT)
  {
    hide Flat; hide Skip;
    if 0 < w.onFailSkip <= Items(p) {
      SkipSiblings(p, t, w.onFailSkip);
    } else if w.onFailSkip > Items(p) && t == [EomCommand] {
      SkipBeyond(p, w.onFailSkip);
    }
  }

  /** A request whose context `c` failed, waiting in front of commands `t`: what it does then. */
  function Failing(w: Req, t: seq<Command>, devs: nat): Result {
    if w.onFailSkip <= 0 then Result(w.(status := TIMEOUT), [], [], Dropped)
    else var s := Skip(t, w.onFailSkip - 1); Process(w.(cur := s, status := TIMEOUT), s, devs)
  }

  /** A timeout starts another round while a retry is left, and otherwise ends the context: the request skips it and
      the next on_fail_skip - 1 contexts, or is dropped. */
  lemma {:induction false} GivesUp(r: Req, c: Ctx, t: seq<Command>, inputs: seq<Input>, devs: nat)
    requires Context(c, t) && r.left == -1 && inputs != [] && InContext(c, Front(inputs)) && Final(inputs).Expire?
    ensures var res := Failing(Waiting(r, c, t, Front(inputs)), t, devs);
      After(r, c, t, inputs, devs) ==
        if Expired(inputs) <= Retries(c) then Open(Waiting(r, c, t, inputs), Rounds(c, inputs), [])
        else GaveUp(res, Rounds(c, Front(inputs)), res.done)
  {
    hide Process; hide FlatCtx; hide Owed; hide HandleTimeout; hide Rounds; hide Failing;
    WhileInContext(r, c, t, Front(inputs), devs);
    assert Heard(c, inputs) == Heard(c, Front(inputs));
    if Expired(inputs) <= Retries(c) {
      hide Next; hide Waiting;
      WhileInContext(r, c, t, inputs, devs);
    } else {
      FailsBehind(Waiting(r, c, t, Front(inputs)), c, t, devs);
      hide GoodCtx;
      FlatCtxHead(c, FORWARD_BEGIN, t);
    }
  }

  lemma {:induction false} FailsBehind(w: Req, c: Ctx, t: seq<Command>, devs: nat)
    requires Context(c, t) && w.cur == FlatCtx(c, FORWARD_BEGIN, t) && w.retries <= 0
    ensures HandleTimeout(w, devs) == Failing(w, t, devs)
  {
    hide Process; hide FlatCtx; hide SkipOne;
    if w.onFailSkip > 0 {
      FlatCtxHead(c, FORWARD_BEGIN, t);
      SkipCtx(c, FORWARD_BEGIN, BranchedCtx(c), t, 0);
      assert Skip(w.cur, w.onFailSkip) == Skip(t, w.onFailSkip - 1);
    }
  }

  /** In front of a program `q` the failed request goes on on_fail_skip - 1 items into it. */
  lemma {:induction false} FailingIn(w: Req, q: Prog, u: seq<Command>, devs: nat)
    requires Good(q) && 1 <= w.onFailSkip <= Items(q) + 1
    ensures var s := Flat(DropItems(q, w.onFailSkip - 1), u);
      Failing(w, Flat(q, u), devs) == Process(w.(cur := s, status := TIMEOUT), s, devs)
  {
    hide Process; hide Flat; hide Skip;
    SkipSiblings(q, u, w.onFailSkip - 1);
  }

  /** A history that leads out of the context does so at some point, and nothing that comes later counts. */
  lemma {:induction false} LeftAt(r: Req, c: Ctx, t: seq<Command>, inputs: seq<Input>, devs: nat) returns (n: nat)
    requires Context(c, t) && r.left == -1 && !InContext(c, inputs)
    ensures n < |inputs| && InContext(c, inputs[..n]) && !InContext(c, inputs[..n + 1])
    ensures After(r, c, t, inputs, devs) == After(r, c, t, inputs[..n + 1], devs)
    ensures !After(r, c, t, inputs, devs).Open?
    decreases |inputs|
  {
    hide Process; hide FlatCtx; hide Owed; hide HandleReply; hide HandleTimeout; hide Waiting; hide Rounds;
    hide Failing;
    var front := Front(inputs);
    if InContext(c, front) {
      n := |front|;
      assert inputs[..n] == front && inputs[..n + 1] == inputs;
      if Final(inputs).Reply? { MovesPast(r, c, t, inputs, devs); } else { GivesUp(r, c, t, inputs, devs); }
    } else {
      n := LeftAt(r, c, t, front, devs);
      assert front[..n] == inputs[..n] && front[..n + 1] == inputs[..n + 1];
    }
  }

  // ---------- what is executed ----------

  /** The commands `done` were executed from some command behind the context on. */
  ghost predicate Behind(done: seq<Command>, t: seq<Command>, devs: nat) {
    exists x: Req, u: seq<Command> :: Suffix(u, t) && done == Process(x, u, devs).done
  }

  /** In every history, whatever its replies and timeouts, nothing is executed while the request is in the
      context, and afterwards only commands behind it: no earlier command is executed again. */
  lemma {:induction false} NothingAgain(r: Req, c: Ctx, t: seq<Command>, inputs: seq<Input>, devs: nat)
    requires Context(c, t) && r.left == -1
    ensures var st := After(r, c, t, inputs, devs);
      (st.Open? ==> st.done == []) && Behind(st.done, t, devs)
  {
    hide Process; hide FlatCtx; hide Owed; hide HandleReply; hide After; hide Waiting; hide Rounds; hide Failing;
    if InContext(c, inputs) {
      WhileInContext(r, c, t, inputs, devs);
      NothingDone(r, devs);
      assert Suffix([], t);
    } else {
      var n := LeftAt(r, c, t, inputs, devs);
      var h := inputs[..n + 1];
      assert Front(h) == inputs[..n];
      if Final(h).Reply? {
        MovesPast(r, c, t, h, devs);
        assert Suffix(t, t);
      } else {
        GivesUp(r, c, t, h, devs);
        GaveUpBehind(Waiting(r, c, t, inputs[..n]), t, devs);
      }
    }
  }

  lemma {:induction false} NothingDone(r: Req, devs: nat)
    ensures Process(r, [], devs).done == []
  {
  }

  lemma {:induction false} GaveUpBehind(w: Req, t: seq<Command>, devs: nat)
    ensures Behind(Failing(w, t, devs).done, t, devs)
  {
    hide Process; hide Skip;
    NothingDone(w, devs);
    assert Suffix([], t);
    if w.onFailSkip > 0 { SkipSuffix(t, w.onFailSkip - 1); }
  }

  // ---------- how often a destination is sent to ----------

  /** The number of packets to `addr`. */
  function SentTo(ps: seq<Packet>, addr: seq<byte>): nat {
    if ps == [] then 0 else (if ps[0].to == addr then 1 else 0) + SentTo(ps[1..], addr)
  }

  function SentInAll(rounds: seq<seq<Packet>>, addr: seq<byte>): nat {
    if rounds == [] then 0 else SentInAll(rounds[..|rounds| - 1], addr) + SentTo(rounds[|rounds| - 1], addr)
  }

  lemma {:induction false} SentToAppend(ps: seq<Packet>, qs: seq<Packet>, addr: seq<byte>)
    ensures SentTo(ps + qs, addr) == SentTo(ps, addr) + SentTo(qs, addr)
  {
    if ps == [] {
      assert ps + qs == qs;
    } else {
      SentToAppend(ps[1..], qs, addr);
      assert (ps + qs)[1..] == ps[1..] + qs;
    }
  }

  lemma {:induction false} DistinctNext(c: Ctx, branched: bool)
    requires GoodCtx(c, branched) && |Dests(c)| > 1 && (|c.dests| > 1 || c.More?)
    requires SizedDests(Dests(c)) && DistinctAddrs(Dests(c))
    ensures GoodCtx(NextCtx(c), branched) && SizedDests(Dests(NextCtx(c))) && DistinctAddrs(Dests(NextCtx(c)))
    ensures c.dests[0] == Dests(c)[0] && IndexOf(Dests(NextCtx(c)), Addr(c.dests[0])) == -1
  {
    var ds, es := Dests(c), Dests(NextCtx(c));
    GoodDests(NextCtx(c), branched);
    forall k, l | 0 <= k < l < |es| ensures Addr(es[k]) != Addr(es[l]) {
      assert es[k] == ds[k + 1] && es[l] == ds[l + 1];
    }
    forall k | 0 <= k < |es| ensures Addr(es[k]) != Addr(ds[0]) {
      assert es[k] == ds[k + 1];
    }
  }

  /** A round sends one packet to each destination whose bit is clear, and none to any other address. */
  lemma {:induction false} OwedTo(c: Ctx, branched: bool, i: nat, mask: set<nat>, addr: seq<byte>)
    requires GoodCtx(c, branched) && SizedDests(Dests(c)) && DistinctAddrs(Dests(c))
    ensures var j := IndexOf(Dests(c), addr);
      SentTo(Owed(c, branched, i, mask), addr) == if j == -1 || i + j in mask then 0 else 1
    decreases |Dests(c)|
  {
    hide DistinctAddrs; hide SentTo; hide GoodCtx; hide Dests; hide Owed; hide NextCtx; hide IndexOf;
    OwedStep(c, branched, i, mask);
    IndexStep(Dests(c), addr);
    var head := if i in mask then [] else [Branch(c)];
    SentToHead(head, addr);
    if |Dests(c)| > 1 {
      DistinctNext(c, branched);
      OwedTo(NextCtx(c), branched, i + 1, mask, addr);
      SentToAppend(head, Owed(NextCtx(c), branched, i + 1, mask), addr);
    }
  }

  lemma {:induction false} IndexStep(ds: seq<seq<byte>>, addr: seq<byte>)
    requires ds != [] && SizedDests(ds)
    ensures var j := IndexOf(ds[1..], addr);
      IndexOf(ds, addr) == if Addr(ds[0]) == addr then 0 else if j == -1 then -1 else j + 1
    ensures IndexOf([], addr) == -1 && (|ds| == 1 ==> ds[1..] == [])
  {
  }

  lemma {:induction false} SentToHead(ps: seq<Packet>, addr: seq<byte>)
    requires |ps| <= 1
    ensures SentTo(ps, addr) == if ps != [] && ps[0].to == addr then 1 else 0
  {
  }

  lemma {:induction false} SentInOneMore(rounds: seq<seq<Packet>>, round: seq<Packet>, addr: seq<byte>)
    ensures SentInAll(rounds + [round], addr) == SentInAll(rounds, addr) + SentTo(round, addr)
  {
    assert (rounds + [round])[..|rounds|] == rounds;
  }

  lemma {:induction false} RoundsBounded(c: Ctx, t: seq<Command>, inputs: seq<Input>, addr: seq<byte>)
    requires Context(c, t) && SizedDests(Dests(c)) && InContext(c, inputs)
    ensures var n := SentInAll(Rounds(c, inputs), addr);
      if IndexOf(Dests(c), addr) == -1 then n == 0 else 1 <= n <= 1 + Expired(inputs) <= 1 + Retries(c)
    decreases |inputs|
  {
    hide Owed; hide SentInAll; hide SentTo; hide DistinctAddrs;
    if inputs == [] {
      OwedTo(c, BranchedCtx(c), 0, {}, addr);
      SentInOneMore([], Owed(c, BranchedCtx(c), 0, {}), addr);
      assert [] + [Owed(c, BranchedCtx(c), 0, {})] == Rounds(c, inputs);
      assert SentInAll([], addr) == 0 by { SentInNone(addr); }
    } else {
      var before := Front(inputs);
      InContextBefore(c, inputs);
      RoundsBounded(c, t, before, addr);
      if Final(inputs).Expire? {
        OwedTo(c, BranchedCtx(c), 0, Heard(c, before), addr);
        SentInOneMore(Rounds(c, before), Owed(c, BranchedCtx(c), 0, Heard(c, before)), addr);
      } else {
        assert Rounds(c, inputs) == Rounds(c, before);
      }
    }
  }

  /** Bounded retransmission: in every history, a destination of the context is sent to at least once and at
      most retries + 1 times, and no other address ever, whether the request is still in the context, has moved
      past it or has given up. */
  lemma {:induction false} BoundedSends(r: Req, c: Ctx, t: seq<Command>, inputs: seq<Input>, addr: seq<byte>, devs: nat)
    requires Context(c, t) && r.left == -1
    ensures SizedDests(Dests(c))
    ensures var n := SentInAll(After(r, c, t, inputs, devs).rounds, addr);
      if IndexOf(Dests(c), addr) == -1 then n == 0 else 1 <= n <= 1 + Retries(c)
  {
    hide Process; hide Owed; hide SentInAll; hide After; hide Waiting; hide Failing; hide DistinctAddrs;
    if InContext(c, inputs) {
      WhileInContext(r, c, t, inputs, devs);
      RoundsBounded(c, t, inputs, addr);
    } else {
      var n := LeftAt(r, c, t, inputs, devs);
      var h := inputs[..n + 1];
      assert Front(h) == inputs[..n];
      RoundsBounded(c, t, Front(h), addr);
      if Final(h).Reply? {
        MovesPast(r, c, t, h, devs);
        assert Rounds(c, h) == Rounds(c, Front(h));
      } else {
        GivesUp(r, c, t, h, devs);
      }
    }
  }

  lemma {:induction false} SentInNone(addr: seq<byte>)
    ensures SentInAll([], addr) == 0
  {
  }

  /** Every input that is not a duplicate or a stranger's reply brings the pair (retries, replies left) down. */
  lemma {:induction false} InputsDecrease(r: Req, c: Ctx, t: seq<Command>, inputs: seq<Input>)
    requires Context(c, t) && SizedDests(Dests(c)) && inputs != [] && InContext(c, inputs)
    ensures var v, w := Waiting(r, c, t, Front(inputs)), Waiting(r, c, t, inputs);
      && w.left >= 1 && |w.mask| + w.left == NAck(c) && w.retries >= 0
      && (w == v || w.retries < v.retries || (w.retries == v.retries && w.left < v.left))
  {
    InContextBefore(c, inputs);
  }
}
