/** Request templates (src/ccmd.c): a list of nodes that ccmd_dump turns into a message, drawing the sizes and
    times from distributions and dropping the items that a taken PSKIP skips. */
module Template {
  import opened Layout
  import opened Walk
  import opened Message

  /** A template node with what is drawn for it in one dump: two samples and, for a PSKIP, a random number. */
  datatype TNode = TNode(ctype: u32, opts: seq<byte>, val: u64, val2: u64, nSkip: int, nEvery: int, prob: real, x: real)

  predicate Plain(n: TNode) {
    && |n.opts| + COMMAND_HEADER == CmdTypeSize(n.ctype)
    && (n.ctype == COMPUTE || n.ctype == STORE || n.ctype == LOAD || n.ctype == FORWARD_BEGIN
        || n.ctype == FORWARD_CONTINUE || n.ctype == REPLY)
  }

  predicate GoodNode(n: TNode) {
    if n.ctype == PSKIP then n.nEvery >= 1 else Plain(n)
  }

  predicate GoodNodes(ns: seq<TNode>) {
    forall i :: 0 <= i < |ns| ==> GoodNode(ns[i])
  }

  predicate Taken(n: TNode, reqId: nat)
    requires n.nEvery >= 1
  {
    reqId % n.nEvery == 0 && n.x <= n.prob
  }

  /** The command written for a node: its options with the sampled fields filled in. */
  function Sampled(n: TNode): (c: Command)
    requires Plain(n)
    ensures Sized(c) && c.ctype == n.ctype
  {
    var low: u32 := n.val % 0x1_0000_0000;
    Command(n.ctype,
            if n.ctype == STORE || n.ctype == LOAD then Put64(n.val2) + Put64(n.val) + n.opts[16..]
            else if n.ctype == COMPUTE then Put32(low)
            else Put32(low) + n.opts[4..])
  }

  /** The command `c` carries what was drawn for node `n`: STORE and LOAD their offset and number of bytes, the others
      a 32-bit size or time; every other option byte is the template's. */
  predicate FieldsOf(c: Command, n: TNode) {
    && c.ctype == n.ctype && |c.opts| == |n.opts|
    && (c.ctype == STORE || c.ctype == LOAD ==>
          |c.opts| >= 16 && Get64(c.opts, 0) == n.val2 && Get64(c.opts, 8) == n.val && c.opts[16..] == n.opts[16..])
    && (c.ctype != STORE && c.ctype != LOAD ==>
          |c.opts| >= 4 && Get32(c.opts, 0) == n.val % 0x1_0000_0000 && c.opts[4..] == n.opts[4..])
  }

  lemma {:induction false} SampledFields(n: TNode)
    requires Plain(n)
    ensures FieldsOf(Sampled(n), n)
  {
    hide Put32; hide Get32; hide Put64; hide Get64;
    var o := Sampled(n).opts;
    if n.ctype == STORE || n.ctype == LOAD {
      assert o[0..8] == Put64(n.val2) && o[8..16] == Put64(n.val) && o[16..] == n.opts[16..];
      GetPut64(o, 0, n.val2);
      GetPut64(o, 8, n.val);
    } else {
      assert o[0..4] == Put32(n.val % 0x1_0000_0000) && o[4..] == n.opts[4..];
      GetPut(o, 0, n.val % 0x1_0000_0000);
    }
  }

  /** What `every` and `prob` mean: with a certain skip, exactly the requests whose id is a multiple of n skip; with
      probability 0 only a draw of exactly 0 does. */
  lemma {:induction false} TakenMeans(n: TNode, reqId: nat)
    requires n.nEvery >= 1 && 0.0 <= n.x < 1.0
    ensures n.prob >= 1.0 ==> (Taken(n, reqId) <==> exists k: nat :: reqId == Times(k, n.nEvery))
    ensures n.prob == 0.0 ==> (Taken(n, reqId) <==> n.x == 0.0 && exists k: nat :: reqId == Times(k, n.nEvery))
  {
    if reqId % n.nEvery == 0 {
      assert reqId == Times(reqId / n.nEvery, n.nEvery);
    }
    forall k: nat | reqId == Times(k, n.nEvery) ensures reqId % n.nEvery == 0 {
      MultipleOf(k, n.nEvery);
    }
  }

  function Times(k: nat, n: int): int {
    k * n
  }

  lemma {:induction false} MultipleOf(k: nat, n: int)
    requires n >= 1
    ensures Times(k, n) % n == 0
  {
    var a := Times(k, n);
    var q, r := a / n, a % n;
    assert a == Times(q, n) + r && 0 <= r < n;
    if q < k { TimesMore(q, k, n); }
  }

  lemma {:induction false} TimesMore(k: nat, l: nat, n: int)
    requires n >= 1 && k < l
    ensures Times(l, n) >= Times(k, n) + n
  {
    assert Times(l, n) - Times(k, n) == (l - k) * n;
    assert (l - k - 1) * n >= 0;
  }

  // ---------- ccmd_skip ----------

  /** `Reached`: the node list from the cursor on ([] is NULL) with `left` skips not done.
      `Unmatched`: a REPLY outside any forward was met, and NULL is returned. */
  datatype SkipResult = Reached(rest: seq<TNode>, left: int) | Unmatched

  function TNest(depth: int, s: seq<TNode>): int
    requires s != []
  {
    if s[0].ctype == FORWARD_BEGIN then depth + 1
    else if s[0].ctype == REPLY && |s| > 1 && s[1].ctype != FORWARD_CONTINUE then depth - 1
    else depth
  }

  function TSkipOne(s: seq<TNode>, depth: int, left: int): (r: SkipResult)
    requires s != []
    ensures r.Reached? ==> |r.rest| < |s| && r.left == left
  {
    if s[0].ctype == REPLY && depth <= 0 then Unmatched
    else
      var d := TNest(depth, s);
      if |s| > 1 && d > 0 then TSkipOne(s[1..], d, left) else Reached(s[1..], left)
  }

  function CcmdSkip(s: seq<TNode>, n: int): (r: SkipResult)
    ensures r.Reached? ==> |r.rest| <= |s|
    decreases |s|
  {
    if s == [] || n <= 0 then Reached(s, n)
    else
      var r := TSkipOne(s, 0, n - 1);
      if r.Unmatched? then Unmatched else CcmdSkip(r.rest, n - 1)
  }

  /** The loops of ccmd_skip, over indices into the template; |ns| is NULL. */
  method Skip(ns: seq<TNode>, start: nat, toSkip: int) returns (itr: nat)
    requires start <= |ns|
    ensures start <= itr <= |ns|
    ensures var r := CcmdSkip(ns[start..], toSkip); ns[itr..] == if r.Unmatched? then [] else r.rest
  {
    itr := start;
    var left := toSkip;
    while itr < |ns| && left > 0
      invariant start <= itr <= |ns|
      invariant CcmdSkip(ns[itr..], left) == CcmdSkip(ns[start..], toSkip)
    {
      var nested, first := 0, true;
      ghost var from := ns[itr..];
      while first || (itr < |ns| && nested > 0)
        invariant start <= itr <= |ns| && (first ==> itr < |ns| && nested == 0 && from == ns[itr..])
        invariant !first ==> |ns[itr..]| < |from|
        invariant !first ==> (TSkipOne(from, 0, left - 1)
                              == if itr < |ns| && nested > 0 then TSkipOne(ns[itr..], nested, left - 1)
                                 else Reached(ns[itr..], left - 1))
        decreases |ns| - itr
      {
        if ns[itr].ctype == FORWARD_BEGIN {
          nested := nested + 1;
        } else if ns[itr].ctype == REPLY {
          if nested > 0 {
            if itr + 1 < |ns| && ns[itr + 1].ctype != FORWARD_CONTINUE { nested := nested - 1; }
          } else {
            return |ns|;
          }
        }
        assert ns[itr..][1..] == ns[itr + 1..];
        itr, first := itr + 1, false;
      }
      left := left - 1;
    }
  }

  // ---------- compilation of a template ----------

  /** The commands that ccmd_dump writes: a taken PSKIP drops what it skips, and a skip that meets an unmatched
      REPLY drops all the rest. */
  function Compile(ns: seq<TNode>, reqId: nat): seq<Command>
    requires GoodNodes(ns)
    decreases |ns|
  {
    if ns == [] then []
    else if ns[0].ctype != PSKIP then [Sampled(ns[0])] + Compile(ns[1..], reqId)
    else if !Taken(ns[0], reqId) then Compile(ns[1..], reqId)
    else
      var r := CcmdSkip(ns[1..], ns[0].nSkip);
      if r.Unmatched? then [] else SkipGood(ns[1..], ns[0].nSkip); Compile(r.rest, reqId)
  }

  lemma {:induction false} SkipOneGood(s: seq<TNode>, depth: int, left: int)
    requires s != [] && GoodNodes(s) && TSkipOne(s, depth, left).Reached?
    ensures GoodNodes(TSkipOne(s, depth, left).rest)
  {
    if |s| > 1 && TNest(depth, s) > 0 { SkipOneGood(s[1..], TNest(depth, s), left); }
  }

  lemma {:induction false} SkipGood(s: seq<TNode>, n: int)
    requires GoodNodes(s) && CcmdSkip(s, n).Reached?
    ensures GoodNodes(CcmdSkip(s, n).rest)
    decreases |s|
  {
    if s != [] && n > 0 {
      SkipOneGood(s, 0, n - 1);
      SkipGood(TSkipOne(s, 0, n - 1).rest, n - 1);
    }
  }

  /** The nodes that a dump comes to, in order: every PSKIP it meets, but not what a taken one skips. */
  function Visits(ns: seq<TNode>, reqId: nat): (v: seq<TNode>)
    requires GoodNodes(ns)
    ensures GoodNodes(v)
    decreases |ns|
  {
    if ns == [] then []
    else if ns[0].ctype != PSKIP || !Taken(ns[0], reqId) then [ns[0]] + Visits(ns[1..], reqId)
    else
      var r := CcmdSkip(ns[1..], ns[0].nSkip);
      if r.Unmatched? then [ns[0]] else SkipGood(ns[1..], ns[0].nSkip); [ns[0]] + Visits(r.rest, reqId)
  }

  /** The nodes of `v` that are written. */
  function Writing(v: seq<TNode>): seq<TNode> {
    if v == [] then [] else (if v[0].ctype == PSKIP then [] else [v[0]]) + Writing(v[1..])
  }

  /** Field by field: the k-th command of the message carries what was drawn for the k-th node that the dump comes to
      and that is not a PSKIP. */
  lemma {:induction false} CompiledFields(ns: seq<TNode>, reqId: nat)
    requires GoodNodes(ns)
    ensures var cs, v := Compile(ns, reqId), Writing(Visits(ns, reqId));
      |cs| == |v| && forall k :: 0 <= k < |cs| ==> FieldsOf(cs[k], v[k])
    decreases |ns|
  {
    hide Sampled; hide FieldsOf;
    if ns != [] {
      var v := Visits(ns, reqId);
      if ns[0].ctype != PSKIP {
        SampledFields(ns[0]);
        CompiledFields(ns[1..], reqId);
        assert v[1..] == Visits(ns[1..], reqId);
      } else if !Taken(ns[0], reqId) {
        CompiledFields(ns[1..], reqId);
        assert v[1..] == Visits(ns[1..], reqId);
      } else if CcmdSkip(ns[1..], ns[0].nSkip).Reached? {
        var rest := CcmdSkip(ns[1..], ns[0].nSkip).rest;
        SkipGood(ns[1..], ns[0].nSkip);
        CompiledFields(rest, reqId);
        assert v[1..] == Visits(rest, reqId);
      } else {
        assert v[1..] == [];
      }
    }
  }

  // ---------- the two skips ----------

  predicate AllPlain(ns: seq<TNode>) {
    forall i :: 0 <= i < |ns| ==> Plain(ns[i])
  }

  /** The message of a template without PSKIP. */
  function Dumped(ns: seq<TNode>): (s: seq<Command>)
    requires AllPlain(ns)
    ensures |s| == |ns| + 1 && s[|ns|] == EomCommand
    ensures forall i :: 0 <= i < |ns| ==> s[i] == Sampled(ns[i])
  {
    if ns == [] then [EomCommand] else [Sampled(ns[0])] + Dumped(ns[1..])
  }

  lemma {:induction false} DumpedNext(ns: seq<TNode>)
    requires AllPlain(ns) && ns != []
    ensures AllPlain(ns[1..]) && Dumped(ns)[1..] == Dumped(ns[1..])
    ensures Dumped(ns)[0].ctype == ns[0].ctype != EOM && (|ns| > 1 ==> Dumped(ns)[1].ctype == ns[1].ctype != EOM)
    ensures |ns| == 1 ==> Dumped(ns)[1].ctype == EOM
  {
    hide Sampled;
    forall i | 0 <= i < |ns| ensures Dumped(ns)[i].ctype == ns[i].ctype != EOM {
      assert Plain(ns[i]);
    }
  }

  lemma {:induction false} TwoSkipsOne(ns: seq<TNode>, depth: int, left: int)
    requires AllPlain(ns) && ns != [] && TSkipOne(ns, depth, left).Reached? && depth >= 0
    ensures var r := TSkipOne(ns, depth, left).rest;
      AllPlain(r) && SkipOne(Dumped(ns), depth) == Dumped(r)
  {
    hide AllPlain; hide Sampled; hide Dumped;
    var s := Dumped(ns);
    DumpedNext(ns);
    if |ns| > 1 && TNest(depth, ns) > 0 {
      TwoSkipsOne(ns[1..], TNest(depth, ns), left);
    }
  }

  lemma {:induction false} DumpedHead(ns: seq<TNode>)
    requires AllPlain(ns)
    ensures Dumped(ns) != [] && (ns != [] ==> Dumped(ns)[0].ctype == ns[0].ctype != EOM)
    ensures ns == [] ==> Dumped(ns) == [EomCommand]
  {
    if ns != [] { assert Plain(ns[0]); }
  }

  /** The two skips agree: on a template without PSKIP and on its message, skipping n contexts reaches
      corresponding positions, the end of the template standing for the EOM; and when the template runs out
      before n contexts are skipped, the skip in the message gives NULL. This holds for every n for which
      ccmd_skip does not meet an unmatched REPLY. */
  lemma {:induction false} TwoSkipsAgree(ns: seq<TNode>, n: nat)
    requires AllPlain(ns) && CcmdSkip(ns, n).Reached?
    ensures var r := CcmdSkip(ns, n);
      && AllPlain(r.rest) && r.left >= 0
      && Walk.Skip(Dumped(ns), n) == if r.left == 0 then Dumped(r.rest) else []
    decreases |ns|
  {
    hide Dumped; hide AllPlain; hide SkipOne; hide TSkipOne;
    DumpedHead(ns);
    if ns != [] && n > 0 {
      TwoSkipsOne(ns, 0, n - 1);
      TwoSkipsAgree(TSkipOne(ns, 0, n - 1).rest, n - 1);
    }
  }

  // ---------- ccmd_dump ----------

  const MIN_SEND_SIZE: nat := MESSAGE_HEADER + 2 * COMMAND_HEADER
  const MAX_COMMAND: nat := 28

  /** The bytes of every node of the template, PSKIP included. */
  function TemplateSize(ns: seq<TNode>): nat {
    if ns == [] then 0 else CmdTypeSize(ns[0].ctype) + TemplateSize(ns[1..])
  }

  lemma {:induction false} TemplateSizeFrom(ns: seq<TNode>, i: nat)
    requires i < |ns|
    ensures TemplateSize(ns[i..]) == CmdTypeSize(ns[i].ctype) + TemplateSize(ns[i + 1..])
  {
    assert ns[i..][1..] == ns[i + 1..];
  }

  lemma {:induction false} TemplateSizeLess(ns: seq<TNode>, i: nat, j: nat)
    requires i <= j <= |ns|
    ensures TemplateSize(ns[j..]) <= TemplateSize(ns[i..])
    decreases j - i
  {
    if i < j {
      TemplateSizeFrom(ns, i);
      TemplateSizeLess(ns, i + 1, j);
    }
  }

  lemma {:induction false} VisitStep(ns: seq<TNode>, i: nat, reqId: nat)
    requires GoodNodes(ns) && i < |ns|
    ensures GoodNodes(ns[i..]) && GoodNodes(ns[i + 1..])
    ensures ns[i].ctype != PSKIP || !Taken(ns[i], reqId)
            ==> Visits(ns[i..], reqId) == [ns[i]] + Visits(ns[i + 1..], reqId)
    ensures ns[i].ctype == PSKIP && Taken(ns[i], reqId) ==>
      var r := CcmdSkip(ns[i + 1..], ns[i].nSkip);
      if r.Unmatched? then Visits(ns[i..], reqId) == [ns[i]]
      else GoodNodes(r.rest) && Visits(ns[i..], reqId) == [ns[i]] + Visits(r.rest, reqId)
  {
    assert ns[i..][1..] == ns[i + 1..];
    if ns[i].ctype == PSKIP && Taken(ns[i], reqId) && CcmdSkip(ns[i + 1..], ns[i].nSkip).Reached? {
      SkipGood(ns[i + 1..], ns[i].nSkip);
    }
  }

  lemma {:induction false} CompileStep(ns: seq<TNode>, i: nat, reqId: nat)
    requires GoodNodes(ns) && i < |ns|
    ensures GoodNodes(ns[i..]) && GoodNodes(ns[i + 1..])
    ensures ns[i].ctype != PSKIP ==> Compile(ns[i..], reqId) == [Sampled(ns[i])] + Compile(ns[i + 1..], reqId)
    ensures ns[i].ctype == PSKIP && !Taken(ns[i], reqId) ==> Compile(ns[i..], reqId) == Compile(ns[i + 1..], reqId)
    ensures ns[i].ctype == PSKIP && Taken(ns[i], reqId) ==>
      var r := CcmdSkip(ns[i + 1..], ns[i].nSkip);
      if r.Unmatched? then Compile(ns[i..], reqId) == []
      else GoodNodes(r.rest) && Compile(ns[i..], reqId) == Compile(r.rest, reqId)
  {
    assert ns[i..][1..] == ns[i + 1..];
    if ns[i].ctype == PSKIP && Taken(ns[i], reqId) && CcmdSkip(ns[i + 1..], ns[i].nSkip).Reached? {
      SkipGood(ns[i + 1..], ns[i].nSkip);
    }
  }

  /** What is written so far: the commands `done` fill the message from its header to `cur`. */
  ghost predicate Written(b: seq<byte>, cur: nat, done: seq<Command>) {
    && MESSAGE_HEADER <= cur <= |b| && AllSized(done)
    && (forall i :: 0 <= i < |done| ==> done[i].ctype != EOM)
    && b[MESSAGE_HEADER..cur] == Encode(done)
  }

  lemma {:induction false} WriteMore(b: seq<byte>, cur: nat, done: seq<Command>, c: Command)
    requires Written(b, cur, done) && Sized(c) && c.ctype != EOM && cur + CmdTypeSize(c.ctype) <= |b|
    ensures |EncodeCmd(c)| == CmdTypeSize(c.ctype)
    ensures Written(Patch(b, cur, EncodeCmd(c)), cur + CmdTypeSize(c.ctype), done + [c])
  {
    hide Patch; hide EncodedSize;
    assert |EncodeCmd(c)| == CmdTypeSize(c.ctype);
    var b' := Patch(b, cur, EncodeCmd(c));
    hide EncodeCmd;
    PatchKeeps(b, cur, EncodeCmd(c), MESSAGE_HEADER, cur);
    JoinSlices(b', MESSAGE_HEADER, cur - MESSAGE_HEADER, CmdTypeSize(c.ctype));
    EncodeAppend(done, [c]);
    assert Encode([c]) == EncodeCmd(c) + Encode([]) == EncodeCmd(c);
  }

  /** Writing at `cur` or beyond leaves what is written. */
  lemma {:induction false} WriteBeyond(b: seq<byte>, cur: nat, done: seq<Command>, bytes: seq<byte>)
    requires Written(b, cur, done) && cur + |bytes| <= |b|
    ensures Written(Patch(b, cur, bytes), cur, done)
  {
    hide Patch;
    PatchKeeps(b, cur, bytes, MESSAGE_HEADER, cur);
  }

  lemma {:induction false} WriteEnd(b: seq<byte>, cur: nat, done: seq<Command>, size: nat)
    requires Written(b, cur, done) && cur + CmdTypeSize(EOM) <= size <= |b|
    ensures Decode(Patch(b, cur, Put32(EOM)), MESSAGE_HEADER, size) == done + [EomCommand]
  {
    hide Patch; hide Decode; hide Get32; hide EncodedSize; hide Put32;
    var b' := Patch(b, cur, Put32(EOM));
    PatchKeeps(b, cur, Put32(EOM), MESSAGE_HEADER, cur);
    JoinSlices(b', MESSAGE_HEADER, cur - MESSAGE_HEADER, 4);
    ClosedEncoding(done);
    EncodeLength(done);
    DecodeEncode(b', MESSAGE_HEADER, size, done + [EomCommand]);
  }

  /** The bytes the dump may still need, with room for whatever stale command type lies behind. */
  ghost predicate Room(ns: seq<TNode>, itr: nat, cur: nat, avail: nat, size: nat)
    requires itr <= |ns|
  {
    cur + TemplateSize(ns[itr..]) + MAX_COMMAND <= size && TemplateSize(ns[itr..]) + COMMAND_HEADER <= avail
  }

  /** The PSKIP case of ccmd_dump. */
  method PassSkip(ns: seq<TNode>, itr: nat, reqId: nat) returns (next: nat)
    requires GoodNodes(ns) && itr < |ns| && ns[itr].ctype == PSKIP
    ensures itr < next <= |ns| && GoodNodes(ns[itr..]) && GoodNodes(ns[next..])
    ensures Compile(ns[itr..], reqId) == Compile(ns[next..], reqId)
    ensures Visits(ns[itr..], reqId) == [ns[itr]] + Visits(ns[next..], reqId)
  {
    CompileStep(ns, itr, reqId);
    VisitStep(ns, itr, reqId);
    if Taken(ns[itr], reqId) {
      next := Skip(ns, itr + 1, ns[itr].nSkip);
    } else {
      next := itr + 1;
    }
  }

  /** How far into the buffer a dump that visits the nodes `v` writes, from offset `cur` with `avail` bytes taken
      to be left: the message itself, or the end of a command that does not fit in it. `b` is the buffer before
      the dump: cmd_bounded_next looks at the command type that happens to lie behind the command written. */
  function Footprint(v: seq<TNode>, b: seq<byte>, cur: nat, avail: nat, size: nat): (n: nat)
    requires size <= |b|
    ensures n >= size
  {
    if v == [] || avail < CmdTypeSize(v[0].ctype) then size
    else
      var left := avail - CmdTypeSize(v[0].ctype);
      var next := cur + CmdTypeSize(v[0].ctype);
      if v[0].ctype == PSKIP then Footprint(v[1..], b, cur, left, size)
      else if next > size then next
      else if !InBounds(b, next, size) then size
      else Footprint(v[1..], b, next, left, size)
  }

  /** The commands written when a dump gives up because one of them does not fit. */
  ghost predicate Strayed(b: seq<byte>, n: nat, cs: seq<Command>) {
    exists k :: 0 < k <= |cs| && Written(b, n, cs[..k])
  }

  /** The type of a node is written before it is known whether the node fits. */
  method WriteType(t: u32, m: array<byte>, cur: nat, ghost done: seq<Command>, ghost b: seq<byte>)
    requires Written(m[..], cur, done) && SameBut(m[..], b, cur + COMMAND_HEADER)
    modifies m
    ensures Written(m[..], cur, done) && SameBut(m[..], b, cur + COMMAND_HEADER)
  {
    hide Put32; hide Patch; hide Encode;
    WriteBeyond(m[..], cur, done, Put32(t));
    WriteSame(m[..], b, cur, Put32(t));
    Write(m, cur, Put32(t));
  }

  /** The command of a node, with its sampled options. */
  method WriteCommand(n: TNode, m: array<byte>, cur: nat, ghost done: seq<Command>, ghost b: seq<byte>)
    requires Plain(n) && cur + CmdTypeSize(n.ctype) <= m.Length
    requires Written(m[..], cur, done) && SameBut(m[..], b, cur + COMMAND_HEADER)
    modifies m
    ensures Written(m[..], cur + CmdTypeSize(n.ctype), done + [Sampled(n)])
    ensures SameBut(m[..], b, cur + CmdTypeSize(n.ctype))
  {
    hide Sampled; hide EncodeCmd; hide Patch; hide Encode;
    WriteMore(m[..], cur, done, Sampled(n));
    WriteSame(m[..], b, cur, EncodeCmd(Sampled(n)));
    Write(m, cur, EncodeCmd(Sampled(n)));
  }

  /** ccmd_dump, into message `m`, whose req_size says how long it may become. The memory has to hold what is
      written, which can be more than that size: the check of the space left does not count the header. */
  method CcmdDump(ns: seq<TNode>, m: array<byte>, reqId: nat) returns (ok: bool)
    requires GoodNodes(ns) && m.Length >= MESSAGE_HEADER
    requires MIN_SEND_SIZE <= Get32(m[..], REQ_SIZE_AT) <= m.Length
    requires var size := Get32(m[..], REQ_SIZE_AT);
      Footprint(Visits(ns, reqId), m[..], MESSAGE_HEADER, size, size) <= m.Length
    modifies m
    ensures var size := old(Get32(m[..], REQ_SIZE_AT));
      var n := Footprint(Visits(ns, reqId), old(m[..]), MESSAGE_HEADER, size, size);
      && (ok ==> n == size && Decode(m[..], MESSAGE_HEADER, size) == Compile(ns, reqId) + [EomCommand])
      && (MESSAGE_HEADER + TemplateSize(ns) + MAX_COMMAND <= size ==> ok)
      && SameBut(m[..], old(m[..]), n)
      && (n > size ==> Strayed(m[..], n, Compile(ns, reqId)))
  {
    hide Get32; hide Patch; hide Decode; hide Written; hide EncodeCmd; hide Put32; hide Compile; hide Sampled;
    hide Room; hide Footprint; hide Visits; hide CmdTypeSize; hide InBounds; hide SameBut;
    hide Strayed;
    ghost var b := m[..];
    var size := Get32(m[..], REQ_SIZE_AT);
    var itr, cur, avail: nat := 0, MESSAGE_HEADER, size;
    ghost var done: seq<Command> := [];
    ghost var roomy := MESSAGE_HEADER + TemplateSize(ns) + MAX_COMMAND <= size;
    ghost var top := Footprint(Visits(ns, reqId), b, MESSAGE_HEADER, size, size);
    StartDump(m[..], ns, size);
    while itr < |ns|
      invariant itr <= |ns| && MESSAGE_HEADER <= cur <= size - COMMAND_HEADER
      invariant Written(m[..], cur, done) && SameBut(m[..], b, cur + COMMAND_HEADER)
      invariant GoodNodes(ns[itr..]) && Compile(ns, reqId) == done + Compile(ns[itr..], reqId)
      invariant top == Footprint(Visits(ns[itr..], reqId), b, cur, avail, size)
      invariant roomy ==> Room(ns, itr, cur, avail, size)
      decreases |ns| - itr
    {
      var n := ns[itr];
      RoomStep(ns, itr, cur, avail, size);
      FootStep(ns, itr, reqId, b, cur, avail, size);
      WriteType(n.ctype, m, cur, done, b);
      SameSize(m[..], b, cur + COMMAND_HEADER, size);
      if avail < CmdTypeSize(n.ctype) { return false; }
      avail := avail - CmdTypeSize(n.ctype);
      if n.ctype == PSKIP {
        var next := PassSkip(ns, itr, reqId);
        RoomSkip(ns, itr, next, cur, avail, size);
        FootSkip(n, Visits(ns[next..], reqId), b, cur, avail, size);
        itr := next;
        continue;
      }
      CompileStep(ns, itr, reqId);
      ghost var c, rest := Sampled(n), Compile(ns[itr + 1..], reqId);
      WriteCommand(n, m, cur, done, b);
      Commit(m[..], cur + CmdTypeSize(n.ctype), done, c, rest);
      done := done + [c];
      cur := cur + CmdTypeSize(n.ctype);
      SameBounds(m[..], b, cur, size);
      if !InBounds(m[..], cur, size) { return false; }
      itr := itr + 1;
    }
    FootNone(ns[itr..], reqId, b, cur, avail, size);
    assert CmdTypeSize(EOM) == COMMAND_HEADER by { EomSize(); }
    SameSize(m[..], b, cur + COMMAND_HEADER, size);
    if avail < CmdTypeSize(EOM) {
      assert !roomy by { NoRoom(ns, itr, cur, avail, size); }
      return false;
    }
    WriteEnd(m[..], cur, done, size);
    WriteSame(m[..], b, cur, Put32(EOM));
    Write(m, cur, Put32(EOM));
    SameSize(m[..], b, cur + COMMAND_HEADER, size);
    assert Compile(ns, reqId) == done by { CompileNone(ns[itr..], reqId); }
    ok := true;
  }

  /** `x` is `b` but for the bytes between the header and offset `hi`. */
  ghost predicate SameBut(x: seq<byte>, b: seq<byte>, hi: nat) {
    |x| == |b| && MESSAGE_HEADER <= hi <= |b| && x[..MESSAGE_HEADER] == b[..MESSAGE_HEADER] && x[hi..] == b[hi..]
  }

  lemma {:induction false} WriteSame(x: seq<byte>, b: seq<byte>, cur: nat, bytes: seq<byte>)
    requires SameBut(x, b, cur + COMMAND_HEADER) && MESSAGE_HEADER <= cur
    requires |bytes| >= COMMAND_HEADER && cur + |bytes| <= |x|
    ensures SameBut(Patch(x, cur, bytes), b, cur + |bytes|)
  {
    hide Patch;
    PatchKeeps(x, cur, bytes, 0, MESSAGE_HEADER);
    PatchKeeps(x, cur, bytes, cur + |bytes|, |x|);
    var k := |bytes| - COMMAND_HEADER;
    assert x[cur + |bytes|..] == x[cur + COMMAND_HEADER..][k..] && b[cur + |bytes|..] == b[cur + COMMAND_HEADER..][k..];
    var y := Patch(x, cur, bytes);
    assert y[..MESSAGE_HEADER] == y[0..MESSAGE_HEADER] && x[..MESSAGE_HEADER] == x[0..MESSAGE_HEADER];
    assert y[cur + |bytes|..] == y[cur + |bytes|..|y|] && x[cur + |bytes|..] == x[cur + |bytes|..|x|];
  }

  /** The type that lies behind what was written is that of the buffer before. */
  lemma {:induction false} SameBounds(x: seq<byte>, b: seq<byte>, cur: nat, size: nat)
    requires SameBut(x, b, cur) && size <= |b|
    ensures InBounds(x, cur, size) == InBounds(b, cur, size)
    ensures cur + COMMAND_HEADER <= size ==> SameBut(x, b, cur + COMMAND_HEADER)
    ensures size >= cur ==> SameBut(x, b, size)
    ensures InBounds(x, cur, size) ==> cur + COMMAND_HEADER <= size
  {
    hide CmdTypeSize;
    if cur + COMMAND_HEADER <= size {
      assert forall i :: 0 <= i < 4 ==> x[cur + i] == x[cur..][i] && b[cur + i] == b[cur..][i];
      assert x[cur + 4..] == x[cur..][4..] && b[cur + 4..] == b[cur..][4..];
    }
    if size >= cur { SameSize(x, b, cur, size); }
  }

  lemma {:induction false} FootStep(ns: seq<TNode>, i: nat, reqId: nat, b: seq<byte>, cur: nat, avail: nat, size: nat)
    requires GoodNodes(ns) && i < |ns| && size <= |b|
    ensures GoodNodes(ns[i..]) && GoodNodes(ns[i + 1..])
    ensures var n, foot := CmdTypeSize(ns[i].ctype), Footprint(Visits(ns[i..], reqId), b, cur, avail, size);
      && (avail < n ==> foot == size)
      && (avail >= n && ns[i].ctype != PSKIP ==>
            foot == if cur + n > size then cur + n else if !InBounds(b, cur + n, size) then size
                       else Footprint(Visits(ns[i + 1..], reqId), b, cur + n, avail - n, size))
  {
    hide CmdTypeSize; hide InBounds;
    VisitStep(ns, i, reqId);
    if ns[i].ctype != PSKIP { assert Visits(ns[i..], reqId)[1..] == Visits(ns[i + 1..], reqId); }
  }

  lemma {:induction false} FootNone(ns: seq<TNode>, reqId: nat, b: seq<byte>, cur: nat, avail: nat, size: nat)
    requires ns == [] && size <= |b|
    ensures GoodNodes(ns) && Footprint(Visits(ns, reqId), b, cur, avail, size) == size
  {
  }

  lemma {:induction false} SameSize(x: seq<byte>, b: seq<byte>, hi: nat, size: nat)
    requires SameBut(x, b, hi) && hi <= size <= |b|
    ensures SameBut(x, b, size)
  {
    assert x[size..] == x[hi..][size - hi..] && b[size..] == b[hi..][size - hi..];
  }

  lemma {:induction false} FootSkip(n: TNode, v: seq<TNode>, b: seq<byte>, cur: nat, left: nat, size: nat)
    requires n.ctype == PSKIP && size <= |b|
    ensures Footprint([n] + v, b, cur, left + CmdTypeSize(PSKIP), size) == Footprint(v, b, cur, left, size)
  {
    assert ([n] + v)[1..] == v;
  }

  lemma {:induction false} Commit(x: seq<byte>, n: nat, done: seq<Command>, c: Command, rest: seq<Command>)
    requires Written(x, n, done + [c])
    ensures done + ([c] + rest) == (done + [c]) + rest && Strayed(x, n, done + ([c] + rest))
  {
    hide Written;
    var cs := done + ([c] + rest);
    assert cs[..|done| + 1] == done + [c];
  }

  lemma {:induction false} CompileNone(ns: seq<TNode>, reqId: nat)
    requires ns == []
    ensures GoodNodes(ns) && Compile(ns, reqId) == []
  {
  }

  lemma {:induction false} EomSize()
    ensures CmdTypeSize(EOM) == COMMAND_HEADER
  {
  }

  lemma {:induction false} NoRoom(ns: seq<TNode>, itr: nat, cur: nat, avail: nat, size: nat)
    requires itr <= |ns| && avail < CmdTypeSize(EOM)
    ensures !Room(ns, itr, cur, avail, size)
  {
  }

  lemma {:induction false} StartDump(b: seq<byte>, ns: seq<TNode>, size: nat)
    requires |b| >= MESSAGE_HEADER + COMMAND_HEADER
    ensures Written(b, MESSAGE_HEADER, []) && ns[0..] == ns && SameBut(b, b, MESSAGE_HEADER + COMMAND_HEADER)
    ensures MESSAGE_HEADER + TemplateSize(ns) + MAX_COMMAND <= size ==> Room(ns, 0, MESSAGE_HEADER, size, size)
  {
  }

  lemma {:induction false} RoomStep(ns: seq<TNode>, itr: nat, cur: nat, avail: nat, size: nat)
    requires itr < |ns|
    ensures var t := CmdTypeSize(ns[itr].ctype);
      Room(ns, itr, cur, avail, size) ==>
        && t <= avail && Room(ns, itr + 1, cur, avail - t, size) && Room(ns, itr + 1, cur + t, avail - t, size)
        && forall x: seq<byte> :: size <= |x| ==> InBounds(x, cur + t, size)
  {
    TemplateSizeFrom(ns, itr);
  }

  lemma {:induction false} RoomSkip(ns: seq<TNode>, itr: nat, next: nat, cur: nat, avail: nat, size: nat)
    requires itr < next <= |ns|
    ensures Room(ns, itr + 1, cur, avail, size) ==> Room(ns, next, cur, avail, size)
  {
    TemplateSizeLess(ns, itr + 1, next);
  }

  // ---------- when a dump writes beyond its message ----------

  /** The bytes of the commands written for the nodes `v`. */
  function Emitted(v: seq<TNode>): nat {
    if v == [] then 0 else (if v[0].ctype == PSKIP then 0 else CmdTypeSize(v[0].ctype)) + Emitted(v[1..])
  }

  /** Where the command of the j-th node ends. */
  function Ends(v: seq<TNode>, cur: nat, j: nat): nat
    requires j < |v|
  {
    cur + Emitted(v[..j + 1])
  }

  /** The dump gets past the j-th node: the type that lies in the buffer behind it is one that would fit. */
  predicate Passes(v: seq<TNode>, b: seq<byte>, cur: nat, size: nat, j: nat)
    requires j < |v| && size <= |b|
  {
    v[j].ctype != PSKIP ==> InBounds(b, Ends(v, cur, j), size)
  }

  /** The i-th node visited is written across the end of the message: its command does not fit behind those
      before it, but all nodes up to it, PSKIP included, would fit in `avail` bytes, and the dump gets there. */
  ghost predicate StraysAt(v: seq<TNode>, b: seq<byte>, cur: nat, avail: nat, size: nat, i: nat)
    requires size <= |b|
  {
    && i < |v| && v[i].ctype != PSKIP
    && Ends(v, cur, i) > size && TemplateSize(v[..i + 1]) <= avail
    && forall j :: 0 <= j < i ==> Passes(v, b, cur, size, j)
  }

  lemma {:induction false} FirstNode(v: seq<TNode>, cur: nat, k: nat)
    requires k < |v|
    ensures Ends(v, cur, 0) == cur + if v[0].ctype == PSKIP then 0 else CmdTypeSize(v[0].ctype)
    ensures k > 0 ==> Ends(v, cur, k) == Ends(v[1..], Ends(v, cur, 0), k - 1)
    ensures TemplateSize(v[..k + 1]) == CmdTypeSize(v[0].ctype) + TemplateSize(v[1..][..k])
  {
    hide CmdTypeSize;
    assert v[..k + 1][1..] == v[1..][..k] && v[..1][1..] == [] && Emitted([]) == 0;
    assert Emitted(v[..1]) == if v[0].ctype == PSKIP then 0 else CmdTypeSize(v[0].ctype);
    assert k > 0 ==> v[1..][..(k - 1) + 1] == v[1..][..k];
  }

  lemma {:induction false} StraysLater(v: seq<TNode>, b: seq<byte>, cur: nat, avail: nat, size: nat, i: nat)
    requires size <= |b| && v != [] && CmdTypeSize(v[0].ctype) <= avail
    ensures StraysAt(v, b, cur, avail, size, i + 1)
      <==> Passes(v, b, cur, size, 0)
           && StraysAt(v[1..], b, Ends(v, cur, 0), avail - CmdTypeSize(v[0].ctype), size, i)
  {
    hide CmdTypeSize; hide InBounds; hide Ends; hide TemplateSize;
    var next, w := Ends(v, cur, 0), v[1..];
    if i + 1 < |v| {
      FirstNode(v, cur, i + 1);
      forall j | 0 <= j < i ensures Passes(w, b, next, size, j) == Passes(v, b, cur, size, j + 1) {
        FirstNode(v, cur, j + 1);
      }
      hide Passes;
      if Passes(v, b, cur, size, 0) && StraysAt(w, b, next, avail - CmdTypeSize(v[0].ctype), size, i) {
        forall j | 0 <= j < i + 1 ensures Passes(v, b, cur, size, j) {
          if j > 0 { assert Passes(w, b, next, size, j - 1); }
        }
      }
    }
  }

  /** The node that strays, when the dump writes beyond its message. */
  lemma {:induction false} StrayIndex(v: seq<TNode>, b: seq<byte>, cur: nat, avail: nat, size: nat) returns (i: nat)
    requires size <= |b| && Footprint(v, b, cur, avail, size) > size
    ensures StraysAt(v, b, cur, avail, size, i) && Footprint(v, b, cur, avail, size) == Ends(v, cur, i)
    decreases |v|
  {
    hide CmdTypeSize; hide InBounds; hide Ends; hide TemplateSize;
    FirstNode(v, cur, 0);
    StraysNow(v, b, cur, avail, size);
    if v[0].ctype != PSKIP && Ends(v, cur, 0) > size {
      i := 0;
    } else {
      var left := avail - CmdTypeSize(v[0].ctype);
      var k := StrayIndex(v[1..], b, Ends(v, cur, 0), left, size);
      StraysLater(v, b, cur, avail, size, k);
      i := k + 1;
      FirstNode(v, cur, i);
    }
  }

  lemma {:induction false} StrayWrites(v: seq<TNode>, b: seq<byte>, cur: nat, avail: nat, size: nat, i: nat)
    requires size <= |b| && StraysAt(v, b, cur, avail, size, i)
    ensures Footprint(v, b, cur, avail, size) == Ends(v, cur, i)
    decreases |v|
  {
    hide CmdTypeSize; hide InBounds; hide Ends; hide TemplateSize;
    FirstNode(v, cur, i);
    StraysNow(v, b, cur, avail, size);
    if i > 0 {
      StraysLater(v, b, cur, avail, size, i - 1);
      StrayWrites(v[1..], b, Ends(v, cur, 0), avail - CmdTypeSize(v[0].ctype), size, i - 1);
      StrayFits(v, b, cur, size);
    }
  }

  lemma {:induction false} StrayFits(v: seq<TNode>, b: seq<byte>, cur: nat, size: nat)
    requires v != [] && size <= |b| && Passes(v, b, cur, size, 0)
    ensures v[0].ctype != PSKIP ==> Ends(v, cur, 0) <= size
  {
  }

  /** Whether the first node strays, and what it takes for any. */
  lemma {:induction false} StraysNow(v: seq<TNode>, b: seq<byte>, cur: nat, avail: nat, size: nat)
    requires size <= |b| && v != []
    ensures var n := CmdTypeSize(v[0].ctype);
      && (StraysAt(v, b, cur, avail, size, 0) <==> v[0].ctype != PSKIP && cur + n > size && n <= avail)
      && (forall i :: StraysAt(v, b, cur, avail, size, i) ==> n <= avail)
  {
    hide CmdTypeSize; hide InBounds; hide Ends; hide TemplateSize;
    FirstNode(v, cur, 0);
    assert v[1..][..0] == [] && TemplateSize([]) == 0 by { NoNodes(); }
    forall i | StraysAt(v, b, cur, avail, size, i) ensures CmdTypeSize(v[0].ctype) <= avail { FirstNode(v, cur, i); }
  }

  lemma {:induction false} NoNodes()
    ensures TemplateSize([]) == 0
  {
  }

  /** A dump of a message of `size` bytes writes beyond it exactly when some node strays: one that fits in the
      size announced but not behind the header and the commands before it. */
  lemma {:induction false} StraysExactly(ns: seq<TNode>, reqId: nat, b: seq<byte>, size: nat)
    requires GoodNodes(ns) && size <= |b|
    ensures var v := Visits(ns, reqId);
      Footprint(v, b, MESSAGE_HEADER, size, size) > size
      <==> exists i :: StraysAt(v, b, MESSAGE_HEADER, size, size, i)
  {
    hide Footprint; hide StraysAt; hide Visits;
    var v := Visits(ns, reqId);
    if Footprint(v, b, MESSAGE_HEADER, size, size) > size {
      var i := StrayIndex(v, b, MESSAGE_HEADER, size, size);
    }
    forall i | StraysAt(v, b, MESSAGE_HEADER, size, size, i)
      ensures Footprint(v, b, MESSAGE_HEADER, size, size) > size
    {
      StrayWrites(v, b, MESSAGE_HEADER, size, size, i);
      StrayEnd(v, b, MESSAGE_HEADER, size, size, i);
    }
  }

  lemma {:induction false} StrayEnd(v: seq<TNode>, b: seq<byte>, cur: nat, avail: nat, size: nat, i: nat)
    requires size <= |b| && StraysAt(v, b, cur, avail, size, i)
    ensures i < |v| && size < Ends(v, cur, i) <= cur + avail
  {
    hide CmdTypeSize;
    EmittedSize(v[..i + 1]);
  }

  /** What is written is no more than the whole template. */
  lemma {:induction false} EmittedSize(v: seq<TNode>)
    ensures Emitted(v) <= TemplateSize(v)
  {
    if v != [] { EmittedSize(v[1..]); }
  }

  /** A dump that writes beyond its message: a template of one REPLY, for a message of the least size sent. */
  method DumpBeyond() returns (m: array<byte>, ok: bool)
    ensures fresh(m) && m.Length == 28 && !ok && Get32(m[..], REQ_SIZE_AT) == MIN_SEND_SIZE == 20 && m[20] == 1
  {
    hide Get32; hide Put32; hide Patch; hide Encode; hide Visits; hide Compile; hide Sampled; hide Decode;
    hide Footprint; hide SameBut; hide Strayed;
    var opts := [0, 0, 0, 0, 1, 0, 0, 0, 0, 0, 0, 0];
    var ns := [TNode(REPLY, opts, 0, 0, 0, 1, 0.0, 0.0)];
    m := new byte[28](_ => 0);
    Write(m, REQ_SIZE_AT, Put32(20));
    GetPut(m[..], REQ_SIZE_AT, 20);
    ghost var b := m[..];
    OneReplyVisited(ns, b);
    ok := CcmdDump(ns, m, 0);
    OneReplyStrayed(ns, b, m[..]);
  }

  lemma {:induction false} OneReplyVisited(ns: seq<TNode>, b: seq<byte>)
    requires |ns| == 1 && Plain(ns[0]) && ns[0].ctype == REPLY && |b| == 28
    ensures GoodNodes(ns) && Visits(ns, 0) == ns && Footprint(ns, b, MESSAGE_HEADER, 20, 20) == 28
    ensures Compile(ns, 0) == [Sampled(ns[0])]
  {
    assert ns[1..] == [];
  }

  lemma {:induction false} OneReplyStrayed(ns: seq<TNode>, b: seq<byte>, x: seq<byte>)
    requires |ns| == 1 && Plain(ns[0]) && ns[0].ctype == REPLY && ns[0].opts[4] == 1 && |b| == 28
    requires Strayed(x, 28, [Sampled(ns[0])]) && SameBut(x, b, 28)
    ensures |x| == 28 && Get32(x, REQ_SIZE_AT) == Get32(b, REQ_SIZE_AT) && x[20] == 1
  {
    var c := Sampled(ns[0]);
    var k :| 0 < k <= 1 && Written(x, 28, [c][..k]);
    assert [c][..1] == [c] && [c][1..] == [];
    EncodeStep([c]);
    assert x[12..28] == EncodeCmd(c);
    assert x[20] == x[12..28][8] == c.opts[4] == ns[0].opts[4];
    assert forall i :: 0 <= i < 12 ==> x[i] == x[..12][i] && b[i] == b[..12][i];
  }
}
