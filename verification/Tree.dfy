/** Programs as trees, their flat form, and what the walks of src/message.c do on that form. */
module Tree {
  import opened Layout
  import opened Walk

  /** A program: the commands of one node in order, closed by its REPLY. */
  datatype Prog =
    | Done(reply: Command)
    | Do(cmd: Command, rest: Prog)
    | Forward(ctx: Ctx, rest: Prog)

  /** A FORWARD context: one or more branches, each a list of destinations (their fwd_opts_t bytes) and the
      program that all of them receive. */
  datatype Ctx =
    | Last(dests: seq<seq<byte>>, body: Prog)
    | More(dests: seq<seq<byte>>, body: Prog, next: Ctx)

  // ---------- flattening, in front of the commands `t` that follow ----------

  function FlatDests(ds: seq<seq<byte>>, tag: u32, t: seq<Command>): seq<Command> {
    if ds == [] then t
    else [Command(tag, ds[0])] + FlatDests(ds[1..], FORWARD_CONTINUE, t)
  }

  function Flat(p: Prog, t: seq<Command>): seq<Command> {
    match p
    case Done(reply) => [reply] + t
    case Do(cmd, rest) => [cmd] + Flat(rest, t)
    case Forward(ctx, rest) => FlatCtx(ctx, FORWARD_BEGIN, Flat(rest, t))
  }

  /** The first destination is tagged FORWARD_BEGIN, all the others FORWARD_CONTINUE. */
  function FlatCtx(c: Ctx, tag: u32, t: seq<Command>): seq<Command> {
    match c
    case Last(dests, body) => FlatDests(dests, tag, Flat(body, t))
    case More(dests, body, next) => FlatDests(dests, tag, Flat(body, FlatCtx(next, FORWARD_CONTINUE, t)))
  }

  // ---------- well-formed programs ----------

  predicate Simple(c: Command) {
    Sized(c) && (c.ctype == COMPUTE || c.ctype == STORE || c.ctype == LOAD)
  }

  predicate GoodDest(d: seq<byte>, branched: bool) {
    |d| == FWD_OPTS && (d[19] != 0) == branched
  }

  predicate BranchedCtx(c: Ctx) {
    c.dests != [] && |c.dests[0]| == FWD_OPTS && c.dests[0][19] != 0
  }

  predicate Good(p: Prog) {
    match p
    case Done(reply) => Sized(reply) && reply.ctype == REPLY
    case Do(cmd, rest) => Simple(cmd) && Good(rest)
    case Forward(ctx, rest) => GoodCtx(ctx, BranchedCtx(ctx)) && Good(rest)
  }

  /** Every destination carries the context's `branched` flag; without it there is a single branch. */
  predicate GoodCtx(c: Ctx, branched: bool) {
    && c.dests != []
    && (forall i :: 0 <= i < |c.dests| ==> GoodDest(c.dests[i], branched))
    && Good(c.body)
    && (c.More? ==> branched && GoodCtx(c.next, branched))
  }

  predicate IsTag(tag: u32) {
    tag == FORWARD_BEGIN || tag == FORWARD_CONTINUE
  }

  // ---------- shape of flat programs ----------

  /** A flat program starts with one of its own commands, which is neither EOM nor FORWARD_CONTINUE. */
  lemma {:induction false} FlatHead(p: Prog, t: seq<Command>)
    requires Good(p)
    ensures Flat(p, t) != []
    ensures Flat(p, t)[0].ctype
         == match p case Done(r) => REPLY case Do(c, _) => c.ctype case Forward(_, _) => FORWARD_BEGIN
    ensures Flat(p, t)[0].ctype != EOM && Flat(p, t)[0].ctype != FORWARD_CONTINUE
  {
    if p.Forward? { FlatCtxHead(p.ctx, FORWARD_BEGIN, Flat(p.rest, t)); }
  }

  lemma {:induction false} FlatCtxHead(c: Ctx, tag: u32, t: seq<Command>)
    requires c.dests != []
    ensures FlatCtx(c, tag, t) != [] && FlatCtx(c, tag, t)[0] == Command(tag, c.dests[0])
  {
  }

  function Length(p: Prog): nat {
    match p
    case Done(_) => 1
    case Do(_, rest) => 1 + Length(rest)
    case Forward(ctx, rest) => LengthCtx(ctx) + Length(rest)
  }

  function LengthCtx(c: Ctx): nat {
    |c.dests| + Length(c.body) + if c.Last? then 0 else LengthCtx(c.next)
  }

  /** Well-sized commands, none of them an EOM. */
  predicate Proper(s: seq<Command>) {
    forall i :: 0 <= i < |s| ==> Sized(s[i]) && s[i].ctype != EOM
  }

  lemma {:induction false} FlatDestsProper(ds: seq<seq<byte>>, tag: u32, t: seq<Command>)
    requires IsTag(tag) && Proper(t) && forall i :: 0 <= i < |ds| ==> |ds[i]| == FWD_OPTS
    ensures Proper(FlatDests(ds, tag, t))
  {
    if ds != [] { FlatDestsProper(ds[1..], FORWARD_CONTINUE, t); }
  }

  lemma {:induction false} FlatProper(p: Prog, t: seq<Command>)
    requires Good(p) && Proper(t)
    ensures Proper(Flat(p, t))
    decreases p
  {
    match p
    case Done(_) =>
    case Do(_, rest) => FlatProper(rest, t);
    case Forward(ctx, rest) =>
      FlatProper(rest, t);
      FlatCtxProper(ctx, FORWARD_BEGIN, BranchedCtx(ctx), Flat(rest, t));
  }

  lemma {:induction false} FlatCtxProper(c: Ctx, tag: u32, branched: bool, t: seq<Command>)
    requires GoodCtx(c, branched) && IsTag(tag) && Proper(t)
    ensures Proper(FlatCtx(c, tag, t))
    decreases c
  {
    forall i | 0 <= i < |c.dests| ensures |c.dests[i]| == FWD_OPTS {
      assert GoodDest(c.dests[i], branched);
    }
    hide Proper; hide Flat; hide FlatDests; hide GoodDest;
    var u := if c.Last? then t else FlatCtx(c.next, FORWARD_CONTINUE, t);
    if c.More? { FlatCtxProper(c.next, FORWARD_CONTINUE, branched, t); }
    FlatProper(c.body, u);
    FlatDestsProper(c.dests, tag, Flat(c.body, u));
  }

  /** A program written into a message, closed by its EOM, is read back as it is, whatever bytes follow. */
  lemma {:induction false} ProgramReadsBack(p: Prog, buf: seq<byte>, pos: nat, end: nat)
    requires Good(p) && end <= |buf|
    requires var n := EncodedSize(Flat(p, [EomCommand]));
      pos + n <= end && buf[pos..pos + n] == Encode(Flat(p, [EomCommand]))
    ensures Decode(buf, pos, end) == Flat(p, [EomCommand])
  {
    hide Encode; hide Decode; hide Flat; hide EncodedSize;
    FlatProper(p, []);
    FlatAppend(p, [], [EomCommand]);
    assert [] + [EomCommand] == [EomCommand];
    DecodeEncode(buf, pos, end, Flat(p, [EomCommand]));
  }

  // ---------- context skip ----------

  /** Where the inner loop of cmd_bounded_skip goes on from `t` at depth `d`. */
  function Onward(t: seq<Command>, d: int): seq<Command>
    requires t != []
  {
    if t[0].ctype != EOM && d > 0 then SkipOne(t, d) else t
  }

  lemma {:induction false} SkipDests(ds: seq<seq<byte>>, t: seq<Command>, d: int)
    requires d > 0 && t != [] && t[0].ctype != EOM
    ensures FlatDests(ds, FORWARD_CONTINUE, t) != []
    ensures FlatDests(ds, FORWARD_CONTINUE, t)[0].ctype != EOM
    ensures SkipOne(FlatDests(ds, FORWARD_CONTINUE, t), d) == SkipOne(t, d)
  {
    if ds != [] { SkipDests(ds[1..], t, d); }
  }

  /** Inside a context, walking over a whole branch body keeps or closes one level, as what follows says. */
  lemma {:induction false} SkipProg(p: Prog, t: seq<Command>, d: int)
    requires Good(p) && d > 0 && t != []
    ensures Flat(p, t) != []
    ensures SkipOne(Flat(p, t), d) == Onward(t, if t[0].ctype == FORWARD_CONTINUE then d else d - 1)
    decreases p
  {
    match p
    case Done(_) =>
    case Do(_, rest) =>
      FlatHead(rest, t);
      SkipProg(rest, t, d);
    case Forward(ctx, rest) =>
      FlatHead(rest, t);
      SkipCtx(ctx, FORWARD_BEGIN, BranchedCtx(ctx), Flat(rest, t), d);
      SkipProg(rest, t, d);
  }

  lemma {:induction false} SkipCtx(c: Ctx, tag: u32, branched: bool, t: seq<Command>, d: int)
    requires GoodCtx(c, branched) && t != [] && t[0].ctype != FORWARD_CONTINUE
    requires (tag == FORWARD_BEGIN && d >= 0) || (tag == FORWARD_CONTINUE && d > 0)
    ensures FlatCtx(c, tag, t) != []
    ensures SkipOne(FlatCtx(c, tag, t), d) == Onward(t, if tag == FORWARD_BEGIN then d else d - 1)
    decreases c
  {
    var inner := if tag == FORWARD_BEGIN then d + 1 else d;
    var after := if c.Last? then t else FlatCtx(c.next, FORWARD_CONTINUE, t);
    if c.More? {
      SkipCtx(c.next, FORWARD_CONTINUE, branched, t, inner);
      FlatCtxHead(c.next, FORWARD_CONTINUE, t);
    }
    SkipProg(c.body, after, inner);
    FlatHead(c.body, after);
    SkipDests(c.dests[1..], Flat(c.body, after), inner);
    assert FlatCtx(c, tag, t) == [Command(tag, c.dests[0])]
                                 + FlatDests(c.dests[1..], FORWARD_CONTINUE, Flat(c.body, after));
  }

  function Items(p: Prog): nat {
    if p.Done? then 0 else 1 + Items(p.rest)
  }

  function DropItems(p: Prog, n: nat): (r: Prog)
    requires n <= Items(p)
    ensures Good(p) ==> Good(r)
  {
    if n == 0 then p else DropItems(p.rest, n - 1)
  }

  /** One step of cmd_bounded_skip from an item lands on the next sibling, whatever contexts lie between. */
  lemma {:induction false} SkipItem(p: Prog, t: seq<Command>)
    requires Good(p) && !p.Done?
    ensures Flat(p, t) != [] && SkipOne(Flat(p, t), 0) == Flat(p.rest, t)
  {
    FlatHead(p.rest, t);
    if p.Forward? { SkipCtx(p.ctx, FORWARD_BEGIN, BranchedCtx(p.ctx), Flat(p.rest, t), 0); }
  }

  /** Context skip: skipping n contexts from an item lands on the n-th following sibling, or on the
      body's closing REPLY when n is the number of items left. */
  lemma {:induction false} SkipSiblings(p: Prog, t: seq<Command>, n: nat)
    requires Good(p) && n <= Items(p)
    ensures Skip(Flat(p, t), n) == Flat(DropItems(p, n), t)
  {
    FlatHead(p, t);
    if n > 0 {
      SkipItem(p, t);
      SkipSiblings(p.rest, t, n - 1);
    }
  }

  /** Skipping more contexts than a message has items left runs over its REPLY: to the EOM, and then to NULL. */
  lemma {:induction false} SkipBeyond(p: Prog, n: nat)
    requires Good(p) && n > Items(p)
    ensures Skip(Flat(p, [EomCommand]), n) == if n == Items(p) + 1 then [EomCommand] else []
  {
    FlatHead(p, [EomCommand]);
    if !p.Done? {
      SkipItem(p, [EomCommand]);
      SkipBeyond(p.rest, n - 1);
    }
  }

  // ---------- forward enumeration ----------

  function Dests(c: Ctx): seq<seq<byte>> {
    c.dests + if c.Last? then [] else Dests(c.next)
  }

  /** The context without its first destination. */
  function NextCtx(c: Ctx): (r: Ctx)
    requires c.dests != [] && (|c.dests| > 1 || c.More?)
    ensures Dests(r) == Dests(c)[1..]
  {
    if |c.dests| > 1 then c.(dests := c.dests[1..]) else c.next
  }

  /** The context from its i-th destination on; its first branch is the program destination i receives. */
  function DropDests(c: Ctx, branched: bool, i: nat): (r: Ctx)
    requires GoodCtx(c, branched) && i < |Dests(c)|
    ensures GoodCtx(r, branched) && Dests(r) == Dests(c)[i..]
    decreases i
  {
    if i == 0 then c else DropDests(NextCtx(c), branched, i - 1)
  }

  /** The search for the next FORWARD walks over a whole body, nested contexts included. */
  lemma {:induction false} ToForwardOverBody(p: Prog, t: seq<Command>, branched: bool)
    requires Good(p) && (t != [] && t[0].ctype == FORWARD_CONTINUE ==> branched)
    ensures ToForward(Flat(p, t), branched)
         == if t != [] && t[0].ctype == FORWARD_CONTINUE then t else []
    decreases p
  {
    FlatHead(p, t);
    if !p.Done? {
      SkipItem(p, t);
      FlatHead(p.rest, t);
      ToForwardOverBody(p.rest, t, branched);
    }
  }

  /** Forward enumeration: from a destination the walk goes to the next destination of the same context,
      and from the last one to NULL, never into a nested or a later context. */
  lemma {:induction false} NextDest(c: Ctx, tag: u32, branched: bool, t: seq<Command>)
    requires GoodCtx(c, branched) && IsTag(tag)
    requires t == [] || t[0].ctype != FORWARD_CONTINUE
    ensures var s := FlatCtx(c, tag, t);
      && s != [] && IsForward(s[0]) && Sized(s[0]) && s[0].opts == Dests(c)[0]
      && NextForward(s) == if |Dests(c)| > 1 then FlatCtx(NextCtx(c), FORWARD_CONTINUE, t) else []
  {
    assert GoodDest(c.dests[0], branched);
    var after := if c.Last? then t else FlatCtx(c.next, FORWARD_CONTINUE, t);
    var ds := c.dests[1..];
    assert FlatCtx(c, tag, t)[1..] == FlatDests(ds, FORWARD_CONTINUE, Flat(c.body, after));
    if ds == [] {
      if c.More? { FlatCtxHead(c.next, FORWARD_CONTINUE, t); }
      ToForwardOverBody(c.body, after, branched);
    } else {
      assert FlatCtx(NextCtx(c), FORWARD_CONTINUE, t) == FlatDests(ds, FORWARD_CONTINUE, Flat(c.body, after));
    }
  }

  // ---------- branch extraction ----------

  lemma {:induction false} ToReplyOfProg(p: Prog, t: seq<Command>)
    requires Good(p)
    ensures |ToReply(Flat(p, t))| == 1 + |t|
    decreases p
  {
    FlatHead(p, t);
    if !p.Done? {
      SkipItem(p, t);
      ToReplyOfProg(p.rest, t);
    }
  }

  lemma {:induction false} BranchBodyOf(ds: seq<seq<byte>>, t: seq<Command>)
    requires t != [] && t[0].ctype != FORWARD_CONTINUE
    ensures BranchBody(FlatDests(ds, FORWARD_CONTINUE, t)) == t
  {
    if ds != [] { BranchBodyOf(ds[1..], t); }
  }

  /** The flat form of a program does not depend on what follows it. */
  lemma {:induction false} FlatAppend(p: Prog, t: seq<Command>, u: seq<Command>)
    ensures Flat(p, t + u) == Flat(p, t) + u
    decreases p
  {
    match p
    case Done(_) =>
    case Do(_, rest) => FlatAppend(rest, t, u);
    case Forward(ctx, rest) =>
      FlatAppend(rest, t, u);
      FlatCtxAppend(ctx, FORWARD_BEGIN, Flat(rest, t), u);
  }

  lemma {:induction false} FlatCtxAppend(c: Ctx, tag: u32, t: seq<Command>, u: seq<Command>)
    ensures FlatCtx(c, tag, t + u) == FlatCtx(c, tag, t) + u
    decreases c
  {
    var t1 := if c.Last? then t else FlatCtx(c.next, FORWARD_CONTINUE, t);
    if c.More? { FlatCtxAppend(c.next, FORWARD_CONTINUE, t, u); }
    FlatAppend(c.body, t1, u);
    FlatDestsAppend(c.dests, tag, Flat(c.body, t1), u);
  }

  lemma {:induction false} FlatDestsAppend(ds: seq<seq<byte>>, tag: u32, t: seq<Command>, u: seq<Command>)
    ensures FlatDests(ds, tag, t + u) == FlatDests(ds, tag, t) + u
  {
    if ds != [] { FlatDestsAppend(ds[1..], FORWARD_CONTINUE, t, u); }
  }

  /** The copy that message_copy_tail makes of a program is that program, whatever follows it. */
  lemma {:induction false} TailOfProg(p: Prog, t: seq<Command>)
    requires Good(p)
    ensures TailCommands(Flat(p, t)) == Flat(p, [])
    ensures ClosedTail(Flat(p, t)) == Flat(p, [EomCommand])
  {
    FlatAppend(p, [], t);
    FlatAppend(p, [], [EomCommand]);
    assert [] + t == t && [] + [EomCommand] == [EomCommand];
    ToReplyOfProg(p, t);
    FlatProper(p, []);
    FlatHead(p, []);
  }

  /** Branch extraction: from a destination of a context, stepping over the other destinations of its
      branch and copying the tail yields exactly that branch's program, whatever is nested inside it. */
  lemma {:induction false} BranchTail(c: Ctx, tag: u32, branched: bool, t: seq<Command>)
    requires GoodCtx(c, branched) && IsTag(tag)
    ensures FlatCtx(c, tag, t) != []
    ensures TailCommands(BranchBody(FlatCtx(c, tag, t)[1..])) == Flat(c.body, [])
    ensures ClosedTail(BranchBody(FlatCtx(c, tag, t)[1..])) == Flat(c.body, [EomCommand])
  {
    var after := if c.Last? then t else FlatCtx(c.next, FORWARD_CONTINUE, t);
    assert FlatCtx(c, tag, t)[1..] == FlatDests(c.dests[1..], FORWARD_CONTINUE, Flat(c.body, after));
    FlatHead(c.body, after);
    BranchBodyOf(c.dests[1..], Flat(c.body, after));
    TailOfProg(c.body, after);
  }

  // ---------- destination ids ----------

  function Addr(d: seq<byte>): seq<byte>
    requires |d| == FWD_OPTS
  {
    d[4..10]
  }

  predicate SizedDests(ds: seq<seq<byte>>) {
    forall i :: 0 <= i < |ds| ==> |ds[i]| == FWD_OPTS
  }

  predicate DistinctAddrs(ds: seq<seq<byte>>)
    requires SizedDests(ds)
  {
    forall i, j :: 0 <= i < j < |ds| ==> Addr(ds[i]) != Addr(ds[j])
  }

  lemma {:induction false} GoodDests(c: Ctx, branched: bool)
    requires GoodCtx(c, branched)
    ensures Dests(c) != [] && SizedDests(Dests(c))
  {
    assert forall i :: 0 <= i < |c.dests| ==> GoodDest(c.dests[i], branched);
    if c.More? { GoodDests(c.next, branched); }
  }

  /** The position of the first destination with address `addr`, or -1. */
  function IndexOf(ds: seq<seq<byte>>, addr: seq<byte>): (i: int)
    requires SizedDests(ds)
    ensures -1 <= i < |ds|
    ensures i == -1 ==> forall j :: 0 <= j < |ds| ==> Addr(ds[j]) != addr
    ensures i >= 0 ==> Addr(ds[i]) == addr && forall j :: 0 <= j < i ==> Addr(ds[j]) != addr
  {
    if ds == [] then -1 else if Addr(ds[0]) == addr then 0
    else var i := IndexOf(ds[1..], addr); if i == -1 then -1 else i + 1
  }

  /** find_forward_reply_id, started on a context, is the index of the address among its destinations. */
  lemma {:induction false} FindIsIndex(c: Ctx, tag: u32, branched: bool, t: seq<Command>, addr: seq<byte>)
    requires GoodCtx(c, branched) && IsTag(tag)
    requires t == [] || t[0].ctype != FORWARD_CONTINUE
    ensures var s := FlatCtx(c, tag, t);
      && s != [] && IsForward(s[0]) && SizedDests(Dests(c))
      && FindReplyId(s, addr) == IndexOf(Dests(c), addr)
    decreases |Dests(c)|
  {
    GoodDests(c, branched);
    NextDest(c, tag, branched, t);
    if |Dests(c)| > 1 {
      FindIsIndex(NextCtx(c), FORWARD_CONTINUE, branched, t, addr);
    }
  }

  /** So it is a bijection between the addresses of a context, when they are distinct, and 0..k-1. */
  lemma {:induction false} ReplyIdBijection(c: Ctx, t: seq<Command>, addr: seq<byte>)
    requires GoodCtx(c, BranchedCtx(c)) && SizedDests(Dests(c)) && DistinctAddrs(Dests(c))
    requires t == [] || t[0].ctype != FORWARD_CONTINUE
    ensures var s := FlatCtx(c, FORWARD_BEGIN, t);
      && s != [] && IsForward(s[0])
      && (forall i :: 0 <= i < |Dests(c)| ==> (FindReplyId(s, addr) == i <==> Addr(Dests(c)[i]) == addr))
      && (FindReplyId(s, addr) == -1 <==> forall i :: 0 <= i < |Dests(c)| ==> Addr(Dests(c)[i]) != addr)
      && FindReplyId(s, addr) < |Dests(c)|
  {
    FindIsIndex(c, FORWARD_BEGIN, BranchedCtx(c), t, addr);
  }

  // ---------- the flat form determines the tree ----------

  /** The nesting recovered by counting is the only one: two programs with the same flat form, whatever
      follows each, are the same program followed by the same commands. */
  lemma {:induction false} FlatInjective(p: Prog, t: seq<Command>, q: Prog, u: seq<Command>)
    requires Good(p) && Good(q) && Flat(p, t) == Flat(q, u)
    ensures p == q && t == u
    decreases p
  {
    FlatHead(p, t);
    FlatHead(q, u);
    match p
    case Done(_) =>
      assert Flat(p, t)[1..] == t && Flat(q, u)[1..] == u;
    case Do(_, rest) =>
      assert Flat(p, t)[1..] == Flat(rest, t) && Flat(q, u)[1..] == Flat(q.rest, u);
      FlatInjective(rest, t, q.rest, u);
    case Forward(ctx, rest) =>
      FlatHead(rest, t);
      FlatHead(q.rest, u);
      FlatCtxInjective(ctx, BranchedCtx(ctx), Flat(rest, t), q.ctx, BranchedCtx(q.ctx), Flat(q.rest, u), FORWARD_BEGIN);
      FlatInjective(rest, t, q.rest, u);
  }

  lemma {:induction false} FlatCtxInjective(c: Ctx, bc: bool, t: seq<Command>, d: Ctx, bd: bool, u: seq<Command>,
                                            tag: u32)
    requires GoodCtx(c, bc) && GoodCtx(d, bd) && FlatCtx(c, tag, t) == FlatCtx(d, tag, u)
    requires t != [] && u != [] && t[0].ctype != FORWARD_CONTINUE && u[0].ctype != FORWARD_CONTINUE
    ensures c == d && t == u
    decreases c
  {
    var t1 := if c.Last? then t else FlatCtx(c.next, FORWARD_CONTINUE, t);
    var u1 := if d.Last? then u else FlatCtx(d.next, FORWARD_CONTINUE, u);
    if c.More? { FlatCtxHead(c.next, FORWARD_CONTINUE, t); }
    if d.More? { FlatCtxHead(d.next, FORWARD_CONTINUE, u); }
    FlatHead(c.body, t1);
    FlatHead(d.body, u1);
    FlatDestsInjective(c.dests, Flat(c.body, t1), d.dests, Flat(d.body, u1), tag);
    FlatInjective(c.body, t1, d.body, u1);
    if c.More? && d.More? {
      FlatCtxInjective(c.next, bc, t, d.next, bd, u, FORWARD_CONTINUE);
    }
  }

  lemma {:induction false} FlatDestsInjective(ds: seq<seq<byte>>, t: seq<Command>, es: seq<seq<byte>>,
                                              u: seq<Command>, tag: u32)
    requires ds != [] && es != [] && FlatDests(ds, tag, t) == FlatDests(es, tag, u)
    requires t != [] && u != [] && t[0].ctype != FORWARD_CONTINUE && u[0].ctype != FORWARD_CONTINUE
    ensures ds == es && t == u
  {
    var ds1, es1 := FlatDests(ds[1..], FORWARD_CONTINUE, t), FlatDests(es[1..], FORWARD_CONTINUE, u);
    assert FlatDests(ds, tag, t)[0] == Command(tag, ds[0]) && FlatDests(es, tag, u)[0] == Command(tag, es[0]);
    assert FlatDests(ds, tag, t)[1..] == ds1 && FlatDests(es, tag, u)[1..] == es1;
    if ds[1..] != [] && es[1..] != [] {
      FlatDestsInjective(ds[1..], t, es[1..], u, FORWARD_CONTINUE);
    }
    assert ds == [ds[0]] + ds[1..] && es == [es[0]] + es[1..];
  }
}
