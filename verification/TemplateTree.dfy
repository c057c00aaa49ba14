/** Template trees: ccmd_dump turns a tree-shaped template into a tree-shaped message. */
module TemplateTree {
  import opened Layout
  import opened Tree
  import opened Template

  /** As Tree.Prog, with PSKIP items. */
  datatype TProg =
    | TDone(node: TNode)
    | TDo(node: TNode, rest: TProg)
    | TSkip(node: TNode, rest: TProg)
    | TForward(ctx: TCtx, rest: TProg)

  datatype TCtx =
    | TLast(dests: seq<TNode>, body: TProg)
    | TMore(dests: seq<TNode>, body: TProg, next: TCtx)

  // ---------- flattening, in front of the nodes `t` that follow ----------

  function TFlatDests(ds: seq<TNode>, tag: u32, t: seq<TNode>): seq<TNode> {
    if ds == [] then t else [ds[0].(ctype := tag)] + TFlatDests(ds[1..], FORWARD_CONTINUE, t)
  }

  function TFlat(p: TProg, t: seq<TNode>): seq<TNode> {
    match p
    case TDone(node) => [node] + t
    case TDo(node, rest) => [node] + TFlat(rest, t)
    case TSkip(node, rest) => [node] + TFlat(rest, t)
    case TForward(ctx, rest) => TFlatCtx(ctx, FORWARD_BEGIN, TFlat(rest, t))
  }

  function TFlatCtx(c: TCtx, tag: u32, t: seq<TNode>): seq<TNode> {
    match c
    case TLast(dests, body) => TFlatDests(dests, tag, TFlat(body, t))
    case TMore(dests, body, next) => TFlatDests(dests, tag, TFlat(body, TFlatCtx(next, FORWARD_CONTINUE, t)))
  }

  // ---------- well-formed templates ----------

  function TItems(p: TProg): nat {
    if p.TDone? then 0 else 1 + TItems(p.rest)
  }

  function TLen(p: TProg): nat {
    if p.TDone? then 1 else if p.TForward? then 1 + TLenCtx(p.ctx) + TLen(p.rest) else 1 + TLen(p.rest)
  }

  function TLenCtx(c: TCtx): nat {
    1 + TLen(c.body) + if c.TLast? then 0 else TLenCtx(c.next)
  }

  predicate GoodTDest(n: TNode, branched: bool) {
    |n.opts| == FWD_OPTS && (n.opts[19] != 0) == branched
  }

  predicate IsItem(t: u32) {
    t == COMPUTE || t == STORE || t == LOAD
  }

  predicate TBranched(c: TCtx) {
    c.dests != [] && |c.dests[0].opts| == FWD_OPTS && c.dests[0].opts[19] != 0
  }

  /** The shape of a template; how far its skips reach is not part of it. */
  predicate GoodT(p: TProg) {
    match p
    case TDone(node) => Plain(node) && node.ctype == REPLY
    case TDo(node, rest) => Plain(node) && IsItem(node.ctype) && GoodT(rest)
    case TSkip(node, rest) => node.ctype == PSKIP && node.nEvery >= 1 && GoodT(rest)
    case TForward(ctx, rest) => GoodTCtx(ctx, TBranched(ctx)) && GoodT(rest)
  }

  predicate GoodTCtx(c: TCtx, branched: bool) {
    && c.dests != [] && (forall i :: 0 <= i < |c.dests| ==> GoodTDest(c.dests[i], branched))
    && GoodT(c.body) && (c.TMore? ==> branched && GoodTCtx(c.next, branched))
  }

  // ---------- what a template stands for ----------

  function TDrop(p: TProg, n: nat): (r: TProg)
    requires n <= TItems(p)
    ensures TLen(r) <= TLen(p) && (GoodT(p) ==> GoodT(r))
  {
    if n == 0 then p else TDrop(p.rest, n - 1)
  }

  /** The items that a taken skip drops: not more than its body has left. */
  function Reach(node: TNode, rest: TProg): (n: nat)
    ensures n <= TItems(rest)
  {
    if node.nSkip < 0 then 0 else if node.nSkip > TItems(rest) then TItems(rest) else node.nSkip
  }

  /** No skip that this dump reaches and takes leaves its own body. */
  predicate Stays(p: TProg, reqId: nat)
    requires GoodT(p)
    decreases TLen(p)
  {
    match p
    case TDone(_) => true
    case TDo(_, rest) => Stays(rest, reqId)
    case TSkip(node, rest) =>
      if Taken(node, reqId) then node.nSkip <= TItems(rest) && Stays(TDrop(rest, Reach(node, rest)), reqId)
      else Stays(rest, reqId)
    case TForward(ctx, rest) => StaysCtx(ctx, TBranched(ctx), reqId) && Stays(rest, reqId)
  }

  predicate StaysCtx(c: TCtx, branched: bool, reqId: nat)
    requires GoodTCtx(c, branched)
    decreases TLenCtx(c)
  {
    Stays(c.body, reqId) && (c.TMore? ==> StaysCtx(c.next, branched, reqId))
  }

  function SampledDests(ds: seq<TNode>): (r: seq<seq<byte>>)
    requires forall i :: 0 <= i < |ds| ==> |ds[i].opts| == FWD_OPTS
    ensures |r| == |ds|
    ensures forall i :: 0 <= i < |ds| ==> r[i] == Sampled(ds[i].(ctype := FORWARD_BEGIN)).opts
  {
    if ds == [] then [] else [Sampled(ds[0].(ctype := FORWARD_BEGIN)).opts] + SampledDests(ds[1..])
  }

  /** The program of one dump: each taken PSKIP drops the next n items of its own body, or all of them if there
      are fewer. */
  function Expand(p: TProg, reqId: nat): Prog
    requires GoodT(p)
    decreases TLen(p)
  {
    match p
    case TDone(node) => Done(Sampled(node))
    case TDo(node, rest) => Do(Sampled(node), Expand(rest, reqId))
    case TSkip(node, rest) =>
      if Taken(node, reqId) then Expand(TDrop(rest, Reach(node, rest)), reqId) else Expand(rest, reqId)
    case TForward(ctx, rest) => Forward(ExpandCtx(ctx, TBranched(ctx), reqId), Expand(rest, reqId))
  }

  function ExpandCtx(c: TCtx, branched: bool, reqId: nat): Ctx
    requires GoodTCtx(c, branched)
    decreases TLenCtx(c)
  {
    assert forall i :: 0 <= i < |c.dests| ==> GoodTDest(c.dests[i], branched);
    match c
    case TLast(dests, body) => Last(SampledDests(dests), Expand(body, reqId))
    case TMore(dests, body, next) => More(SampledDests(dests), Expand(body, reqId), ExpandCtx(next, branched, reqId))
  }

  lemma {:induction false} ExpandGood(p: TProg, reqId: nat)
    requires GoodT(p)
    ensures Good(Expand(p, reqId))
    decreases TLen(p)
  {
    match p
    case TDone(node) =>
    case TDo(node, rest) => ExpandGood(rest, reqId);
    case TSkip(node, rest) =>
      if Taken(node, reqId) { ExpandGood(TDrop(rest, Reach(node, rest)), reqId); } else { ExpandGood(rest, reqId); }
    case TForward(ctx, rest) =>
      ExpandCtxGood(ctx, TBranched(ctx), reqId);
      ExpandGood(rest, reqId);
  }

  lemma {:induction false} ExpandCtxGood(c: TCtx, branched: bool, reqId: nat)
    requires GoodTCtx(c, branched)
    ensures GoodCtx(ExpandCtx(c, branched, reqId), branched) && BranchedCtx(ExpandCtx(c, branched, reqId)) == branched
    decreases TLenCtx(c)
  {
    forall i | 0 <= i < |c.dests| ensures GoodDest(SampledDests(c.dests)[i], branched) {
      assert GoodTDest(c.dests[i], branched);
      DestFlag(c.dests[i]);
    }
    ExpandGood(c.body, reqId);
    if c.TMore? { ExpandCtxGood(c.next, branched, reqId); }
  }

  /** Sampling sets the packet size only. */
  lemma {:induction false} DestFlag(n: TNode)
    requires |n.opts| == FWD_OPTS
    ensures var o := Sampled(n.(ctype := FORWARD_BEGIN)).opts;
      |o| == FWD_OPTS && o[4..] == n.opts[4..] && o[19] == n.opts[19]
  {
    var o := Sampled(n.(ctype := FORWARD_BEGIN)).opts;
    assert o[4..] == n.opts[4..];
    assert o[19] == o[4..][15] && n.opts[19] == n.opts[4..][15];
  }

  // ---------- ccmd_skip on template trees ----------

  /** Where the inner loop of ccmd_skip goes on from `t` at depth `d`. */
  function TOnward(t: seq<TNode>, d: int, left: int): SkipResult {
    if t != [] && d > 0 then TSkipOne(t, d, left) else Reached(t, left)
  }

  lemma {:induction false} TFlatHead(p: TProg, t: seq<TNode>)
    requires GoodT(p)
    ensures TFlat(p, t) != [] && TFlat(p, t)[0].ctype != FORWARD_CONTINUE
    ensures !p.TDone? ==> TFlat(p, t)[0].ctype != REPLY
  {
  }

  lemma {:induction false} TSkipDests(ds: seq<TNode>, t: seq<TNode>, d: int, left: int)
    requires d > 0 && t != []
    ensures TFlatDests(ds, FORWARD_CONTINUE, t) != []
    ensures TSkipOne(TFlatDests(ds, FORWARD_CONTINUE, t), d, left) == TSkipOne(t, d, left)
  {
    if ds != [] { TSkipDests(ds[1..], t, d, left); }
  }

  lemma {:induction false} TSkipProg(p: TProg, t: seq<TNode>, d: int, left: int)
    requires GoodT(p) && d > 0
    ensures TFlat(p, t) != []
    ensures TSkipOne(TFlat(p, t), d, left)
         == TOnward(t, if t != [] && t[0].ctype != FORWARD_CONTINUE then d - 1 else d, left)
    decreases p
  {
    if !p.TDone? {
      TFlatHead(p.rest, t);
      TSkipProg(p.rest, t, d, left);
      if p.TForward? { TSkipCtx(p.ctx, FORWARD_BEGIN, TBranched(p.ctx), TFlat(p.rest, t), d, left); }
    }
  }

  lemma {:induction false} TSkipCtx(c: TCtx, tag: u32, branched: bool, t: seq<TNode>, d: int, left: int)
    requires GoodTCtx(c, branched) && t != [] && t[0].ctype != FORWARD_CONTINUE
    requires (tag == FORWARD_BEGIN && d >= 0) || (tag == FORWARD_CONTINUE && d > 0)
    ensures TFlatCtx(c, tag, t) != [] && TFlatCtx(c, tag, t)[0].ctype == tag
    ensures TSkipOne(TFlatCtx(c, tag, t), d, left) == TOnward(t, if tag == FORWARD_BEGIN then d else d - 1, left)
    decreases c
  {
    var inner := if tag == FORWARD_BEGIN then d + 1 else d;
    var after := if c.TLast? then t else TFlatCtx(c.next, FORWARD_CONTINUE, t);
    if c.TMore? { TSkipCtx(c.next, FORWARD_CONTINUE, branched, t, inner, left); }
    TSkipProg(c.body, after, inner, left);
    TSkipDests(c.dests[1..], TFlat(c.body, after), inner, left);
    assert TFlatCtx(c, tag, t) == [c.dests[0].(ctype := tag)]
                                  + TFlatDests(c.dests[1..], FORWARD_CONTINUE, TFlat(c.body, after));
  }

  lemma {:induction false} TSkipItem(p: TProg, t: seq<TNode>, left: int)
    requires GoodT(p) && !p.TDone?
    ensures TFlat(p, t) != [] && TSkipOne(TFlat(p, t), 0, left) == Reached(TFlat(p.rest, t), left)
  {
    TFlatHead(p, t);
    TFlatHead(p.rest, t);
    if p.TForward? { TSkipCtx(p.ctx, FORWARD_BEGIN, TBranched(p.ctx), TFlat(p.rest, t), 0, left); }
  }

  /** ccmd_skip by n from an item lands on the n-th following sibling, PSKIP items counted. */
  lemma {:induction false} TSkipSiblings(p: TProg, t: seq<TNode>, n: nat)
    requires GoodT(p) && n <= TItems(p)
    ensures CcmdSkip(TFlat(p, t), n) == Reached(TFlat(TDrop(p, n), t), 0)
  {
    if n > 0 {
      TSkipItem(p, t, n - 1);
      TSkipSiblings(p.rest, t, n - 1);
    }
  }

  /** A skip by more items than its body has left meets the closing REPLY and gives NULL. */
  lemma {:induction false} TSkipOverrun(p: TProg, t: seq<TNode>, n: nat)
    requires GoodT(p) && n > TItems(p)
    ensures CcmdSkip(TFlat(p, t), n) == Unmatched
  {
    if !p.TDone? {
      TSkipItem(p, t, n - 1);
      TSkipOverrun(p.rest, t, n - 1);
    }
  }

  lemma {:induction false} TSkipReach(node: TNode, rest: TProg, t: seq<TNode>)
    requires GoodT(rest)
    ensures var r := CcmdSkip(TFlat(rest, t), node.nSkip);
      if node.nSkip <= TItems(rest) then r.Reached? && r.rest == TFlat(TDrop(rest, Reach(node, rest)), t)
      else r.Unmatched?
  {
    if node.nSkip > TItems(rest) { TSkipOverrun(rest, t, node.nSkip); }
    else if node.nSkip >= 0 { TSkipSiblings(rest, t, node.nSkip); }
  }

  // ---------- compilation preserves the tree ----------

  lemma {:induction false} TFlatDestsGood(ds: seq<TNode>, tag: u32, t: seq<TNode>)
    requires IsTag(tag) && GoodNodes(t) && forall i :: 0 <= i < |ds| ==> |ds[i].opts| == FWD_OPTS
    ensures GoodNodes(TFlatDests(ds, tag, t))
  {
    if ds != [] { TFlatDestsGood(ds[1..], FORWARD_CONTINUE, t); }
  }

  lemma {:induction false} TFlatGood(p: TProg, t: seq<TNode>)
    requires GoodT(p) && GoodNodes(t)
    ensures GoodNodes(TFlat(p, t))
    decreases p
  {
    if !p.TDone? {
      TFlatGood(p.rest, t);
      if p.TForward? { TFlatCtxGood(p.ctx, FORWARD_BEGIN, TBranched(p.ctx), TFlat(p.rest, t)); }
    }
  }

  lemma {:induction false} TFlatCtxGood(c: TCtx, tag: u32, branched: bool, t: seq<TNode>)
    requires GoodTCtx(c, branched) && IsTag(tag) && GoodNodes(t)
    ensures GoodNodes(TFlatCtx(c, tag, t))
    decreases c
  {
    assert forall i :: 0 <= i < |c.dests| ==> GoodTDest(c.dests[i], branched);
    var after := if c.TLast? then t else TFlatCtx(c.next, FORWARD_CONTINUE, t);
    if c.TMore? { TFlatCtxGood(c.next, FORWARD_CONTINUE, branched, t); }
    TFlatGood(c.body, after);
    TFlatDestsGood(c.dests, tag, TFlat(c.body, after));
  }

  lemma {:induction false} CompileDests(ds: seq<TNode>, tag: u32, t: seq<TNode>, reqId: nat)
    requires IsTag(tag) && GoodNodes(t) && forall i :: 0 <= i < |ds| ==> |ds[i].opts| == FWD_OPTS
    ensures GoodNodes(TFlatDests(ds, tag, t))
    ensures Compile(TFlatDests(ds, tag, t), reqId) == FlatDests(SampledDests(ds), tag, Compile(t, reqId))
  {
    TFlatDestsGood(ds, tag, t);
    if ds != [] {
      CompileDests(ds[1..], FORWARD_CONTINUE, t, reqId);
      TFlatDestsGood(ds[1..], FORWARD_CONTINUE, t);
      assert TFlatDests(ds, tag, t)[1..] == TFlatDests(ds[1..], FORWARD_CONTINUE, t);
      assert Sampled(ds[0].(ctype := tag)) == Command(tag, Sampled(ds[0].(ctype := FORWARD_BEGIN)).opts);
      assert SampledDests(ds)[1..] == SampledDests(ds[1..]);
    }
  }

  lemma {:induction false} CompileProg(p: TProg, t: seq<TNode>, reqId: nat)
    requires GoodT(p) && GoodNodes(t) && Stays(p, reqId)
    ensures GoodNodes(TFlat(p, t))
    ensures Compile(TFlat(p, t), reqId) == Flat(Expand(p, reqId), Compile(t, reqId))
    decreases TLen(p)
  {
    hide Sampled;
    TFlatGood(p, t);
    match p
    case TDone(node) =>
      assert TFlat(p, t)[1..] == t;
    case TDo(node, rest) =>
      TFlatGood(rest, t);
      assert TFlat(p, t)[1..] == TFlat(rest, t);
      CompileProg(rest, t, reqId);
    case TSkip(node, rest) =>
      TFlatGood(rest, t);
      assert TFlat(p, t)[1..] == TFlat(rest, t);
      if Taken(node, reqId) {
        TSkipReach(node, rest, t);
        CompileProg(TDrop(rest, Reach(node, rest)), t, reqId);
      } else {
        CompileProg(rest, t, reqId);
      }
    case TForward(ctx, rest) =>
      TFlatGood(rest, t);
      CompileProg(rest, t, reqId);
      CompileCtx(ctx, FORWARD_BEGIN, TBranched(ctx), TFlat(rest, t), reqId);
  }

  lemma {:induction false} CompileCtx(c: TCtx, tag: u32, branched: bool, t: seq<TNode>, reqId: nat)
    requires GoodTCtx(c, branched) && IsTag(tag) && GoodNodes(t) && StaysCtx(c, branched, reqId)
    ensures GoodNodes(TFlatCtx(c, tag, t))
    ensures Compile(TFlatCtx(c, tag, t), reqId) == FlatCtx(ExpandCtx(c, branched, reqId), tag, Compile(t, reqId))
    decreases TLenCtx(c)
  {
    hide Sampled; hide Compile;
    assert forall i :: 0 <= i < |c.dests| ==> GoodTDest(c.dests[i], branched);
    TFlatCtxGood(c, tag, branched, t);
    var after := if c.TLast? then t else TFlatCtx(c.next, FORWARD_CONTINUE, t);
    if c.TMore? { CompileCtx(c.next, FORWARD_CONTINUE, branched, t, reqId); }
    CompileProg(c.body, after, reqId);
    CompileDests(c.dests, tag, TFlat(c.body, after), reqId);
  }

  /** Template compilation: the message dumped from a tree-shaped template, whose taken skips stay inside their
      own bodies, is a tree-shaped message, and its tree is the template's with each taken PSKIP dropping the
      items it skips. */
  lemma {:induction false} CompiledTree(p: TProg, reqId: nat)
    requires GoodT(p) && Stays(p, reqId)
    ensures GoodNodes(TFlat(p, [])) && Good(Expand(p, reqId))
    ensures Compile(TFlat(p, []), reqId) + [EomCommand] == Flat(Expand(p, reqId), [EomCommand])
  {
    CompileProg(p, [], reqId);
    ExpandGood(p, reqId);
    FlatAppend(Expand(p, reqId), [], [EomCommand]);
    assert [] + [EomCommand] == [EomCommand];
  }

  // ---------- a skip that leaves its body cuts the message off ----------

  /** The message is then a proper prefix of a program: `lost` is what is missing, its REPLY included. */
  lemma {:induction false} CutProg(p: TProg, t: seq<TNode>, reqId: nat) returns (lost: seq<Command>)
    requires GoodT(p) && GoodNodes(t) && !Stays(p, reqId)
    ensures GoodNodes(TFlat(p, t)) && lost != []
    ensures Flat(Expand(p, reqId), []) == Compile(TFlat(p, t), reqId) + lost
    decreases TLen(p)
  {
    hide Sampled;
    TFlatGood(p, t);
    match p
    case TDo(node, rest) =>
      TFlatGood(rest, t);
      assert TFlat(p, t)[1..] == TFlat(rest, t);
      lost := CutProg(rest, t, reqId);
    case TSkip(node, rest) =>
      TFlatGood(rest, t);
      assert TFlat(p, t)[1..] == TFlat(rest, t);
      if !Taken(node, reqId) {
        lost := CutProg(rest, t, reqId);
      } else {
        TSkipReach(node, rest, t);
        if node.nSkip <= TItems(rest) {
          lost := CutProg(TDrop(rest, Reach(node, rest)), t, reqId);
        } else {
          lost := Flat(Expand(p, reqId), []);
          ExpandGood(p, reqId);
          FlatHead(Expand(p, reqId), []);
        }
      }
    case TForward(ctx, rest) => lost := CutForward(ctx, rest, t, reqId);
  }

  lemma {:induction false} CutForward(ctx: TCtx, rest: TProg, t: seq<TNode>, reqId: nat) returns (lost: seq<Command>)
    requires GoodT(TForward(ctx, rest)) && GoodNodes(t) && !Stays(TForward(ctx, rest), reqId)
    ensures GoodNodes(TFlat(TForward(ctx, rest), t)) && lost != []
    ensures Flat(Expand(TForward(ctx, rest), reqId), []) == Compile(TFlat(TForward(ctx, rest), t), reqId) + lost
    decreases 1 + TLenCtx(ctx) + TLen(rest), 0
  {
    hide Compile; hide Flat; hide FlatCtx; hide Stays; hide StaysCtx; hide Expand; hide ExpandCtx;
    hide TFlat; hide TFlatCtx; hide GoodNodes;
    TFlatGood(TForward(ctx, rest), t);
    TFlatGood(rest, t);
    var branched, after := TBranched(ctx), TFlat(rest, t);
    var e, f := ExpandCtx(ctx, branched, reqId), Flat(Expand(rest, reqId), []);
    ForwardParts(ctx, rest, reqId);
    WithTail(e, FORWARD_BEGIN, f);
    if !StaysCtx(ctx, branched, reqId) {
      var x := CutCtx(ctx, FORWARD_BEGIN, branched, after, reqId);
      lost := x + f;
      Regroup(Compile(TFlatCtx(ctx, FORWARD_BEGIN, after), reqId), x, f);
    } else {
      lost := CutProg(rest, t, reqId);
      CompileCtx(ctx, FORWARD_BEGIN, branched, after, reqId);
      WithTail(e, FORWARD_BEGIN, Compile(after, reqId));
      Regroup(FlatCtx(e, FORWARD_BEGIN, []), Compile(after, reqId), lost);
    }
  }

  lemma {:induction false} Regroup(a: seq<Command>, b: seq<Command>, c: seq<Command>)
    ensures (a + b) + c == a + (b + c)
  {
  }

  lemma {:induction false} ForwardParts(ctx: TCtx, rest: TProg, reqId: nat)
    requires GoodT(TForward(ctx, rest))
    ensures var p := TForward(ctx, rest);
      && (forall t :: TFlat(p, t) == TFlatCtx(ctx, FORWARD_BEGIN, TFlat(rest, t)))
      && Flat(Expand(p, reqId), [])
         == FlatCtx(ExpandCtx(ctx, TBranched(ctx), reqId), FORWARD_BEGIN, Flat(Expand(rest, reqId), []))
      && Stays(p, reqId) == (StaysCtx(ctx, TBranched(ctx), reqId) && Stays(rest, reqId))
  {
  }

  lemma {:induction false} WithTail(c: Ctx, tag: u32, t: seq<Command>)
    ensures FlatCtx(c, tag, t) == FlatCtx(c, tag, []) + t
  {
    FlatCtxAppend(c, tag, [], t);
    assert [] + t == t;
  }

  lemma {:induction false} CutCtx(c: TCtx, tag: u32, branched: bool, t: seq<TNode>, reqId: nat)
    returns (lost: seq<Command>)
    requires GoodTCtx(c, branched) && IsTag(tag) && GoodNodes(t) && !StaysCtx(c, branched, reqId)
    ensures GoodNodes(TFlatCtx(c, tag, t)) && lost != []
    ensures FlatCtx(ExpandCtx(c, branched, reqId), tag, []) == Compile(TFlatCtx(c, tag, t), reqId) + lost
    decreases TLenCtx(c), 0
  {
    hide Sampled; hide Compile; hide Flat; hide Stays; hide TFlat; hide FlatDests; hide SampledDests;
    hide GoodNodes; hide Expand;
    assert forall i :: 0 <= i < |c.dests| ==> GoodTDest(c.dests[i], branched);
    TFlatCtxGood(c, tag, branched, t);
    var after := if c.TLast? then t else TFlatCtx(c.next, FORWARD_CONTINUE, t);
    if c.TMore? { TFlatCtxGood(c.next, FORWARD_CONTINUE, branched, t); }
    var b, ds := Expand(c.body, reqId), SampledDests(c.dests);
    var u := if c.TLast? then [] else FlatCtx(ExpandCtx(c.next, branched, reqId), FORWARD_CONTINUE, []);
    TFlatGood(c.body, after);
    var body := Compile(TFlat(c.body, after), reqId);
    if !Stays(c.body, reqId) {
      var x := CutProg(c.body, after, reqId);
      lost := x + u;
      FlatAppend(b, [], u);
      assert [] + u == u;
      Regroup(body, x, u);
    } else {
      lost := CutCtx(c.next, FORWARD_CONTINUE, branched, t, reqId);
      CompileProg(c.body, after, reqId);
      FlatAppend(b, Compile(after, reqId), lost);
    }
    assert Flat(b, u) == body + lost;
    CompileDests(c.dests, tag, TFlat(c.body, after), reqId);
    FlatDestsAppend(ds, tag, body, lost);
  }

  /** When a template is compiled to a tree: exactly when no skip that the dump reaches and takes leaves its own
      body. Otherwise the message is cut off at that skip, and is the flat form of no program at all. */
  lemma {:induction false} TreeExactly(p: TProg, reqId: nat)
    requires GoodT(p)
    ensures GoodNodes(TFlat(p, []))
    ensures (exists q :: Good(q) && Compile(TFlat(p, []), reqId) + [EomCommand] == Flat(q, [EomCommand]))
            <==> Stays(p, reqId)
  {
    TFlatGood(p, []);
    if Stays(p, reqId) {
      CompiledTree(p, reqId);
    } else {
      forall q | Good(q) ensures Compile(TFlat(p, []), reqId) + [EomCommand] != Flat(q, [EomCommand]) {
        NoTree(p, reqId, q);
      }
    }
  }

  /** A skip that is taken and reaches beyond its body: nothing is written from it on. */
  lemma {:induction false} OverrunCuts(node: TNode, rest: TProg, t: seq<TNode>, reqId: nat)
    requires GoodT(TSkip(node, rest)) && Taken(node, reqId) && node.nSkip > TItems(rest) && GoodNodes(t)
    ensures !Stays(TSkip(node, rest), reqId)
    ensures GoodNodes(TFlat(TSkip(node, rest), t)) && Compile(TFlat(TSkip(node, rest), t), reqId) == []
  {
    TFlatGood(rest, t);
    TSkipOverrun(rest, t, node.nSkip);
    assert ([node] + TFlat(rest, t))[1..] == TFlat(rest, t);
  }

  lemma {:induction false} NoTree(p: TProg, reqId: nat, q: Prog)
    requires GoodT(p) && !Stays(p, reqId) && Good(q)
    ensures GoodNodes(TFlat(p, []))
    ensures Compile(TFlat(p, []), reqId) + [EomCommand] != Flat(q, [EomCommand])
  {
    hide Flat; hide Compile; hide Stays; hide Expand; hide TFlat;
    var lost := CutProg(p, [], reqId);
    var cut := Compile(TFlat(p, []), reqId);
    if cut + [EomCommand] == Flat(q, [EomCommand]) {
      FlatAppend(q, [], [EomCommand]);
      assert [] + [EomCommand] == [EomCommand];
      assert cut == (cut + [EomCommand])[..|cut|] == Flat(q, []);
      FlatAppend(q, [], lost);
      assert [] + lost == lost;
      ExpandGood(p, reqId);
      FlatInjective(q, lost, Expand(p, reqId), []);
      assert false;
    }
  }
}
