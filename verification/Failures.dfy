/** When the network does not execute the tree: a node that resumes a request on its last reply and suspends again
    closes the connection the reply came on (obtain_messages and exec_request in src/dw_node.c). Whenever a program
    still needs such a connection, some run fails. */
module Failures {
  import opened Layout
  import opened Walk
  import opened Tree
  import opened Node
  import opened Sets
  import opened ReplyMessage
  import opened Programs
  import opened Network

  // ---------- reachable states ----------

  /** A run leads from `a` to `b`, executing `m`. */
  ghost predicate Reaches(a: Act, b: Act, m: seq<Event>, devs: Devices) {
    exists states: seq<Act>, logs: seq<seq<Event>> :: Leads(states, logs, a, b, m, devs)
  }

  ghost predicate Leads(states: seq<Act>, logs: seq<seq<Event>>, a: Act, b: Act, m: seq<Event>, devs: Devices) {
    Run(states, logs, devs) && states[0] == a && states[|logs|] == b && Concat(logs) == m
  }

  lemma {:induction false} ReachSelf(a: Act, devs: Devices)
    ensures Reaches(a, a, [], devs)
  {
    assert Leads([a], [], a, a, [], devs);
  }

  lemma {:induction false} ReachFirst(a: Act, b: Act, evs: seq<Event>, c: Act, m: seq<Event>, devs: Devices)
    requires Whole(a, b, evs, devs) && Reaches(b, c, m, devs)
    ensures Reaches(a, c, evs + m, devs)
  {
    hide Whole;
    var states, logs :| Leads(states, logs, b, c, m, devs);
    var s1, l1 := [a] + states, [evs] + logs;
    assert l1[1..] == logs;
    forall i | 0 <= i < |l1| ensures Whole(s1[i], s1[i + 1], l1[i], devs) {
      if i > 0 { assert Whole(states[i - 1], states[i], logs[i - 1], devs); }
    }
    assert Leads(s1, l1, a, c, evs + m, devs);
  }

  lemma {:induction false} ReachTrans(a: Act, b: Act, m: seq<Event>, c: Act, m': seq<Event>, devs: Devices)
    requires Reaches(a, b, m, devs) && Reaches(b, c, m', devs)
    ensures Reaches(a, c, m + m', devs)
  {
    hide Reaches; hide Leads;
    var states, logs := RunOf(a, b, m, devs);
    ReachAlong(states, logs, a, b, m, c, m', devs);
  }

  lemma {:induction false} RunOf(a: Act, b: Act, m: seq<Event>, devs: Devices)
    returns (states: seq<Act>, logs: seq<seq<Event>>)
    requires Reaches(a, b, m, devs)
    ensures Leads(states, logs, a, b, m, devs)
  {
    states, logs :| Leads(states, logs, a, b, m, devs);
  }

  lemma {:induction false} ReachAlong(states: seq<Act>, logs: seq<seq<Event>>, a: Act, b: Act, m: seq<Event>,
                                      c: Act, m': seq<Event>, devs: Devices)
    requires Leads(states, logs, a, b, m, devs) && Reaches(b, c, m', devs)
    ensures Reaches(a, c, m + m', devs)
    decreases |logs|
  {
    hide Whole; hide Reaches;
    if logs == [] {
      assert m + m' == m';
    } else {
      RunRest(states, logs, devs);
      var rest := Concat(logs[1..]);
      ReachAlong(states[1..], logs[1..], states[1], b, rest, c, m', devs);
      ReachFirst(a, states[1], logs[0], c, rest + m', devs);
      assert logs[0] + (rest + m') == m + m';
    }
  }

  /** A step that closes nothing. */
  lemma {:induction false} ReachStep(a: Act, b: Act, evs: seq<Event>, devs: Devices)
    requires Step(a, b, evs, NoCut, devs)
    ensures Reaches(a, b, evs, devs)
  {
    hide Step;
    assert evs + [] == evs;
    assert Whole(a, b, evs, devs);
    ReachSelf(b, devs);
    ReachFirst(a, b, evs, b, [], devs);
  }

  /** A step inside kid j closes a connection inside kid j. */
  lemma {:induction false} InsideSettles(a: Act, j: nat, y: Act, evs: seq<Event>, cut: Cut, devs: Devices,
                                         z: set<seq<byte>>)
    requires Steady(a, devs, z) && j < |a.kids| && a.kids[j].state.Running?
    requires Step(a.kids[j].state.act, y, evs, cut, devs)
    ensures var b := WithKid(a, j, Running(y));
      && Step(a, b, evs, cut, devs)
      && Settled(b, cut, devs) == WithKid(a, j, Running(Settled(y, cut, devs)))
      && SettleLog(b, cut, devs) == SettleLog(y, cut, devs)
  {
    hide Step; hide Inv; hide Placed; hide Roams; hide Hang; hide HangLog; hide Served; hide KidZone;
    InsideStep(a, j, y, evs, cut, devs);
    if cut.Cut? {
      var b := WithKid(a, j, Running(y));
      KidServed(a, devs, j);
      RunningInv(a.kids[j], devs);
      KidIsPlaced(a, j);
      StepPlaced(a.kids[j].state.act, y, evs, cut, devs, KidZone(a.kids[j]));
      StepPlaced(a, b, evs, cut, devs, z);
      assert KidZone(b.kids[j]) == KidZone(a.kids[j]) by { SameZone(a.kids[j], Running(y)); }
      HangInside(b, j, cut.at, cut.to, devs);
    }
  }

  lemma {:induction false} SameZone(k: Kid, s: KidState)
    ensures KidZone(k.(state := s)) == KidZone(k)
  {
  }

  /** What kid j can do, the whole request can do. */
  lemma {:induction false} ReachLift(a: Act, j: nat, y: Act, m: seq<Event>, devs: Devices, z: set<seq<byte>>)
    requires Steady(a, devs, z) && j < |a.kids| && a.kids[j].state.Running?
    requires Reaches(a.kids[j].state.act, y, m, devs)
    ensures Reaches(a, WithKid(a, j, Running(y)), m, devs) && Steady(WithKid(a, j, Running(y)), devs, z)
  {
    hide Reaches; hide Leads; hide Steady;
    var states, logs := RunOf(a.kids[j].state.act, y, m, devs);
    LiftAlong(states, logs, a, j, y, m, devs, z);
  }

  lemma {:induction false} LiftAlong(states: seq<Act>, logs: seq<seq<Event>>, a: Act, j: nat, y: Act, m: seq<Event>,
                                     devs: Devices, z: set<seq<byte>>)
    requires Steady(a, devs, z) && j < |a.kids| && a.kids[j].state.Running?
    requires Leads(states, logs, a.kids[j].state.act, y, m, devs)
    ensures Reaches(a, WithKid(a, j, Running(y)), m, devs) && Steady(WithKid(a, j, Running(y)), devs, z)
    decreases |logs|
  {
    hide Whole; hide Reaches; hide Steady;
    if logs == [] {
      assert WithKid(a, j, Running(y)) == a;
      ReachSelf(a, devs);
    } else {
      RunRest(states, logs, devs);
      var b := WithKid(a, j, Running(states[1]));
      assert Whole(a, b, logs[0], devs) by { WholeLift(a, j, states[1], logs[0], devs, z); }
      WholeSteady(a, b, logs[0], devs, z);
      LiftAlong(states[1..], logs[1..], b, j, y, Concat(logs[1..]), devs, z);
      assert WithKid(b, j, Running(y)) == WithKid(a, j, Running(y));
      ReachFirst(a, b, logs[0], WithKid(a, j, Running(y)), Concat(logs[1..]), devs);
    }
  }

  lemma {:induction false} WholeLift(a: Act, j: nat, x: Act, evs: seq<Event>, devs: Devices, z: set<seq<byte>>)
    requires Steady(a, devs, z) && j < |a.kids| && a.kids[j].state.Running?
    requires Whole(a.kids[j].state.act, x, evs, devs)
    ensures Whole(a, WithKid(a, j, Running(x)), evs, devs)
  {
    hide Step; hide Settled; hide SettleLog; hide Steady;
    var y, evs1, cut :| Step(a.kids[j].state.act, y, evs1, cut, devs) && x == Settled(y, cut, devs)
                        && evs == evs1 + SettleLog(y, cut, devs);
    InsideSettles(a, j, y, evs1, cut, devs, z);
  }

  // ---------- requests that will never be answered ----------

  /** The request waits for something that can no longer answer. */
  ghost predicate Jam(a: Act)
    decreases a
  {
    a.wait.WaitForward? && exists j :: 0 <= j < |a.kids| && Blocked(a.kids[j])
  }

  ghost predicate Blocked(k: Kid)
    decreases k
  {
    !k.state.Recorded? && (!k.open || (k.state.Running? && Jam(k.state.act)))
  }

  lemma {:induction false} JamStays(a: Act, b: Act, evs: seq<Event>, cut: Cut, devs: Devices, z: set<seq<byte>>)
    requires Steady(a, devs, z) && Jam(a) && Step(a, b, evs, cut, devs)
    ensures Jam(Settled(b, cut, devs))
    decreases a
  {
    hide Process; hide Flat; hide FindReplyId; hide Inv; hide Runnable; hide Served; hide Placed; hide Roams;
    hide Blocked; hide Delivery; hide Settled;
    var j :| 0 <= j < |a.kids| && Blocked(a.kids[j]);
    var i: nat :|
      && i < |a.kids|
      && (|| (Delivery(a, b, evs, devs, i) && cut == NoCut)
          || ReplyArrival(a, b, evs, cut, devs, i) || KidStep(a, b, evs, cut, devs, i));
    if Delivery(a, b, evs, devs, i) && cut == NoCut {
      KidServed(a, devs, i);
      InRange(a, b, evs, devs, i);
      var p, r := DeliveryServes(a, b, evs, devs, i);
      if i == j { BlockedSent(a.kids[i], Running(Suspended(p, r, a.kids[i].to, devs))); }
      assert Blocked(b.kids[j]);
      assert Settled(b, cut, devs) == b by { NothingClosed(b, devs); }
    } else if ReplyArrival(a, b, evs, cut, devs, i) {
      NotAnswered(a.kids[j]);
      StillWaits(a, devs, i, j);
      RecordKeepsInv(a, b, evs, cut, devs, i);
      assert Blocked(b.kids[j]);
      assert Settled(b, cut, devs) == b by { NothingClosed(b, devs); }
    } else {
      var y := InsideKid(a, b, evs, cut, devs, i);
      InsideSettles(a, i, y, evs, cut, devs, z);
      if i == j {
        if a.kids[i].open {
          KidServed(a, devs, i);
          RunningInv(a.kids[i], devs);
          KidIsPlaced(a, i);
          JamInside(a.kids[i]);
          JamStays(a.kids[i].state.act, y, evs, cut, devs, KidZone(a.kids[i]));
        }
        BlockedStill(a.kids[i], Settled(y, cut, devs));
      }
      assert Blocked(Settled(b, cut, devs).kids[j]);
    }
  }

  lemma {:induction false} NothingClosed(a: Act, devs: Devices)
    ensures Settled(a, NoCut, devs) == a
  {
  }

  lemma {:induction false} BlockedSent(k: Kid, s: KidState)
    requires Blocked(k) && k.state.Sent? && !s.Recorded?
    ensures Blocked(k.(state := s))
  {
  }

  lemma {:induction false} BlockedStill(k: Kid, y: Act)
    requires Blocked(k) && (k.open ==> Jam(y))
    ensures Blocked(k.(state := Running(y)))
  {
  }

  lemma {:induction false} JamInside(k: Kid)
    requires Blocked(k) && k.open
    ensures k.state.Running? && Jam(k.state.act)
  {
  }

  lemma {:induction false} NotAnswered(k: Kid)
    requires Blocked(k)
    ensures !k.state.Recorded? && !Answered(k)
  {
  }

  /** A reply does not complete a context that another destination has not answered. */
  lemma {:induction false} StillWaits(a: Act, devs: Devices, i: nat, j: nat)
    requires Inv(a, devs) && a.wait.WaitForward? && i < |a.kids| && j < |a.kids| && i != j
    requires !a.kids[i].state.Recorded? && !a.kids[j].state.Recorded?
    ensures AtForward(a.req.cur) && !Completes(a.req, a.kids[i].to)
  {
    hide FindReplyId; hide Flat;
    ReplyId(a, devs, i);
    if a.req.left <= 1 {
      OthersRecorded(a, devs, i);
      assert false;
    }
  }

  /** No run from here answers the request. */
  ghost predicate Hopeless(a: Act, devs: Devices) {
    forall b, m :: Reaches(a, b, m, devs) ==> !b.wait.Replied?
  }

  lemma {:induction false} JamHopeless(a: Act, devs: Devices, z: set<seq<byte>>)
    requires Steady(a, devs, z) && Jam(a)
    ensures Hopeless(a, devs)
  {
    hide Steady; hide Leads; hide Reaches;
    forall b, m | Reaches(a, b, m, devs) ensures !b.wait.Replied? {
      var states, logs := RunOf(a, b, m, devs);
      JamAlong(states, logs, a, b, m, devs, z);
    }
  }

  lemma {:induction false} JamAlong(states: seq<Act>, logs: seq<seq<Event>>, a: Act, b: Act, m: seq<Event>,
                                    devs: Devices, z: set<seq<byte>>)
    requires Leads(states, logs, a, b, m, devs) && Steady(a, devs, z) && Jam(a)
    ensures Jam(b)
    decreases |logs|
  {
    hide Steady; hide Whole; hide Jam;
    if logs != [] {
      RunRest(states, logs, devs);
      JamWhole(a, states[1], logs[0], devs, z);
      JamAlong(states[1..], logs[1..], states[1], b, Concat(logs[1..]), devs, z);
    }
  }

  lemma {:induction false} JamWhole(a: Act, b: Act, evs: seq<Event>, devs: Devices, z: set<seq<byte>>)
    requires Whole(a, b, evs, devs) && Steady(a, devs, z) && Jam(a)
    ensures Jam(b) && Steady(b, devs, z)
  {
    hide Step; hide Steady; hide Jam; hide Settled; hide SettleLog;
    WholeSteady(a, b, evs, devs, z);
    var a1, evs1, cut :|
      Step(a, a1, evs1, cut, devs) && b == Settled(a1, cut, devs) && evs == evs1 + SettleLog(a1, cut, devs);
    JamStays(a, a1, evs1, cut, devs, z);
  }

  // ---------- every log of a program has the same length ----------

  function Size(p: Prog): nat
    decreases Length(p), 0, 0
  {
    match p
    case Done(_) => 1
    case Do(_, rest) => 1 + Size(rest)
    case Forward(ctx, rest) =>
      LengthPositive(rest);
      LengthPositive(ctx.body);
      SizeFrom(ctx, 0) + Size(rest)
  }

  /** The commands executed for the destinations from i on. */
  function SizeFrom(c: Ctx, i: nat): nat
    requires i <= |Dests(c)|
    decreases LengthCtx(c), 1, |Dests(c)| - i
  {
    if i == |Dests(c)| then 0 else Size(BodyAt(c, i)) + SizeFrom(c, i + 1)
  }

  lemma {:induction false} SizePositive(p: Prog)
    ensures Size(p) > 0
  {
    if !p.Done? { SizePositive(p.rest); }
  }

  function Total(parts: seq<seq<Event>>, i: nat): nat
    requires i <= |parts|
    decreases |parts| - i
  {
    if i == |parts| then 0 else |parts[i]| + Total(parts, i + 1)
  }

  lemma {:induction false} TotalLess(parts: seq<seq<Event>>, j: nat, i: nat)
    requires j < |parts| && i <= |parts| && parts[j] != []
    ensures Total(parts, i) == Total(parts[j := parts[j][1..]], i) + if i <= j then 1 else 0
    decreases |parts| - i
  {
    if i < |parts| { TotalLess(parts, j, i + 1); }
  }

  lemma {:induction false} TotalNothing(parts: seq<seq<Event>>, i: nat)
    requires i <= |parts| && forall j :: 0 <= j < |parts| ==> parts[j] == []
    ensures Total(parts, i) == 0
    decreases |parts| - i
  {
    if i < |parts| { TotalNothing(parts, i + 1); }
  }

  lemma {:induction false} InterleavesLength(parts: seq<seq<Event>>, m: seq<Event>)
    requires Interleaves(parts, m)
    ensures |m| == Total(parts, 0)
    decreases |m|
  {
    if m == [] {
      TotalNothing(parts, 0);
    } else {
      var j :| 0 <= j < |parts| && TakesFrom(parts, j, m[0]) && Interleaves(parts[j := parts[j][1..]], m[1..]);
      TotalLess(parts, j, 0);
      InterleavesLength(parts[j := parts[j][1..]], m[1..]);
    }
  }

  lemma {:induction false} MeaningSize(p: Prog, at: seq<byte>, m: seq<Event>)
    requires Good(p) && Meaning(p, at, m)
    ensures |m| == Size(p)
    decreases Length(p), 0, 0
  {
    match p
    case Done(_) =>
    case Do(_, rest) => MeaningSize(rest, at, m[1..]);
    case Forward(ctx, rest) =>
      LengthPositive(rest);
      GoodDests(ctx, BranchedCtx(ctx));
      var k: nat, parts: seq<seq<Event>> :|
        && k <= |m| && |parts| == |Dests(ctx)| && Interleaves(parts, m[..k])
        && (forall i :: 0 <= i < |parts| ==> BranchLog(ctx, i, parts[i]))
        && Meaning(rest, at, m[k..]);
      InterleavesLength(parts, m[..k]);
      PartsSize(ctx, parts, 0);
      MeaningSize(rest, at, m[k..]);
  }

  lemma {:induction false} PartsSize(c: Ctx, parts: seq<seq<Event>>, i: nat)
    requires GoodCtx(c, BranchedCtx(c)) && |parts| == |Dests(c)| && i <= |parts|
    requires forall j :: 0 <= j < |parts| ==> BranchLog(c, j, parts[j])
    ensures Total(parts, i) == SizeFrom(c, i)
    decreases LengthCtx(c), 1, |parts| - i
  {
    if i < |parts| {
      assert BranchLog(c, i, parts[i]);
      GoodDests(c, BranchedCtx(c));
      GoodBody(c, BranchedCtx(c), i);
      MeaningSize(BodyAt(c, i), Addr(Dests(c)[i]), parts[i]);
      PartsSize(c, parts, i + 1);
    }
  }

  // ---------- the connection that was still needed ----------

  /** Where a run of program `p` ends up: it will never be answered, or it is answered after no more commands than
      the program has, and after fewer when the program does not keep apart what it has to. */
  ghost predicate Ends(p: Prog, b: Act, log: seq<Event>) {
    Jam(b) || (b.wait.Replied? && |log| <= Size(p) && (!Apart(p) ==> |log| < Size(p)))
  }

  /** When a node goes on with `p` after a last reply from `x`, and `p` still needs the connection to `x`, closing it
      means that the request is given up before its commands are done, or that it waits forever. */
  lemma {:induction false} HurtServes(p: Prog, r: Req, at: seq<byte>, x: seq<byte>, devs: Devices)
    requires Good(p) && Runnable(p, at, devs) && r.left == -1 && !Clear(p, x)
    ensures var a := Suspended(p, r, at, devs);
      var b := Hang(a, at, x, devs);
      && ReturnCode(a.wait) == 0
      && (Jam(b) || (b.wait.Replied? && |Logged(p, r, at, devs) + HangLog(a, at, x, devs)| < Size(p)))
    decreases p
  {
    hide Runnable; hide Jam; hide Suspended; hide Logged; hide Hang; hide HangLog; hide Size;
    match p
    case Do(cmd, rest) =>
      RunnableRest(p, at, devs);
      if Suspends(cmd) {
        HurtStorage(p, r, at, x, devs);
      } else {
        AfterDo(p, r, at, devs);
        DoParts(p);
        HurtServes(rest, r, at, x, devs);
      }
    case Forward(ctx, rest) => HurtForward(p, r, at, x, devs);
  }

  lemma {:induction false} HurtStorage(p: Prog, r: Req, at: seq<byte>, x: seq<byte>, devs: Devices)
    requires Good(p) && Runnable(p, at, devs) && p.Do? && Suspends(p.cmd) && !Clear(p, x)
    ensures var a := Suspended(p, r, at, devs);
      && ReturnCode(a.wait) == 0 && Hang(a, at, x, devs).wait.Replied?
      && |Logged(p, r, at, devs) + HangLog(a, at, x, devs)| < Size(p)
  {
    hide Process; hide Flat; hide Runnable; hide Severed; hide FailOver; hide Size;
    var a := Suspended(p, r, at, devs);
    assert Runnable(p.rest, at, devs) by { RunnableRest(p, at, devs); }
    ProcessDo(p, r, at, devs);
    SeveredMsg(p.rest, a.req, x);
    FailOverReplies(p.rest, a.req, at, devs);
    SizeOfForward(p.rest);
    DoParts(p);
    assert HangKidsLog(a, 0, at, x, devs) == [];
  }

  lemma {:induction false} HurtForward(p: Prog, r: Req, at: seq<byte>, x: seq<byte>, devs: Devices)
    requires Good(p) && Runnable(p, at, devs) && r.left == -1 && p.Forward? && !Clear(p, x)
    ensures var a := Suspended(p, r, at, devs);
      var b := Hang(a, at, x, devs);
      && ReturnCode(a.wait) == 0
      && (Jam(b) || (b.wait.Replied? && |Logged(p, r, at, devs) + HangLog(a, at, x, devs)| < Size(p)))
  {
    hide Process; hide Flat; hide Runnable; hide Severed; hide Jam; hide Hang; hide HangLog; hide Owed; hide Size;
    ForwardOpens(r, p, at, devs);
    LostKid(Suspended(p, r, at, devs), p, x, devs);
    SizeOfForward(p);
  }

  lemma {:induction false} SizeOfForward(p: Prog)
    requires Good(p) && p.Forward?
    ensures Size(p) >= 2
  {
    GoodDests(p.ctx, BranchedCtx(p.ctx));
    SizePositive(BodyAt(p.ctx, 0));
    SizePositive(p.rest);
  }

  lemma {:induction false} LostKid(a: Act, p: Prog, x: seq<byte>, devs: Devices)
    requires Good(p) && p.Forward? && Runnable(p, a.at, devs) && !Clear(p, x)
    requires a.wait.WaitForward? && a.req.cur == Msg(p)
    requires a.kids == Launch(Owed(p.ctx, BranchedCtx(p.ctx), 0, {}))
    ensures var b := Hang(a, a.at, x, devs);
      if Severed(a.req, x) then b.wait.Replied? && |HangLog(a, a.at, x, devs)| == 1 else Jam(b)
  {
    hide Owed; hide Flat; hide Msg; hide Severed; hide FailOver; hide HangKids; hide HangKidsLog; hide Host; hide Dests;
    assert Roomy(p.ctx);
    FailOverReplies(p, a.req, a.at, devs);
    hide Runnable; hide Roomy; hide Jam;
    SentLog(a, 0, a.at, x, devs);
    if !Severed(a.req, x) { ClosedKid(a, p, x, devs); }
  }

  lemma {:induction false} ClosedKid(a: Act, p: Prog, x: seq<byte>, devs: Devices)
    requires Good(p) && p.Forward? && Roomy(p.ctx) && !Clear(p, x) && a.wait.WaitForward? && !Severed(a.req, x)
    requires a.kids == Launch(Owed(p.ctx, BranchedCtx(p.ctx), 0, {}))
    ensures Jam(Hang(a, a.at, x, devs))
  {
    hide Owed; hide Flat; hide Msg; hide Severed; hide Roomy;
    OwedAt(p.ctx, BranchedCtx(p.ctx), 0);
    var b := Hang(a, a.at, x, devs);
    var i :| 0 <= i < |Dests(p.ctx)| && Host(Dests(p.ctx)[i]) == x;
    assert a.kids[i].to == x;
    assert b.kids[i] == HangKid(a.kids[i], true, a.at, x, devs);
    assert Blocked(b.kids[i]);
  }

  // ---------- a run to the end ----------

  /** Some run of any program comes to an end, as `Ends` says. */
  lemma {:induction false} Finish(p: Prog, r: Req, at: seq<byte>, devs: Devices) returns (b: Act, m: seq<Event>)
    requires Good(p) && Runnable(p, at, devs) && r.left == -1
    ensures Reaches(Suspended(p, r, at, devs), b, m, devs) && Ends(p, b, Logged(p, r, at, devs) + m)
    decreases Length(p), 0, 1
  {
    hide Runnable; hide Reaches; hide Jam; hide Suspended; hide Logged; hide Size; hide Apart; hide Clear;
    var a := Suspended(p, r, at, devs);
    match p
    case Done(_) =>
      DoneAtOnce(p, r, at, devs);
      ReachSelf(a, devs);
      b, m := a, [];
    case Do(cmd, rest) =>
      RunnableRest(p, at, devs);
      DoParts(p);
      if Suspends(cmd) {
        var c, evs := AfterStorage(p, r, at, devs);
        var b', m' := Finish(rest, a.req, at, devs);
        ReachTrans(a, c, evs, b', m', devs);
        b, m := b', evs + m';
      } else {
        AfterDo(p, r, at, devs);
        b, m := Finish(rest, r, at, devs);
      }
    case Forward(ctx, rest) =>
      ServeSteady(p, r, at, devs, {at} + NodesOf(p));
      FreshStart(p, r, at, devs);
      b, m := FinishForward(a, p, devs, {at} + NodesOf(p));
      assert Logged(p, r, at, devs) + m == m;
  }

  lemma {:induction false} DoParts(p: Prog)
    requires p.Do?
    ensures Size(p) == 1 + Size(p.rest) && Apart(p) == Apart(p.rest) && Length(p.rest) < Length(p)
  {
  }

  lemma {:induction false} DoneAtOnce(p: Prog, r: Req, at: seq<byte>, devs: Devices)
    requires Good(p) && p.Done?
    ensures Suspended(p, r, at, devs).wait.Replied? && |Logged(p, r, at, devs)| == 1 == Size(p) && Apart(p)
  {
    hide Process;
    ProcessDone(p, r, at, devs);
  }

  lemma {:induction false} AfterDo(p: Prog, r: Req, at: seq<byte>, devs: Devices)
    requires Good(p) && Runnable(p, at, devs) && p.Do? && !Suspends(p.cmd)
    ensures Suspended(p, r, at, devs) == Suspended(p.rest, r, at, devs)
    ensures |Logged(p, r, at, devs)| == 1 + |Logged(p.rest, r, at, devs)|
  {
    hide Process; hide Flat;
    ProcessDo(p, r, at, devs);
  }

  lemma {:induction false} AfterStorage(p: Prog, r: Req, at: seq<byte>, devs: Devices)
    returns (b: Act, evs: seq<Event>)
    requires Good(p) && Runnable(p, at, devs) && p.Do? && Suspends(p.cmd) && r.left == -1
    ensures var a := Suspended(p, r, at, devs);
      && a.req.left == -1 && |Logged(p, r, at, devs)| == 1 && Reaches(a, b, evs, devs)
      && b == Suspended(p.rest, a.req, at, devs) && evs == Logged(p.rest, a.req, at, devs)
  {
    hide Process; hide Flat; hide Reaches; hide Step;
    var a := Suspended(p, r, at, devs);
    ProcessDo(p, r, at, devs);
    b, evs := AckStep(a, devs);
    ReachStep(a, b, evs, devs);
  }

  lemma {:induction false} FreshStart(p: Prog, r: Req, at: seq<byte>, devs: Devices)
    requires Good(p) && Runnable(p, at, devs) && p.Forward? && r.left == -1
    ensures var a := Suspended(p, r, at, devs); Fresh(a, p) && a.at == at && Logged(p, r, at, devs) == []
  {
    hide Process; hide Flat; hide Owed;
    ForwardOpens(r, p, at, devs);
    ProgOfMsg(p);
  }

  /** A request that has just forwarded context p.ctx, with nothing answered yet. */
  ghost predicate Fresh(a: Act, p: Prog) {
    && a.wait.WaitForward? && p.Forward? && ProgOf(a.req.cur) == p
    && forall i :: 0 <= i < |a.kids| ==> a.kids[i].open && a.kids[i].state.Sent?
  }

  lemma {:induction false} FinishForward(a: Act, p: Prog, devs: Devices, z: set<seq<byte>>)
    returns (b: Act, m: seq<Event>)
    requires Steady(a, devs, z) && Fresh(a, p) && Good(p) && Runnable(p, a.at, devs)
    ensures Reaches(a, b, m, devs) && Ends(p, b, m)
    decreases Length(p), 0, 0
  {
    hide Process; hide Flat; hide Runnable; hide Reaches; hide Jam; hide Steady; hide Inv;
    LengthPositive(p.rest);
    LengthPositive(p.ctx.body);
    KidCount(a, devs, z);
    var c, m1 := RunKids(a, p, 0, devs, z);
    if Jam(c) { return c, m1; }
    var x := Culprit(p);
    var d := RecordOthers(c, x, 0, devs, z);
    ReachTrans(a, c, m1, d, [], devs);
    assert m1 + [] == m1;
    var e, evs, r, done := LastReplyOf(d, p, x, devs, z);
    ReachTrans(a, d, m1, e, evs, devs);
    if done {
      b, m := e, m1 + evs;
    } else {
      var b', m' := Finish(p.rest, r, a.at, devs);
      ReachTrans(a, e, m1 + evs, b', m', devs);
      b, m := b', (m1 + evs) + m';
      assert (m1 + evs) + m' == m1 + (evs + m');
    }
    if !Apart(p) { NotApart(p); }
  }

  lemma {:induction false} KidCount(a: Act, devs: Devices, z: set<seq<byte>>)
    requires Steady(a, devs, z) && a.wait.WaitForward?
    ensures ProgOf(a.req.cur).Forward? && |a.kids| == |Dests(ProgOf(a.req.cur).ctx)| && |a.kids| > 0
    ensures AtForward(a.req.cur)
  {
    hide FindReplyId; hide Flat;
    var j := SomeUnrecorded(a, devs);
    ReplyId(a, devs, j);
  }

  /** The destination whose reply does harm if it comes last, or the first one. */
  lemma {:induction false} Culprit(p: Prog) returns (x: nat)
    requires Good(p) && p.Forward?
    ensures x < |Dests(p.ctx)| && (!ClearOf(p.ctx, p.rest) ==> !Clear(p.rest, Host(Dests(p.ctx)[x])))
  {
    GoodDests(p.ctx, BranchedCtx(p.ctx));
    if ClearOf(p.ctx, p.rest) {
      x := 0;
    } else {
      x :| 0 <= x < |Dests(p.ctx)| && !Clear(p.rest, Host(Dests(p.ctx)[x]));
    }
  }

  lemma {:induction false} NotApart(p: Prog)
    requires Good(p) && p.Forward? && !Apart(p)
    ensures !ClearOf(p.ctx, p.rest) || SomeNotApart(p.ctx, 0) || !Apart(p.rest)
  {
    if !ApartCtx(p.ctx) { NotApartCtx(p.ctx, BranchedCtx(p.ctx)); }
  }

  /** Some destination from i on has a branch that is not kept apart. */
  ghost predicate SomeNotApart(c: Ctx, i: nat) {
    exists j: nat :: i <= j < |Dests(c)| && !Apart(BodyAt(c, j))
  }

  lemma {:induction false} NotApartCtx(c: Ctx, branched: bool)
    requires GoodCtx(c, branched) && !ApartCtx(c)
    ensures SomeNotApart(c, 0)
  {
    if !Apart(c.body) {
      assert BodyAt(c, 0) == c.body;
    } else {
      NotApartCtx(c.next, branched);
      var j: nat :| 0 <= j < |Dests(c.next)| && !Apart(BodyAt(c.next, j));
      assert BodyAt(c, |c.dests| + j) == BodyAt(c.next, j);
    }
  }

  /** A step that closes nothing, and what holds afterwards. */
  lemma {:induction false} TakeStep(a: Act, b: Act, evs: seq<Event>, devs: Devices, z: set<seq<byte>>)
    requires Steady(a, devs, z) && Step(a, b, evs, NoCut, devs)
    ensures Reaches(a, b, evs, devs) && Steady(b, devs, z) && b.at == a.at
  {
    hide Step; hide Steady;
    ReachStep(a, b, evs, devs);
    assert evs + [] == evs;
    assert Whole(a, b, evs, devs);
    WholeSteady(a, b, evs, devs, z);
  }

  /** The first i destinations have answered, the others have not been reached yet. */
  ghost predicate Half(a: Act, p: Prog, i: nat) {
    && a.wait.WaitForward? && p.Forward? && ProgOf(a.req.cur) == p && |a.kids| == |Dests(p.ctx)|
    && (forall j :: 0 <= j < i && j < |a.kids| ==> Answered(a.kids[j]))
    && (forall j :: i <= j < |a.kids| ==> a.kids[j].open && a.kids[j].state.Sent?)
  }

  /** All destinations from i on are served, one after the other. */
  lemma {:induction false} RunKids(a: Act, p: Prog, i: nat, devs: Devices, z: set<seq<byte>>)
    returns (b: Act, m: seq<Event>)
    requires Steady(a, devs, z) && Half(a, p, i) && i <= |Dests(p.ctx)|
    ensures Reaches(a, b, m, devs) && Steady(b, devs, z) && b.at == a.at
    ensures Jam(b) || (Half(b, p, |Dests(p.ctx)|) && |m| <= SizeFrom(p.ctx, i)
                       && (SomeNotApart(p.ctx, i) ==> |m| < SizeFrom(p.ctx, i)))
    decreases LengthCtx(p.ctx), 1, |Dests(p.ctx)| - i
  {
    hide Process; hide Flat; hide Reaches; hide Jam; hide Steady; hide Inv; hide Apart; hide Runnable;
    if i == |Dests(p.ctx)| {
      ReachSelf(a, devs);
      b, m := a, [];
    } else {
      var c, m1 := RunKid(a, p, i, devs, z);
      if Jam(c) { return c, m1; }
      var d, m2 := RunKids(c, p, i + 1, devs, z);
      ReachTrans(a, c, m1, d, m2, devs);
      b, m := d, m1 + m2;
      if SomeNotApart(p.ctx, i) && Apart(BodyAt(p.ctx, i)) {
        var j: nat :| i <= j < |Dests(p.ctx)| && !Apart(BodyAt(p.ctx, j));
        assert j != i && SomeNotApart(p.ctx, i + 1);
      }
    }
  }

  /** Destination i receives its branch program and is served. */
  lemma {:induction false} RunKid(a: Act, p: Prog, i: nat, devs: Devices, z: set<seq<byte>>)
    returns (b: Act, m: seq<Event>)
    requires Steady(a, devs, z) && Half(a, p, i) && i < |Dests(p.ctx)|
    ensures Reaches(a, b, m, devs) && Steady(b, devs, z) && b.at == a.at
    ensures var q := BodyAt(p.ctx, i);
      Jam(b) || (Half(b, p, i + 1) && |m| <= Size(q) && (!Apart(q) ==> |m| < Size(q)))
    decreases LengthCtx(p.ctx), 1, 0
  {
    hide Process; hide Flat; hide Reaches; hide Jam; hide Steady; hide Inv; hide Apart; hide Runnable; hide Delivery;
    hide Served;
    var k := a.kids[i];
    var q := BodyAt(p.ctx, i);
    SteadyKid(a, devs, z, i);
    var c, evs := DeliverStep(a, i, devs);
    TakeStep(a, c, evs, devs, z);
    var q', r := DeliveryServes(a, c, evs, devs, i);
    var y, my := Finish(q, r, k.to, devs);
    ReachLift(c, i, y, my, devs, z);
    b, m := WithKid(c, i, Running(y)), evs + my;
    ReachTrans(a, c, evs, b, my, devs);
    if Jam(y) {
      JamUp(b, i);
    } else {
      SteadyAnswer(b, devs, z, i);
    }
  }

  lemma {:induction false} JamUp(a: Act, i: nat)
    requires a.wait.WaitForward? && i < |a.kids| && a.kids[i].state.Running? && Jam(a.kids[i].state.act)
    ensures Jam(a)
  {
    assert Blocked(a.kids[i]);
  }

  lemma {:induction false} SteadyKid(a: Act, devs: Devices, z: set<seq<byte>>, i: nat)
    requires Steady(a, devs, z) && a.wait.WaitForward? && ProgOf(a.req.cur).Forward? && i < |a.kids|
    requires |a.kids| == |Dests(ProgOf(a.req.cur).ctx)|
    ensures Served(a.kids[i], devs) && ProgOf(a.kids[i].cmds) == BodyAt(ProgOf(a.req.cur).ctx, i)
    ensures a.kids[i].to == Host(Dests(ProgOf(a.req.cur).ctx)[i])
  {
    var c := ProgOf(a.req.cur).ctx;
    assert KidInv(a.kids[i], c, i, devs);
    Witness(a.req.cur, a.at, devs);
    GoodBody(c, BranchedCtx(c), i);
    ProgOfMsg(BodyAt(c, i));
  }

  lemma {:induction false} SteadyAnswer(a: Act, devs: Devices, z: set<seq<byte>>, i: nat)
    requires Steady(a, devs, z) && i < |a.kids| && a.kids[i].open && a.kids[i].state.Running?
    requires a.kids[i].state.act.wait.Replied?
    ensures Answered(a.kids[i])
  {
    KidServed(a, devs, i);
  }

  /** All destinations have answered; the replies of those before i, but not that of x, were recorded. */
  ghost predicate Mixed(a: Act, x: nat, i: nat) {
    && a.wait.WaitForward? && x < |a.kids|
    && (forall j :: 0 <= j < i && j < |a.kids| && j != x ==> a.kids[j].state.Recorded?)
    && (forall j :: 0 <= j < |a.kids| && (i <= j || j == x) ==> Answered(a.kids[j]))
  }

  lemma {:induction false} RecordOthers(a: Act, x: nat, i: nat, devs: Devices, z: set<seq<byte>>) returns (b: Act)
    requires Steady(a, devs, z) && Mixed(a, x, i) && i <= |a.kids|
    ensures Reaches(a, b, [], devs) && Steady(b, devs, z) && b.at == a.at && |b.kids| == |a.kids|
    ensures Mixed(b, x, |a.kids|) && b.req.cur == a.req.cur
    decreases |a.kids| - i
  {
    hide Process; hide Flat; hide Reaches; hide Steady; hide Inv; hide FindReplyId; hide Answered; hide ReplyArrival;
    if i == |a.kids| {
      ReachSelf(a, devs);
      b := a;
    } else if i == x {
      b := RecordOthers(a, x, i + 1, devs, z);
    } else {
      assert Inv(a, devs) by { SteadyInv(a, devs, z); }
      StillOpen(a.kids[i]);
      StillOpen(a.kids[x]);
      StillWaits(a, devs, i, x);
      var c, evs, cut := ReplyStep(a, i, devs);
      RecordKeepsInv(a, c, evs, cut, devs, i);
      TakeStep(a, c, evs, devs, z);
      b := RecordOthers(c, x, i + 1, devs, z);
      ReachTrans(a, c, evs, b, [], devs);
      assert evs + [] == [];
    }
  }

  lemma {:induction false} SteadyInv(a: Act, devs: Devices, z: set<seq<byte>>)
    requires Steady(a, devs, z)
    ensures Inv(a, devs)
  {
  }

  lemma {:induction false} StillOpen(k: Kid)
    requires Answered(k)
    ensures !k.state.Recorded?
  {
  }

  /** The last reply, from destination x: if the program still needs the connection, that is the end of it. */
  lemma {:induction false} LastReplyOf(a: Act, p: Prog, x: nat, devs: Devices, z: set<seq<byte>>)
    returns (b: Act, evs: seq<Event>, r: Req, done: bool)
    requires Steady(a, devs, z) && Mixed(a, x, |a.kids|) && ProgOf(a.req.cur) == p
    ensures p.Forward? && |a.kids| == |Dests(p.ctx)| && Good(p) && Runnable(p.rest, a.at, devs)
    ensures Reaches(a, b, evs, devs) && done == !Clear(p.rest, Host(Dests(p.ctx)[x]))
    ensures !done ==> r.left == -1 && b == Suspended(p.rest, r, a.at, devs) && evs == Logged(p.rest, r, a.at, devs)
    ensures done ==> Jam(b) || (b.wait.Replied? && |evs| < Size(p.rest))
  {
    hide Process; hide Flat; hide Reaches; hide Jam; hide Inv; hide FindReplyId; hide Runnable; hide Hang; hide HangLog;
    hide Placed; hide Roams; hide Step; hide Answered; hide ReplyArrival;
    KidCount(a, devs, z);
    SteadyKid(a, devs, z, x);
    StillOpen(a.kids[x]);
    LastOne(a, devs, x);
    var b1, evs1, cut := ReplyStep(a, x, devs);
    var rest, r' := CompleteServes(a, b1, evs1, cut, devs, x);
    r := r';
    b, evs := Settled(b1, cut, devs), evs1 + SettleLog(b1, cut, devs);
    assert Whole(a, b, evs, devs);
    ReachSelf(b, devs);
    ReachFirst(a, b, evs, b, [], devs);
    assert evs + [] == evs;
    done := !Clear(rest, a.kids[x].to);
    if done {
      HurtServes(rest, r, a.at, a.kids[x].to, devs);
    } else {
      ClearServes(rest, r, a.at, a.kids[x].to, devs);
      assert evs1 + [] == evs1;
    }
  }

  /** When all others are recorded, the reply of x completes the context. */
  lemma {:induction false} LastOne(a: Act, devs: Devices, x: nat)
    requires Inv(a, devs) && a.wait.WaitForward? && x < |a.kids| && !a.kids[x].state.Recorded?
    requires forall j :: 0 <= j < |a.kids| && j != x ==> a.kids[j].state.Recorded?
    ensures AtForward(a.req.cur) && Completes(a.req, a.kids[x].to)
  {
    hide FindReplyId; hide Flat;
    ReplyId(a, devs, x);
    assert a.req.mask == Below(|a.kids|) - {x};
    assert |Below(|a.kids|) - {x}| == |a.kids| - 1;
  }

  // ---------- when the network executes the tree ----------

  /** A run of program `p` on node `at` that has gone wrong: it is answered although what was executed is no log of
      the tree, or it will never be answered. */
  ghost predicate Wrong(p: Prog, at: seq<byte>, last: Act, log: seq<Event>, devs: Devices)
    requires Good(p)
  {
    (last.wait.Replied? && !Meaning(p, at, log)) || Hopeless(last, devs)
  }

  /** No run goes wrong. */
  ghost predicate Correct(p: Prog, slot: Req, status: nat, at: seq<byte>, devs: Devices)
    requires Good(p)
  {
    forall b, m :: Reaches(Start(p, slot, status, at, devs), b, m, devs)
      ==> !Wrong(p, at, b, StartLog(p, slot, status, at, devs) + m, devs)
  }

  /** A program that needs a connection which a node closes itself has a run that goes wrong. */
  lemma {:induction false} NotApartFails(p: Prog, slot: Req, status: nat, at: seq<byte>, devs: Devices)
    requires Good(p) && Runnable(p, at, devs) && !Apart(p)
    ensures !Correct(p, slot, status, at, devs)
  {
    hide Runnable; hide Reaches; hide Jam; hide Suspended; hide Logged; hide Size; hide Apart; hide Meaning;
    hide Hopeless; hide Steady;
    var r := NewReq(slot, status, Msg(p));
    var z := {at} + NodesOf(p);
    var b, m := Finish(p, r, at, devs);
    var log := StartLog(p, slot, status, at, devs) + m;
    ServeSteady(p, r, at, devs, z);
    if Jam(b) {
      SteadyAlong(Start(p, slot, status, at, devs), b, m, devs, z);
      JamHopeless(b, devs, z);
    } else if Meaning(p, at, log) {
      MeaningSize(p, at, log);
      assert false;
    }
    assert Wrong(p, at, b, log, devs);
  }

  lemma {:induction false} SteadyAlong(a: Act, b: Act, m: seq<Event>, devs: Devices, z: set<seq<byte>>)
    requires Reaches(a, b, m, devs) && Steady(a, devs, z)
    ensures Steady(b, devs, z)
  {
    hide Steady; hide Leads; hide Reaches;
    var states, logs := RunOf(a, b, m, devs);
    SteadyRun(states, logs, a, b, m, devs, z);
  }

  lemma {:induction false} SteadyRun(states: seq<Act>, logs: seq<seq<Event>>, a: Act, b: Act, m: seq<Event>,
                                     devs: Devices, z: set<seq<byte>>)
    requires Leads(states, logs, a, b, m, devs) && Steady(a, devs, z)
    ensures Steady(b, devs, z)
    decreases |logs|
  {
    hide Steady; hide Whole;
    if logs != [] {
      RunRest(states, logs, devs);
      WholeSteady(a, states[1], logs[0], devs, z);
      SteadyRun(states[1..], logs[1..], states[1], b, Concat(logs[1..]), devs, z);
    }
  }

  /** From an intact state some run answers the request. */
  lemma {:induction false} Answerable(a: Act, devs: Devices, z: set<seq<byte>>)
    requires Steady(a, devs, z) && Intact(a)
    ensures !Hopeless(a, devs)
    decreases Work(a)
  {
    hide Steady; hide Intact; hide Work; hide Reaches; hide Settled; hide SettleLog; hide Step; hide Rest;
    if a.wait.Replied? {
      ReachSelf(a, devs);
    } else {
      SteadyInv(a, devs, z);
      Progress(a, devs);
      var a1, evs1, cut :| Step(a, a1, evs1, cut, devs);
      var b, evs := Settled(a1, cut, devs), evs1 + SettleLog(a1, cut, devs);
      assert Whole(a, b, evs, devs);
      WholeSound(a, b, evs, devs, z);
      Answerable(b, devs, z);
      var c, m :| Reaches(b, c, m, devs) && c.wait.Replied?;
      ReachFirst(a, b, evs, c, m, devs);
    }
  }

  /** Distributed meaning, exactly: on the programs that the network can serve, no run goes wrong if and only if the
      program keeps apart the contexts that a closed connection would hurt. */
  lemma {:induction false} MeaningExactly(p: Prog, slot: Req, status: nat, at: seq<byte>, devs: Devices)
    requires Good(p) && Runnable(p, at, devs)
    ensures Correct(p, slot, status, at, devs) <==> Apart(p)
  {
    hide Runnable; hide Apart; hide Reaches; hide Wrong; hide Start; hide StartLog;
    if !Apart(p) {
      NotApartFails(p, slot, status, at, devs);
    } else {
      forall b, m | Reaches(Start(p, slot, status, at, devs), b, m, devs)
        ensures !Wrong(p, at, b, StartLog(p, slot, status, at, devs) + m, devs)
      {
        ApartRight(p, slot, status, at, devs, b, m);
      }
    }
  }

  lemma {:induction false} ApartRight(p: Prog, slot: Req, status: nat, at: seq<byte>, devs: Devices,
                                      b: Act, m: seq<Event>)
    requires Good(p) && Runnable(p, at, devs) && Apart(p) && Reaches(Start(p, slot, status, at, devs), b, m, devs)
    ensures !Wrong(p, at, b, StartLog(p, slot, status, at, devs) + m, devs)
  {
    hide Runnable; hide Apart; hide Reaches; hide Meaning; hide Hopeless; hide Steady; hide Intact; hide Whole;
    hide Suspended; hide Logged;
    var r := NewReq(slot, status, Msg(p));
    var z := {at} + NodesOf(p);
    var states, logs := RunOf(Start(p, slot, status, at, devs), b, m, devs);
    DistributedMeaning(p, slot, status, at, devs, states, logs);
    ServeSteady(p, r, at, devs, z);
    ServeIntact(p, r, at, devs);
    RunSound(states, logs, devs, z);
    Answerable(b, devs, z);
  }

  // ---------- the shortest program that fails ----------

  /** Two forwards to the same node, one after the other. */
  function Twice(d: seq<byte>, r: Command): Prog {
    Forward(Last([d], Done(r)), Forward(Last([d], Done(r)), Done(r)))
  }

  /** A destination that the client's defaults give: TCP, no retries, one acknowledgement. */
  predicate Plainly(d: seq<byte>, r: Command) {
    && GoodDest(d, false) && Sendable(d) && 32 <= PktSize(d)
    && FwdNAck(Command(FORWARD_BEGIN, d)) == 1 && FwdRetries(Command(FORWARD_BEGIN, d)) == 0
    && Sized(r) && r.ctype == REPLY && MIN_REPLY <= RespSize(r) <= BUF_SIZE
  }

  lemma {:induction false} OnceRunnable(d: seq<byte>, r: Command, rest: Prog, at: seq<byte>, devs: Devices)
    requires Plainly(d, r) && Addr(d) != at && Good(rest) && Runnable(rest, at, devs)
    ensures var p := Forward(Last([d], Done(r)), rest);
      Good(p) && Runnable(p, at, devs) && Dests(p.ctx) == [d] && BodyAt(p.ctx, 0) == Done(r)
  {
    var c := Last([d], Done(r));
    assert Dests(c) == [d] + [] == [d];
    var s := Msg(Done(r));
    assert s == [r] + [EomCommand];
    EncodeStep(s);
    EncodeStep([EomCommand]);
    assert EncodedSize(s) == 20;
    assert Zone(c, 0) == {Addr(d)};
  }

  lemma {:induction false} TwiceRunnable(d: seq<byte>, r: Command, at: seq<byte>, devs: Devices)
    requires Plainly(d, r) && Addr(d) != at
    ensures var p := Twice(d, r);
      && Good(p) && Runnable(p, at, devs) && !Apart(p) && Severs(p.rest.ctx, Addr(d)) && Good(p.rest)
      && Runnable(p.rest, at, devs) && Dests(p.ctx) == [d] && BodyAt(p.ctx, 0) == Done(r)
  {
    hide Runnable; hide Apart; hide Clear;
    assert Runnable(Done(r), at, devs) by { DoneRunnable(r, at, devs); }
    OnceRunnable(d, r, Done(r), at, devs);
    OnceRunnable(d, r, Forward(Last([d], Done(r)), Done(r)), at, devs);
    NotClear(d, r);
  }

  lemma {:induction false} DoneRunnable(r: Command, at: seq<byte>, devs: Devices)
    requires Sized(r) && r.ctype == REPLY && MIN_REPLY <= RespSize(r) <= BUF_SIZE
    ensures Good(Done(r)) && Runnable(Done(r), at, devs)
  {
  }

  lemma {:induction false} NotClear(d: seq<byte>, r: Command)
    requires |d| == FWD_OPTS
    ensures !Apart(Twice(d, r))
  {
    var p := Twice(d, r);
    assert Dests(p.ctx)[0] == d && Dests(p.rest.ctx)[0] == d;
    assert !Clear(p.rest, Host(Dests(p.ctx)[0]));
  }

  /** The failing run: the node answers with an error right after the first branch, before the second one has been
      executed at all, although no node or connection failed. */
  lemma {:induction false} TwiceFails(d: seq<byte>, r: Command, slot: Req, status: nat, at: seq<byte>, devs: Devices)
    returns (b: Act)
    requires Plainly(d, r) && Addr(d) != at
    ensures Good(Twice(d, r)) && Runnable(Twice(d, r), at, devs)
    ensures var log := [Event(Addr(d), r)] + [Event(at, r)];
      && StartLog(Twice(d, r), slot, status, at, devs) == []
      && Reaches(Start(Twice(d, r), slot, status, at, devs), b, log, devs)
      && b.wait == Replied(r) && b.req.status == ERR && !Meaning(Twice(d, r), at, log)
  {
    hide Process; hide Flat; hide Reaches; hide Inv; hide Runnable; hide Hang; hide HangLog; hide Meaning; hide Apart;
    hide Placed; hide Roams; hide Step; hide ReplyArrival; hide Delivery; hide Served; hide FindReplyId; hide Clear;
    var p, x := Twice(d, r), Addr(d);
    TwiceRunnable(d, r, at, devs);
    var r0 := NewReq(slot, status, Msg(p));
    var a, z := Start(p, slot, status, at, devs), {at} + NodesOf(p);
    ServeSteady(p, r0, at, devs, z);
    FreshStart(p, r0, at, devs);
    KidCount(a, devs, z);
    SteadyKid(a, devs, z, 0);
    var c, evs := DeliverStep(a, 0, devs);
    TakeStep(a, c, evs, devs, z);
    var q, rq := DeliveryServes(a, c, evs, devs, 0);
    ProcessDone(Done(r), rq, x, devs);
    assert evs == [Event(x, r)];
    LastOne(c, devs, 0);
    var e, evs', cut := ReplyStep(c, 0, devs);
    var rest, r' := CompleteServes(c, e, evs', cut, devs, 0);
    ErrorReply(rest, r', at, x, devs);
    b := Settled(e, cut, devs);
    var m := evs' + SettleLog(e, cut, devs);
    assert Whole(c, b, m, devs);
    assert m == [Event(at, r)];
    ReachSelf(b, devs);
    ReachFirst(c, b, m, b, [], devs);
    assert m + [] == m;
    ReachTrans(a, c, evs, b, m, devs);
    if Meaning(p, at, evs + m) {
      MeaningSize(p, at, evs + m);
      SizeOfTwice(d, r);
      assert false;
    }
  }

  lemma {:induction false} SizeOfTwice(d: seq<byte>, r: Command)
    requires Good(Twice(d, r))
    ensures Size(Twice(d, r)) >= 3
  {
    var p := Twice(d, r);
    SizeOfForward(p.rest);
    GoodDests(p.ctx, BranchedCtx(p.ctx));
    SizePositive(BodyAt(p.ctx, 0));
  }

  /** A context that starts with the node just heard from, without retries: the request is given up at once. */
  lemma {:induction false} ErrorReply(p: Prog, r: Req, at: seq<byte>, x: seq<byte>, devs: Devices)
    requires Good(p) && Runnable(p, at, devs) && r.left == -1 && p.Forward? && Severs(p.ctx, x)
    ensures var a := Suspended(p, r, at, devs);
      var b := Hang(a, at, x, devs);
      && ReturnCode(a.wait) == 0 && Logged(p, r, at, devs) == []
      && b.wait == Replied(LastReply(p)) && b.req.status == ERR && HangLog(a, at, x, devs) == [Event(at, LastReply(p))]
  {
    hide Process; hide Flat; hide Runnable; hide Severed; hide FailOver; hide Owed;
    var a := Suspended(p, r, at, devs);
    ForwardOpens(r, p, at, devs);
    SeveredMsg(p, a.req, x);
    FailOverReplies(p, a.req, at, devs);
    SentLog(a, 0, at, x, devs);
  }
}
