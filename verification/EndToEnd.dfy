/** From a template on the client to the commands executed all over the network. */
module EndToEnd {
  import opened Layout
  import opened Tree
  import opened Node
  import opened Template
  import opened TemplateTree
  import opened Programs
  import opened Network
  import opened Failures

  /** The state of a node that has just received `cmds` and served them until it first suspends. */
  function Arrival(at: seq<byte>, slot: Req, status: nat, cmds: seq<Command>, devs: Devices): Act {
    Resume(at, Received(at, slot, status, cmds, devs), [])
  }

  function ArrivalLog(at: seq<byte>, slot: Req, status: nat, cmds: seq<Command>, devs: Devices): seq<Event> {
    Log(at, Received(at, slot, status, cmds, devs).done)
  }

  /** `m` holds, in its first `size` bytes, a message that ccmd_dump wrote for template `p`. */
  ghost predicate Dumps(m: seq<byte>, size: nat, p: TProg, reqId: nat)
    requires GoodT(p)
  {
    && size <= |m| && GoodNodes(TFlat(p, []))
    && Decode(m, MESSAGE_HEADER, size) == Compile(TFlat(p, []), reqId) + [EomCommand]
  }

  lemma {:induction false} DumpArrives(p: TProg, reqId: nat, m: seq<byte>, size: nat, slot: Req, status: nat,
                                       at: seq<byte>, devs: Devices)
    requires GoodT(p) && Stays(p, reqId) && Dumps(m, size, p, reqId)
    ensures Good(Expand(p, reqId))
    ensures var q, cmds := Expand(p, reqId), Decode(m, MESSAGE_HEADER, size);
      && Arrival(at, slot, status, cmds, devs) == Start(q, slot, status, at, devs)
      && ArrivalLog(at, slot, status, cmds, devs) == StartLog(q, slot, status, at, devs)
  {
    hide Process; hide Flat; hide Compile; hide Expand; hide TFlat; hide Decode;
    CompiledTree(p, reqId);
  }

  /** A message that ccmd_dump wrote for a template that compiles to a tree, received by node `at`, makes the network
      execute the template's tree with each taken PSKIP dropping the items it skips: whatever the
      interleaving, the run is bounded, cannot get stuck, and its log is one of that tree. */
  lemma {:induction false} TemplateMeaning(p: TProg, reqId: nat, m: seq<byte>, size: nat, slot: Req, status: nat,
                                           at: seq<byte>, devs: Devices, states: seq<Act>, logs: seq<seq<Event>>)
    requires GoodT(p) && Stays(p, reqId) && Dumps(m, size, p, reqId)
    requires Good(Expand(p, reqId)) && Runnable(Expand(p, reqId), at, devs) && Apart(Expand(p, reqId))
    requires Run(states, logs, devs) && states[0] == Arrival(at, slot, status, Decode(m, MESSAGE_HEADER, size), devs)
    ensures |states| == |logs| + 1 && |logs| < Weight(Expand(p, reqId))
    ensures var first := ArrivalLog(at, slot, status, Decode(m, MESSAGE_HEADER, size), devs);
      if states[|logs|].wait.Replied? then Meaning(Expand(p, reqId), at, first + Concat(logs))
      else exists b, evs :: Whole(states[|logs|], b, evs, devs)
  {
    hide Meaning; hide Whole; hide Expand; hide Decode; hide Runnable; hide Apart; hide Start; hide StartLog;
    hide Arrival; hide ArrivalLog; hide Dumps; hide Weight;
    DumpArrives(p, reqId, m, size, slot, status, at, devs);
    DistributedMeaning(Expand(p, reqId), slot, status, at, devs, states, logs);
  }

  /** Exactly when: no run goes wrong if and only if the template's tree keeps apart the contexts that a closed
      connection would hurt. */
  lemma {:induction false} TemplateExactly(p: TProg, reqId: nat, m: seq<byte>, size: nat, slot: Req, status: nat,
                                           at: seq<byte>, devs: Devices)
    requires GoodT(p) && Stays(p, reqId) && Dumps(m, size, p, reqId)
    requires Good(Expand(p, reqId)) && Runnable(Expand(p, reqId), at, devs)
    ensures var q, cmds := Expand(p, reqId), Decode(m, MESSAGE_HEADER, size);
      (forall b, log :: Reaches(Arrival(at, slot, status, cmds, devs), b, log, devs)
         ==> !Wrong(q, at, b, ArrivalLog(at, slot, status, cmds, devs) + log, devs))
      <==> Apart(q)
  {
    hide Reaches; hide Wrong; hide Expand; hide Decode; hide Runnable; hide Apart; hide Start; hide StartLog;
    hide Arrival; hide ArrivalLog; hide Dumps;
    DumpArrives(p, reqId, m, size, slot, status, at, devs);
    MeaningExactly(Expand(p, reqId), slot, status, at, devs);
  }
}
