/** The request table (src/request.c, src/request.h) and the per-connection request lists threaded through
    it (conn_req_add and the list part of conn_req_remove in src/connection.c). */
module RequestTable {
  const MAX_REQS: nat := 65536
  const NULL: int := -1

  function Slot(id: nat): (s: nat)
    ensures s < MAX_REQS
  {
    id % MAX_REQS
  }

  // ---------- linked lists through a table ----------

  /** The columns of the table, by slot, and the heads of the lists, by connection. Links are slots or NULL;
      a free slot has id -1. */
  datatype Links = Links(id: seq<int>, conn: seq<int>, prev: seq<int>, next: seq<int>, head: seq<int>)

  ghost predicate Shaped(k: Links) {
    |k.id| == |k.conn| == |k.prev| == |k.next| == MAX_REQS
  }

  /** The requests `l` belong to connection c, newest first: their ids go strictly down. */
  ghost predicate Owned(k: Links, c: nat, l: seq<nat>)
    requires Shaped(k)
  {
    && (forall i :: 0 <= i < |l| ==> l[i] < MAX_REQS && k.id[l[i]] != -1 && k.conn[l[i]] == c)
    && (forall i, j :: 0 <= i < j < |l| ==> k.id[l[i]] > k.id[l[j]])
  }

  /** They are doubly linked, in that order, from the head of the connection's list. */
  ghost predicate Linked(k: Links, c: nat, l: seq<nat>)
    requires Shaped(k) && c < |k.head| && forall i :: 0 <= i < |l| ==> l[i] < MAX_REQS
  {
    k.head[c] == (if l == [] then NULL else l[0]) && forall i :: 0 <= i < |l| ==> LinkedAt(k, l, i)
  }

  ghost predicate LinkedAt(k: Links, l: seq<nat>, i: nat)
    requires Shaped(k) && i < |l| && l[i] < MAX_REQS
  {
    && k.next[l[i]] == (if i + 1 < |l| then l[i + 1] else NULL)
    && k.prev[l[i]] == (if i > 0 then l[i - 1] else NULL)
  }

  ghost predicate Chained(k: Links, c: nat, l: seq<nat>)
    requires Shaped(k) && c < |k.head|
  {
    Owned(k, c, l) && Linked(k, c, l)
  }

  ghost predicate AllChained(k: Links, lists: seq<seq<nat>>) {
    Shaped(k) && |lists| == |k.head| && forall c :: 0 <= c < |lists| ==> Chained(k, c, lists[c])
  }

  /** Two tables that agree on the slots of a list and on its head agree on the list. */
  lemma {:induction false} SameList(k: Links, k': Links, c: nat, l: seq<nat>)
    requires Shaped(k) && Shaped(k') && c < |k.head| == |k'.head| && Chained(k, c, l) && k'.head[c] == k.head[c]
    requires forall i :: 0 <= i < |l| ==>
      && k'.id[l[i]] == k.id[l[i]] && k'.conn[l[i]] == k.conn[l[i]]
      && k'.prev[l[i]] == k.prev[l[i]] && k'.next[l[i]] == k.next[l[i]]
    ensures Chained(k', c, l)
  {
    forall i | 0 <= i < |l| ensures LinkedAt(k', l, i) {
      assert LinkedAt(k, l, i);
    }
  }

  /** conn_req_add on slot s: the request goes to the front of the list. */
  function Added(k: Links, c: nat, s: nat, id: int): Links
    requires Shaped(k) && c < |k.head| && s < MAX_REQS && -1 <= k.head[c] < MAX_REQS
  {
    var h := k.head[c];
    var prev := k.prev[s := NULL];
    Links(k.id[s := id], k.conn[s := c], if h != NULL then prev[h := s] else prev, k.next[s := h], k.head[c := s])
  }

  lemma {:induction false} AddChained(k: Links, lists: seq<seq<nat>>, c: nat, s: nat, id: int)
    requires AllChained(k, lists) && c < |lists| && s < MAX_REQS && k.id[s] == -1 && id >= 0
    requires forall i :: 0 <= i < |lists[c]| ==> k.id[lists[c][i]] < id
    ensures -1 <= k.head[c] < MAX_REQS
    ensures AllChained(Added(k, c, s, id), lists[c := [s] + lists[c]])
  {
    var l := lists[c];
    assert Chained(k, c, l);
    var k', lists' := Added(k, c, s, id), lists[c := [s] + l];
    forall d | 0 <= d < |lists'| ensures Chained(k', d, lists'[d]) {
      assert Chained(k, d, lists[d]);
      if d != c {
        SameList(k, k', d, lists[d]);
      } else {
        AddHere(k, l, c, s, id);
      }
    }
  }

  lemma {:induction false} AddHere(k: Links, l: seq<nat>, c: nat, s: nat, id: int)
    requires Shaped(k) && c < |k.head| && Chained(k, c, l) && s < MAX_REQS && k.id[s] == -1 && id >= 0
    requires -1 <= k.head[c] < MAX_REQS && forall i :: 0 <= i < |l| ==> k.id[l[i]] < id
    ensures Chained(Added(k, c, s, id), c, [s] + l)
  {
    var k', l' := Added(k, c, s, id), [s] + l;
    AddOwned(k, l, c, s, id);
    forall i | 0 <= i < |l'| ensures LinkedAt(k', l', i) {
      AddLink(k, l, c, s, id, i);
    }
    assert k'.head[c] == l'[0];
  }

  lemma {:induction false} AddOwned(k: Links, l: seq<nat>, c: nat, s: nat, id: int)
    requires Shaped(k) && c < |k.head| && Owned(k, c, l) && s < MAX_REQS && k.id[s] == -1 && id >= 0
    requires -1 <= k.head[c] < MAX_REQS && forall i :: 0 <= i < |l| ==> k.id[l[i]] < id
    ensures Shaped(Added(k, c, s, id)) && Owned(Added(k, c, s, id), c, [s] + l)
    ensures Added(k, c, s, id).head[c] == s
  {
    var k', l' := Added(k, c, s, id), [s] + l;
    forall i | 0 < i < |l'| ensures l'[i] == l[i - 1] && l'[i] != s && k'.id[l'[i]] == k.id[l[i - 1]] {
    }
  }

  lemma {:induction false} AddLink(k: Links, l: seq<nat>, c: nat, s: nat, id: int, i: nat)
    requires Shaped(k) && c < |k.head| && Chained(k, c, l) && s < MAX_REQS && k.id[s] == -1
    requires -1 <= k.head[c] < MAX_REQS && i <= |l|
    ensures var k', l' := Added(k, c, s, id), [s] + l;
      l'[i] < MAX_REQS && LinkedAt(k', l', i)
  {
    var l' := [s] + l;
    if i > 0 {
      assert l'[i] == l[i - 1] && l'[i - 1] == (if i > 1 then l[i - 2] else s);
      Neighbours(k, c, l, i - 1);
      DistinctSlots(k, c, l);
    } else if l != [] {
      Neighbours(k, c, l, 0);
    }
  }

  /** A list without its j-th element. */
  function Without(l: seq<nat>, j: nat): seq<nat>
    requires j < |l|
  {
    l[..j] + l[j + 1..]
  }

  /** conn_req_remove and req_unlink on slot s of connection c: its neighbours are linked to each other. */
  function Removed(k: Links, c: nat, s: nat): Links
    requires Shaped(k) && c < |k.head| && s < MAX_REQS && -1 <= k.next[s] < MAX_REQS && -1 <= k.prev[s] < MAX_REQS
  {
    var n, p := k.next[s], k.prev[s];
    var prev := if n != NULL then k.prev[n := p] else k.prev;
    var next := if p != NULL then k.next[p := n] else k.next;
    Links(k.id[s := -1], k.conn, prev[s := NULL], next[s := NULL], if k.head[c] == s then k.head[c := n] else k.head)
  }

  lemma {:induction false} Neighbours(k: Links, c: nat, l: seq<nat>, i: nat)
    requires Shaped(k) && c < |k.head| && Chained(k, c, l) && i < |l|
    ensures l[i] < MAX_REQS && k.conn[l[i]] == c && k.id[l[i]] != -1
    ensures k.next[l[i]] == if i + 1 < |l| then l[i + 1] else NULL
    ensures k.prev[l[i]] == if i > 0 then l[i - 1] else NULL
    ensures -1 <= k.next[l[i]] < MAX_REQS && -1 <= k.prev[l[i]] < MAX_REQS
    ensures i + 1 < |l| ==> k.conn[l[i + 1]] == c
    ensures i > 0 ==> k.conn[l[i - 1]] == c
  {
    assert LinkedAt(k, l, i);
  }

  lemma {:induction false} RemoveChained(k: Links, lists: seq<seq<nat>>, c: nat, j: nat)
    requires AllChained(k, lists) && c < |lists| && j < |lists[c]|
    ensures lists[c][j] < MAX_REQS && -1 <= k.next[lists[c][j]] < MAX_REQS && -1 <= k.prev[lists[c][j]] < MAX_REQS
    ensures AllChained(Removed(k, c, lists[c][j]), lists[c := Without(lists[c], j)])
  {
    var l := lists[c];
    assert Chained(k, c, l);
    var s := l[j];
    Neighbours(k, c, l, j);
    var k', lists' := Removed(k, c, s), lists[c := Without(l, j)];
    forall d | 0 <= d < |lists'| ensures Chained(k', d, lists'[d]) {
      assert Chained(k, d, lists[d]);
      if d != c {
        SameList(k, k', d, lists[d]);
      } else {
        RemoveHere(k, l, c, j);
      }
    }
  }

  /** The index in `l` of the i-th element of Without(l, j). */
  function Source(j: nat, i: nat): nat {
    if i < j then i else i + 1
  }

  lemma {:induction false} RemoveHere(k: Links, l: seq<nat>, c: nat, j: nat)
    requires Shaped(k) && c < |k.head| && Chained(k, c, l) && j < |l|
    requires -1 <= k.next[l[j]] < MAX_REQS && -1 <= k.prev[l[j]] < MAX_REQS
    ensures Chained(Removed(k, c, l[j]), c, Without(l, j))
  {
    var k', l' := Removed(k, c, l[j]), Without(l, j);
    RemoveOwned(k, l, c, j);
    forall i | 0 <= i < |l'| ensures LinkedAt(k', l', i) {
      RemoveLink(k, l, c, j, i);
    }
  }

  lemma {:induction false} RemoveOwned(k: Links, l: seq<nat>, c: nat, j: nat)
    requires Shaped(k) && c < |k.head| && Chained(k, c, l) && j < |l|
    requires -1 <= k.next[l[j]] < MAX_REQS && -1 <= k.prev[l[j]] < MAX_REQS
    ensures var k', l' := Removed(k, c, l[j]), Without(l, j);
      && Shaped(k') && Owned(k', c, l') && |k'.head| == |k.head|
      && k'.head[c] == (if l' == [] then NULL else l'[0])
  {
    var k', l' := Removed(k, c, l[j]), Without(l, j);
    DistinctSlots(k, c, l);
    Neighbours(k, c, l, j);
    forall i | 0 <= i < |l'| ensures l'[i] == l[Source(j, i)] && k'.id[l'[i]] == k.id[l[Source(j, i)]] {
    }
    forall i, h | 0 <= i < h < |l'| ensures k'.id[l'[i]] > k'.id[l'[h]] {
      assert k.id[l[Source(j, i)]] > k.id[l[Source(j, h)]];
    }
  }

  lemma {:induction false} DistinctSlots(k: Links, c: nat, l: seq<nat>)
    requires Shaped(k) && Owned(k, c, l)
    ensures forall i, h :: 0 <= i < |l| && 0 <= h < |l| && i != h ==> l[i] != l[h]
  {
    forall i, h | 0 <= i < |l| && 0 <= h < |l| && i != h ensures l[i] != l[h] {
      if i < h { assert k.id[l[i]] > k.id[l[h]]; } else { assert k.id[l[h]] > k.id[l[i]]; }
    }
  }

  lemma {:induction false} RemoveLink(k: Links, l: seq<nat>, c: nat, j: nat, i: nat)
    requires Shaped(k) && c < |k.head| && Chained(k, c, l) && j < |l| && i < |l| - 1
    requires -1 <= k.next[l[j]] < MAX_REQS && -1 <= k.prev[l[j]] < MAX_REQS
    ensures var k', l' := Removed(k, c, l[j]), Without(l, j);
      l'[i] < MAX_REQS && LinkedAt(k', l', i)
  {
    var m := Source(j, i);
    var l' := Without(l, j);
    assert l'[i] == l[m] && (i + 1 < |l'| ==> l'[i + 1] == l[Source(j, i + 1)])
        && (i > 0 ==> l'[i - 1] == l[Source(j, i - 1)]);
    DistinctSlots(k, c, l);
    Neighbours(k, c, l, j);
    Neighbours(k, c, l, m);
  }

  // ---------- the table ----------

  class Table {
    const reqId: array<int>     // -1 marks a free slot
    const connId: array<int>
    const prev: array<int>
    const next: array<int>
    const reqList: array<int>   // per connection: its newest request
    var lastReqs: nat

    ghost var lists: seq<seq<nat>>   // per connection: its requests, newest first
    ghost var live: set<nat>         // ids allocated and not yet unlinked

    ghost function View(): Links
      reads reqId, connId, prev, next, reqList
    {
      Links(reqId[..], connId[..], prev[..], next[..], reqList[..])
    }

    ghost predicate Apart() {
      && reqId.Length == connId.Length == prev.Length == next.Length == MAX_REQS
      && reqId != connId && reqId != prev && reqId != next && reqId != reqList && connId != prev && connId != next
      && connId != reqList && prev != next && prev != reqList && next != reqList
    }

    /** The lists are well formed and hold exactly the slots in use, each under an id handed out before
        that maps to it; an id is live exactly when its slot still carries it. */
    ghost predicate Valid()
      reads this, reqId, connId, prev, next, reqList
    {
      && Apart() && AllChained(View(), lists)
      && Housed(View(), lists, lastReqs)
      && (forall id: nat :: id in live <==> reqId[Slot(id)] == id)
    }

    /** req_init and empty connections. */
    constructor (conns: nat)
      ensures Valid() && lists == seq(conns, _ => []) && live == {} && lastReqs == 0
    {
      reqId := new int[MAX_REQS](_ => -1);
      connId := new int[MAX_REQS](_ => -1);
      prev := new int[MAX_REQS](_ => NULL);
      next := new int[MAX_REQS](_ => NULL);
      reqList := new int[conns](_ => NULL);
      lastReqs, lists, live := 0, seq(conns, _ => []), {};
    }

    /** req_get_by_id, for the id that a message carries, read as an int. The remainder is unsigned, so the id -1
        looks at the last slot, and a free slot carries that id: it is then returned as if it were a request. */
    method ReqGetById(id: int) returns (s: int)
      requires Valid()
      ensures s != NULL <==> (id >= 0 && id in live) || (id == -1 && reqId[MAX_REQS - 1] == -1)
      ensures s != NULL ==> s == id % MAX_REQS && reqId[s] == id
    {
      if reqId[id % MAX_REQS] != id { return NULL; }
      s := id % MAX_REQS;
    }

    /** With no live request every slot is free. */
    lemma {:induction false} AllFree()
      requires Valid() && live == {}
      ensures forall x :: 0 <= x < MAX_REQS ==> reqId[x] == -1
    {
    }

    /** req_alloc: the id is used up even when its slot is still taken. */
    method ReqAlloc() returns (s: int)
      requires Apart()
      modifies this`lastReqs, reqId, prev, next
      ensures lastReqs == old(lastReqs) + 1
      ensures s == if old(reqId[Slot(lastReqs)]) == -1 then Slot(old(lastReqs)) else NULL
      ensures s == NULL ==> View() == old(View())
      ensures s != NULL ==> reqId[..] == old(reqId[..])[s := old(lastReqs)]
      ensures s != NULL ==> prev[..] == old(prev[..])[s := NULL] && next[..] == old(next[..])[s := NULL]
    {
      var id := lastReqs;
      lastReqs := lastReqs + 1;
      s := id % MAX_REQS;
      if reqId[s] != -1 { return NULL; }
      reqId[s], next[s], prev[s] := id, NULL, NULL;
    }

    /** conn_req_add. */
    method ConnReqAdd(c: nat) returns (s: int)
      requires Valid() && c < |lists|
      modifies this, reqId, connId, prev, next, reqList
      ensures Valid() && lastReqs == old(lastReqs) + 1
      ensures s == if old(reqId[Slot(lastReqs)]) == -1 then Slot(old(lastReqs)) else NULL
      ensures s == NULL ==> lists == old(lists) && live == old(live)
      ensures s != NULL ==> lists == old(lists)[c := [s] + old(lists)[c]] && live == old(live) + {old(lastReqs)}
    {
      hide AllChained; hide Housed;
      ghost var id, k := lastReqs, View();
      ListBounds(k, lists, lastReqs, c);
      s := ReqAlloc();
      if s == NULL {
        StillHoused(k, lists, id);
        return;
      }
      AddChained(k, lists, c, s, id);
      connId[s] := c;
      next[s] := reqList[c];
      if next[s] != NULL { prev[next[s]] := s; }
      reqList[c] := s;
      assert View() == Added(k, c, s, id);
      AddHoused(k, lists, id, c, s);
      lists := lists[c := [s as nat] + lists[c]];
      live := live + {id};
    }

    /** req_unlink, called by conn_req_remove once the head of the list is right; returns the next request. */
    method ReqUnlink(s: nat) returns (following: int)
      requires Apart() && s < MAX_REQS && -1 <= next[s] < MAX_REQS && -1 <= prev[s] < MAX_REQS
      requires next[s] != s && prev[s] != s
      modifies reqId, prev, next
      ensures following == old(next[s]) && reqId[..] == old(reqId[..])[s := -1]
      ensures var n, p := old(next[s]), old(prev[s]);
        && prev[..] == (if n != NULL then old(prev[..])[n := p] else old(prev[..]))[s := NULL]
        && next[..] == (if p != NULL then old(next[..])[p := n] else old(next[..]))[s := NULL]
    {
      following := next[s];
      if next[s] != NULL { prev[next[s]] := prev[s]; }
      if prev[s] != NULL { next[prev[s]] := next[s]; }
      next[s], prev[s], reqId[s] := NULL, NULL, -1;
    }

    /** The list part of conn_req_remove: the request in slot s, the j-th of connection c, leaves the list and
        its id is live no more. */
    method ConnReqRemove(c: nat, s: nat, ghost j: nat) returns (following: int)
      requires Valid() && c < |lists| && j < |lists[c]| && lists[c][j] == s
      modifies this, reqId, prev, next, reqList
      ensures Valid() && lastReqs == old(lastReqs)
      ensures lists == old(lists)[c := Without(old(lists)[c], j)] && live == old(live) - {old(reqId[s])}
      ensures following == if j + 1 < |old(lists)[c]| then old(lists)[c][j + 1] else NULL
    {
      hide AllChained; hide Housed;
      ghost var k := View();
      InList(k, lists, lastReqs, c, j);
      ghost var id := reqId[s];
      RemoveChained(k, lists, c, j);
      RemoveHoused(k, lists, lastReqs, c, j);
      if reqList[c] == s { reqList[c] := next[s]; }
      following := ReqUnlink(s);
      assert View() == Removed(k, c, s);
      lists := lists[c := Without(lists[c], j)];
      live := live - {id};
    }
  }

  /** Every slot in use is in the list of its connection, under an id below `last` that maps to it. */
  ghost predicate Housed(k: Links, lists: seq<seq<nat>>, last: nat)
    requires Shaped(k)
  {
    forall s :: 0 <= s < MAX_REQS && k.id[s] != -1 ==>
      && 0 <= k.id[s] < last && Slot(k.id[s]) == s && 0 <= k.conn[s] < |lists| && s in lists[k.conn[s]]
  }

  lemma {:induction false} StillHoused(k: Links, lists: seq<seq<nat>>, last: nat)
    requires Shaped(k) && Housed(k, lists, last)
    ensures Housed(k, lists, last + 1)
  {
  }

  /** Every id in a list was handed out before `last`. */
  lemma {:induction false} ListBounds(k: Links, lists: seq<seq<nat>>, last: nat, c: nat)
    requires AllChained(k, lists) && Housed(k, lists, last) && c < |lists|
    ensures |k.head| == |lists| && -1 <= k.head[c] < MAX_REQS
    ensures forall i :: 0 <= i < |lists[c]| ==> lists[c][i] < MAX_REQS && k.id[lists[c][i]] < last
  {
    assert Chained(k, c, lists[c]);
  }

  lemma {:induction false} AddHoused(k: Links, lists: seq<seq<nat>>, id: nat, c: nat, s: nat)
    requires Shaped(k) && Housed(k, lists, id) && c < |lists| == |k.head| && s == Slot(id) && k.id[s] == -1
    requires -1 <= k.head[c] < MAX_REQS
    ensures Housed(Added(k, c, s, id), lists[c := [s] + lists[c]], id + 1)
  {
    var k', lists' := Added(k, c, s, id), lists[c := [s] + lists[c]];
    forall x | 0 <= x < MAX_REQS && k'.id[x] != -1
      ensures 0 <= k'.id[x] < id + 1 && Slot(k'.id[x]) == x && 0 <= k'.conn[x] < |lists'| && x in lists'[k'.conn[x]]
    {
      if x == s { assert lists'[c][0] == s; }
    }
  }

  lemma {:induction false} InList(k: Links, lists: seq<seq<nat>>, last: nat, c: nat, j: nat)
    requires AllChained(k, lists) && Housed(k, lists, last) && c < |lists| && j < |lists[c]|
    ensures var s := lists[c][j];
      && |k.head| == |lists| && s < MAX_REQS && 0 <= k.id[s] && Slot(k.id[s]) == s
      && k.next[s] == (if j + 1 < |lists[c]| then lists[c][j + 1] else NULL)
      && k.next[s] != s && k.prev[s] != s
  {
    assert Chained(k, c, lists[c]);
    Neighbours(k, c, lists[c], j);
    DistinctSlots(k, c, lists[c]);
  }

  lemma {:induction false} RemoveHoused(k: Links, lists: seq<seq<nat>>, last: nat, c: nat, j: nat)
    requires AllChained(k, lists) && Housed(k, lists, last) && c < |lists| && j < |lists[c]| && lists[c][j] < MAX_REQS
    requires -1 <= k.next[lists[c][j]] < MAX_REQS && -1 <= k.prev[lists[c][j]] < MAX_REQS
    ensures Housed(Removed(k, c, lists[c][j]), lists[c := Without(lists[c], j)], last)
  {
    var s := lists[c][j];
    var k', lists' := Removed(k, c, s), lists[c := Without(lists[c], j)];
    forall x | 0 <= x < MAX_REQS && k'.id[x] != -1
      ensures 0 <= k'.id[x] < last && Slot(k'.id[x]) == x && 0 <= k'.conn[x] < |lists'| && x in lists'[k'.conn[x]]
    {
      if k.conn[x] == c {
        var i :| 0 <= i < |lists[c]| && lists[c][i] == x;
        assert i != j;
        assert Without(lists[c], j)[if i < j then i else i - 1] == x;
      }
    }
  }

  /** The input for which a free slot is taken for a request: in a table with no request at all, the id -1
      (0xFFFFFFFF in the message). */
  method GhostRequest() returns (t: Table, s: int)
    ensures fresh(t) && t.Valid() && t.live == {} && s == MAX_REQS - 1 && t.reqId[s] == -1
  {
    t := new Table(1);
    t.AllFree();
    s := t.ReqGetById(-1);
  }
}
