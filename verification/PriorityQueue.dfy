/** The indexed binary heap of src/priority_queue.c: nodes keep their place in a table, so that a caller's
    handle to a node stays good while the heap above it is reordered, and free table slots are kept on a
    stack. A node is named here by its index in the table. */
module PriorityQueue {
  import opened Sets

  // ---------- heap order on the sequence of keys by heap position ----------

  function Parent(i: nat): nat
    requires i > 0
  {
    (i - 1) / 2
  }

  predicate OrderedAt(ks: seq<int>, i: nat)
    requires 0 < i < |ks|
  {
    ks[Parent(i)] <= ks[i]
  }

  ghost predicate HeapOrder(ks: seq<int>) {
    forall i :: 0 < i < |ks| ==> OrderedAt(ks, i)
  }

  /** Heap order, but for the links of position p to its parent and its children. */
  ghost predicate OrderedBut(ks: seq<int>, p: nat) {
    && (forall i :: 0 < i < |ks| && i != p && Parent(i) != p ==> OrderedAt(ks, i))
    && (0 < p < |ks| ==> forall i :: 0 < i < |ks| && Parent(i) == p ==> ks[Parent(p)] <= ks[i])
  }

  ghost predicate ChildrenOk(ks: seq<int>, p: nat) {
    forall i :: 0 < i < |ks| && Parent(i) == p ==> OrderedAt(ks, i)
  }

  ghost predicate ParentOk(ks: seq<int>, p: nat) {
    0 < p < |ks| ==> OrderedAt(ks, p)
  }

  function Swapped(ks: seq<int>, i: nat, j: nat): seq<int>
    requires i < |ks| && j < |ks|
  {
    ks[i := ks[j]][j := ks[i]]
  }

  /** Swapping a too small key with its parent moves the trouble to the parent's position. */
  lemma {:induction false} SwapUp(ks: seq<int>, p: nat)
    requires OrderedBut(ks, p) && 0 < p < |ks| && ks[Parent(p)] > ks[p]
    ensures var ks' := Swapped(ks, Parent(p), p);
      OrderedBut(ks', Parent(p)) && ChildrenOk(ks', Parent(p))
  {
    var q, ks' := Parent(p), Swapped(ks, Parent(p), p);
    forall i | 0 < i < |ks| && i != q
      ensures OrderedAt(ks', i) && (q > 0 && Parent(i) == q ==> ks'[Parent(q)] <= ks'[i])
    {
      if i != p && Parent(i) != p { assert OrderedAt(ks, i); }
      if q > 0 { assert OrderedAt(ks, q); }
    }
  }

  /** The child that get_child_node picks: the only one, or the second unless the first is smaller. */
  function Child(ks: seq<int>, p: nat): (c: nat)
    requires 2 * p + 1 < |ks|
    ensures p < c < |ks| && Parent(c) == p
    ensures forall i :: 0 < i < |ks| && Parent(i) == p ==> ks[c] <= ks[i]
  {
    if 2 * p + 2 >= |ks| || ks[2 * p + 1] < ks[2 * p + 2] then 2 * p + 1 else 2 * p + 2
  }

  /** Swapping a too large key with its smallest child moves the trouble to the child's position. */
  lemma {:induction false} SwapDown(ks: seq<int>, p: nat)
    requires OrderedBut(ks, p) && ParentOk(ks, p) && 2 * p + 1 < |ks| && ks[Child(ks, p)] < ks[p]
    ensures var c := Child(ks, p);
      var ks' := Swapped(ks, c, p);
      OrderedBut(ks', c) && ParentOk(ks', c)
  {
    var c := Child(ks, p);
    var ks' := Swapped(ks, c, p);
    forall i | 0 < i < |ks| && Parent(i) != c ensures OrderedAt(ks', i) {
      if i != p && Parent(i) != p { assert OrderedAt(ks, i); }
    }
    forall i | 0 < i < |ks| && Parent(i) == c ensures ks'[Parent(c)] <= ks'[i] {
      assert OrderedAt(ks, i);
    }
  }

  lemma {:induction false} Settled(ks: seq<int>, p: nat)
    requires OrderedBut(ks, p) && ParentOk(ks, p) && ChildrenOk(ks, p)
    ensures HeapOrder(ks)
  {
  }

  /** The top of a heap is a minimum. */
  lemma {:induction false} TopIsLeast(ks: seq<int>, i: nat)
    requires HeapOrder(ks) && i < |ks|
    ensures ks[0] <= ks[i]
    decreases i
  {
    if i > 0 {
      assert OrderedAt(ks, i);
      TopIsLeast(ks, Parent(i));
    }
  }

  // ---------- the queue ----------

  datatype Node = Node(heapId: nat, key: int, data: int)

  /** What a node carries for its owner. */
  datatype Entry = Entry(key: int, data: int)

  function KeysBy(ns: seq<Node>, hs: seq<nat>): (ks: seq<int>)
    requires forall i :: 0 <= i < |hs| ==> hs[i] < |ns|
    ensures |ks| == |hs| && forall i :: 0 <= i < |hs| ==> ks[i] == ns[hs[i]].key
  {
    if hs == [] then [] else KeysBy(ns, hs[..|hs| - 1]) + [ns[hs[|hs| - 1]].key]
  }

  lemma {:induction false} ParentSettled(ks: seq<int>, p: nat)
    requires 0 < p < |ks| ==> ks[Parent(p)] <= ks[p]
    ensures ParentOk(ks, p)
  {
  }

  lemma {:induction false} ChildrenSettled(ks: seq<int>, p: nat)
    requires 2 * p + 1 < |ks| ==> ks[p] <= ks[Child(ks, p)]
    ensures ChildrenOk(ks, p)
  {
  }

  class PQueue {
    const capacity: nat
    const nodes: array<Node>   // the table that handles point into
    const heap: array<nat>     // node ids by heap position
    const stack: array<nat>    // free node ids: the first capacity - size
    var size: nat

    ghost predicate Shape()
      reads this
    {
      && nodes.Length == heap.Length == stack.Length == capacity && size <= capacity
      && heap != stack && nodes as object != heap && nodes as object != stack
    }

    /** heap_id is the inverse of heap[]. */
    ghost predicate Linked()
      requires Shape()
      reads this, nodes, heap
    {
      forall i :: 0 <= i < size ==> heap[i] < capacity && nodes[heap[i]].heapId == i
    }

    ghost predicate InHeap(x: nat)
      requires Shape()
      reads this, nodes, heap
    {
      x < capacity && nodes[x].heapId < size && heap[nodes[x].heapId] == x
    }

    /** The queue as its users see it: what each handle stands for. */
    ghost function Contents(): map<nat, Entry>
      requires Shape()
      reads this, nodes, heap
    {
      map x: nat | x < capacity && InHeap(x) :: Entry(nodes[x].key, nodes[x].data)
    }

    ghost function Keys(): seq<int>
      requires Shape() && Linked()
      reads this, nodes, heap
    {
      KeysBy(nodes[..], heap[..size])
    }

    ghost predicate FreeStack()
      requires Shape()
      reads this, nodes, heap, stack
    {
      && (forall j :: 0 <= j < capacity - size ==> stack[j] < capacity && stack[j] !in Contents())
      && (forall j, k :: 0 <= j < k < capacity - size ==> stack[j] != stack[k])
    }

    ghost predicate Valid()
      reads this, nodes, heap, stack
    {
      Shape() && Linked() && FreeStack() && HeapOrder(Keys())
    }

    /** pqueue_alloc. */
    constructor (capacity: nat)
      ensures Valid() && this.capacity == capacity && size == 0 && Contents() == map[]
      ensures fresh(nodes) && fresh(heap) && fresh(stack)
    {
      this.capacity, size := capacity, 0;
      nodes := new Node[capacity](_ => Node(0, 0, 0));
      heap := new nat[capacity](_ => 0);
      stack := new nat[capacity](i => i);
    }

    method SwapNode(a: nat, b: nat)
      requires Shape() && Linked() && InHeap(a) && InHeap(b) && a != b
      modifies nodes, heap
      ensures Linked() && Contents() == old(Contents())
      ensures nodes[a] == old(nodes[a]).(heapId := old(nodes[b].heapId))
      ensures nodes[b] == old(nodes[b]).(heapId := old(nodes[a].heapId))
      ensures InHeap(a) && InHeap(b)
      ensures Keys() == Swapped(old(Keys()), old(nodes[a].heapId), old(nodes[b].heapId))
      ensures forall i :: size <= i < capacity ==> heap[i] == old(heap[i])
    {
      hide KeysBy;
      var i0, i1 := nodes[a].heapId, nodes[b].heapId;
      heap[i0], heap[i1] := heap[i1], heap[i0];
      nodes[a] := nodes[a].(heapId := i1);
      nodes[b] := nodes[b].(heapId := i0);
      assert Contents() == old(Contents()) by {
        assert forall x: nat :: x < capacity ==> InHeap(x) == old(InHeap(x));
      }
      hide Contents;
    }

    /** `x` is at its heap position, or just behind the last one with no smaller key than its parent. */
    ghost predicate Placed(x: nat)
      requires Shape() && Linked()
      reads this, nodes, heap
    {
      && x < capacity && nodes[x].heapId <= size
      && (nodes[x].heapId < size ==> InHeap(x))
      && (nodes[x].heapId == size > 0 ==> Keys()[Parent(size)] <= nodes[x].key)
    }

    /** up: `x` climbs while its parent has a larger key. */
    method Up(x: nat)
      requires Shape() && Linked() && Placed(x) && OrderedBut(Keys(), nodes[x].heapId)
      modifies nodes, heap
      ensures Linked() && Placed(x) && Contents() == old(Contents())
      ensures OrderedBut(Keys(), nodes[x].heapId) && ParentOk(Keys(), nodes[x].heapId)
      ensures old(ChildrenOk(Keys(), nodes[x].heapId)) ==> ChildrenOk(Keys(), nodes[x].heapId)
    {
      hide OrderedBut; hide ChildrenOk; hide ParentOk; hide Contents; hide KeysBy;
      while nodes[x].heapId > 0 && nodes[heap[Parent(nodes[x].heapId)]].key > nodes[x].key
        invariant Linked() && Placed(x) && Contents() == old(Contents())
        invariant OrderedBut(Keys(), nodes[x].heapId)
        invariant old(ChildrenOk(Keys(), nodes[x].heapId)) ==> ChildrenOk(Keys(), nodes[x].heapId)
        decreases nodes[x].heapId
      {
        SwapUp(Keys(), nodes[x].heapId);
        var parent := heap[Parent(nodes[x].heapId)];
        SwapNode(parent, x);
      }
      ParentSettled(Keys(), nodes[x].heapId);
    }

    /** get_child_node: the smaller child of the node at heap position p. */
    method GetChildNode(p: nat) returns (c: nat)
      requires Shape() && Linked() && 2 * p + 1 < size
      ensures InHeap(c) && nodes[c].heapId == Child(Keys(), p)
    {
      if 2 * p + 2 >= size { return heap[2 * p + 1]; }
      c := if nodes[heap[2 * p + 1]].key < nodes[heap[2 * p + 2]].key then heap[2 * p + 1] else heap[2 * p + 2];
    }

    /** down: `x` sinks while its smaller child has a smaller key. */
    method Down(x: nat)
      requires Shape() && Linked() && Placed(x)
      requires OrderedBut(Keys(), nodes[x].heapId) && ParentOk(Keys(), nodes[x].heapId)
      modifies nodes, heap
      ensures Linked() && Contents() == old(Contents()) && HeapOrder(Keys())
    {
      hide OrderedBut; hide ChildrenOk; hide ParentOk; hide Contents; hide KeysBy; hide HeapOrder;
      while 2 * nodes[x].heapId + 1 < size
        invariant Linked() && Placed(x) && Contents() == old(Contents())
        invariant OrderedBut(Keys(), nodes[x].heapId) && ParentOk(Keys(), nodes[x].heapId)
        decreases size - nodes[x].heapId
      {
        var child := GetChildNode(nodes[x].heapId);
        if nodes[child].key >= nodes[x].key { break; }
        SwapDown(Keys(), nodes[x].heapId);
        SwapNode(child, x);
      }
      ChildrenSettled(Keys(), nodes[x].heapId);
      Settled(Keys(), nodes[x].heapId);
    }

    /** pqueue_insert. */
    method Insert(key: int, data: int) returns (x: nat)
      requires Valid() && size < capacity
      modifies this, nodes, heap
      ensures Valid() && size == old(size) + 1
      ensures x !in old(Contents()) && Contents() == old(Contents())[x := Entry(key, data)]
    {
      hide KeysBy; hide OrderedBut; hide ChildrenOk; hide ParentOk; hide HeapOrder;
      ghost var ks := Keys();
      x := stack[capacity - size - 1];
      nodes[x] := Node(size, key, data);
      heap[size] := x;
      size := size + 1;
      assert Keys() == ks + [key];
      NewLeaf(ks, key);
      assert Contents() == old(Contents())[x := Entry(key, data)];
      Up(x);
      Settled(Keys(), nodes[x].heapId);
    }

    /** The last node takes the heap position of `x`; `y` is that node, `x` itself when it was the last. */
    method Vacate(x: nat) returns (y: nat)
      requires Shape() && Linked() && x in Contents()
      modifies this`size, nodes, heap
      ensures Shape() && Linked() && size == old(size) - 1 && Contents() == old(Contents()) - {x}
      ensures y < capacity && nodes[y].heapId == old(nodes[x].heapId) && nodes[y].key == old(Keys())[size]
      ensures nodes[y].heapId < size ==> InHeap(y)
      ensures Keys() == Without(old(Keys()), nodes[y].heapId)
    {
      hide KeysBy;
      ghost var ks := Keys();
      var p := nodes[x].heapId;
      size := size - 1;
      y := heap[size];
      heap[p] := y;
      nodes[y] := nodes[y].(heapId := p);
      assert forall z: nat :: z < capacity ==> InHeap(z) == (old(InHeap(z)) && z != x);
    }

    /** The common start of pqueue_remove and pqueue_pop: the last node takes the place of `x`, whose slot
        becomes free. `y` is the node now to be sifted, `x` itself when it was the last. */
    method Unlink(x: nat) returns (y: nat)
      requires Valid() && x in Contents()
      modifies this, nodes, heap, stack
      ensures Shape() && Linked() && FreeStack() && size == old(size) - 1
      ensures Contents() == old(Contents()) - {x}
      ensures Placed(y) && OrderedBut(Keys(), nodes[y].heapId) && nodes[y].heapId == old(nodes[x].heapId)
    {
      hide KeysBy; hide OrderedBut; hide HeapOrder; hide Without;
      assert InHeap(x);
      hide Contents;
      Vacated(Keys(), nodes[x].heapId);
      y := Vacate(x);
      stack[capacity - size - 1] := x;
    }

    /** pqueue_remove. */
    method Remove(x: nat)
      requires Valid() && x in Contents()
      modifies this, nodes, heap, stack
      ensures Valid() && size == old(size) - 1 && Contents() == old(Contents()) - {x}
    {
      hide KeysBy; hide OrderedBut; hide ChildrenOk; hide ParentOk; hide HeapOrder; hide Contents;
      var y := Unlink(x);
      Up(y);
      Down(y);
    }

    /** pqueue_pop: removes the node that pqueue_top names. */
    method Pop() returns (ghost x: nat)
      requires Valid() && size > 0
      modifies this, nodes, heap, stack
      ensures Valid() && size == old(size) - 1 && Contents() == old(Contents()) - {x} && x == old(heap[0])
      ensures x in old(Contents())
      ensures forall y :: y in old(Contents()) ==> old(Contents())[x].key <= old(Contents())[y].key
    {
      hide KeysBy; hide OrderedBut; hide ChildrenOk; hide HeapOrder; hide Contents;
      var top := Top();
      x := top;
      var y := Unlink(top);
      Down(y);
    }

    /** pqueue_top: a node with a least key. */
    method Top() returns (x: nat)
      requires Valid() && size > 0
      ensures x in Contents() && nodes[x].heapId == 0 && x == heap[0]
      ensures forall y :: y in Contents() ==> Contents()[x].key <= Contents()[y].key
    {
      x := heap[0];
      forall y | y in Contents() ensures Contents()[x].key <= Contents()[y].key {
        TopIsLeast(Keys(), nodes[y].heapId);
      }
    }
  }

  /** The keys without those of the last position, which is put at p. */
  function Without(ks: seq<int>, p: nat): seq<int>
    requires p < |ks|
  {
    var n := |ks| - 1;
    if p == n then ks[..n] else ks[..n][p := ks[n]]
  }

  /** Only the links of p may then be broken. */
  lemma {:induction false} Vacated(ks: seq<int>, p: nat)
    requires HeapOrder(ks) && p < |ks|
    ensures var n := |ks| - 1;
      && |Without(ks, p)| == n && OrderedBut(Without(ks, p), p)
      && (n > 0 ==> ks[Parent(n)] <= ks[n] && (p == n ==> Without(ks, p)[Parent(n)] <= ks[n]))
  {
    var n := |ks| - 1;
    var ks' := Without(ks, p);
    assert n > 0 ==> OrderedAt(ks, n);
    forall i | 0 < i < n && i != p && Parent(i) != p ensures OrderedAt(ks', i) {
      assert OrderedAt(ks, i);
    }
    if 0 < p < n {
      forall i | 0 < i < n && Parent(i) == p ensures ks'[Parent(p)] <= ks'[i] {
        assert OrderedAt(ks, i) && OrderedAt(ks, p);
      }
    }
  }

  lemma {:induction false} NewLeaf(ks: seq<int>, k: int)
    requires HeapOrder(ks)
    ensures OrderedBut(ks + [k], |ks|) && ChildrenOk(ks + [k], |ks|)
  {
    var ks' := ks + [k];
    forall i | 0 < i < |ks'| && i != |ks| ensures OrderedAt(ks', i) {
      assert OrderedAt(ks, i);
    }
  }

  // ---------- heap and free stack share out the node table ----------

  function Elements(s: seq<nat>): set<nat> {
    set x | x in s
  }

  ghost predicate Distinct(s: seq<nat>) {
    forall i, j :: 0 <= i < j < |s| ==> s[i] != s[j]
  }

  lemma {:induction false} DistinctCount(s: seq<nat>)
    requires Distinct(s)
    ensures |Elements(s)| == |s|
  {
    if s != [] {
      var front, last := s[..|s| - 1], s[|s| - 1];
      DistinctCount(front);
      assert last !in Elements(front);
      assert Elements(s) == Elements(front) + {last};
    }
  }

  lemma {:induction false} HeapIds(q: PQueue)
    requires q.Shape() && q.Linked()
    ensures q.Contents().Keys == Elements(q.heap[..q.size]) && |q.Contents().Keys| == q.size
  {
    var h, used := q.heap[..q.size], q.Contents().Keys;
    DistinctCount(h);
    forall x | x in Elements(h) ensures x in used {
      var i :| 0 <= i < q.size && h[i] == x;
    }
    forall x | x in used ensures x in Elements(h) {
      assert h[q.nodes[x].heapId] == x;
    }
  }

  /** In every reachable state each table slot is either a handle in the queue or on the free stack, and
      never both; the queue holds `size` handles. */
  lemma {:induction false} Partition(q: PQueue)
    requires q.Valid()
    ensures var free := Elements(q.stack[..q.capacity - q.size]);
      && q.Contents().Keys !! free && q.Contents().Keys + free == Below(q.capacity)
      && |q.Contents()| == q.size && |free| == q.capacity - q.size
  {
    hide HeapOrder;
    var h, f := q.heap[..q.size], q.stack[..q.capacity - q.size];
    var used, free := q.Contents().Keys, Elements(f);
    DistinctCount(f);
    HeapIds(q);
    assert used !! free;
    assert |used + free| == q.capacity;
    SameSize(used + free, Below(q.capacity));
  }
}
