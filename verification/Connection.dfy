/** The receive side of a connection (src/connection.c): messages are framed in place in one buffer,
    requests point into it, and removing a request moves the bytes behind it down and relocates the
    pointers of the requests received after it. */
module Connection {
  import opened Layout
  import opened Message

  // ---------- framing ----------

  /** A byte string that is one message: its header gives its length. */
  predicate Framed(f: seq<byte>) {
    |f| >= MESSAGE_HEADER && Get32(f, REQ_SIZE_AT) == |f|
  }

  predicate AllFramed(fs: seq<seq<byte>>) {
    forall i :: 0 <= i < |fs| ==> Framed(fs[i])
  }

  function Join(fs: seq<seq<byte>>): seq<byte> {
    if fs == [] then [] else fs[0] + Join(fs[1..])
  }

  lemma {:induction false} JoinAppend(a: seq<seq<byte>>, b: seq<seq<byte>>)
    ensures Join(a + b) == Join(a) + Join(b)
  {
    if a == [] {
      assert a + b == b;
    } else {
      JoinAppend(a[1..], b);
      assert (a + b)[0] == a[0] && (a + b)[1..] == a[1..] + b;
      ConcatAssoc(a[0], Join(a[1..]), Join(b));
    }
  }

  /** Some complete message starts `b`. */
  predicate HasFrame(b: seq<byte>) {
    |b| >= MESSAGE_HEADER && Get32(b, REQ_SIZE_AT) <= |b|
  }

  lemma {:induction false} SameHeader(a: seq<byte>, b: seq<byte>)
    requires |a| >= MESSAGE_HEADER && |b| >= MESSAGE_HEADER && (a <= b || b <= a)
    ensures Get32(a, REQ_SIZE_AT) == Get32(b, REQ_SIZE_AT)
  {
  }

  lemma {:induction false} FrameByFrame(handed: seq<seq<byte>>, pending: seq<byte>, ms: seq<seq<byte>>)
    requires AllFramed(handed) && AllFramed(ms) && Join(handed) + pending <= Join(ms)
    ensures handed <= ms && pending <= Join(ms[|handed|..])
  {
    hide Framed;
    if handed == [] {
      assert Join(handed) + pending == pending && ms[0..] == ms;
    } else {
      var f := handed[0];
      var s := Join(handed) + pending;
      assert Framed(f);
      assert s == f + (Join(handed[1..]) + pending);
      assert |f| >= MESSAGE_HEADER by { FramedSize(f); }
      assert ms != [];
      var m := ms[0];
      assert Framed(m);
      FirstFrame(f, Join(handed[1..]) + pending, m, Join(ms[1..]));
      FrameByFrame(handed[1..], pending, ms[1..]);
      assert ms == [m] + ms[1..] && handed == [f] + handed[1..];
      assert ms[1..][|handed| - 1..] == ms[|handed|..];
    }
  }

  lemma {:induction false} FramedSize(f: seq<byte>)
    requires Framed(f)
    ensures |f| >= MESSAGE_HEADER
  {
  }

  /** Two streams, one a prefix of the other, that start with a message start with the same message. */
  lemma {:induction false} FirstFrame(f: seq<byte>, t: seq<byte>, m: seq<byte>, u: seq<byte>)
    requires Framed(f) && Framed(m) && f + t <= m + u
    ensures f == m && t <= u
  {
    hide Get32;
    assert f <= f + t && m <= m + u;
    SameHeader(f, f + t);
    SameHeader(m, m + u);
    SameHeader(f + t, m + u);
    assert f == (f + t)[..|f|] == (m + u)[..|f|] == m;
    assert t == (f + t)[|f|..] && u == (m + u)[|f|..];
  }

  /** The messages handed out of a received prefix of a stream of messages are its first messages, in
      order; and all of them, once the whole stream has been received and no complete message is left. */
  lemma {:induction false} Framing(handed: seq<seq<byte>>, pending: seq<byte>, ms: seq<seq<byte>>)
    requires AllFramed(handed) && AllFramed(ms) && Join(handed) + pending <= Join(ms)
    ensures handed <= ms
    ensures Join(handed) + pending == Join(ms) && !HasFrame(pending) ==> handed == ms
  {
    hide Framed;
    FrameByFrame(handed, pending, ms);
    var rest := ms[|handed|..];
    if Join(handed) + pending == Join(ms) && !HasFrame(pending) && rest != [] {
      assert ms == handed + rest;
      JoinAppend(handed, rest);
      assert pending == Join(rest) by {
        assert pending == (Join(handed) + pending)[|Join(handed)|..];
        assert Join(rest) == (Join(handed) + Join(rest))[|Join(handed)|..];
      }
      var m := rest[0];
      assert Framed(m) by { assert rest[0] == ms[|handed|]; }
      FramedSize(m);
      assert m <= pending;
      FrameFits(m, pending);
    }
  }

  lemma {:induction false} FrameFits(m: seq<byte>, b: seq<byte>)
    requires Framed(m) && m <= b
    ensures HasFrame(b)
  {
    SameHeader(m, b);
  }

  // ---------- what the buffer holds ----------

  /** A stretch of the processed part of the buffer: the message of a live request, with the position of its
      curr_cmd inside the message, or bytes that no request owns any more (a consumed forward reply). */
  datatype Seg = Live(id: nat, bytes: seq<byte>, cmd: Cursor) | Dead(bytes: seq<byte>)

  /** req_info_t: where the message of a request is and where its curr_cmd points, as buffer offsets. */
  datatype Ref = Ref(id: nat, msgPtr: nat, currCmd: Cursor)

  function Bytes(segs: seq<Seg>): seq<byte> {
    if segs == [] then [] else segs[0].bytes + Bytes(segs[1..])
  }

  function Shift(c: Cursor, n: int): Cursor
    requires c.At? ==> c.pos + n >= 0
  {
    if c.Null? then Null else At(c.pos + n)
  }

  /** The request list, newest first, of stretches that start at offset `base`. */
  function Refs(segs: seq<Seg>, base: nat): seq<Ref> {
    if segs == [] then []
    else
      Refs(segs[1..], base + |segs[0].bytes|)
      + if segs[0].Live? then [Ref(segs[0].id, base, Shift(segs[0].cmd, base))] else []
  }

  lemma {:induction false} BytesAppend(a: seq<Seg>, b: seq<Seg>)
    ensures Bytes(a + b) == Bytes(a) + Bytes(b)
  {
    if a == [] {
      assert a + b == b;
    } else {
      BytesAppend(a[1..], b);
      assert (a + b)[0] == a[0] && (a + b)[1..] == a[1..] + b;
      assert Bytes(a) == a[0].bytes + Bytes(a[1..]) && Bytes(a + b) == a[0].bytes + Bytes(a[1..] + b);
      ConcatAssoc(a[0].bytes, Bytes(a[1..]), Bytes(b));
    }
  }

  lemma {:induction false} RefsAppend(a: seq<Seg>, b: seq<Seg>, base: nat)
    ensures Refs(a + b, base) == Refs(b, base + |Bytes(a)|) + Refs(a, base)
  {
    if a == [] {
      assert a + b == b;
    } else {
      RefsAppend(a[1..], b, base + |a[0].bytes|);
      assert (a + b)[1..] == a[1..] + b;
    }
  }

  predicate CanMove(r: Ref, n: nat) {
    n <= r.msgPtr && (r.currCmd.At? ==> n <= r.currCmd.pos)
  }

  /** A request moved n bytes down. */
  function Down(r: Ref, n: nat): Ref
    requires CanMove(r, n)
  {
    Ref(r.id, r.msgPtr - n, Shift(r.currCmd, 0 - n as int))
  }

  lemma {:induction false} RefsDown(segs: seq<Seg>, base: nat, n: nat)
    requires n <= base
    ensures |Refs(segs, base)| == |Refs(segs, base - n)|
    ensures forall i :: 0 <= i < |Refs(segs, base)| ==>
      && CanMove(Refs(segs, base)[i], n)
      && Refs(segs, base - n)[i] == Down(Refs(segs, base)[i], n)
  {
    if segs != [] { RefsDown(segs[1..], base + |segs[0].bytes|, n); }
  }

  lemma {:induction false} BytesFront(segs: seq<Seg>, i: nat)
    requires i < |segs|
    ensures Bytes(segs[..i + 1]) == segs[0].bytes + Bytes(segs[1..][..i])
  {
    assert segs[..i + 1][1..] == segs[1..][..i];
  }

  /** The stretch that the k-th request of the list points to. */
  lemma {:induction false} SegOf(segs: seq<Seg>, base: nat, k: nat) returns (j: nat)
    requires k < |Refs(segs, base)|
    ensures j < |segs| && segs[j].Live? && |Refs(segs[j + 1..], base + |Bytes(segs[..j + 1])|)| == k
    ensures Refs(segs, base)[k]
         == Ref(segs[j].id, base + |Bytes(segs[..j])|, Shift(segs[j].cmd, base + |Bytes(segs[..j])|))
  {
    var later := Refs(segs[1..], base + |segs[0].bytes|);
    if k < |later| {
      var i := SegOf(segs[1..], base + |segs[0].bytes|, k);
      hide Bytes;
      j := i + 1;
      BytesFront(segs, i);
      BytesFront(segs, i + 1);
      assert segs[j + 1..] == segs[1..][i + 1..];
    } else {
      j := 0;
      assert segs[..1] == [segs[0]] && segs[..0] == [];
    }
  }

  lemma {:induction false} SplitAt(segs: seq<Seg>, j: nat)
    requires j < |segs|
    ensures segs == segs[..j] + ([segs[j]] + segs[j + 1..])
    ensures Bytes(segs) == Bytes(segs[..j]) + (segs[j].bytes + Bytes(segs[j + 1..]))
    ensures Bytes(segs[..j + 1]) == Bytes(segs[..j]) + segs[j].bytes
    ensures Bytes(segs[..j] + segs[j + 1..]) == Bytes(segs[..j]) + Bytes(segs[j + 1..])
  {
    hide Bytes;
    BytesAppend(segs[..j], [segs[j]] + segs[j + 1..]);
    BytesAppend([segs[j]], segs[j + 1..]);
    BytesAppend(segs[..j], [segs[j]]);
    BytesAppend(segs[..j], segs[j + 1..]);
    OneStretch(segs[j]);
    assert segs[..j + 1] == segs[..j] + [segs[j]];
    assert segs == segs[..j] + ([segs[j]] + segs[j + 1..]);
  }

  lemma {:induction false} OneStretch(s: Seg)
    ensures Bytes([s]) == s.bytes
  {
    assert Bytes([s]) == s.bytes + Bytes([]);
  }

  /** Taking stretch j out of the buffer: the requests after it move down by its size, those before it stay. */
  lemma {:induction false} RefsWithout(segs: seq<Seg>, j: nat, k: nat)
    requires j < |segs| && segs[j].Live?
    requires k == |Refs(segs[j + 1..], |Bytes(segs[..j + 1])|)|
    ensures var n := |segs[j].bytes|;
      var rs, rest := Refs(segs, 0), Refs(segs[..j] + segs[j + 1..], 0);
      && k < |rs| && |rest| == |rs| - 1
      && (forall i :: 0 <= i < k ==> CanMove(rs[i], n) && rest[i] == Down(rs[i], n))
      && rest[k..] == rs[k + 1..]
  {
    hide Refs;
    var n := |segs[j].bytes|;
    var a, b := segs[..j], segs[j + 1..];
    SplitAt(segs, j);
    RefsAppend(a, [segs[j]] + b, 0);
    RefsAppend([segs[j]], b, |Bytes(a)|);
    RefsAppend(a, b, 0);
    RefsDown(b, |Bytes(a)| + n, n);
    OneStretch(segs[j]);
    OneRef(segs[j], |Bytes(a)|);
    var rs, rest := Refs(segs, 0), Refs(a + b, 0);
    var nb, ob := Refs(b, |Bytes(a)|), Refs(b, |Bytes(a)| + n);
    assert rs == (ob + Refs([segs[j]], |Bytes(a)|)) + Refs(a, 0);
    assert rest == nb + Refs(a, 0);
    assert rest[k..] == Refs(a, 0) == rs[k + 1..];
  }

  lemma {:induction false} OneRef(s: Seg, base: nat)
    requires s.Live?
    ensures Refs([s], base) == [Ref(s.id, base, Shift(s.cmd, base))]
  {
  }

  // ---------- accounting ----------

  function Sizes(segs: seq<Seg>): seq<nat> {
    if segs == [] then [] else Sizes(segs[1..]) + if segs[0].Live? then [|segs[0].bytes|] else []
  }

  function Sum(ns: seq<nat>): nat {
    if ns == [] then 0 else Sum(ns[..|ns| - 1]) + ns[|ns| - 1]
  }

  function DeadBytes(segs: seq<Seg>): nat {
    if segs == [] then 0 else DeadBytes(segs[1..]) + if segs[0].Dead? then |segs[0].bytes| else 0
  }

  /** Requests own disjoint stretches, in reverse address order, all below the first unprocessed byte; and
      the processed bytes are those of live requests and those no request owns. */
  lemma {:induction false} Accounting(segs: seq<Seg>, base: nat)
    ensures var rs, ns := Refs(segs, base), Sizes(segs);
      && |rs| == |ns|
      && (forall i :: 0 <= i < |rs| ==> base <= rs[i].msgPtr && rs[i].msgPtr + ns[i] <= base + |Bytes(segs)|)
      && (forall i, k :: 0 <= i < k < |rs| ==> rs[k].msgPtr + ns[k] <= rs[i].msgPtr)
      && Sum(ns) + DeadBytes(segs) == |Bytes(segs)|
  {
    if segs != [] {
      var n := |segs[0].bytes|;
      Accounting(segs[1..], base + n);
      if segs[0].Live? {
        var ns := Sizes(segs[1..]);
        assert (ns + [n])[..|ns|] == ns;
      } else {
        assert Sizes(segs) == Sizes(segs[1..]) && Refs(segs, base) == Refs(segs[1..], base + n);
      }
    }
  }

  // ---------- the connection ----------

  /** The header of a live message gives the length of its stretch. */
  predicate GoodSeg(s: Seg) {
    s.Live? ==> Framed(s.bytes)
  }

  predicate GoodSegs(segs: seq<Seg>) {
    forall i :: 0 <= i < |segs| ==> GoodSeg(segs[i])
  }

  class Conn {
    const recvBuf: array<byte>
    const enableDefrag: bool
    var currRecv: nat       // curr_recv_buf: where the next bytes arrive
    var currProc: nat       // curr_proc_buf: where the next message starts
    var currRecvSize: nat   // room left in the buffer
    var reqList: seq<Ref>   // live requests, newest first

    ghost var segs: seq<Seg>            // the processed part, in address order
    ghost var stream: seq<byte>         // all bytes ever received
    ghost var handed: seq<seq<byte>>    // all messages ever handed out

    /** Used bytes are those of live requests, of dead messages and of what is not processed yet; the free
        room is the rest of the buffer; the request list is in reverse address order. */
    ghost predicate Valid()
      reads this, recvBuf
    {
      && recvBuf.Length == BUF_SIZE && currProc <= currRecv <= BUF_SIZE && currRecvSize == BUF_SIZE - currRecv
      && recvBuf[..currProc] == Bytes(segs) && GoodSegs(segs)
      && reqList == Refs(segs, 0)
      && AllFramed(handed) && Join(handed) + Pending() == stream
    }

    ghost function Pending(): seq<byte>
      requires currProc <= currRecv <= recvBuf.Length
      reads this, recvBuf
    {
      recvBuf[currProc..currRecv]
    }

    constructor (defrag: bool)
      ensures Valid() && fresh(recvBuf) && enableDefrag == defrag
      ensures segs == [] && stream == [] && handed == [] && Pending() == []
    {
      recvBuf := new byte[BUF_SIZE](_ => 0);
      enableDefrag := defrag;
      currRecv, currProc, currRecvSize, reqList := 0, 0, BUF_SIZE, [];
      segs, stream, handed := [], [], [];
    }

    /** conn_recv: the kernel stored `data` at curr_recv_buf. */
    method Recv(data: seq<byte>)
      requires Valid() && |data| <= currRecvSize
      modifies this, recvBuf
      ensures Valid() && segs == old(segs) && handed == old(handed)
      ensures Pending() == old(Pending()) + data && stream == old(stream) + data
    {
      hide Join; hide Bytes; hide Refs; hide Patch; hide AllFramed; hide GoodSegs;
      ghost var before := recvBuf[..];
      assert before[..currProc] == recvBuf[..currProc] && before[currProc..currRecv] == Pending();
      ConcatAssoc(Join(handed), Pending(), data);
      Write(recvBuf, currRecv, data);
      Arrived(before, currProc, currRecv, data);
      currRecv := currRecv + |data|;
      currRecvSize := currRecvSize - |data|;
      stream := stream + data;
      assert recvBuf[..currProc] == recvBuf[..][..currProc] && Pending() == recvBuf[..][currProc..currRecv];
    }

    /** conn_prepare_recv_message: the next complete message, left in place in the buffer. The code asserts
        that a message is at least as long as its header. */
    method PrepareRecvMessage() returns (m: Cursor)
      requires Valid()
      requires |Pending()| >= MESSAGE_HEADER ==> Get32(Pending(), REQ_SIZE_AT) >= MESSAGE_HEADER
      modifies this
      ensures Valid() && stream == old(stream) && currRecv == old(currRecv)
      ensures m.At? == HasFrame(old(Pending()))
      ensures m.Null? ==> segs == old(segs) && handed == old(handed)
      ensures m.At? ==>
        && m.pos == old(currProc) == |Bytes(old(segs))|
        && var n := Get32(old(Pending()), REQ_SIZE_AT);
        && handed == old(handed) + [old(Pending())[..n]] && segs == old(segs) + [Dead(old(Pending())[..n])]
        && Pending() == old(Pending())[n..]
    {
      hide Get32; hide Join; hide Bytes; hide Refs;
      var msgSize := currRecv - currProc;
      if msgSize < MESSAGE_HEADER { return Null; }
      ghost var p := Pending();
      HeaderAt(recvBuf[..], currProc, currRecv);
      var n := Get32(recvBuf[..], currProc + REQ_SIZE_AT);
      if msgSize < n { return Null; }
      m := At(currProc);
      ghost var f := p[..n];
      FrontFrame(p, n);
      MoreHanded(handed, f, p[n..]);
      MoreStretch(segs, f);
      assert p == f + p[n..];
      assert recvBuf[..currProc] + f == recvBuf[..currProc + n];
      handed, segs := handed + [f], segs + [Dead(f)];
      currProc := currProc + n;
      assert Pending() == p[n..];
    }

    /** conn_req_add and obtain_messages: the message just handed out becomes that of request `id`, at its
        first command. */
    method ReqAdd(id: nat, m: nat)
      requires Valid() && segs != [] && segs[|segs| - 1].Dead? && Framed(segs[|segs| - 1].bytes)
      requires m == |Bytes(segs[..|segs| - 1])|
      modifies this`reqList, this`segs
      ensures Valid() && Pending() == old(Pending())
      ensures segs == old(segs)[..|old(segs)| - 1] + [Live(id, old(segs)[|old(segs)| - 1].bytes, At(MESSAGE_HEADER))]
    {
      hide Bytes; hide Refs; hide Join;
      reqList := [Ref(id, m, At(m + MESSAGE_HEADER))] + reqList;
      ghost var front, f := segs[..|segs| - 1], segs[|segs| - 1].bytes;
      ghost var s := Live(id, f, At(MESSAGE_HEADER));
      assert segs == front + [Dead(f)];
      BytesAppend(front, [Dead(f)]);
      BytesAppend(front, [s]);
      OneStretch(Dead(f));
      OneStretch(s);
      RefsAppend(front, [Dead(f)], 0);
      RefsAppend(front, [s], 0);
      DeadRefs(f, m);
      OneRef(s, m);
      segs := front + [s];
    }

    /** The relocation loop of conn_req_remove, over the requests newer than the k-th. */
    method Relocate(k: nat, n: nat)
      requires k <= |reqList|
      requires forall i :: 0 <= i < k ==> CanMove(reqList[i], n)
      modifies this`reqList
      ensures |reqList| == |old(reqList)| && reqList[k..] == old(reqList)[k..]
      ensures forall i :: 0 <= i < k ==> reqList[i] == Down(old(reqList)[i], n)
    {
      var i := k;
      while i > 0
        invariant 0 <= i <= k && |reqList| == |old(reqList)| && reqList[k..] == old(reqList)[k..]
        invariant forall j :: 0 <= j < i ==> reqList[j] == old(reqList)[j]
        invariant forall j :: i <= j < k ==> reqList[j] == Down(old(reqList)[j], n)
      {
        i := i - 1;
        reqList := reqList[i := Down(reqList[i], n)];
      }
    }

    /** The memmove of conn_req_remove: the message of stretch j, at `pos`, is taken out of the buffer. */
    method MoveDown(pos: nat, ghost j: nat) returns (n: nat)
      requires Valid() && j < |segs| && segs[j].Live? && pos == |Bytes(segs[..j])|
      modifies this`currRecv, this`currProc, this`currRecvSize, recvBuf
      ensures currProc <= currRecv <= BUF_SIZE && currRecvSize == BUF_SIZE - currRecv
      ensures recvBuf[..currProc] == Bytes(segs[..j] + segs[j + 1..]) && Pending() == old(Pending())
      ensures n == |segs[j].bytes| && currRecvSize == old(currRecvSize) + n
    {
      hide Bytes; hide Refs; hide Join; hide Get32; hide Framed;
      ghost var b := recvBuf[..];
      assert b[..currProc] == recvBuf[..currProc] && b[currProc..currRecv] == Pending();
      assert GoodSeg(segs[j]);
      StretchAt(b, currProc, segs, j);
      n := Get32(recvBuf[..], pos + REQ_SIZE_AT);
      Memmove(recvBuf, pos, n, currRecv);
      StretchOut(b, recvBuf[..], currProc, currRecv, segs, j);
      currRecv, currProc, currRecvSize := currRecv - n, currProc - n, currRecvSize + n;
      assert recvBuf[..currProc] == recvBuf[..][..currProc] && Pending() == recvBuf[..][currProc..currRecv];
    }

    /** The defragmenting part of conn_req_remove. */
    method Defragment(k: nat, ghost j: nat)
      requires Valid() && k < |reqList| && j < |segs| && segs[j].Live?
      requires k == |Refs(segs[j + 1..], |Bytes(segs[..j + 1])|)| && reqList[k].msgPtr == |Bytes(segs[..j])|
      modifies this`currRecv, this`currProc, this`currRecvSize, this`reqList, recvBuf
      ensures currProc <= currRecv <= BUF_SIZE && currRecvSize == BUF_SIZE - currRecv
      ensures recvBuf[..currProc] == Bytes(segs[..j] + segs[j + 1..]) && Pending() == old(Pending())
      ensures |reqList| == |old(reqList)| && reqList[..k] + reqList[k + 1..] == Refs(segs[..j] + segs[j + 1..], 0)
      ensures currRecvSize == old(currRecvSize) + |segs[j].bytes|
    {
      hide Bytes; hide Refs; hide Join; hide Get32; hide Framed;
      RefsWithout(segs, j, k);
      var n := MoveDown(reqList[k].msgPtr, j);
      Relocate(k, n);
      assert reqList[k + 1..] == reqList[k..][1..] == old(reqList)[k..][1..] == old(reqList)[k + 1..];
    }

    /** conn_req_remove, of the k-th request of the list: its bytes are taken out of the buffer (or, without
        defragmentation, left behind), and nothing else changes: neither the bytes of any other message, nor
        the position of any curr_cmd inside its message, nor the bytes not processed yet. */
    method ReqRemove(k: nat) returns (ghost j: nat)
      requires Valid() && k < |reqList|
      modifies this, recvBuf
      ensures Valid() && Pending() == old(Pending()) && handed == old(handed) && stream == old(stream)
      ensures j < |old(segs)| && old(segs)[j].Live? && old(segs)[j].id == old(reqList)[k].id
      ensures old(reqList)[k].msgPtr == |Bytes(old(segs)[..j])|
      ensures enableDefrag ==> segs == old(segs)[..j] + old(segs)[j + 1..]
      ensures !enableDefrag ==> segs == old(segs)[j := Dead(old(segs)[j].bytes)]
      ensures currRecvSize == old(currRecvSize) + if enableDefrag then |old(segs)[j].bytes| else 0
    {
      hide Bytes; hide Refs; hide Join; hide Get32; hide Framed;
      j := SegOf(segs, 0, k);
      if enableDefrag {
        Defragment(k, j);
        segs := segs[..j] + segs[j + 1..];
      } else {
        Forget(segs, j, k);
        segs := segs[j := Dead(segs[j].bytes)];
      }
      reqList := reqList[..k] + reqList[k + 1..];
    }

    /** The node moves the curr_cmd of the k-th request inside its message. */
    method MoveCmd(k: nat, cmd: Cursor) returns (ghost j: nat)
      requires Valid() && k < |reqList|
      modifies this`reqList, this`segs
      ensures Valid() && Pending() == old(Pending())
      ensures j < |old(segs)| && old(segs)[j].Live? && segs == old(segs)[j := old(segs)[j].(cmd := cmd)]
      ensures old(segs)[j].id == old(reqList)[k].id && old(reqList)[k].msgPtr == |Bytes(old(segs)[..j])|
    {
      hide Bytes; hide Refs; hide Join; hide Get32; hide Framed;
      j := SegOf(segs, 0, k);
      Recursor(segs, j, k, cmd);
      reqList := reqList[k := reqList[k].(currCmd := Shift(cmd, reqList[k].msgPtr))];
      segs := segs[j := segs[j].(cmd := cmd)];
    }
  }

  lemma {:induction false} Arrived(b: seq<byte>, proc: nat, recv: nat, data: seq<byte>)
    requires proc <= recv && recv + |data| <= |b|
    ensures var b' := Patch(b, recv, data);
      b'[..proc] == b[..proc] && b'[proc..recv + |data|] == b[proc..recv] + data
  {
  }

  lemma {:induction false} Recursor(segs: seq<Seg>, j: nat, k: nat, cmd: Cursor)
    requires j < |segs| && segs[j].Live?
    requires k == |Refs(segs[j + 1..], |Bytes(segs[..j + 1])|)|
    ensures var rs, d := Refs(segs, 0), segs[j := segs[j].(cmd := cmd)];
      && k < |rs| && rs[k].msgPtr == |Bytes(segs[..j])| && Bytes(d) == Bytes(segs)
      && Refs(d, 0) == rs[k := rs[k].(currCmd := Shift(cmd, rs[k].msgPtr))]
  {
    hide Refs; hide Bytes;
    var a, b, s := segs[..j], segs[j + 1..], segs[j].(cmd := cmd);
    var d := segs[j := s];
    SplitAt(segs, j);
    SplitAt(d, j);
    assert d[..j] == a && d[j + 1..] == b;
    OneStretch(segs[j]);
    OneStretch(s);
    RefsAppend(a, [segs[j]] + b, 0);
    RefsAppend([segs[j]], b, |Bytes(a)|);
    RefsAppend(a, [s] + b, 0);
    RefsAppend([s], b, |Bytes(a)|);
    OneRef(segs[j], |Bytes(a)|);
    OneRef(s, |Bytes(a)|);
  }

  /** memmove of b[pos+n..end] to b[pos..]. */
  method Memmove(b: array<byte>, pos: nat, n: nat, end: nat)
    requires pos + n <= end <= b.Length
    modifies b
    ensures b[..][..pos] == old(b[..])[..pos] && b[..][pos..end - n] == old(b[..])[pos + n..end]
  {
    forall i | pos <= i < end - n {
      b[i] := b[i + n];
    }
  }

  lemma {:induction false} MessageAt(b: seq<byte>, pos: nat, end: nat, f: seq<byte>, a: seq<byte>, c: seq<byte>)
    requires end <= |b| && b[..end] == a + (f + c) && |a| == pos && Framed(f)
    ensures pos + |f| <= end && pos + MESSAGE_HEADER <= |b| && Get32(b, pos + REQ_SIZE_AT) == |f|
  {
    assert |f| >= MESSAGE_HEADER;
    assert b[..end][pos..pos + |f|] == f && b[..end][pos..pos + |f|] == b[pos..pos + |f|];
    HeaderAt(b, pos, pos + |f|);
  }

  lemma {:induction false} TakenOut(b: seq<byte>, a: seq<byte>, f: seq<byte>, c: seq<byte>, p: seq<byte>, b': seq<byte>)
    requires |b| == |b'| && |a| + |f| + |c| + |p| <= |b|
    requires b[..|a| + |f| + |c|] == a + (f + c)
    requires b[|a| + |f| + |c|..|a| + |f| + |c| + |p|] == p
    requires b'[..|a|] == b[..|a|] && b'[|a|..|a| + |c| + |p|] == b[|a| + |f|..|a| + |f| + |c| + |p|]
    ensures b'[..|a| + |c|] == a + c && b'[|a| + |c|..|a| + |c| + |p|] == p
  {
    var m, x := |a|, |a| + |f| + |c|;
    assert b[..m] == a by { assert b[..x][..m] == a; }
    assert b[m + |f|..x] == c by { assert b[..x][m + |f|..] == c; }
    var w := b[m + |f|..x + |p|];
    assert w[..|c|] == c && w[|c|..] == p;
    var w' := b'[m..m + |c| + |p|];
    assert w' == w;
    assert b'[m..m + |c|] == w'[..|c|] && b'[m + |c|..m + |c| + |p|] == w'[|c|..];
    assert b'[..m + |c|] == b'[..m] + b'[m..m + |c|];
  }

  /** The message of stretch j, in a buffer that holds the stretches up to `proc`. */
  lemma {:induction false} StretchAt(b: seq<byte>, proc: nat, segs: seq<Seg>, j: nat)
    requires proc <= |b| && b[..proc] == Bytes(segs) && j < |segs| && Framed(segs[j].bytes)
    ensures var pos := |Bytes(segs[..j])|;
      && pos + |segs[j].bytes| <= proc && pos + MESSAGE_HEADER <= |b|
      && Get32(b, pos + REQ_SIZE_AT) == |segs[j].bytes|
  {
    SplitAt(segs, j);
    MessageAt(b, |Bytes(segs[..j])|, proc, segs[j].bytes, Bytes(segs[..j]), Bytes(segs[j + 1..]));
  }

  lemma {:induction false} StretchOut(b: seq<byte>, b': seq<byte>, proc: nat, recv: nat, segs: seq<Seg>, j: nat)
    requires proc <= recv <= |b| == |b'| && b[..proc] == Bytes(segs) && j < |segs|
    requires var pos, n := |Bytes(segs[..j])|, |segs[j].bytes|;
      && pos + n <= proc
      && b'[..pos] == b[..pos] && b'[pos..recv - n] == b[pos + n..recv]
    ensures var n := |segs[j].bytes|;
      && b'[..proc - n] == Bytes(segs[..j] + segs[j + 1..]) && b'[proc - n..recv - n] == b[proc..recv]
  {
    hide Bytes;
    SplitAt(segs, j);
    TakenOut(b, Bytes(segs[..j]), segs[j].bytes, Bytes(segs[j + 1..]), b[proc..recv], b');
  }

  /** Without defragmentation the stretch stays where it is and only the list entry goes. */
  lemma {:induction false} Forget(segs: seq<Seg>, j: nat, k: nat)
    requires j < |segs| && segs[j].Live?
    requires k == |Refs(segs[j + 1..], |Bytes(segs[..j + 1])|)|
    ensures var rs := Refs(segs, 0);
      && k < |rs| && Bytes(segs[j := Dead(segs[j].bytes)]) == Bytes(segs)
      && Refs(segs[j := Dead(segs[j].bytes)], 0) == rs[..k] + rs[k + 1..]
  {
    hide Refs; hide Bytes;
    var a, b, f := segs[..j], segs[j + 1..], segs[j].bytes;
    var d := segs[j := Dead(f)];
    SplitAt(segs, j);
    SplitAt(d, j);
    assert d[..j] == a && d[j + 1..] == b;
    OneStretch(segs[j]);
    OneStretch(Dead(f));
    RefsAppend(a, [segs[j]] + b, 0);
    RefsAppend([segs[j]], b, |Bytes(a)|);
    RefsAppend(a, [Dead(f)] + b, 0);
    RefsAppend([Dead(f)], b, |Bytes(a)|);
    OneRef(segs[j], |Bytes(a)|);
    DeadRefs(f, |Bytes(a)|);
  }

  lemma {:induction false} HeaderAt(b: seq<byte>, lo: nat, hi: nat)
    requires lo + MESSAGE_HEADER <= hi <= |b|
    ensures Get32(b, lo + REQ_SIZE_AT) == Get32(b[lo..hi], REQ_SIZE_AT)
  {
  }

  lemma {:induction false} FrontFrame(p: seq<byte>, n: nat)
    requires MESSAGE_HEADER <= n <= |p| && Get32(p, REQ_SIZE_AT) == n
    ensures Framed(p[..n])
  {
    SameHeader(p[..n], p);
  }

  lemma {:induction false} JoinOne(f: seq<byte>)
    ensures Join([f]) == f
  {
    assert Join([f]) == f + Join([]);
  }

  lemma {:induction false} MoreHanded(handed: seq<seq<byte>>, f: seq<byte>, rest: seq<byte>)
    ensures Join(handed + [f]) + rest == Join(handed) + (f + rest)
  {
    hide Join;
    JoinAppend(handed, [f]);
    JoinOne(f);
    ConcatAssoc(Join(handed), f, rest);
  }

  /** Handing out a message makes it a stretch that no request owns yet. */
  lemma {:induction false} MoreStretch(segs: seq<Seg>, f: seq<byte>)
    ensures Bytes(segs + [Dead(f)]) == Bytes(segs) + f && Refs(segs + [Dead(f)], 0) == Refs(segs, 0)
  {
    hide Bytes; hide Refs;
    BytesAppend(segs, [Dead(f)]);
    OneStretch(Dead(f));
    RefsAppend(segs, [Dead(f)], 0);
    DeadRefs(f, |Bytes(segs)|);
  }

  lemma {:induction false} DeadRefs(f: seq<byte>, base: nat)
    ensures Refs([Dead(f)], base) == []
  {
  }

  /** Framing, in every reachable state of a connection whose peer sends the messages `ms`: however the
      stream was cut into receives, and whatever requests were removed in between, the messages handed out
      are the first ones of `ms` in order, a header now at the front is that of the next message, and when
      all of the stream has arrived and nothing more can be extracted they are all of `ms`. */
  lemma {:induction false} ConnFraming(c: Conn, ms: seq<seq<byte>>)
    requires c.Valid() && AllFramed(ms) && c.stream <= Join(ms)
    ensures c.handed <= ms
    ensures |c.Pending()| >= MESSAGE_HEADER ==> Get32(c.Pending(), REQ_SIZE_AT) >= MESSAGE_HEADER
    ensures c.stream == Join(ms) && !HasFrame(c.Pending()) ==> c.handed == ms
  {
    hide Get32; hide Framed; hide Bytes; hide Refs;
    var p := c.Pending();
    Framing(c.handed, p, ms);
    FrameByFrame(c.handed, p, ms);
    var rest := ms[|c.handed|..];
    if |p| >= MESSAGE_HEADER {
      var m := rest[0];
      assert m == ms[|c.handed|] && Framed(m);
      NextHeader(p, m, Join(rest[1..]));
    }
  }

  lemma {:induction false} NextHeader(p: seq<byte>, m: seq<byte>, u: seq<byte>)
    requires Framed(m) && |p| >= MESSAGE_HEADER && p <= m + u
    ensures Get32(p, REQ_SIZE_AT) == |m| >= MESSAGE_HEADER
  {
    SameHeader(p, m + u);
    SameHeader(m, m + u);
  }
}
