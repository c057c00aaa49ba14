/** The send side of a connection (src/connection.c): messages are placed in one buffer and leave it in
    whatever pieces the socket accepts. */
module SendBuffer {
  import opened Layout
  import opened Message
  import opened Connection

  datatype Status = NotInit | Ready | Sending | Connecting | Handshake | Closing

  /** The bytes waiting to be sent after message `f` is submitted to a buffer whose pending bytes are
      buf[cursor..cursor+size]: the message is written at offset `size`, not after the pending bytes. */
  function Submitted(buf: seq<byte>, cursor: nat, size: nat, f: seq<byte>): seq<byte>
    requires cursor + size + |f| <= |buf|
  {
    Patch(buf, size, f)[cursor..cursor + size + |f|]
  }

  class Sender {
    const sendBuf: array<byte>
    var cursor: nat      // curr_send_buf - send_buf
    var size: nat        // curr_send_size
    var status: Status

    ghost var queued: seq<byte>   // all messages ever submitted, end to end
    ghost var gone: seq<byte>     // all bytes ever taken by the socket
    ghost var clean: bool         // every message was submitted while the cursor was at the start

    ghost predicate Placed()
      reads this
    {
      sendBuf.Length == BUF_SIZE && cursor + size <= BUF_SIZE && (size == 0 ==> cursor == 0)
    }

    /** What has left and what is pending is what was submitted, in order. */
    ghost predicate Valid()
      reads this, sendBuf
    {
      Placed() && (clean ==> gone + Pending() == queued)
    }

    ghost function Pending(): seq<byte>
      requires Placed()
      reads this, sendBuf
    {
      sendBuf[cursor..cursor + size]
    }

    constructor (status: Status)
      ensures Valid() && fresh(sendBuf) && Pending() == [] && this.status == status
      ensures clean && queued == [] && gone == [] && cursor == 0 && size == 0
      ensures forall i :: MESSAGE_HEADER + COMMAND_HEADER <= i < BUF_SIZE ==> sendBuf[i] == 0
    {
      queued, gone, clean := [], [], true;
      sendBuf := new byte[BUF_SIZE](_ => 0);
      cursor, size, this.status := 0, 0, status;
      new;
      forall i | 0 <= i < COMMAND_HEADER {
        sendBuf[MESSAGE_HEADER + i] := Put32(EOM)[i];
      }
    }

    /** conn_prepare_send_message: where the next message goes, with the room for it in its req_size. */
    method PrepareSendMessage() returns (m: nat)
      requires Placed() && size + MESSAGE_HEADER <= BUF_SIZE
      modifies sendBuf
      ensures m == size
      ensures sendBuf[..] == Patch(old(sendBuf[..]), size + REQ_SIZE_AT, Put32(BUF_SIZE - (cursor + size)))
    {
      m := size;
      Write(sendBuf, m + REQ_SIZE_AT, Put32(BUF_SIZE - (cursor + size)));
    }

    /** conn_start_send up to the send: the message prepared at offset `size` joins the pending bytes. */
    method StartSend()
      requires Placed() && size + MESSAGE_HEADER <= BUF_SIZE
      requires cursor + size + Get32(sendBuf[..], size + REQ_SIZE_AT) <= BUF_SIZE
      requires Get32(sendBuf[..], size + REQ_SIZE_AT) > 0
      modifies this`cursor, this`size
      ensures Placed() && cursor == old(cursor) && size == old(size) + Get32(sendBuf[..], old(size) + REQ_SIZE_AT)
    {
      var n := Get32(sendBuf[..], size + REQ_SIZE_AT);
      if size == 0 { cursor := 0; }
      size := size + n;
    }

    /** The caller fills in the message that conn_prepare_send_message made room for. */
    method FillIn(f: seq<byte>) returns (m: nat)
      requires Placed() && Framed(f) && cursor + size + |f| <= BUF_SIZE
      modifies sendBuf
      ensures m == size && sendBuf[..] == Patch(old(sendBuf[..]), m, f)
      ensures Get32(sendBuf[..], m + REQ_SIZE_AT) == |f|
    {
      hide Get32; hide Put32; hide Patch;
      assert |f| >= MESSAGE_HEADER && Get32(f, REQ_SIZE_AT) == |f|;
      ghost var before := sendBuf[..];
      m := PrepareSendMessage();
      Write(sendBuf, m, f);
      Overwritten(before, m, f, Put32(BUF_SIZE - (cursor + size)));
      HeaderAt(sendBuf[..], m, m + |f|);
    }

    /** A message goes through preparation, filling in and start of the send. */
    method Submit(f: seq<byte>)
      requires Valid() && Framed(f) && cursor + size + |f| <= BUF_SIZE
      modifies this, sendBuf
      ensures Valid() && cursor == old(cursor) && status == old(status)
      ensures Pending() == Submitted(old(sendBuf[..]), old(cursor), old(size), f)
      ensures size == old(size) + |f| && sendBuf[..] == Patch(old(sendBuf[..]), old(size), f)
      ensures queued == old(queued) + f && gone == old(gone) && clean == (old(clean) && old(cursor) == 0)
    {
      hide Get32; hide Patch; hide Submitted; hide Framed;
      ghost var before := sendBuf[..];
      assert Pending() == before[cursor..cursor + size];
      FramedSize(f);
      var m := FillIn(f);
      StartSend();
      PendingAfter(before, sendBuf[..], cursor, m, f);
      assert Pending() == sendBuf[..][cursor..cursor + size];
      queued, clean := queued + f, clean && cursor == 0;
      if cursor == 0 { QueuedAfter(before, m, f, gone); }
    }

    /** conn_send, when the socket took `sent` of the pending bytes. */
    method Sent(sent: nat)
      requires Valid() && 0 < sent <= size
      modifies this
      ensures Valid() && Pending() == old(Pending())[sent..]
      ensures size == 0 ==> cursor == 0 && status == if old(status).Sending? then Ready else old(status)
      ensures size == old(size) - sent && (size > 0 ==> cursor == old(cursor) + sent && status == old(status))
      ensures gone == old(gone) + old(Pending())[..sent] && queued == old(queued) && clean == old(clean)
    {
      ghost var p := Pending();
      assert p == p[..sent] + p[sent..];
      assert gone + p == (gone + p[..sent]) + p[sent..];
      gone := gone + p[..sent];
      cursor, size := cursor + sent, size - sent;
      if size == 0 {
        cursor := 0;
        if status.Sending? { status := Ready; }
      }
    }

    /** conn_send, when the socket is full. */
    method WouldBlock()
      requires Valid()
      modifies this`status
      ensures Valid() && Pending() == old(Pending()) && status == Sending
    {
      status := Sending;
    }
  }

  lemma {:induction false} PendingAfter(before: seq<byte>, after: seq<byte>, cursor: nat, size: nat, f: seq<byte>)
    requires cursor + size + |f| <= |before| && after == Patch(before, size, f)
    ensures after[cursor..cursor + size + |f|] == Submitted(before, cursor, size, f)
  {
  }

  lemma {:induction false} QueuedAfter(before: seq<byte>, size: nat, f: seq<byte>, gone: seq<byte>)
    requires size + |f| <= |before|
    ensures gone + Submitted(before, 0, size, f) == (gone + before[0..size]) + f
  {
    SubmittedAtStart(before, size, f);
  }

  lemma {:induction false} Overwritten(b: seq<byte>, m: nat, f: seq<byte>, w: seq<byte>)
    requires m + |f| <= |b| && |f| >= MESSAGE_HEADER && |w| == 4
    ensures Patch(Patch(b, m + REQ_SIZE_AT, w), m, f) == Patch(b, m, f)
  {
  }

  // ---------- order of the bytes sent ----------

  /** The message is queued behind the bytes already pending, whatever they are. */
  ghost predicate Queues(cursor: nat, size: nat, n: nat)
    requires cursor + size + n <= BUF_SIZE
  {
    forall buf: seq<byte>, f: seq<byte> :: |buf| == BUF_SIZE && Framed(f) && |f| == n
      ==> Submitted(buf, cursor, size, f) == buf[cursor..cursor + size] + f
  }

  lemma {:induction false} SubmittedAtStart(buf: seq<byte>, size: nat, f: seq<byte>)
    requires size + |f| <= |buf|
    ensures Submitted(buf, 0, size, f) == buf[0..size] + f
  {
  }

  /** A message whose last byte is not zero. */
  function Sample(n: nat): (f: seq<byte>)
    requires MESSAGE_HEADER <= n <= BUF_SIZE
    ensures |f| == n && f[n - 1] == 1
  {
    [0, 0, 0, 0] + Put32(n) + seq(n - 8, _ => 1)
  }

  lemma {:induction false} SampleFramed(n: nat)
    requires MESSAGE_HEADER <= n <= BUF_SIZE
    ensures Framed(Sample(n))
  {
    hide Put32; hide Get32;
    assert Sample(n)[4..8] == Put32(n);
    GetPut(Sample(n), REQ_SIZE_AT, n);
  }

  /** Send order holds exactly when nothing of the buffer has been sent yet: with the cursor past the start
      of the buffer, the message lands on bytes other than those behind the pending ones. */
  lemma {:induction false} SendOrder(cursor: nat, size: nat, n: nat)
    requires MESSAGE_HEADER <= n && cursor + size + n <= BUF_SIZE
    ensures Queues(cursor, size, n) <==> cursor == 0
  {
    if cursor == 0 {
      forall buf: seq<byte>, f: seq<byte> | |buf| == BUF_SIZE && Framed(f) && |f| == n
        ensures Submitted(buf, cursor, size, f) == buf[cursor..cursor + size] + f
      {
        SubmittedAtStart(buf, size, f);
      }
    } else {
      LostMessage(cursor, size, n);
    }
  }

  lemma {:induction false} LostMessage(cursor: nat, size: nat, n: nat)
    requires MESSAGE_HEADER <= n && cursor + size + n <= BUF_SIZE && cursor > 0
    ensures !Queues(cursor, size, n)
  {
    hide Get32; hide Put32;
    var buf: seq<byte>, f := seq(BUF_SIZE, _ => 0), Sample(n);
    SampleFramed(n);
    LastByte(buf, cursor, size, f);
  }

  /** With the cursor past the start, the last byte pending is the one that was in the buffer before. */
  lemma {:induction false} LastByte(buf: seq<byte>, cursor: nat, size: nat, f: seq<byte>)
    requires cursor > 0 && cursor + size + |f| <= |buf| && f != []
    requires buf[cursor + size + |f| - 1] != f[|f| - 1]
    ensures Submitted(buf, cursor, size, f) != buf[cursor..cursor + size] + f
  {
    var n := |f|;
    var got, want := Submitted(buf, cursor, size, f), buf[cursor..cursor + size] + f;
    assert got[size + n - 1] == Patch(buf, size, f)[cursor + size + n - 1] == buf[cursor + size + n - 1];
    assert want[size + n - 1] == f[n - 1];
  }

  /** The loss on a run: a new connection is given message f, the socket takes only k bytes of it, and g is
      submitted. What has left and what is pending is then not f followed by g, for any f, any such k and any g
      that does not end in a zero byte. */
  method LostOnRun(f: seq<byte>, g: seq<byte>, k: nat) returns (s: Sender)
    requires Framed(f) && Framed(g) && 0 < k < |f| && |f| + |g| <= BUF_SIZE && g[|g| - 1] != 0
    ensures fresh(s) && s.Valid() && s.queued == f + g && s.gone == f[..k] && s.size == |f| - k + |g|
    ensures s.Pending() != f[k..] + g && s.gone + s.Pending() != s.queued
  {
    hide Patch; hide Submitted; hide Framed;
    FramedSize(f);
    FramedSize(g);
    s := new Sender(Ready);
    ghost var zeros := s.sendBuf[..];
    s.Submit(f);
    PatchStart(zeros, f);
    assert s.Pending() == f by { SubmittedAtStart(zeros, 0, f); }
    s.Sent(k);
    s.Submit(g);
    Lost(zeros, f, g, k);
  }

  lemma {:induction false} PatchStart(buf: seq<byte>, f: seq<byte>)
    requires |f| <= |buf|
    ensures Patch(buf, 0, f)[0..|f|] == f && buf[0..0] + f == f
  {
  }

  lemma {:induction false} Lost(zeros: seq<byte>, f: seq<byte>, g: seq<byte>, k: nat)
    requires 0 < k < |f| && g != [] && |f| + |g| <= |zeros| && zeros[|f| + |g| - 1] != g[|g| - 1]
    ensures var pending := Submitted(Patch(zeros, 0, f), k, |f| - k, g);
      pending != f[k..] + g && f[..k] + pending != f + g
  {
    hide Patch; hide Submitted;
    var buf := Patch(zeros, 0, f);
    var pending, want := Submitted(buf, k, |f| - k, g), f[k..] + g;
    Untouched(zeros, f, |f| + |g| - 1);
    LastByte(buf, k, |f| - k, g);
    assert buf[k..k + (|f| - k)] == f[k..] by {
      PatchStart(zeros, f);
      assert buf[k..|f|] == buf[0..|f|][k..];
    }
    assert (f[..k] + pending)[k..] == pending && (f + g)[k..] == want;
  }

  lemma {:induction false} Untouched(buf: seq<byte>, f: seq<byte>, i: nat)
    requires |f| <= i < |buf|
    ensures Patch(buf, 0, f)[i] == buf[i]
  {
  }
}
