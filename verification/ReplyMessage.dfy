/** The message that reply() sends (src/dw_node.c), and how the node that forwarded recognises it. */
module ReplyMessage {
  import opened Layout
  import opened Message
  import opened Connection

  /** The least size of a reply that is recognised: its header and the EOM behind it. */
  const MIN_REPLY: nat := MESSAGE_HEADER + COMMAND_HEADER

  /** What reply() writes: the header and an EOM. */
  function ReplyStart(id: u32, size: u32, status: u32): (b: seq<byte>)
    ensures |b| == MIN_REPLY
  {
    Put32(id) + Put32(size) + Put32(status) + Put32(EOM)
  }

  /** The reply as it leaves the send buffer, of which `buf` is the part from the message on: its first `size`
      bytes, whatever was in the buffer behind the EOM. */
  function ReplyBytes(buf: seq<byte>, id: u32, size: u32, status: u32): seq<byte>
    requires MIN_REPLY <= |buf| && size <= |buf|
  {
    Patch(buf, 0, ReplyStart(id, size, status))[..size]
  }

  /** obtain_messages looks at the first command type of the message at the front of the receive buffer, without
      asking whether it lies inside the message. */
  predicate TakenForReply(front: seq<byte>)
    requires |front| >= MIN_REPLY
  {
    Get32(front, MESSAGE_HEADER) == EOM
  }

  /** The reply is cut out of the stream as one message, and taken for a reply whatever follows it. */
  ghost predicate Recognised(f: seq<byte>) {
    Framed(f) && forall after: seq<byte> :: |after| >= MIN_REPLY ==> TakenForReply(f + after)
  }

  lemma {:induction false} StartFields(b: seq<byte>, id: u32, size: u32, status: u32)
    requires |b| >= MIN_REPLY && b[..MIN_REPLY] == ReplyStart(id, size, status)
    ensures Get32(b, 0) == id && Get32(b, REQ_SIZE_AT) == size && Get32(b, 8) == status
    ensures Get32(b, MESSAGE_HEADER) == EOM
  {
    hide Put32; hide Get32;
    var w := b[..MIN_REPLY];
    assert b[0..4] == w[0..4] == Put32(id) && b[4..8] == w[4..8] == Put32(size);
    assert b[8..12] == w[8..12] == Put32(status) && b[12..16] == w[12..16] == Put32(EOM);
    GetPut(b, 0, id);
    GetPut(b, REQ_SIZE_AT, size);
    GetPut(b, 8, status);
    GetPut(b, MESSAGE_HEADER, EOM);
  }

  /** A reply is recognised if and only if its size covers the EOM behind its header; below that the type read is
      that of whatever follows, and below a header the reply is no message at all. A recognised reply carries the
      id and the status. */
  lemma {:induction false} ReplyRecognised(buf: seq<byte>, id: u32, size: u32, status: u32)
    requires MIN_REPLY <= |buf| && size <= |buf|
    ensures Recognised(ReplyBytes(buf, id, size, status)) <==> MIN_REPLY <= size
    ensures MIN_REPLY <= size ==>
      var f := ReplyBytes(buf, id, size, status); Get32(f, 0) == id && Get32(f, 8) == status
  {
    hide Get32; hide ReplyStart;
    var p, f := Patch(buf, 0, ReplyStart(id, size, status)), ReplyBytes(buf, id, size, status);
    assert p[..MIN_REPLY] == p[0..0 + MIN_REPLY] == ReplyStart(id, size, status);
    if MIN_REPLY <= size {
      assert f[..MIN_REPLY] == p[..MIN_REPLY];
      StartFields(f, id, size, status);
      forall after: seq<byte> | |after| >= MIN_REPLY ensures TakenForReply(f + after) {
        assert (f + after)[..MIN_REPLY] == f[..MIN_REPLY];
        StartFields(f + after, id, size, status);
      }
    } else if Recognised(f) {
      assert |f| >= MESSAGE_HEADER;
      var after: seq<byte> := seq(MIN_REPLY, _ => 255);
      assert TakenForReply(f + after);
      LastTypeByte(f, after);
      assert false;
    }
  }

  /** With fewer bytes the last byte of the type is one of those that follow. */
  lemma {:induction false} LastTypeByte(f: seq<byte>, after: seq<byte>)
    requires MESSAGE_HEADER <= |f| < MIN_REPLY && |after| == MIN_REPLY
    requires forall i :: 0 <= i < |after| ==> after[i] == 255
    ensures Get32(f + after, MESSAGE_HEADER) != EOM
  {
    assert (f + after)[15] == 255;
  }
}
