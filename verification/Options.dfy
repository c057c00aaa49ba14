/** The option records of src/message.h as C lays them out, and what the node reads in them. */
module Options {
  import opened Layout
  import opened Walk
  import opened Tree
  import opened Node

  /** Bytes that the compiler inserts for alignment. */
  predicate Padding(pad: seq<byte>, n: nat) {
    |pad| == n
  }

  /** fwd_opts_t. */
  function FwdRecord(pktSize: u32, addr: seq<byte>, pad: seq<byte>, timeout: u32, retries: byte, nAck: byte,
                     onFailSkip: byte, branched: byte, proto: u32): seq<byte>
    requires |addr| == 6 && Padding(pad, 2)
  {
    Put32(pktSize) + (addr + pad) + Put32(timeout) + [retries, nAck, onFailSkip, branched] + Put32(proto)
  }

  /** Every field of a forward is read back where it was put. */
  lemma {:induction false} FwdFields(tag: u32, pktSize: u32, addr: seq<byte>, pad: seq<byte>, timeout: u32,
                                     retries: byte, nAck: byte, onFailSkip: byte, branched: byte, proto: u32)
    requires IsTag(tag) && |addr| == 6 && Padding(pad, 2)
    ensures var o := FwdRecord(pktSize, addr, pad, timeout, retries, nAck, onFailSkip, branched, proto);
      var c := Command(tag, o);
      && Sized(c) && IsForward(c) && PktSize(o) == pktSize && FwdAddr(c) == addr == Addr(o)
      && FwdTimeout(c) == timeout && FwdRetries(c) == retries && FwdNAck(c) == nAck && FwdOnFailSkip(c) == onFailSkip
      && Branched(c) == (branched != 0) == !GoodDest(o, false) && FwdProto(o) == proto
  {
    hide Put32; hide Get32;
    var o := FwdRecord(pktSize, addr, pad, timeout, retries, nAck, onFailSkip, branched, proto);
    assert o[0..4] == Put32(pktSize) && o[4..10] == addr && o[12..16] == Put32(timeout) && o[20..24] == Put32(proto);
    GetPut(o, 0, pktSize);
    GetPut(o, 12, timeout);
    GetPut(o, 20, proto);
  }

  /** store_opts_t. */
  function StoreRecord(offset: u64, nbytes: u64, waitSync: byte, dev: byte, pad: seq<byte>): seq<byte>
    requires Padding(pad, 6)
  {
    Put64(offset) + Put64(nbytes) + [waitSync, dev] + pad
  }

  lemma {:induction false} StoreFields(offset: u64, nbytes: u64, waitSync: byte, dev: byte, pad: seq<byte>)
    requires Padding(pad, 6)
    ensures var c := Command(STORE, StoreRecord(offset, nbytes, waitSync, dev, pad));
      && Sized(c) && Simple(c) && Get64(c.opts, 0) == offset && Get64(c.opts, 8) == nbytes
      && WaitSync(c) == (waitSync != 0) && DevId(c) == dev
  {
    hide Put64; hide Get64;
    var o := StoreRecord(offset, nbytes, waitSync, dev, pad);
    assert o[0..8] == Put64(offset) && o[8..16] == Put64(nbytes);
    GetPut64(o, 0, offset);
    GetPut64(o, 8, nbytes);
  }

  /** load_opts_t. */
  function LoadRecord(offset: u64, nbytes: u64, dev: byte, pad: seq<byte>): seq<byte>
    requires Padding(pad, 7)
  {
    Put64(offset) + Put64(nbytes) + [dev] + pad
  }

  lemma {:induction false} LoadFields(offset: u64, nbytes: u64, dev: byte, pad: seq<byte>)
    requires Padding(pad, 7)
    ensures var c := Command(LOAD, LoadRecord(offset, nbytes, dev, pad));
      && Sized(c) && Simple(c) && Get64(c.opts, 0) == offset && Get64(c.opts, 8) == nbytes
      && !WaitSync(c) && DevId(c) == dev
  {
    hide Put64; hide Get64;
    var o := LoadRecord(offset, nbytes, dev, pad);
    assert o[0..8] == Put64(offset) && o[8..16] == Put64(nbytes);
    GetPut64(o, 0, offset);
    GetPut64(o, 8, nbytes);
  }

  /** reply_opts_t. */
  function ReplyRecord(size: u32, mode: u32, dev: byte, pad: seq<byte>): seq<byte>
    requires Padding(pad, 3)
  {
    Put32(size) + Put32(mode) + [dev] + pad
  }

  lemma {:induction false} ReplyFields(size: u32, mode: u32, dev: byte, pad: seq<byte>)
    requires Padding(pad, 3)
    ensures var c := Command(REPLY, ReplyRecord(size, mode, dev, pad)); Sized(c) && RespSize(c) == size
  {
    hide Put32; hide Get32;
    var o := ReplyRecord(size, mode, dev, pad);
    assert o[0..4] == Put32(size);
    GetPut(o, 0, size);
  }

  /** comp_opts_t, and the commands without options. */
  lemma {:induction false} BareFields(time: u32)
    ensures Sized(Command(COMPUTE, Put32(time))) && Simple(Command(COMPUTE, Put32(time)))
    ensures Get32(Command(COMPUTE, Put32(time)).opts, 0) == time
    ensures Sized(Command(PSKIP, [])) && Sized(EomCommand)
  {
    hide Put32; hide Get32;
    assert Put32(time)[0..4] == Put32(time);
    GetPut(Put32(time), 0, time);
  }
}
