/** The cursor walks of src/message.c, on the list of commands that the cursor can still see.

    A cursor is the suffix of commands from it to the EOM; [] is the NULL cursor. Message.dfy proves that
    the loops over bytes compute these functions; Tree.dfy proves what they mean on programs. */
module Walk {
  import opened Layout

  predicate IsForward(c: Command) {
    c.ctype == FORWARD_BEGIN || c.ctype == FORWARD_CONTINUE
  }

  /** Byte i of a command's options. Commands read from a message are always of full size; the other case
      only makes the walks total on arbitrary lists. */
  function Opt(c: Command, i: nat): byte {
    if i < |c.opts| then c.opts[i] else 0
  }

  // Fields of fwd_opts_t that the walks read.
  function FwdAddr(c: Command): seq<byte> {
    if |c.opts| >= 10 then c.opts[4..10] else []
  }

  predicate Branched(c: Command) {
    Opt(c, 19) != 0
  }

  /** The nesting depth after stepping from `c` to `next`: only a REPLY that no FORWARD_CONTINUE follows
      closes a context. */
  function Nest(depth: int, c: Command, next: Command): int {
    if c.ctype == FORWARD_BEGIN then depth + 1
    else if c.ctype == REPLY && next.ctype != FORWARD_CONTINUE then depth - 1
    else depth
  }

  /** One turn of the outer loop of cmd_bounded_skip, from nesting depth `depth`. */
  function SkipOne(s: seq<Command>, depth: int): (r: seq<Command>)
    requires s != []
    ensures |r| < |s|
  {
    if |s| == 1 then []
    else
      var d := Nest(depth, s[0], s[1]);
      if s[1].ctype != EOM && d > 0 then SkipOne(s[1..], d) else s[1..]
  }

  /** cmd_bounded_skip. */
  function Skip(s: seq<Command>, n: int): (r: seq<Command>)
    ensures |r| <= |s|
    decreases |s|
  {
    if s == [] then []
    else if s[0].ctype == EOM then (if n > 0 then [] else s)
    else if n <= 0 then s
    else Skip(SkipOne(s, 0), n - 1)
  }

  /** The loop of cmd_bounded_next_forward. */
  function ToForward(s: seq<Command>, branched: bool): (r: seq<Command>)
    ensures |r| <= |s|
    ensures r != [] ==> r[0].ctype == FORWARD_CONTINUE
    decreases |s|
  {
    if s == [] || s[0].ctype == EOM then []
    else if s[0].ctype == FORWARD_CONTINUE then s
    else if s[0].ctype == FORWARD_BEGIN then ToForward(SkipOne(s, 0), branched)
    else if |s| == 1 then []
    else if s[0].ctype == REPLY && (!branched || s[1].ctype != FORWARD_CONTINUE) then []
    else ToForward(s[1..], branched)
  }

  /** cmd_bounded_next_forward. */
  function NextForward(s: seq<Command>): (r: seq<Command>)
    requires s != [] && IsForward(s[0])
    ensures |r| < |s|
    ensures r != [] ==> r[0].ctype == FORWARD_CONTINUE
  {
    ToForward(s[1..], Branched(s[0]))
  }

  /** find_forward_reply_id: the index of `addr` among the destinations that follow `s`, or -1. */
  function FindReplyId(s: seq<Command>, addr: seq<byte>): (id: int)
    requires s != [] ==> IsForward(s[0])
    ensures id >= -1
    decreases |s|
  {
    if s == [] then -1
    else if FwdAddr(s[0]) == addr then 0
    else
      var rest := FindReplyId(NextForward(s), addr);
      if rest == -1 then -1 else rest + 1
  }

  /** The FORWARD_CONTINUE commands of a multi-destination branch are stepped over before its body is copied. */
  function BranchBody(s: seq<Command>): (r: seq<Command>)
    ensures |r| <= |s|
  {
    if s != [] && s[0].ctype == FORWARD_CONTINUE then BranchBody(s[1..]) else s
  }

  /** The search loop of message_copy_tail: the first REPLY or EOM at the nesting level of `s`. */
  function ToReply(s: seq<Command>): (r: seq<Command>)
    ensures |r| <= |s|
    ensures r != [] ==> r[0].ctype == EOM || r[0].ctype == REPLY
    decreases |s|
  {
    if s == [] || s[0].ctype == EOM || s[0].ctype == REPLY then s else ToReply(SkipOne(s, 0))
  }

  /** The commands message_copy_tail copies, up to and including the matching REPLY (or the EOM). */
  function TailCommands(s: seq<Command>): (r: seq<Command>)
    ensures ToReply(s) != [] ==> |r| == |s| - |ToReply(s)| + 1 && r == s[..|r|]
    ensures ToReply(s) == [] ==> r == []
  {
    if ToReply(s) == [] then [] else s[..|s| - |ToReply(s)| + 1]
  }

  /** What a reader of the copied message sees: the copied commands, closed by an EOM. */
  function ClosedTail(s: seq<Command>): seq<Command> {
    var t := TailCommands(s);
    if t != [] && t[|t| - 1].ctype != EOM then t + [EomCommand] else t
  }

  // ---------- walks only move forward over what they see ----------

  predicate Suffix(r: seq<Command>, s: seq<Command>) {
    |r| <= |s| && r == s[|s| - |r|..]
  }

  lemma {:induction false} SkipOneSuffix(s: seq<Command>, depth: int)
    requires s != []
    ensures Suffix(SkipOne(s, depth), s)
  {
    if |s| > 1 && s[1].ctype != EOM && Nest(depth, s[0], s[1]) > 0 {
      SkipOneSuffix(s[1..], Nest(depth, s[0], s[1]));
    }
  }

  lemma {:induction false} ToReplySuffix(s: seq<Command>)
    ensures Suffix(ToReply(s), s)
    decreases |s|
  {
    if s != [] && s[0].ctype != EOM && s[0].ctype != REPLY {
      SkipOneSuffix(s, 0);
      ToReplySuffix(SkipOne(s, 0));
    }
  }

  lemma {:induction false} ToForwardSuffix(s: seq<Command>, branched: bool)
    ensures Suffix(ToForward(s, branched), s)
    decreases |s|
  {
    if s != [] && s[0].ctype == FORWARD_BEGIN {
      SkipOneSuffix(s, 0);
      ToForwardSuffix(SkipOne(s, 0), branched);
    } else if |s| > 1 && s[0].ctype != EOM && s[0].ctype != FORWARD_CONTINUE {
      ToForwardSuffix(s[1..], branched);
    }
  }

  lemma {:induction false} SkipSuffix(s: seq<Command>, n: int)
    ensures Suffix(Skip(s, n), s)
    decreases |s|
  {
    if s != [] && s[0].ctype != EOM && n > 0 {
      SkipOneSuffix(s, 0);
      SkipSuffix(SkipOne(s, 0), n - 1);
    }
  }
}
