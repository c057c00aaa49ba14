/** The poll sets of src/dw_poll.c as objects over arrays, proved against the functions of Poll.dfy. */
module PollSets {
  import opened Poll

  /** An array of MAX_POLLFD descriptors of which the first n are registered. */
  class FdArray {
    const slots: array<Entry>
    var n: nat

    ghost predicate Valid()
      reads this
    {
      slots.Length == MAX_POLLFD && n <= MAX_POLLFD
    }

    ghost function View(): seq<Entry>
      requires Valid()
      reads this, slots
    {
      slots[..n]
    }

    constructor ()
      ensures Valid() && View() == [] && fresh(slots)
    {
      slots := new Entry[MAX_POLLFD](_ => Entry(0, Flags(false, false, false), 0, NoEvents));
      n := 0;
    }

    /** dw_select_del_rd_pos, dw_select_del_wr_pos and dw_poll_del_pos. */
    method Delete(i: nat)
      requires Valid() && i < n
      modifies this, slots
      ensures Valid() && View() == DelPos(old(View()), i)
    {
      n := n - 1;
      if i < n { slots[i] := slots[n]; }
    }

    /** dw_select_add_rd and dw_select_add_wr, and the same lines of dw_poll_add. */
    method Append(e: Entry)
      requires Valid() && n < MAX_POLLFD
      modifies this, slots
      ensures Valid() && View() == old(View()) + [e]
    {
      slots[n] := e;
      n := n + 1;
    }

    method Replace(i: nat, e: Entry)
      requires Valid() && i < n
      modifies slots
      ensures View() == old(View())[i := e]
    {
      slots[i] := e;
    }

    /** The search loops of dw_poll_mod. */
    method Locate(fd: int) returns (i: nat)
      requires Valid()
      ensures i == Find(View(), fd)
    {
      i := 0;
      while i < n && slots[i].fd != fd
        invariant i <= n && forall j :: 0 <= j < i ==> slots[j].fd != fd
      {
        i := i + 1;
      }
      FirstAt(View(), fd, i);
    }

    /** The skipping loop and the report of dw_poll_next, on this array from cursor `iter` on. */
    method Advance(iter: nat, ready: Entry -> bool) returns (hit: bool, e: Entry, iter': nat)
      requires Valid() && iter <= n
      modifies this, slots
      ensures Valid()
      ensures var r := Poll.Advance(old(View()), iter, ready);
        && View() == r.list && iter' == r.iter && hit == (r.reported != []) && (hit ==> e == r.reported[0])
    {
      iter', e := iter, Entry(0, Flags(false, false, false), 0, NoEvents);
      while iter' < n && !ready(slots[iter'])
        invariant iter <= iter' <= n
        invariant Poll.Advance(View(), iter', ready) == Poll.Advance(View(), iter, ready)
      {
        iter' := iter' + 1;
      }
      hit := iter' < n;
      if hit {
        e := slots[iter'];
        if e.flags.oneshot { Delete(iter'); } else { iter' := iter' + 1; }
      }
    }
  }

  lemma {:induction false} FirstAt(s: seq<Entry>, fd: int, i: nat)
    requires i <= |s| && (i < |s| ==> s[i].fd == fd) && forall j :: 0 <= j < i ==> s[j].fd != fd
    ensures Find(s, fd) == i
  {
    if s != [] && i > 0 { FirstAt(s[1..], fd, i - 1); }
  }

  /** The poll backend. */
  class PollSet {
    const fds: FdArray
    var iter: nat

    ghost predicate Valid()
      reads this, fds
    {
      fds.Valid()
    }

    constructor ()
      ensures Valid() && fds.View() == [] && fresh(fds) && fresh(fds.slots)
    {
      fds := new FdArray();
      iter := 0;
    }

    method Add(fd: int, flags: Flags, aux: int) returns (rv: int)
      requires Valid()
      modifies fds, fds.slots
      ensures Valid() && rv == if old(fds.n) == MAX_POLLFD then -1 else 0
      ensures fds.View() == if rv == 0 then PollOp(old(fds.View()), Op.Add(fd, flags, aux)) else old(fds.View())
    {
      if fds.n == MAX_POLLFD { return -1; }
      fds.Append(Entry(fd, flags, aux, NoEvents));
      rv := 0;
    }

    /** dw_poll_mod; a descriptor not found is added. */
    method Mod(fd: int, flags: Flags, aux: int) returns (rv: int)
      requires Valid()
      modifies fds, fds.slots
      ensures Valid()
      ensures rv == 0 ==> fds.View() == PollMod(old(fds.View()), fd, flags, aux)
      ensures rv != 0 ==> fds.View() == old(fds.View()) && old(fds.n) == MAX_POLLFD
      ensures old(fds.n) < MAX_POLLFD ==> rv == 0
    {
      rv := 0;
      var i := fds.Locate(fd);
      if i < fds.n {
        if !flags.in_ && !flags.out {
          fds.Delete(i);
        } else {
          fds.Replace(i, Entry(fd, Lasting(flags), aux, fds.slots[i].revents));
        }
      }
      if i == fds.n && !NoFlags(flags) {
        rv := Add(fd, flags, aux);
      }
    }

    /** dw_poll_next. */
    method Next() returns (hit: bool, e: Entry)
      requires Valid()
      modifies this, fds, fds.slots
      ensures Valid()
      ensures var it := Iteration(old(fds.View()), old(iter), []);
        var r := Happen(it, Report);
        fds.View() == r.list && iter == r.iter && r.reported == if hit then [e] else []
      ensures hit ==> e in old(fds.View()) && Got(e)
    {
      if iter >= fds.n { return false, Entry(0, Flags(false, false, false), 0, NoEvents); }
      AdvanceReports(fds.View(), iter, IsReady());
      hit, e, iter := fds.Advance(iter, IsReady());
    }
  }

  /** The select backend: readers and writers in separate arrays. */
  class SelectSet {
    const rd: FdArray
    const wr: FdArray
    var iter: nat

    ghost predicate Valid()
      reads this, rd, wr
    {
      rd.Valid() && wr.Valid() && rd != wr && rd.slots != wr.slots
    }

    ghost function View(): Select
      requires Valid()
      reads this, rd, wr, rd.slots, wr.slots
    {
      Select(rd.View(), wr.View())
    }

    constructor ()
      ensures Valid() && View() == Select([], []) && fresh({rd, wr}) && fresh({rd.slots, wr.slots})
    {
      rd := new FdArray();
      wr := new FdArray();
      iter := 0;
    }

    method Add(fd: int, flags: Flags, aux: int) returns (rv: int)
      requires Valid()
      modifies rd, wr, rd.slots, wr.slots
      ensures Valid()
      ensures rv == if (flags.in_ && old(rd.n) == MAX_POLLFD) || (flags.out && old(wr.n) == MAX_POLLFD) then -1 else 0
      ensures View() == if rv == 0 then SelectOp(old(View()), Op.Add(fd, flags, aux)) else old(View())
    {
      if (flags.in_ && rd.n == MAX_POLLFD) || (flags.out && wr.n == MAX_POLLFD) { return -1; }
      if flags.in_ { rd.Append(Entry(fd, flags, aux, NoEvents)); }
      if flags.out { wr.Append(Entry(fd, flags, aux, NoEvents)); }
      rv := 0;
    }

    /** The part of dw_poll_mod for one direction; unlike dw_poll_add it does not check the capacity when it
        adds a descriptor. */
    method ModHalf(half: FdArray, fd: int, want: bool, flags: Flags, aux: int)
      requires half.Valid() && (want && Find(half.View(), fd) == half.n ==> half.n < MAX_POLLFD)
      modifies half, half.slots
      ensures half.Valid() && half.View() == HalfMod(old(half.View()), fd, want, flags, aux)
    {
      var i := half.Locate(fd);
      if i < half.n && !want {
        half.Delete(i);
      } else if i == half.n && want {
        half.Append(Entry(fd, flags, aux, NoEvents));
      } else if i < half.n && want {
        half.Replace(i, Entry(fd, Lasting(flags), aux, NoEvents));
      }
    }

    method Mod(fd: int, flags: Flags, aux: int)
      requires Valid() && (flags.in_ && Find(rd.View(), fd) == rd.n ==> rd.n < MAX_POLLFD)
      requires flags.out && Find(wr.View(), fd) == wr.n ==> wr.n < MAX_POLLFD
      modifies rd, wr, rd.slots, wr.slots
      ensures Valid() && View() == SelectOp(old(View()), Op.Mod(fd, flags, aux))
    {
      ModHalf(rd, fd, flags.in_, flags, aux);
      ModHalf(wr, fd, flags.out, flags, aux);
    }

    /** dw_poll_next, after a select() that reported the descriptors `rdReady` and `wrReady`. */
    method Next(rdReady: Entry -> bool, wrReady: Entry -> bool) returns (hit: Hit)
      requires Valid()
      modifies this, rd, wr, rd.slots, wr.slots
      ensures Valid()
      ensures var r := SelectAdvance(Selecting(old(rd.View()), old(wr.View()), old(iter)), rdReady, wrReady);
        hit == r.0 && Selecting(rd.View(), wr.View(), iter) == r.1
      ensures hit.In? ==> hit.entry in old(rd.View()) && rdReady(hit.entry)
      ensures hit.Out? ==> hit.entry in old(wr.View()) && wrReady(hit.entry)
    {
      hide Poll.Advance;
      if iter > rd.n + wr.n { return None; }
      if iter <= rd.n { AdvanceReports(rd.View(), iter, rdReady); }
      AdvanceReports(wr.View(), if iter < rd.n then 0 else iter - rd.n, wrReady);
      if iter < rd.n {
        var found, e, next := rd.Advance(iter, rdReady);
        iter := next;
        if found { return In(e); }
      }
      var nRd := rd.n;
      var found, e, next := wr.Advance(iter - nRd, wrReady);
      iter := nRd + next;
      hit := if found then Out(e) else None;
    }
  }
}
