/** The retry loops around a single-buffer socket read or write: what a hooked blocking call does with a
    non-blocking descriptor. The kernel may move any number of bytes, fail in any way and take any time. */
module NioLoops {

  import opened Basics
  import opened Clocks

  type Byte = bv8

  datatype ErrorKind = NoError | WouldBlock | Interrupted | OtherError

  /** One call of the wrapped system call: where in the caller's buffer, how much, what came of it, and when. */
  datatype Inner = Inner(offset: nat, size: nat, result: int, error: ErrorKind, blocking: bool, at: nat)

  /** `get_time_limit`: the sum in ns, as far as a `u64` goes; a socket option of zero means no limit, so a limit is
      never zero. */
  function GetTimeLimit(sec: nat, usec: nat): (limit: nat)
    ensures var ns := sec * 1_000_000_000 + usec * 1_000;
            limit == if 0 < ns < 0xFFFF_FFFF_FFFF_FFFF then ns else 0xFFFF_FFFF_FFFF_FFFF
  {
    var ns := SatAdd(Min(sec * 1_000_000_000, U64_MAX), Min(usec * 1_000, U64_MAX));
    if ns == 0 then U64_MAX else ns
  }

  /** Calls that were tried again: each asked for the whole buffer on a non-blocking descriptor, and moved
      nothing. */
  ghost predicate Retried(calls: seq<Inner>, len: nat) {
    forall c | c in calls :: c.offset == 0 && c.size == len && !c.blocking && c.result == -1
                             && (c.error == WouldBlock || c.error == Interrupted)
  }

  /** All calls but the last were retried, and the last one too asked for the whole buffer without blocking. */
  ghost predicate Tried(calls: seq<Inner>, len: nat) {
    calls != [] ==>
      && Retried(calls[..|calls| - 1], len)
      && var c := Last(calls); c.offset == 0 && c.size == len && !c.blocking && (c.result == -1 <==> c.error != NoError)
  }

  function Last(calls: seq<Inner>): Inner
    requires calls != []
  {
    calls[|calls| - 1]
  }

  /** What a finished loop over `len` bytes returns. With nothing to ask for it makes no call and returns -1. A
      failed wait, which follows a call that would block, makes it return 0. Otherwise it returns what the
      last call returned; that is -1 only for an error that is not retried, or when the time is up. */
  ghost predicate Explained(r: int, calls: seq<Inner>, len: nat, limit: nat, waitFailed: bool, timeUp: bool) {
    if len == 0 || limit == 0 then r == -1 && calls == [] && !waitFailed
    else
      && calls != []
      && var c := Last(calls);
         if waitFailed then r == 0 && c.error == WouldBlock
         else r == c.result && (r == -1 ==> c.error == OtherError || (c.error == WouldBlock && timeUp))
  }

  /** How many of the calls would have blocked. */
  function Blocked(calls: seq<Inner>): nat {
    if calls == [] then 0 else Blocked(calls[..|calls| - 1]) + if Last(calls).error == WouldBlock then 1 else 0
  }

  /** One wait for an event after each call that would have blocked, none for longer than 10 ms. */
  ghost predicate Waited(before: seq<nat>, waits: seq<nat>, calls: seq<Inner>) {
    && |waits| == |before| + Blocked(calls) && before <= waits
    && forall w | |before| <= w < |waits| :: waits[w] <= 10_000_000
  }

  /** A call that would have blocked was tried again only if it was made before the deadline. */
  ghost predicate InTime(calls: seq<Inner>, deadline: nat) {
    forall k | 0 <= k < |calls| - 1 :: calls[k].error == WouldBlock ==> calls[k].at < deadline
  }

  /** There was nothing to ask for, or no time to ask, or the last call failed for good, or it would block and
      waiting did not fail. */
  ghost predicate Fails(calls: seq<Inner>, len: nat, limit: nat, waitFailed: bool) {
    || len == 0
    || limit == 0
    || (calls != [] && (Last(calls).error == OtherError || (Last(calls).error == WouldBlock && !waitFailed)))
  }

  lemma FailsIff(r: int, calls: seq<Inner>, len: nat, limit: nat, waitFailed: bool, timeUp: bool)
    requires Explained(r, calls, len, limit, waitFailed, timeUp) && Tried(calls, len)
    ensures r == -1 <==> Fails(calls, len, limit, waitFailed)
  {
  }

  class Socket {
    const clock: Clock
    const isSocket: bool
    /** `recv_time_limit` or `send_time_limit`. */
    const limit: nat
    var blocking: bool
    var errno: ErrorKind
    ghost var calls: seq<Inner>
    /** The bytes the kernel has delivered, and those it has accepted. */
    ghost var delivered: seq<Byte>
    ghost var accepted: seq<Byte>
    /** The waits for an event, with their time limits. */
    ghost var waits: seq<nat>

    constructor (clock: Clock, isSocket: bool, limit: nat, blocking: bool)
      ensures this.clock == clock && this.isSocket == isSocket && this.limit == limit && this.blocking == blocking
      ensures calls == [] && delivered == [] && accepted == [] && waits == []
    {
      this.clock, this.isSocket, this.limit, this.blocking := clock, isSocket, limit, blocking;
      errno, calls, delivered, accepted, waits := NoError, [], [], [], [];
    }

    static function Made(offset: nat, size: nat, r: int, errno: ErrorKind, blocking: bool, at: nat): Inner {
      Inner(offset, size, r, if r == -1 then errno else NoError, blocking, at)
    }

    /** How many bytes a call moves, or -1 and why. */
    method Outcome(offset: nat, size: nat) returns (r: int)
      modifies this`errno, this`calls
      ensures -1 <= r <= size
      ensures if r == -1 then errno != NoError else errno == old(errno)
      ensures calls == old(calls) + [Made(offset, size, r, errno, blocking, clock.now)]
    {
      assert 0 <= size;
      r :| -1 <= r <= size;
      if r == -1 {
        var e :| e != NoError;
        errno := e;
      }
      calls := calls + [Made(offset, size, r, errno, blocking, clock.now)];
    }

    method InnerRead(buf: array<Byte>, offset: nat, size: nat) returns (r: int)
      requires offset + size <= buf.Length
      modifies buf, this`errno, this`calls, this`delivered
      ensures -1 <= r <= size && if r == -1 then errno != NoError else errno == old(errno)
      ensures calls == old(calls) + [Made(offset, size, r, errno, blocking, clock.now)]
      ensures r == -1 ==> buf[..] == old(buf[..]) && delivered == old(delivered)
      ensures r >= 0 ==> buf[..offset] == old(buf[..offset]) && buf[offset + r..] == old(buf[offset + r..])
      ensures r >= 0 ==> delivered == old(delivered) + buf[offset..offset + r]
    {
      r := Outcome(offset, size);
      if r == -1 {
        return;
      }
      var n := 0;
      while n < r
        modifies buf
        invariant 0 <= n <= r
        invariant buf[..offset] == old(buf[..offset]) && buf[offset + n..] == old(buf[offset + n..])
      {
        var b: Byte := *;
        ghost var rest := buf[offset + n..];
        buf[offset + n] := b;
        n := n + 1;
        assert buf[offset + n..] == rest[1..];
        assert old(buf[offset + n - 1..])[1..] == old(buf[offset + n..]);
      }
      delivered := delivered + buf[offset..offset + r];
    }

    method InnerWrite(buf: seq<Byte>, offset: nat, size: nat) returns (r: int)
      requires offset + size <= |buf|
      modifies this`errno, this`calls, this`accepted
      ensures -1 <= r <= size && if r == -1 then errno != NoError else errno == old(errno)
      ensures calls == old(calls) + [Made(offset, size, r, errno, blocking, clock.now)]
      ensures accepted == old(accepted) + if r == -1 then [] else buf[offset..offset + r]
    {
      r := Outcome(offset, size);
      if r != -1 {
        accepted := accepted + buf[offset..offset + r];
      }
    }

    /** `wait_read_event` and `wait_write_event`, for at most `time`: whatever happens in between, time passes. */
    method WaitEvent(time: nat) returns (ok: bool)
      modifies this`errno, this`waits, clock
      ensures clock.now >= old(clock.now) && waits == old(waits) + [time]
    {
      waits := waits + [time];
      var _ := clock.Read();
      ok := *;
      errno := *;
    }

    /** What a pass does after a failed call: whether to try again, and the time left, which after a call that would
        block is what is left of the limit at a reading of the clock. */
    method Again(start: nat, left: nat) returns (again: bool, left': nat, waitFailed: bool)
      modifies this`errno, this`waits, clock
      ensures waits == old(waits) + if old(errno) == WouldBlock then [Min(left', 10_000_000)] else []
      ensures clock.now >= old(clock.now)
      ensures again ==> old(errno) == WouldBlock || old(errno) == Interrupted
      ensures !again && !waitFailed ==> old(errno) != WouldBlock && old(errno) != Interrupted
      ensures waitFailed ==> !again && old(errno) == WouldBlock
      ensures if old(errno) == WouldBlock
              then SatSub(SatAdd(start, limit), clock.now) <= left' <= SatSub(SatAdd(start, limit), old(clock.now))
              else left' == left
    {
      again, left', waitFailed := true, left, false;
      if errno == WouldBlock {
        var now := clock.Read();
        left' := SatSub(SatAdd(start, limit), now);
        var ok := WaitEvent(Min(left', SLICE));
        if !ok {
          again, waitFailed := false, true;
        }
      } else if errno != Interrupted {
        again := false;
      }
    }

    /** The read loop on a non-blocking descriptor, for at most `attempts` passes. */
    method ReadLoop(buf: array<Byte>, attempts: nat)
      returns (r: int, finished: bool, ghost made: seq<Inner>, ghost waitFailed: bool, ghost deadline: nat)
      requires !blocking
      modifies buf, this`errno, this`calls, this`delivered, this`waits, clock
      ensures calls == old(calls) + made && Tried(made, buf.Length) && -1 <= r <= buf.Length
      ensures var moved := if r == -1 then 0 else r;
              delivered == old(delivered) + buf[..moved] && buf[moved..] == old(buf[moved..])
      ensures finished ==> Explained(r, made, buf.Length, limit, waitFailed, clock.now >= SatAdd(old(clock.now), limit))
      ensures !finished ==> r == -1 && Retried(made, buf.Length) && |made| == attempts
      ensures SatAdd(old(clock.now), limit) <= deadline <= SatAdd(clock.now, limit) && InTime(made, deadline)
      ensures Waited(old(waits), waits, made)
      ensures buf.Length == 0 && attempts > 0 ==> finished && r == -1 && made == []
      ensures waitFailed ==> finished && r == 0
    {
      hide Retried, Tried, Explained, Waited, Blocked, InTime;
      var start := clock.Read();
      var left := limit;
      var received := 0;
      r, finished, made, waitFailed, deadline := -1, false, [], false, SatAdd(start, limit);
      NoneMade(buf.Length);
      NoneWaited(waits, deadline);
      for i := 0 to attempts
        invariant !finished && !waitFailed && received == 0 && r == -1
        invariant clock.now >= start >= old(clock.now)
        invariant left == limit || clock.now >= SatSub(SatAdd(start, limit), left)
        invariant calls == old(calls) + made && Retried(made, buf.Length) && Tried(made, buf.Length)
        invariant if made == [] then left == limit else buf.Length > 0 && limit > 0
        invariant made != [] && left == 0 ==> Last(made).error == WouldBlock
        invariant buf.Length == 0 ==> i == 0
        invariant |made| == i && InTime(made, deadline)
        invariant made != [] && Last(made).error == WouldBlock && left > 0 ==> Last(made).at < deadline
        invariant Waited(old(waits), waits, made)
        invariant buf[..] == old(buf[..]) && delivered == old(delivered)
      {
        if !(received < buf.Length && left > 0) {
          finished := true;
          GaveUp(made, buf.Length, limit, clock.now >= SatAdd(old(clock.now), limit));
          break;
        }
        r := InnerRead(buf, received, buf.Length - received);
        ghost var prior, c := made, calls[|calls| - 1];
        MadeAnother(prior, c, buf.Length);
        InTimeMore(prior, c, deadline);
        made := prior + [c];
        LastExplains(made, buf.Length, limit, clock.now >= SatAdd(old(clock.now), limit));
        assert calls == old(calls) + made;
        if r != -1 {
          errno := NoError;
          received := received + r;
          if received >= buf.Length || r == 0 {
            r := received;
            finished := true;
            WaitedMore(old(waits), waits, waits, prior, c);
            break;
          }
        }
        ghost var before := waits;
        var again, left', failed := Again(start, left);
        WaitedMore(old(waits), before, waits, prior, c);
        left := left';
        LastExplains(made, buf.Length, limit, clock.now >= SatAdd(old(clock.now), limit));
        if failed {
          waitFailed := true;
          r := received;
        }
        if !again {
          finished := true;
          break;
        }
      }
    }

    /** The hooked read. At most the last call moves anything; what it moved is what is returned, it is at the
        front of the buffer, and the rest of the buffer is untouched. The descriptor blocks again as before. */
    method ReadBuf(buf: array<Byte>, attempts: nat)
      returns (r: int, finished: bool, ghost waitFailed: bool, ghost deadline: nat)
      modifies this, buf, clock
      ensures |calls| >= |old(calls)| && calls[..|old(calls)|] == old(calls)
      ensures isSocket ==> Tried(calls[|old(calls)|..], buf.Length)
      ensures !isSocket ==> finished && calls == old(calls) + [Made(0, buf.Length, r, errno, old(blocking), clock.now)]
      ensures -1 <= r <= buf.Length
      ensures var moved := if r == -1 then 0 else r;
              delivered == old(delivered) + buf[..moved] && buf[moved..] == old(buf[moved..])
      ensures finished ==> blocking == old(blocking)
      ensures finished && isSocket ==>
                var timeUp := clock.now >= SatAdd(old(clock.now), limit);
                Explained(r, calls[|old(calls)|..], buf.Length, limit, waitFailed, timeUp)
      ensures finished && isSocket ==> (r == -1 <==> Fails(calls[|old(calls)|..], buf.Length, limit, waitFailed))
      ensures isSocket ==>
                && SatAdd(old(clock.now), limit) <= deadline <= SatAdd(clock.now, limit)
                && InTime(calls[|old(calls)|..], deadline)
      ensures !finished ==> |calls| == |old(calls)| + attempts
      ensures isSocket ==> Waited(old(waits), waits, calls[|old(calls)|..])
      ensures isSocket && buf.Length == 0 && attempts > 0 ==> finished && r == -1 && calls == old(calls)
      ensures waitFailed ==> isSocket && finished && r == 0
    {
      hide Retried, Tried, Explained, Fails, Waited, Blocked, InTime;
      if !isSocket {
        r := InnerRead(buf, 0, buf.Length);
        return r, true, false, 0;
      }
      var wasBlocking := blocking;
      if wasBlocking {
        blocking := false;
      }
      ghost var made;
      r, finished, made, waitFailed, deadline := ReadLoop(buf, attempts);
      assert calls[|old(calls)|..] == made;
      if finished {
        FailsIff(r, made, buf.Length, limit, waitFailed, clock.now >= SatAdd(old(clock.now), limit));
      }
      if finished && wasBlocking {
        blocking := true;
      }
    }

    /** The write loop on a non-blocking descriptor. Unlike the read loop it does not single out a call that moves
        nothing. */
    method WriteLoop(buf: seq<Byte>, attempts: nat)
      returns (r: int, finished: bool, ghost made: seq<Inner>, ghost waitFailed: bool, ghost deadline: nat)
      requires !blocking
      modifies this`errno, this`calls, this`accepted, this`waits, clock
      ensures calls == old(calls) + made && Tried(made, |buf|) && -1 <= r <= |buf|
      ensures accepted == old(accepted) + if r == -1 then [] else buf[..r]
      ensures finished ==> Explained(r, made, |buf|, limit, waitFailed, clock.now >= SatAdd(old(clock.now), limit))
      ensures !finished ==> r == -1 && Retried(made, |buf|) && |made| == attempts
      ensures SatAdd(old(clock.now), limit) <= deadline <= SatAdd(clock.now, limit) && InTime(made, deadline)
      ensures Waited(old(waits), waits, made)
      ensures |buf| == 0 && attempts > 0 ==> finished && r == -1 && made == []
      ensures waitFailed ==> finished && r == 0
    {
      hide Retried, Tried, Explained, Waited, Blocked, InTime;
      var start := clock.Read();
      var left := limit;
      var sent := 0;
      r, finished, made, waitFailed, deadline := -1, false, [], false, SatAdd(start, limit);
      NoneMade(|buf|);
      NoneWaited(waits, deadline);
      for i := 0 to attempts
        invariant !finished && !waitFailed && sent == 0 && r == -1
        invariant clock.now >= start >= old(clock.now)
        invariant left == limit || clock.now >= SatSub(SatAdd(start, limit), left)
        invariant calls == old(calls) + made && Retried(made, |buf|) && Tried(made, |buf|)
        invariant if made == [] then left == limit else |buf| > 0 && limit > 0
        invariant made != [] && left == 0 ==> Last(made).error == WouldBlock
        invariant |buf| == 0 ==> i == 0
        invariant |made| == i && InTime(made, deadline)
        invariant made != [] && Last(made).error == WouldBlock && left > 0 ==> Last(made).at < deadline
        invariant Waited(old(waits), waits, made)
        invariant accepted == old(accepted)
      {
        if !(sent < |buf| && left > 0) {
          finished := true;
          GaveUp(made, |buf|, limit, clock.now >= SatAdd(old(clock.now), limit));
          break;
        }
        r := InnerWrite(buf, sent, |buf| - sent);
        ghost var prior, c := made, calls[|calls| - 1];
        MadeAnother(prior, c, |buf|);
        InTimeMore(prior, c, deadline);
        made := prior + [c];
        LastExplains(made, |buf|, limit, clock.now >= SatAdd(old(clock.now), limit));
        assert calls == old(calls) + made;
        if r != -1 {
          errno := NoError;
          sent := sent + r;
          if sent >= |buf| {
            r := sent;
            finished := true;
            WaitedMore(old(waits), waits, waits, prior, c);
            break;
          }
        }
        ghost var before := waits;
        var again, left', failed := Again(start, left);
        WaitedMore(old(waits), before, waits, prior, c);
        left := left';
        LastExplains(made, |buf|, limit, clock.now >= SatAdd(old(clock.now), limit));
        if failed {
          waitFailed := true;
          r := sent;
        }
        if !again {
          finished := true;
          break;
        }
      }
    }

    /** The hooked write: what is returned is how much of the front of the buffer the kernel has accepted, by at
        most one call. */
    method WriteBuf(buf: seq<Byte>, attempts: nat)
      returns (r: int, finished: bool, ghost waitFailed: bool, ghost deadline: nat)
      modifies this, clock
      ensures |calls| >= |old(calls)| && calls[..|old(calls)|] == old(calls)
      ensures isSocket ==> Tried(calls[|old(calls)|..], |buf|)
      ensures !isSocket ==> finished && calls == old(calls) + [Made(0, |buf|, r, errno, old(blocking), clock.now)]
      ensures -1 <= r <= |buf|
      ensures accepted == old(accepted) + if r == -1 then [] else buf[..r]
      ensures finished ==> blocking == old(blocking)
      ensures finished && isSocket ==>
                var timeUp := clock.now >= SatAdd(old(clock.now), limit);
                Explained(r, calls[|old(calls)|..], |buf|, limit, waitFailed, timeUp)
      ensures finished && isSocket ==> (r == -1 <==> Fails(calls[|old(calls)|..], |buf|, limit, waitFailed))
      ensures isSocket ==>
                && SatAdd(old(clock.now), limit) <= deadline <= SatAdd(clock.now, limit)
                && InTime(calls[|old(calls)|..], deadline)
      ensures !finished ==> |calls| == |old(calls)| + attempts
      ensures isSocket ==> Waited(old(waits), waits, calls[|old(calls)|..])
      ensures isSocket && |buf| == 0 && attempts > 0 ==> finished && r == -1 && calls == old(calls)
      ensures waitFailed ==> isSocket && finished && r == 0
    {
      hide Retried, Tried, Explained, Fails, Waited, Blocked, InTime;
      if !isSocket {
        r := InnerWrite(buf, 0, |buf|);
        return r, true, false, 0;
      }
      var wasBlocking := blocking;
      if wasBlocking {
        blocking := false;
      }
      ghost var made;
      r, finished, made, waitFailed, deadline := WriteLoop(buf, attempts);
      assert calls[|old(calls)|..] == made;
      if finished {
        FailsIff(r, made, |buf|, limit, waitFailed, clock.now >= SatAdd(old(clock.now), limit));
      }
      if finished && wasBlocking {
        blocking := true;
      }
    }
  }

  lemma NoneMade(len: nat)
    ensures Retried([], len) && Tried([], len)
  {
  }

  lemma NoneWaited(waits: seq<nat>, deadline: nat)
    ensures Waited(waits, waits, []) && InTime([], deadline)
  {
  }

  lemma InTimeMore(made: seq<Inner>, c: Inner, deadline: nat)
    requires InTime(made, deadline) && (made != [] && Last(made).error == WouldBlock ==> Last(made).at < deadline)
    ensures InTime(made + [c], deadline)
  {
  }

  lemma WaitedMore(before: seq<nat>, waits: seq<nat>, waits': seq<nat>, made: seq<Inner>, c: Inner)
    requires Waited(before, waits, made)
    requires if c.error == WouldBlock then exists t :: t <= 10_000_000 && waits' == waits + [t] else waits' == waits
    ensures Waited(before, waits', made + [c])
  {
    assert (made + [c])[..|made|] == made;
  }

  lemma MadeAnother(made: seq<Inner>, c: Inner, len: nat)
    requires Retried(made, len) && c.offset == 0 && c.size == len && !c.blocking
    requires c.result == -1 <==> c.error != NoError
    ensures Tried(made + [c], len)
    ensures c.result == -1 && (c.error == WouldBlock || c.error == Interrupted) ==> Retried(made + [c], len)
  {
    assert (made + [c])[..|made|] == made;
  }

  lemma GaveUp(made: seq<Inner>, len: nat, limit: nat, timeUp: bool)
    requires Retried(made, len)
    requires if made == [] then len == 0 || limit == 0
             else len > 0 && limit > 0 && Last(made).error == WouldBlock && timeUp
    ensures Explained(-1, made, len, limit, false, timeUp)
  {
    assert made != [] ==> Last(made) in made;
  }

  lemma LastExplains(made: seq<Inner>, len: nat, limit: nat, timeUp: bool)
    requires made != [] && len > 0 && limit > 0
    ensures var c := Last(made);
            && (c.result >= 0 ==> Explained(c.result, made, len, limit, false, timeUp))
            && (c.result == -1 && c.error == OtherError ==> Explained(-1, made, len, limit, false, timeUp))
            && (c.error == WouldBlock ==> Explained(0, made, len, limit, true, timeUp))
  {
  }
}
