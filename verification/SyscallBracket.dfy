/** A hooked system call inside a coroutine: the facade around it, the waits in the event loop and the
    wake-ups the scheduler delivers. */
module SyscallBracket {

  import opened Basics
  import opened Clocks
  import opened CoroutineStates
  import opened CoroutineBodies

  const NANOS_PER_SEC: nat := 1_000_000_000

  /** How one wait ends: woken by an event or by a timer, and whether the selector then reports an error. */
  datatype Wake = Wake(event: bool, selectorError: bool)

  function WakePhase(w: Wake): SyscallState { if w.event then Callback else Timeout }

  /** A coroutine on its thread, as the hooked call sees it. `parked` are the states in which it was handed
      to the scheduler; `failures` counts refused state changes, which the code only logs. `own` are the changes
      it has made to its state since it was last resumed, in state `since`, and `bodies` what it did before
      that, from switch to switch. */
  class Caller {
    const co: Coroutine
    const clock: Clock
    var timestamps: seq<nat>
    var failures: nat
    ghost var parked: seq<CoState>
    ghost var since: CoState
    ghost var own: seq<(Change, nat)>
    ghost var bodies: seq<(CoState, Body)>

    /** The state is the outcome of the coroutine's own changes, and all it did from switch to switch is legal. */
    ghost predicate Valid()
      reads this, co
    {
      && co.state == AfterAll(since, own)
      && (forall j | 0 <= j < |own| :: OwnChange(own[j].0))
      && (forall b | b in bodies :: LegalBody(b.0, b.1))
    }

    constructor (co: Coroutine, clock: Clock)
      ensures Valid() && this.co == co && this.clock == clock && failures == 0
      ensures parked == [] && timestamps == [] && bodies == []
    {
      this.co, this.clock := co, clock;
      timestamps, failures, parked := [], 0, [];
      since, own, bodies := co.state, [], [];
    }

    method SetSyscall(name: SyscallName, phase: SyscallState)
      requires Valid()
      modifies this`failures, this`own, co
      ensures Valid()
      ensures co.state == After(old(co.state), Attempt(old(co.state), ToSyscall(name, phase), 0))
      ensures failures == old(failures) + if Attempt(old(co.state), ToSyscall(name, phase), 0) == Refused then 1 else 0
    {
      AfterOneMore(since, own, ToSyscall(name, phase), 0);
      var ok := co.EnterSyscall(name, phase);
      own := own + [(ToSyscall(name, phase), 0)];
      if !ok {
        failures := failures + 1;
      }
    }

    /** `Suspender::until` in a system call: the thread-local deadline is pushed and not popped on this path;
        the scheduler parks the coroutine, wakes it, and resumes it, which keeps the wake-up phase. */
    method ParkUntil(timestamp: nat, w: Wake)
      requires Valid() && co.state.Syscall? && co.state.phase.SuspendUntil?
      modifies this, co, clock
      ensures Valid() && bodies == old(bodies) + [(old(since), Body(old(own), YieldUntil(timestamp)))]
      ensures co.state == Syscall(old(co.state.name), WakePhase(w))
      ensures parked == old(parked) + [old(co.state)] && failures == old(failures)
      ensures timestamps == [timestamp] + old(timestamps)
      ensures clock.now >= old(clock.now)
    {
      timestamps := [timestamp] + timestamps;
      parked := parked + [co.state];
      bodies := bodies + [(since, Body(own, YieldUntil(timestamp)))];
      var woken := co.EnterSyscall(co.state.name, WakePhase(w));
      assert woken;
      var t := clock.Read();
      var ok := co.BecomeRunning(t);
      assert ok;
      since, own := co.state, [];
    }

    /** `wait_just(Some(timeout))` in phase `Executing`, or in the phase a caller has already set to wait in. */
    method WaitJust(timeout: nat, w: Wake) returns (ok: bool)
      requires Valid() && co.state.Syscall? && (co.state.phase == Executing || co.state.phase.SuspendUntil?)
      modifies this, co, clock
      ensures Valid() && old(bodies) <= bodies
      ensures co.state == Syscall(old(co.state.name), Executing)
      ensures |bodies| == |old(bodies)| + 1
      ensures |parked| == |old(parked)| + 1 && old(parked) <= parked && failures == old(failures)
      ensures parked[|old(parked)|].Syscall? && parked[|old(parked)|].name == old(co.state.name)
      ensures parked[|old(parked)|].phase.SuspendUntil?
      ensures |timestamps| == |old(timestamps)| + 1 && timestamps[1..] == old(timestamps)
      ensures SatAdd(timeout, old(clock.now)) <= timestamps[0] <= SatAdd(timeout, clock.now)
      ensures parked[|old(parked)|].phase.deadline
           == if old(co.state.phase) == Executing then timestamps[0] else old(co.state.phase.deadline)
      ensures ok == !w.selectorError && clock.now >= old(clock.now)
    {
      var t := clock.Read();
      var timestamp := SatAdd(timeout, t);
      if co.state.phase == Executing {
        SetSyscall(co.state.name, SuspendUntil(timestamp));
      }
      ParkUntil(timestamp, w);
      if co.state.phase == Callback || co.state.phase == Timeout {
        SetSyscall(co.state.name, Executing);
      }
      ok := !w.selectorError;
    }

    ghost predicate ParkedOnlyIn(name: SyscallName, from: nat)
      reads this
    {
      forall j | from <= j < |parked| :: parked[j].Syscall? && parked[j].name == name && parked[j].phase.SuspendUntil?
    }

    /** The facade around a call whose inner layers wait `|waits|` times, each wait with its own time limit
        and ended by an event or a timer: back to `Running`, nothing refused, parked only in the call, and each
        stretch between two switches a legal body. */
    method HookedCall(name: SyscallName, waits: seq<(nat, Wake)>)
      requires Valid() && co.state == Running
      modifies this, co, clock
      ensures Valid() && |bodies| == |old(bodies)| + |waits| && old(bodies) <= bodies
      ensures co.state == Running && failures == old(failures)
      ensures |parked| == |old(parked)| + |waits| && old(parked) <= parked && ParkedOnlyIn(name, |old(parked)|)
      ensures |timestamps| == |old(timestamps)| + |waits|
    {
      SetSyscall(name, Executing);
      for n := 0 to |waits|
        invariant Valid() && |bodies| == |old(bodies)| + n && old(bodies) <= bodies
        invariant co.state == Syscall(name, Executing) && failures == old(failures)
        invariant |parked| == |old(parked)| + n && old(parked) <= parked && ParkedOnlyIn(name, |old(parked)|)
        invariant |timestamps| == |old(timestamps)| + n
      {
        ghost var before := parked;
        var ok := WaitJust(waits[n].0, waits[n].1);
        assert forall j | 0 <= j < |before| :: parked[j] == before[j];
      }
      LeaveCall();
    }

    method LeaveCall()
      requires Valid()
      modifies this`failures, this`own, co, clock
      ensures Valid() && clock.now >= old(clock.now)
      ensures old(co.state).Syscall? && old(co.state).phase == Executing ==>
                co.state == Running && failures == old(failures)
    {
      var t := clock.Read();
      AfterOneMore(since, own, ToRunning, t);
      var ok := co.BecomeRunning(t);
      own := own + [(ToRunning, t)];
      if !ok {
        failures := failures + 1;
      }
    }

    /** `timed_wait_just`, followed through the given wake-ups. It comes back (`done`) with a selector error, or
        from the first pass whose clock reading finds the deadline passed, however many of the wake-ups were
        spurious; `reading` is that of the last pass. No pass waits for longer than 10 ms. */
    method TimedWaitJust(timeout: nat, wakes: seq<Wake>)
      returns (done: bool, ok: bool, used: nat, ghost deadline: nat, ghost reading: nat)
      requires Valid() && co.state.Syscall? && (co.state.phase == Executing || co.state.phase.SuspendUntil?)
      modifies this, co, clock
      ensures Valid() && old(bodies) <= bodies
      ensures used <= |wakes| && failures == old(failures)
      ensures co.state.Syscall? && co.state.name == old(co.state.name)
      ensures used > 0 ==> co.state.phase == Executing
      ensures |parked| == |old(parked)| + used && old(parked) <= parked
      ensures ParkedOnlyIn(old(co.state.name), |old(parked)|)
      ensures done ==> used > 0 && ok == !wakes[used - 1].selectorError
      ensures used > 0 && wakes[used - 1].selectorError ==> done
      ensures forall n | 0 <= n < used - 1 :: !wakes[n].selectorError
      ensures SatAdd(timeout, old(clock.now)) <= deadline <= SatAdd(timeout, clock.now)
      ensures used > 0 ==> old(clock.now) <= reading <= clock.now
      ensures done && ok ==> reading >= deadline
      ensures used > 0 && !done ==> reading < deadline
      ensures !done ==> used == |wakes|
      ensures |timestamps| == |old(timestamps)| + used && timestamps[used..] == old(timestamps)
      ensures forall j | 0 <= j < used :: timestamps[j] <= SatAdd(10_000_000, clock.now)
      ensures clock.now >= old(clock.now)
    {
      var start := clock.Read();
      var timeoutTime := SatAdd(timeout, start);
      used, done, ok := 0, false, true;
      deadline, reading := timeoutTime, start;
      ghost var name := co.state.name;
      while used < |wakes|
        invariant Valid() && old(bodies) <= bodies
        invariant used <= |wakes| && failures == old(failures) && !done
        invariant co.state.Syscall? && co.state.name == name
        invariant co.state.phase == Executing || (co.state.phase.SuspendUntil? && used == 0)
        invariant |parked| == |old(parked)| + used && old(parked) <= parked && ParkedOnlyIn(name, |old(parked)|)
        invariant forall n | 0 <= n < used :: !wakes[n].selectorError
        invariant old(clock.now) <= reading <= clock.now && (used > 0 ==> reading < deadline)
        invariant |timestamps| == |old(timestamps)| + used && timestamps[used..] == old(timestamps)
        invariant forall j | 0 <= j < used :: timestamps[j] <= SatAdd(10_000_000, clock.now)
        invariant clock.now >= start
      {
        var t := clock.Read();
        reading := t;
        var left := Min(SatSub(timeoutTime, t), SLICE);
        ghost var before, pushed := parked, timestamps;
        ok := WaitJust(left, wakes[used]);
        assert forall j | 0 <= j < |before| :: parked[j] == before[j];
        assert forall j | 0 < j < |timestamps| :: timestamps[j] == timestamps[1..][j - 1] == pushed[j - 1];
        assert timestamps[used + 1..] == timestamps[1..][used..];
        used := used + 1;
        if left == 0 || !ok {
          done := true;
          return;
        }
      }
    }

    /** The hooked `sleep`: it comes back, in `Running`, from the first wait that begins at or after its deadline, or
        from one after which the selector reports an error, and from no other. A `sleep` that has not come back
        yet is still in the call. */
    method Sleep(secs: nat, wakes: seq<Wake>)
      returns (done: bool, used: nat, ghost deadline: nat, ghost reading: nat)
      requires Valid() && co.state == Running && secs <= U32_MAX
      modifies this, co, clock
      ensures Valid() && old(bodies) <= bodies
      ensures failures == old(failures) && used <= |wakes|
      ensures |parked| == |old(parked)| + used && old(parked) <= parked && ParkedOnlyIn("sleep", |old(parked)|)
      ensures done ==> co.state == Running
      ensures !done ==> co.state.Syscall? && co.state.name == "sleep" && used == |wakes|
      ensures SatAdd(secs * 1_000_000_000, old(clock.now)) <= deadline <= SatAdd(secs * 1_000_000_000, clock.now)
      ensures used > 0 ==> old(clock.now) <= reading <= clock.now
      ensures used > 0 ==> (done <==> reading >= deadline || wakes[used - 1].selectorError)
      ensures done ==> used > 0
    {
      SetSyscall("sleep", Executing);
      var t := clock.Read();
      var time := secs * NANOS_PER_SEC;
      SetSyscall("sleep", SuspendUntil(SatAdd(time, t)));
      var ok;
      done, ok, used, deadline, reading := TimedWaitJust(time, wakes);
      if done {
        LeaveCall();
      }
    }
  }
}
