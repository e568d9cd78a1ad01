/** The life of one coroutine: its state cell and the calls that try to change it. */
module CoroutineStates {

  import opened Basics

  type SyscallName = string

  datatype SyscallState =
    | Executing
    | SuspendUntil(deadline: nat)
    | Timeout
    | Callback

  datatype CoState =
    | Ready
    | Running
    | Suspend(deadline: nat)
    | Syscall(name: SyscallName, phase: SyscallState)
    | Cancelled
    | Complete(result: Option<nat>)
    | Error(message: string)
  {
    predicate Terminal() { Cancelled? || Complete? || Error? }
  }

  /** The transition methods of `Coroutine`. */
  datatype Change =
    | ToReady
    | ToRunning
    | ToSuspend(deadline: nat)
    | ToSyscall(name: SyscallName, phase: SyscallState)
    | ToCancelled
    | ToComplete(result: Option<nat>)
    | ToError(message: string)

  /** An error, success without a change (no listener hears of it), or success with a new state. */
  datatype Outcome = Refused | Kept | Changed(state: CoState)

  function Attempt(s: CoState, c: Change, now: nat): Outcome {
    match c
    case ToReady =>
      if s == Ready then Kept
      else if s.Suspend? && s.deadline <= now then Changed(Ready)
      else Refused
    case ToRunning =>
      if s == Running then Kept
      else if s == Ready || (s.Syscall? && s.phase == Executing) then Changed(Running)
      else if s.Suspend? && s.deadline <= now then Changed(Running)
      else if s.Syscall? && (s.phase == Callback || s.phase == Timeout) then Kept
      else Refused
    case ToSuspend(deadline) => if s == Running then Changed(Suspend(deadline)) else Refused
    case ToSyscall(name, phase) =>
      if s == Running || (s.Syscall? && s.name == name) then Changed(Syscall(name, phase)) else Refused
    case ToCancelled => if s == Running then Changed(Cancelled) else Refused
    case ToComplete(r) => if s == Running then Changed(Complete(r)) else Refused
    case ToError(m) => if s == Running then Changed(Error(m)) else Refused
  }

  function After(s: CoState, o: Outcome): CoState { if o.Changed? then o.state else s }

  /** The state after a sequence of calls, each with its clock reading. */
  function AfterAll(s: CoState, calls: seq<(Change, nat)>): CoState
    decreases |calls|
  {
    if calls == [] then s else AfterAll(After(s, Attempt(s, calls[0].0, calls[0].1)), calls[1..])
  }

  /** The arrows of the documented diagram, with the ones the code adds: a suspended coroutine may run at
      once, a coroutine in a system call may change the phase of that call, and a running one may be cancelled. */
  predicate Arrow(s: CoState, s': CoState) {
    match s
    case Ready => s' == Running
    case Running => s'.Suspend? || s'.Syscall? || s'.Terminal()
    case Suspend(_) => s' == Ready || s' == Running
    case Syscall(name, phase) => (s' == Running && phase == Executing) || (s'.Syscall? && s'.name == name)
    case _ => false
  }

  /** A call changes the state only along an arrow, never before a suspension has expired, and every arrow is
      taken by some call once the clock allows it. */
  lemma ChangesFollowArrows(s: CoState, s': CoState)
    ensures Arrow(s, s') <==> exists c, now :: Attempt(s, c, now) == Changed(s')
    ensures forall c, now :: s.Suspend? && Attempt(s, c, now) == Changed(s') ==> s.deadline <= now
  {
    if Arrow(s, s') {
      var c := match s'
        case Ready => ToReady
        case Running => ToRunning
        case Suspend(d) => ToSuspend(d)
        case Syscall(n, p) => ToSyscall(n, p)
        case Cancelled => ToCancelled
        case Complete(r) => ToComplete(r)
        case Error(m) => ToError(m);
      var now := if s.Suspend? then s.deadline else 0;
      assert Attempt(s, c, now) == Changed(s');
    }
  }

  /** The call asks for the state. */
  predicate AsksFor(c: Change, s: CoState) {
    match c
    case ToReady => s == Ready
    case ToRunning => s == Running
    case ToSuspend(d) => s == Suspend(d)
    case ToSyscall(n, p) => s == Syscall(n, p)
    case ToCancelled => s == Cancelled
    case ToComplete(r) => s == Complete(r)
    case ToError(m) => s == Error(m)
  }

  /** A call changes the state exactly if there is an arrow to the state it asks for, and a suspension is over. It
      succeeds without a change exactly for a ready coroutine told to be ready, and a running or just woken one told
      to run. Any other call is refused. */
  lemma ChangesExactly(s: CoState, c: Change, now: nat, s': CoState)
    ensures Attempt(s, c, now) == Changed(s') <==> Arrow(s, s') && AsksFor(c, s') && (s.Suspend? ==> s.deadline <= now)
    ensures Attempt(s, c, now) == Kept <==>
            || (c == ToReady && s == Ready)
            || (c == ToRunning && (s == Running || (s.Syscall? && (s.phase == Callback || s.phase == Timeout))))
  {
  }

  /** A terminal state is never left, whatever is called afterwards. */
  lemma {:induction false} TerminalIsFinal(s: CoState, calls: seq<(Change, nat)>)
    requires s.Terminal()
    ensures AfterAll(s, calls) == s
  {
    if calls != [] {
      TerminalIsFinal(s, calls[1..]);
    }
  }

  /** A coroutine in a system call stays in that call until it is in phase `Executing` and told to run. */
  lemma {:induction false} SyscallIsLeftByRunning(s: CoState, calls: seq<(Change, nat)>)
    requires s.Syscall? && forall j | 0 <= j < |calls| :: calls[j].0 != ToRunning
    ensures AfterAll(s, calls).Syscall? && AfterAll(s, calls).name == s.name
    decreases |calls|
  {
    if calls != [] {
      SyscallIsLeftByRunning(After(s, Attempt(s, calls[0].0, calls[0].1)), calls[1..]);
    }
  }

  /** The mutable coroutine. `heard` is what its listeners were told: old and new state of each change. */
  class Coroutine {
    var state: CoState
    var heard: seq<(CoState, CoState)>

    constructor ()
      ensures state == Ready && heard == []
    {
      state, heard := Ready, [];
    }

    /** What a transition method promises: the outcome, the new state and what listeners hear. */
    twostate predicate Does(c: Change, now: nat, ok: bool)
      reads this
    {
      var o := Attempt(old(state), c, now);
      && (ok <==> o != Refused)
      && state == After(old(state), o)
      && heard == if o.Changed? then old(heard) + [(old(state), o.state)] else old(heard)
    }

    method ChangeState(s: CoState)
      modifies this
      ensures state == s && heard == old(heard) + [(old(state), s)]
    {
      heard := heard + [(state, s)];
      state := s;
    }

    method BecomeReady(now: nat) returns (ok: bool)
      modifies this
      ensures Does(ToReady, now, ok)
    {
      match state {
        case Ready => return true;
        case Suspend(deadline) =>
          if deadline <= now {
            ChangeState(Ready);
            return true;
          }
        case _ =>
      }
      return false;
    }

    method BecomeRunning(now: nat) returns (ok: bool)
      modifies this
      ensures Does(ToRunning, now, ok)
    {
      match state {
        case Running => return true;
        case Ready =>
          ChangeState(Running);
          return true;
        case Syscall(_, Executing) =>
          ChangeState(Running);
          return true;
        case Suspend(deadline) =>
          if deadline <= now {
            ChangeState(Running);
            return true;
          }
        case Syscall(_, phase) =>
          if phase == Callback || phase == Timeout {
            return true;
          }
        case _ =>
      }
      return false;
    }

    method BecomeSuspended(deadline: nat) returns (ok: bool)
      modifies this
      ensures Does(ToSuspend(deadline), 0, ok)
    {
      if state != Running {
        return false;
      }
      ChangeState(Suspend(deadline));
      return true;
    }

    method EnterSyscall(name: SyscallName, phase: SyscallState) returns (ok: bool)
      modifies this
      ensures Does(ToSyscall(name, phase), 0, ok)
    {
      match state {
        case Running =>
          ChangeState(Syscall(name, phase));
          return true;
        case Syscall(original, _) =>
          if original == name {
            ChangeState(Syscall(name, phase));
            return true;
          }
        case _ =>
      }
      return false;
    }

    method Cancel() returns (ok: bool)
      modifies this
      ensures Does(ToCancelled, 0, ok)
    {
      if state != Running {
        return false;
      }
      ChangeState(Cancelled);
      return true;
    }

    method Finish(r: Option<nat>) returns (ok: bool)
      modifies this
      ensures Does(ToComplete(r), 0, ok)
    {
      if state != Running {
        return false;
      }
      ChangeState(Complete(r));
      return true;
    }

    method Fail(m: string) returns (ok: bool)
      modifies this
      ensures Does(ToError(m), 0, ok)
    {
      if state != Running {
        return false;
      }
      ChangeState(Error(m));
      return true;
    }
  }
}
