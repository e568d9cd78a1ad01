/** What a coroutine body does between two switches, and what becomes of the coroutine when it switches back. */
module CoroutineBodies {

  import opened Basics
  import opened CoroutineStates

  /** How a body gives the thread back. */
  datatype End =
    | YieldUntil(deadline: nat)
    | YieldPlain
    | YieldCancel
    | Return(result: Option<nat>)
    | Panic(message: string)

  /** What a body does to its own state between two switches, and how it ends. */
  datatype Body = Body(own: seq<(Change, nat)>, end: End)

  /** A body only enters and leaves system calls. */
  predicate OwnChange(c: Change) { c.ToSyscall? || c == ToRunning }

  /** The states a body may end in: running, or waiting in a system call if it yields. */
  predicate MayEnd(s: CoState, end: End) {
    s == Running || ((end.YieldUntil? || end == YieldPlain) && s.Syscall? && s.phase.SuspendUntil?)
  }

  /** Bodies enter and leave system calls; they yield only while running or while waiting in a call, and are
      cancelled and return only while running. */
  predicate LegalBody(s: CoState, b: Body) {
    && (forall j | 0 <= j < |b.own| :: OwnChange(b.own[j].0))
    && MayEnd(AfterAll(s, b.own), b.end)
  }

  lemma SomeLegalBody(s: CoState)
    requires s == Running || (s.Syscall? && (s.phase == Callback || s.phase == Timeout))
    ensures exists b :: LegalBody(s, b)
  {
    var own := if s == Running then [] else [(ToSyscall(s.name, Executing), 0), (ToRunning, 0)];
    var b := Body(own, YieldPlain);
    if s.Syscall? {
      var s1 := Syscall(s.name, Executing);
      assert own[1..] == [(ToRunning, 0)];
      assert AfterAll(s, own) == AfterAll(s1, own[1..]);
      assert AfterAll(s1, own[1..]) == AfterAll(Running, own[1..][1..]);
    }
    assert LegalBody(s, b);
  }

  /** One more call at the end. */
  lemma {:induction false} AfterOneMore(s: CoState, calls: seq<(Change, nat)>, c: Change, now: nat)
    ensures var s' := AfterAll(s, calls); AfterAll(s, calls + [(c, now)]) == After(s', Attempt(s', c, now))
    decreases |calls|
  {
    if calls == [] {
      assert [(c, now)][1..] == [];
    } else {
      assert (calls + [(c, now)])[1..] == calls[1..] + [(c, now)];
      AfterOneMore(After(s, Attempt(s, calls[0].0, calls[0].1)), calls[1..], c, now);
    }
  }

  /** The part of a hooked call from its entry, or from a wake-up, to its next wait. */
  function WaitBody(name: SyscallName, ts: nat): Body {
    Body([(ToSyscall(name, Executing), 0), (ToSyscall(name, SuspendUntil(ts)), 0)], YieldUntil(ts))
  }

  lemma WaitIsLegal(s: CoState, name: SyscallName, ts: nat)
    requires s == Running || (s.Syscall? && s.name == name)
    ensures LegalBody(s, WaitBody(name, ts)) && AfterAll(s, WaitBody(name, ts).own) == Syscall(name, SuspendUntil(ts))
  {
    var own := WaitBody(name, ts).own;
    assert own == [] + [own[0]] + [own[1]] && [] + [own[0]] == [own[0]];
    AfterOneMore(s, [], own[0].0, 0);
    AfterOneMore(s, [own[0]], own[1].0, 0);
  }

  /** The thread-local deadline a suspended coroutine is given: the newest one, or 0. */
  function Head(timestamps: seq<nat>): nat { if timestamps == [] then 0 else timestamps[0] }

  /** What a body's end makes of the coroutine. A deadline given to `until` from `Running` is the one the
      coroutine is suspended with. In a system call the deadline stays behind in the thread-local queue,
      and a later plain `suspend` takes it for its own. */
  ghost predicate Ended(s1: CoState, end: End, timestamps: seq<nat>, st: CoState, timestamps': seq<nat>) {
    match end
    case Return(r) => st == Complete(r) && timestamps' == timestamps
    case Panic(m) => st == Error(m) && timestamps' == timestamps
    case YieldCancel => st == Cancelled && timestamps' == timestamps
    case YieldUntil(d) =>
      if s1 == Running then st == Suspend(d) && timestamps' == timestamps
      else st == s1 && timestamps' == [d] + timestamps
    case YieldPlain =>
      if s1 != Running then st == s1 && timestamps' == timestamps
      else st == Suspend(Head(timestamps)) && timestamps' == if timestamps == [] then [] else timestamps[1..]
  }

  /** A state in which a resumed coroutine comes back. */
  predicate CameBack(st: CoState) {
    st.Suspend? || (st.Syscall? && st.phase.SuspendUntil?) || st.Terminal()
  }

  lemma EndedComesBack(s1: CoState, end: End, timestamps: seq<nat>, st: CoState, timestamps': seq<nat>)
    requires MayEnd(s1, end) && Ended(s1, end, timestamps, st, timestamps')
    ensures CameBack(st)
  {
  }
}
