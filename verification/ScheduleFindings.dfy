/** Runs of the scheduler, from a new one, that end where one would not expect: a coroutine that is timed out before
    its deadline, and a plain `suspend` that sleeps until a deadline of another coroutine's system call. */
module ScheduleFindings {

  import opened Basics
  import opened Clocks
  import opened CoroutineStates
  import opened CoroutineBodies
  import opened ScheduleMoves
  import opened Schedulers
  import opened SyscallBracket

  /** Between two turns. */
  ghost predicate Idle(s: Scheduler)
    reads s, s.clock
  {
    s.Valid() && Hands(s.View()) == {}
  }

  /** A pass of `check_ready` between two turns. Whoever is ready stays so. */
  method Passes(s: Scheduler)
    requires Idle(s)
    modifies s, s.clock
    ensures Idle(s) && s.clock.now >= old(s.clock.now) && s.timestamps == old(s.timestamps)
    ensures old(s.ready) <= s.ready
    ensures forall id | id in old(s.ready) :: id in old(s.cos) && id in s.cos && s.cos[id] == old(s.cos)[id]
    ensures NothingDue(old(s.View()), s.clock.now) ==> s.View() == old(s.View()).(now := s.clock.now)
  {
    hide Inv, Hands, Keeps, Sound, Scheduler.Traced, EarlyForLeftover, OnlyFuture, OnlyNew, NothingDue;
    ghost var w := s.View();
    ghost var t, moved, late := s.CheckReady();
    SoundParts(w, s.View());
    ReadyStay(w, s.View(), moved, late);
  }

  lemma ReadyStay(w: Sched, w': Sched, moved: seq<Id>, late: seq<Id>)
    requires Inv(w) && OthersKept(w.cos, w'.cos, moved + late)
    requires (forall id | id in moved :: id in w.suspend) && (forall id | id in late :: id in w.table)
    ensures forall id | id in w.ready :: id in w.cos && id in w'.cos && w'.cos[id] == w.cos[id]
  {
    forall id | id in w.ready ensures id in w.cos && id in w'.cos && w'.cos[id] == w.cos[id] {
      var n: nat :| n < |w.ready| && w.ready[n] == id;
      ReadyIsKnown(w, n);
      assert id !in moved + late;
    }
  }

  /** One round of `do_schedule` up to the body: `check_ready`, then the first ready coroutine is taken and starts to
      run. If nothing is due, only this coroutine is moved. */
  method Enter(s: Scheduler) returns (id: Id, s0: CoState)
    requires Idle(s) && s.ready != []
    modifies s, s.clock
    ensures s.Valid() && Hands(s.View()) == {id} && id == old(s.ready)[0] && s.clock.now >= old(s.clock.now)
    ensures id in old(s.cos) && s0 == After(old(s.cos)[id], Attempt(old(s.cos)[id], ToRunning, s.clock.now))
    ensures id in s.cos && s.cos[id] == s0 && id !in s.owed && s.timestamps == old(s.timestamps)
    ensures NothingDue(old(s.View()), s.clock.now) ==>
              var w := TakeReady(old(s.View()), 0);
              s.View() == w.(cos := w.cos[id := s0], owed := w.owed - {id}, now := s.clock.now)
  {
    hide Inv, Hands, Keeps, Sound, Scheduler.Traced, FitsReady, Attempt, After, OnlyNew;
    id := s.ready[0];
    Passes(s);
    var taken := s.Take(0);
    ghost var w := s.View();
    s0 := s.StartRunning(id);
    SoundParts(w, s.View());
  }

  lemma ComesBack(s0: CoState, body: Body, timestamps: seq<nat>, st: CoState, timestamps': seq<nat>)
    requires LegalBody(s0, body) && Ended(AfterAll(s0, body.own), body.end, timestamps, st, timestamps')
    ensures CameBack(st) && (st.Syscall? ==> st.phase.SuspendUntil?)
  {
    EndedComesBack(AfterAll(s0, body.own), body.end, timestamps, st, timestamps');
  }

  /** It runs a given body, nobody else acts, and it is put where it belongs. */
  method Leave(s: Scheduler, id: Id, s0: CoState, body: Body) returns (st: CoState)
    requires s.Valid() && Hands(s.View()) == {id} && id in s.cos && s.cos[id] == s0 && id !in s.owed
    requires LegalBody(s0, body)
    modifies s, s.clock
    ensures Idle(s) && s.cos == old(s.cos)[id := st]
    ensures Ended(AfterAll(s0, body.own), body.end, old(s.timestamps), st, s.timestamps)
    ensures st.Syscall? ==> st.phase.SuspendUntil?
    ensures st.Syscall? ==> s.View() == PutTable(old(s.View()), id, st.name, st.phase.deadline)
    ensures st.Suspend? ==> Scheduler.Parked(s.View(), id, st.deadline)
  {
    hide Inv, Hands, Keeps, Sound, Scheduler.Traced, LegalBody, AfterAll, Ended, MayEnd, CameBack, OnlyNew;
    hide Scheduler.Parked;
    ghost var w := s.View();
    st := s.RunBody(id, s0, body, []);
    SoundParts(w, s.View());
    ComesBack(s0, body, old(s.timestamps), st, s.timestamps);
    assert w.cos[id := st][id := st] == w.cos[id := st];
    var _ := s.Dispatch(id, st, map[]);
  }

  method Begin(now: nat) returns (s: Scheduler)
    ensures fresh(s) && fresh(s.clock) && Idle(s) && s.clock.now == now && s.View() == Start(now) && s.timestamps == []
  {
    var clock := new Clock(now);
    s := new Scheduler(clock);
  }

  ghost function Start(now: nat): Sched { Sched(map[], [], map[], {}, multiset{}, map[], map[], now) }

  method Arrive(s: Scheduler, id: Id)
    requires Idle(s) && id !in s.cos
    modifies s
    ensures Idle(s) && s.View() == PutReady(old(s.View()), id, Ready) && s.timestamps == old(s.timestamps)
  {
    hide Inv, Hands, Keeps, Sound, Scheduler.Traced, OnlyNew;
    ghost var w := s.View();
    s.Submit(id);
    SoundParts(w, s.View());
  }

  /** The wake-ups of the scheduler, by an event of the selector or by the coroutine's timer, are the ones the hooked
      call counts on: the coroutine becomes ready in the phase of the wake-up, in the same call. Only its own
      timer goes with it. */
  method Deliver(s: Scheduler, id: Id, w: Wake)
    requires Idle(s) && id in s.table
    modifies s
    ensures Idle(s) && s.timestamps == old(s.timestamps)
    ensures id in old(s.cos) && old(s.cos)[id].Syscall? && old(s.cos)[id].phase.SuspendUntil?
    ensures var woken := PutReady(TakeTable(old(s.View()), id), id, Syscall(old(s.cos)[id].name, WakePhase(w)));
            var own := multiset{(old(s.cos)[id].phase.deadline, id)};
            s.View() == if w.event then woken else woken.(timers := woken.timers - own)
  {
    ParkedHasTimer(s.View(), id);
    hide Inv, Hands, Keeps, Sound, Scheduler.Traced, OnlyNew;
    ghost var before := s.View();
    if w.event {
      s.TryResume(id);
    } else {
      s.FireTimer((s.cos[id].phase.deadline, id));
    }
    SoundParts(before, s.View());
  }

  // ---- A time-out before the deadline ----

  /** One turn of the first ready coroutine, in which it waits in a system call until `d`. */
  method Waits(s: Scheduler, name: SyscallName, d: nat)
    requires Idle(s) && s.ready != [] && s.ready[0] in s.cos
    requires s.cos[s.ready[0]] == Ready || s.cos[s.ready[0]] == Syscall(name, Callback)
    modifies s, s.clock
    ensures Idle(s) && s.clock.now >= old(s.clock.now) && s.timestamps == [d] + old(s.timestamps)
    ensures NothingDue(old(s.View()), s.clock.now) && old(s.ready)[0] !in old(s.owed) ==>
              s.View() == PutTable(TakeReady(old(s.View()), 0), old(s.ready)[0], name, d).(now := s.clock.now)
  {
    hide Inv, Hands, Keeps, Sound, Scheduler.Traced, LegalBody, AfterAll, FitsReady, NothingDue, OnlyNew;
    var id, s0 := Enter(s);
    WaitIsLegal(s0, name, d);
    ghost var w := s.View();
    var st := Leave(s, id, s0, WaitBody(name, d));
    assert w.cos[id := st] == w.cos[id := s0][id := st];
  }

  /** The states of a scheduler with one coroutine: submitted; waiting in a call until `d1`; woken by an event; waiting
      again, until `d2`; and the same at time `d1`. */
  ghost function WaitsTwice(name: SyscallName, d1: nat, d2: nat): seq<Sched> {
    var w1 := PutReady(Start(0), 0, Ready);
    var w2 := PutTable(TakeReady(w1, 0), 0, name, d1);
    var w3 := PutReady(TakeTable(w2, 0), 0, Syscall(name, Callback));
    var w4 := PutTable(TakeReady(w3, 0), 0, name, d2);
    [w1, w2, w3, w4, w4.(now := d1)]
  }

  ghost function OneReady(st: CoState, timers: multiset<(nat, Id)>, now: nat): Sched {
    Sched(map[0 := st], [0], map[], {}, timers, map[0 := InReady], map[], now)
  }

  ghost function OneWaits(name: SyscallName, d: nat, timers: multiset<(nat, Id)>, now: nat): Sched {
    Sched(map[0 := Syscall(name, SuspendUntil(d))], [], map[], {0}, timers, map[0 := InTable], map[], now)
  }

  lemma OneReadyIsRight(st: CoState, timers: multiset<(nat, Id)>)
    requires st == Ready || (st.Syscall? && st.phase == Callback)
    ensures Inv(OneReady(st, timers, 0)) && Hands(OneReady(st, timers, 0)) == {}
  {
    var w := OneReady(st, timers, 0);
    forall id ensures Home(w, id) {
      OccursOne(0, id);
    }
  }

  lemma OneWaitsIsRight(name: SyscallName, d: nat, timers: multiset<(nat, Id)>, now: nat)
    requires (d, 0) in timers
    ensures Inv(OneWaits(name, d, timers, now)) && Hands(OneWaits(name, d, timers, now)) == {}
  {
    assert forall id :: Home(OneWaits(name, d, timers, now), id);
  }

  lemma WaitsTwiceStates(name: SyscallName, d1: nat, d2: nat)
    ensures WaitsTwice(name, d1, d2) ==
            [OneReady(Ready, multiset{}, 0), OneWaits(name, d1, multiset{(d1, 0)}, 0),
             OneReady(Syscall(name, Callback), multiset{(d1, 0)}, 0),
             OneWaits(name, d2, multiset{(d1, 0), (d2, 0)}, 0), OneWaits(name, d2, multiset{(d1, 0), (d2, 0)}, d1)]
  {
    var w1, w3 := OneReady(Ready, multiset{}, 0), OneReady(Syscall(name, Callback), multiset{(d1, 0)}, 0);
    assert PutReady(Start(0), 0, Ready) == w1;
    TurnOfOne(Ready, multiset{}, name, d1, 0);
    assert multiset{} + multiset{(d1, 0)} == multiset{(d1, 0)};
    var w2 := OneWaits(name, d1, multiset{(d1, 0)}, 0);
    WakeOfOne(name, d1, multiset{(d1, 0)}, 0);
    TurnOfOne(Syscall(name, Callback), multiset{(d1, 0)}, name, d2, 0);
    assert multiset{(d1, 0)} + multiset{(d2, 0)} == multiset{(d1, 0), (d2, 0)};
  }

  lemma WakeOfOne(name: SyscallName, d: nat, timers: multiset<(nat, Id)>, now: nat)
    ensures PutReady(TakeTable(OneWaits(name, d, timers, now), 0), 0, Syscall(name, Callback))
            == OneReady(Syscall(name, Callback), timers, now)
  {
    assert {0} - {0} == {};
  }

  lemma TurnOfOne(st: CoState, timers: multiset<(nat, Id)>, name: SyscallName, d: nat, now: nat)
    ensures PutTable(TakeReady(OneReady(st, timers, now), 0), 0, name, d)
            == OneWaits(name, d, timers + multiset{(d, 0)}, now)
  {
    assert Without([0], 0) == [];
  }

  /** Each of these states but the last comes from the one before by a turn or a wake-up of the scheduler, with
      nothing due, so that no `check_ready` pass changes anything in between. In the last the first timer is left
      over, and due. */
  lemma LeftoverIsReached(name: SyscallName, d1: nat, d2: nat)
    requires 0 < d1 < d2
    ensures var ws := WaitsTwice(name, d1, d2);
            && (forall n | 0 <= n < 5 :: Inv(ws[n]) && Hands(ws[n]) == {})
            && (forall n | 0 <= n < 4 :: NothingDue(ws[n], ws[n].now))
            && 0 in ws[4].table && Deadline(ws[4], 0) == d2 && HasLeftover(ws[4], 0, ws[4].now)
  {
    WaitsTwiceStates(name, d1, d2);
    OneReadyIsRight(Ready, multiset{});
    OneReadyIsRight(Syscall(name, Callback), multiset{(d1, 0)});
    OneWaitsIsRight(name, d1, multiset{(d1, 0)}, 0);
    var both := multiset{(d1, 0), (d2, 0)};
    OneWaitsIsRight(name, d2, both, 0);
    OneWaitsIsRight(name, d2, both, d1);
    hide Inv, Hands, WaitsTwice;
    assert (d1, 0) in both;
  }

  /** A new scheduler with one coroutine, which has a turn and waits until `d`, and a pass of `check_ready`. */
  method WaitsOnce(name: SyscallName, d: nat) returns (s: Scheduler)
    ensures fresh(s) && fresh(s.clock) && Idle(s)
    ensures s.clock.now < d ==> s.View() == OneWaits(name, d, multiset{(d, 0)}, s.clock.now)
  {
    hide Idle;
    s := Begin(0);
    Arrive(s, 0);
    assert s.View() == OneReady(Ready, multiset{}, 0);
    Waits(s, name, d);
    TurnOfOne(Ready, multiset{}, name, d, 0);
    assert multiset{} + multiset{(d, 0)} == multiset{(d, 0)};
    Passes(s);
  }

  /** It is woken by an event and has another turn, in which it waits until `d2`. */
  method WaitsOnceMore(s: Scheduler, name: SyscallName, d1: nat, d2: nat)
    requires Idle(s) && s.View() == OneWaits(name, d1, multiset{(d1, 0)}, s.clock.now)
    modifies s, s.clock
    ensures Idle(s)
    ensures s.clock.now < d1 ==> s.View() == OneWaits(name, d2, multiset{(d1, 0), (d2, 0)}, s.clock.now)
  {
    hide Idle;
    ghost var now := s.clock.now;
    Deliver(s, 0, Wake(true, false));
    WakeOfOne(name, d1, multiset{(d1, 0)}, now);
    Waits(s, name, d2);
    TurnOfOne(Syscall(name, Callback), multiset{(d1, 0)}, name, d2, now);
    assert multiset{(d1, 0)} + multiset{(d2, 0)} == multiset{(d1, 0), (d2, 0)};
  }

  /** The scheduler really runs through these states: if all readings of the clock are before `d1`, it comes to the
      fourth one, by its own methods and with a pass of `check_ready` before every step. */
  method RunsThrough(name: SyscallName, d1: nat, d2: nat) returns (s: Scheduler)
    ensures Idle(s)
    ensures s.clock.now < d1 ==> s.View() == WaitsTwice(name, d1, d2)[3].(now := s.clock.now)
  {
    WaitsTwiceStates(name, d1, d2);
    hide Idle, WaitsTwice;
    s := WaitsOnce(name, d1);
    var now := s.clock.now;
    if now < d1 {
      WaitsOnceMore(s, name, d1, d2);
    }
  }

  /** At time `d1` every `check_ready` pass times the coroutine out, although it waits until `d2`. */
  lemma TimedOutEarly(name: SyscallName, d1: nat, d2: nat, late: seq<Id>)
    requires 0 < d1 < d2
    requires var w := WaitsTwice(name, d1, d2)[4]; TimedOutFor(w.table, w.timers, late, d1, d1)
    ensures var w := WaitsTwice(name, d1, d2)[4];
            Inv(w) && 0 in w.table && Deadline(w, 0) > w.now && 0 in late
  {
    LeftoverIsReached(name, d1, d2);
    hide Inv, WaitsTwice;
    EarlyIffLeftover(WaitsTwice(name, d1, d2)[4], late, d1, 0);
  }

  // ---- A plain suspend with a deadline ----

  method WaitsAlone(name: SyscallName, d: nat) returns (s: Scheduler)
    ensures fresh(s) && fresh(s.clock) && Idle(s) && s.ready == [] && s.cos.Keys == {0} && s.timestamps == [d]
  {
    hide Inv, Hands, Keeps, Sound, Scheduler.Traced, Idle, OnlyNew;
    s := Begin(0);
    Arrive(s, 0);
    assert NothingDue(s.View(), s.clock.now);
    Waits(s, name, d);
  }

  /** One coroutine waits in a system call until `d`, and another one calls plain `suspend`: it is suspended until
      `d`, and stays in the heap if that time is still to come. */
  method SuspendsUntilStale(name: SyscallName, d: nat) returns (s: Scheduler)
    ensures Idle(s) && 1 in s.cos && s.cos[1] == Suspend(d) && Scheduler.Parked(s.View(), 1, d)
  {
    hide Inv, Hands, Keeps, Sound, Scheduler.Traced, LegalBody, FitsReady, Scheduler.Parked, Idle, NothingDue, OnlyNew;
    s := WaitsAlone(name, d);
    Arrive(s, 1);
    var id, s0 := Enter(s);
    PlainIsLegal();
    var st := Leave(s, 1, s0, Body([], YieldPlain));
  }

  lemma PlainIsLegal()
    ensures LegalBody(Running, Body([], YieldPlain)) && AfterAll(Running, []) == Running
  {
  }
}
