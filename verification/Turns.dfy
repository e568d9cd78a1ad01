/** The turns of the coroutines on one scheduler, and that none comes before the time its coroutine asked for. */
module Turns {

  import opened Basics
  import opened CoroutineStates
  import opened CoroutineBodies
  import opened ScheduleMoves

  /** Coroutine `id` was resumed at `at`; its body ended with `end` in state `from`, when `head` was the newest
      thread-local deadline. Meanwhile other code put the ids `marked` into the cancel set. */
  datatype Turn = Turn(id: Id, at: nat, from: CoState, end: End, head: nat, marked: set<Id>)

  /** The ids that were put into the cancel set during the turns. */
  function Marks(turns: seq<Turn>): set<Id> { set t, id | t in turns && id in t.marked :: id }

  /** What the turn makes of its coroutine for good. */
  function Final(t: Turn): Option<CoState> {
    if t.from != Running then None
    else if t.end.Return? then Some(Complete(t.end.result))
    else if t.end.Panic? then Some(Error(t.end.message))
    else if t.end == YieldCancel then Some(Cancelled)
    else None
  }

  ghost predicate NewlyAway(w: Sched, w': Sched, id: Id) {
    && id in w'.place && id in w'.cos && Away(w'.place[id])
    && !(id in w.place && w.place[id] == w'.place[id])
  }

  /** A coroutine that is newly dropped was in the cancel set, or has cancelled itself in one of the turns; one that is
      newly finished has returned or panicked in one of them, with the result it has. */
  ghost predicate LeftFor(w: Sched, w': Sched, turns: seq<Turn>, marks: set<Id>) {
    forall id | NewlyAway(w, w', id) ::
      Reason(id, w'.place[id], w'.cos[id], turns, marks)
  }

  ghost predicate Reason(id: Id, p: Place, s: CoState, turns: seq<Turn>, marks: set<Id>) {
    || (p == Dropped && id in marks)
    || exists t | t in turns :: t.id == id && Final(t) == Some(if p == Dropped then Cancelled else s)
  }

  lemma NobodyLeft(w: Sched, w': Sched)
    requires OnlyNew(w, w', {})
    ensures LeftFor(w, w', [], {})
  {
  }

  lemma LeftForThen(a: Sched, b: Sched, c: Sched, turns: seq<Turn>, more: seq<Turn>, marks: set<Id>, marks': set<Id>)
    requires Inv(b) && Keeps(b, c) && LeftFor(a, b, turns, marks) && LeftFor(b, c, more, marks')
    ensures LeftFor(a, c, turns + more, marks + marks')
  {
    forall id | NewlyAway(a, c, id)
      ensures Reason(id, c.place[id], c.cos[id], turns + more, marks + marks')
    {
      if id in b.place && b.place[id] == c.place[id] {
        assert Home(b, id);
        MoreReason(id, c.place[id], c.cos[id], turns, turns + more, marks, marks + marks');
      } else {
        MoreReason(id, c.place[id], c.cos[id], more, turns + more, marks', marks + marks');
      }
    }
  }

  lemma MoreReason(id: Id, p: Place, s: CoState, turns: seq<Turn>, more: seq<Turn>, marks: set<Id>, marks': set<Id>)
    requires Reason(id, p, s, turns, marks) && (forall t | t in turns :: t in more) && marks <= marks'
    ensures Reason(id, p, s, more, marks')
  {
  }

  lemma LeftForMore(w: Sched, w': Sched, turns: seq<Turn>, marks: set<Id>, marks': set<Id>)
    requires LeftFor(w, w', turns, marks) && marks <= marks'
    ensures LeftFor(w, w', turns, marks')
  {
    forall id | NewlyAway(w, w', id)
      ensures Reason(id, w'.place[id], w'.cos[id], turns, marks')
    {
      MoreReason(id, w'.place[id], w'.cos[id], turns, turns, marks, marks');
    }
  }

  lemma MarksMore(turns: seq<Turn>, more: seq<Turn>)
    ensures Marks(turns + more) == Marks(turns) + Marks(more) && Marks([]) == {}
  {
  }

  /** The time before which the turn's coroutine is not to be resumed. */
  function Asked(t: Turn): Option<nat> {
    if t.from != Running then None
    else if t.end.YieldUntil? then Some(t.end.deadline)
    else if t.end == YieldPlain then Some(t.head)
    else None
  }

  function EventsOf(t: Turn): seq<Event> {
    [Resumed(t.id, t.at)] + if Asked(t).Some? then [Yielded(t.id, Asked(t).value)] else []
  }

  function AllEvents(turns: seq<Turn>): seq<Event> {
    if turns == [] then [] else AllEvents(turns[..|turns| - 1]) + EventsOf(turns[|turns| - 1])
  }

  lemma OneMoreTurn(turns: seq<Turn>, t: Turn)
    ensures AllEvents(turns + [t]) == AllEvents(turns) + EventsOf(t)
  {
    assert (turns + [t])[..|turns|] == turns;
  }

  lemma {:induction false} MoreTurns(turns: seq<Turn>, more: seq<Turn>)
    ensures AllEvents(turns + more) == AllEvents(turns) + AllEvents(more)
  {
    if more == [] {
      assert turns + more == turns;
    } else {
      hide AllEvents, EventsOf;
      var n := |more| - 1;
      var init, last := more[..n], more[n];
      assert more == init + [last] && turns + more == turns + init + [last];
      MoreTurns(turns, init);
      OneMoreTurn(turns + init, last);
      OneMoreTurn(init, last);
      Associative(AllEvents(turns), AllEvents(init), EventsOf(last));
    }
  }

  lemma Associative(a: seq<Event>, b: seq<Event>, c: seq<Event>)
    ensures a + b + c == a + (b + c)
  {
  }

  /** Where the events of turn `k` begin. */
  function Begin(turns: seq<Turn>, k: nat): nat
    requires k <= |turns|
  {
    |AllEvents(turns[..k])|
  }

  lemma {:induction false} EventsAt(turns: seq<Turn>, k: nat)
    requires k < |turns|
    ensures Begin(turns, k) + |EventsOf(turns[k])| == Begin(turns, k + 1) <= |AllEvents(turns)|
    ensures AllEvents(turns)[Begin(turns, k)..Begin(turns, k + 1)] == EventsOf(turns[k])
  {
    var n := |turns| - 1;
    var init := turns[..n];
    assert turns == init + [turns[n]];
    OneMoreTurn(init, turns[n]);
    hide AllEvents, EventsOf;
    if k == n {
      assert turns[..k + 1] == turns;
    } else {
      EventsAt(init, k);
      assert init[..k] == turns[..k] && init[..k + 1] == turns[..k + 1];
      var a, b := Begin(turns, k), Begin(turns, k + 1);
      assert AllEvents(turns)[a..b] == AllEvents(init)[a..b];
    }
  }

  lemma {:induction false} BeginGrows(turns: seq<Turn>, a: nat, b: nat)
    requires a <= b <= |turns|
    ensures Begin(turns, a) <= Begin(turns, b) <= |AllEvents(turns)|
    decreases b - a
  {
    if a < b {
      EventsAt(turns, a);
      BeginGrows(turns, a + 1, b);
    } else if a < |turns| {
      EventsAt(turns, a);
    } else {
      assert turns[..a] == turns;
    }
  }

  /** The turn an event belongs to. */
  lemma {:induction false} TurnOf(turns: seq<Turn>, e: nat) returns (k: nat)
    requires e < |AllEvents(turns)|
    ensures k < |turns| && Begin(turns, k) <= e < Begin(turns, k + 1) && AllEvents(turns)[e].id == turns[k].id
  {
    k := 0;
    assert turns[..0] == [] && turns[..|turns|] == turns;
    while Begin(turns, k + 1) <= e
      invariant k < |turns| && Begin(turns, k) <= e
      decreases |turns| - k
    {
      k := k + 1;
    }
    EventsAt(turns, k);
    var a := Begin(turns, k);
    assert AllEvents(turns)[e] == AllEvents(turns)[a..Begin(turns, k + 1)][e - a];
  }

  /** Turn `j` is the next one of the coroutine of turn `i`. */
  predicate NextTurn(turns: seq<Turn>, i: nat, j: nat) {
    i < j < |turns| && turns[j].id == turns[i].id && forall n | i < n < j :: turns[n].id != turns[i].id
  }

  /** No coroutine has its next turn before the time it asked for. */
  ghost predicate NeverEarly(turns: seq<Turn>) {
    forall i, j | 0 <= i && 0 <= j && NextTurn(turns, i, j) ::
      Asked(turns[i]).Some? ==> Asked(turns[i]).value <= turns[j].at
  }

  lemma NextTurnIsDue(before: seq<Event>, turns: seq<Turn>, i: nat, j: nat)
    requires NoneEarly(before + AllEvents(turns)) && NextTurn(turns, i, j) && Asked(turns[i]).Some?
    ensures Asked(turns[i]).value <= turns[j].at
  {
    hide NoneEarly, AllEvents;
    var es := AllEvents(turns);
    EventsAt(turns, i);
    EventsAt(turns, j);
    BeginGrows(turns, i + 1, j);
    var y, r := Begin(turns, i) + 1, Begin(turns, j);
    assert es[y] == es[Begin(turns, i)..Begin(turns, i + 1)][1];
    assert es[r] == es[Begin(turns, j)..Begin(turns, j + 1)][0];
    forall e | y < e < r ensures es[e].id != turns[i].id {
      var k := TurnOf(turns, e);
      if k <= i {
        BeginGrows(turns, k + 1, i + 1);
      } else if j <= k {
        BeginGrows(turns, j, k);
      }
    }
    NextResumeIsDue(before + es, |before| + y, |before| + r);
  }

  /** A run without early resumes is one in which every coroutine has its next turn in time. */
  lemma TurnsAreDue(before: seq<Event>, turns: seq<Turn>)
    requires NoneEarly(before + AllEvents(turns))
    ensures NeverEarly(turns)
  {
    forall i, j | 0 <= i && 0 <= j && NextTurn(turns, i, j) && Asked(turns[i]).Some?
      ensures Asked(turns[i]).value <= turns[j].at
    {
      NextTurnIsDue(before, turns, i, j);
    }
  }
}
