/** The preemption monitor's set of running coroutines, kept by a listener of every state change. */
module Monitors {

  import opened CoroutineStates

  type Id = nat

  /** The deadline handed to the monitor and the thread it is to be signalled on. */
  datatype Node = Node(timestamp: nat, thread: nat)

  /** The states of all coroutines, the node each has in its coroutine-local storage, the monitor's set. */
  datatype Watch = Watch(states: map<Id, CoState>, nodes: map<Id, Node>, notify: set<Node>)

  /** The circumstances in which the listener hears of a change: `Monitor::submit` would create a node, or cannot
      because the monitor does not start, or the change happens on the monitor's own thread. */
  datatype Hearing = Submits(node: Node) | CannotSubmit | OnMonitorThread

  /** `MonitorListener::on_state_changed`. */
  function OnStateChanged(w: Watch, id: Id, s: CoState, h: Hearing): Watch {
    var w1 := w.(states := w.states[id := s]);
    if h.OnMonitorThread? then w1
    else
      match s
      case Ready => w1
      case Running => if h.Submits? then w1.(nodes := w.nodes[id := h.node], notify := w.notify + {h.node}) else w1
      case _ => if id in w.nodes then w1.(notify := w.notify - {w.nodes[id]}) else w1
  }

  datatype Call = Call(id: Id, change: Change, now: nat, hearing: Hearing)

  /** A transition call on coroutine `id`: listeners hear only of changes. */
  function Perform(w: Watch, c: Call): Watch
    requires c.id in w.states
  {
    var o := Attempt(w.states[c.id], c.change, c.now);
    if o.Changed? then OnStateChanged(w, c.id, o.state, c.hearing) else w
  }

  ghost function RunningIds(w: Watch): set<Id> { set id | id in w.states && w.states[id] == Running }

  /** The set holds exactly one node per running coroutine. */
  ghost predicate Mirror(w: Watch) {
    && RunningIds(w) <= w.nodes.Keys
    && w.notify == (set id | id in RunningIds(w) :: w.nodes[id])
    && forall a, b | a in RunningIds(w) && b in RunningIds(w) && a != b :: w.nodes[a] != w.nodes[b]
  }

  /** The change would add a node that is already there, or no node for a coroutine that runs, or remove the node
      of another coroutine, or leave that of one that does not run any more. */
  predicate Clash(w: Watch, id: Id, s: CoState, h: Hearing)
    requires id in w.states
  {
    if h.OnMonitorThread? then (s == Running) != (w.states[id] == Running)
    else if s == Running then h.Submits? ==> h.node in w.notify
    else s != Ready && w.states[id] != Running && id in w.nodes && w.nodes[id] in w.notify
  }

  lemma ChangeKeepsMirror(w: Watch, id: Id, s: CoState, h: Hearing)
    requires Mirror(w) && id in w.states && Arrow(w.states[id], s) && !Clash(w, id, s, h)
    ensures Mirror(OnStateChanged(w, id, s, h))
  {
    var w' := OnStateChanged(w, id, s, h);
    if s == Running {
      assert RunningIds(w') == RunningIds(w) + {id};
    } else {
      assert RunningIds(w') == RunningIds(w) - {id};
    }
    forall n ensures n in w'.notify <==> n in (set i | i in RunningIds(w') :: w'.nodes[i]) {
      if n in w'.notify && n in w.notify {
        var i :| i in RunningIds(w) && w.nodes[i] == n;
        assert i in RunningIds(w') && w'.nodes[i] == n;
      }
    }
  }

  lemma ClashBreaksMirror(w: Watch, id: Id, s: CoState, h: Hearing)
    requires Mirror(w) && id in w.states && Arrow(w.states[id], s) && Clash(w, id, s, h)
    ensures !Mirror(OnStateChanged(w, id, s, h))
  {
    var w' := OnStateChanged(w, id, s, h);
    if w.states[id] == Running {
      assert id in RunningIds(w) && w.nodes[id] in w'.notify;
      assert RunningIds(w') == RunningIds(w) - {id};
    } else if s == Running && !h.Submits? {
      assert id in RunningIds(w') && w'.notify == w.notify;
      if id in w.nodes && w.nodes[id] in w.notify {
        var other :| other in RunningIds(w) && w.nodes[other] == w.nodes[id];
        assert other in RunningIds(w');
      }
    } else {
      var n := if s == Running then h.node else w.nodes[id];
      var other :| other in RunningIds(w) && w.nodes[other] == n;
      assert other != id && other in RunningIds(w') && w'.nodes[other] == n;
      assert s == Running ==> id in RunningIds(w') && w'.nodes[id] == n;
    }
  }

  /** One change keeps the mirror exactly when it does not clash. */
  lemma MirrorKeptIff(w: Watch, id: Id, s: CoState, h: Hearing)
    requires Mirror(w) && id in w.states && Arrow(w.states[id], s)
    ensures Mirror(OnStateChanged(w, id, s, h)) <==> !Clash(w, id, s, h)
  {
    if Clash(w, id, s, h) {
      ClashBreaksMirror(w, id, s, h);
    } else {
      ChangeKeepsMirror(w, id, s, h);
    }
  }

  /** Two coroutines that start to run with the same node: one node is left for both, so the mirror is lost. */
  lemma SameNodeTwice(node: Node)
    ensures var w := Watch(map[0 := Ready, 1 := Ready], map[], {});
            var calls := [Call(0, ToRunning, 0, Submits(node)), Call(1, ToRunning, 0, Submits(node))];
            && Mirror(w) && RunningIds(PerformAll(w, calls)) == {0, 1}
            && PerformAll(w, calls).notify == {node} && !Mirror(PerformAll(w, calls))
  {
    var w := Watch(map[0 := Ready, 1 := Ready], map[], {});
    var a, b := Call(0, ToRunning, 0, Submits(node)), Call(1, ToRunning, 0, Submits(node));
    var w1 := Perform(w, a);
    var w2 := Perform(w1, b);
    assert [a, b][1..] == [b] && [b][1..] == [];
    assert PerformAll(w, [a, b]) == PerformAll(w1, [b]) == w2;
    assert w2 == Watch(map[0 := Running, 1 := Running], map[0 := node, 1 := node], {node});
    assert 0 in RunningIds(w2) && 1 in RunningIds(w2);
  }

  function PerformAll(w: Watch, calls: seq<Call>): Watch
    requires forall j | 0 <= j < |calls| :: calls[j].id in w.states
    decreases |calls|
  {
    if calls == [] then w else PerformAll(Perform(w, calls[0]), calls[1..])
  }

  /** No two coroutines keep the same node, and the coming nodes are new and pairwise different. */
  ghost predicate Distinct(w: Watch, calls: seq<Call>) {
    && (forall j | 0 <= j < |calls| :: calls[j].hearing.Submits?)
    && (forall a, b | a in w.nodes && b in w.nodes && a != b :: w.nodes[a] != w.nodes[b])
    && (forall a, j | a in w.nodes && 0 <= j < |calls| :: w.nodes[a] != calls[j].hearing.node)
    && (forall i, j | 0 <= i < j < |calls| :: calls[i].hearing.node != calls[j].hearing.node)
  }

  /** Over any sequence of transition calls on any coroutines, with distinct submit timestamps, the monitor's
      set holds exactly one node per running coroutine; terminal coroutines stay as they are. */
  lemma {:induction false} MonitorMirrorsRunning(w: Watch, calls: seq<Call>)
    requires forall j | 0 <= j < |calls| :: calls[j].id in w.states
    requires Mirror(w) && Distinct(w, calls)
    ensures var w' := PerformAll(w, calls);
            && Mirror(w') && w'.states.Keys == w.states.Keys
            && forall id | id in w.states && w.states[id].Terminal() :: w'.states[id] == w.states[id]
    decreases |calls|
  {
    if calls != [] {
      var c := calls[0];
      var o := Attempt(w.states[c.id], c.change, c.now);
      if o.Changed? {
        ChangesFollowArrows(w.states[c.id], o.state);
        NoClash(w, calls, o.state);
        ChangeKeepsMirror(w, c.id, o.state, c.hearing);
      }
      DistinctStep(w, calls);
      MonitorMirrorsRunning(Perform(w, c), calls[1..]);
    }
  }

  lemma NoClash(w: Watch, calls: seq<Call>, s: CoState)
    requires Mirror(w) && Distinct(w, calls) && calls != [] && calls[0].id in w.states
    ensures !Clash(w, calls[0].id, s, calls[0].hearing)
  {
    var id := calls[0].id;
    if id in w.nodes && w.nodes[id] in w.notify {
      var i :| i in RunningIds(w) && w.nodes[i] == w.nodes[id];
      assert i == id;
    }
  }

  lemma DistinctStep(w: Watch, calls: seq<Call>)
    requires Distinct(w, calls) && calls != [] && calls[0].id in w.states
    ensures Distinct(Perform(w, calls[0]), calls[1..])
  {
    var c := calls[0];
    var w' := Perform(w, c);
    assert forall j | 0 <= j < |calls[1..]| :: calls[1..][j] == calls[j + 1];
  }

  /** The monitor and the coroutine-local storage its listener uses, as mutable state. */
  class Monitor {
    var states: map<Id, CoState>
    var nodes: map<Id, Node>
    var notify: set<Node>

    ghost function View(): Watch
      reads this
    {
      Watch(states, nodes, notify)
    }

    constructor (ids: set<Id>)
      ensures View() == Watch(map id | id in ids :: Ready, map[], {}) && Mirror(View())
    {
      states := map id | id in ids :: Ready;
      nodes, notify := map[], {};
    }

    /** `Monitor::submit`; without a node the monitor could not be started. */
    method Submit(h: Hearing) returns (ok: bool)
      modifies this`notify
      ensures ok == h.Submits?
      ensures notify == if ok then old(notify) + {h.node} else old(notify)
    {
      ok := h.Submits?;
      if ok {
        notify := notify + {h.node};
      }
    }

    method Remove(node: Node) returns (removed: bool)
      modifies this`notify
      ensures removed == (node in old(notify)) && notify == old(notify) - {node}
    {
      removed := node in notify;
      notify := notify - {node};
    }

    method HearStateChange(id: Id, s: CoState, h: Hearing)
      modifies this
      ensures View() == OnStateChanged(old(View()), id, s, h)
    {
      states := states[id := s];
      if h.OnMonitorThread? {
        return;
      }
      match s {
        case Ready =>
        case Running =>
          var ok := Submit(h);
          if ok {
            nodes := nodes[id := h.node];
          }
        case _ =>
          if id in nodes {
            var _ := Remove(nodes[id]);
          }
      }
    }

    method Transition(c: Call) returns (ok: bool)
      requires c.id in states
      modifies this
      ensures View() == Perform(old(View()), c)
      ensures ok <==> Attempt(old(states)[c.id], c.change, c.now) != Refused
    {
      var o := Attempt(states[c.id], c.change, c.now);
      if o.Changed? {
        HearStateChange(c.id, o.state, c.hearing);
      }
      ok := o != Refused;
    }
  }
}
