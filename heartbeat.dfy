/** The relay's liveness sweep (backend-server/src/websocket/heartbeat.ts):
    every 30 seconds, agents that did not answer the previous ping are
    terminated and forgotten, and the others are marked as suspect and
    pinged again. A pong (handled per connection) clears the suspicion. */
module Heartbeat {
  import opened Common
  import opened Messages
  import opened Registry
  import opened AckTracking

  const HeartbeatIntervalMs: int := 30000

  /** The registry after one tick: agents that were alive stay, now
      marked not alive; the others are gone. */
  function TickSurvivors(m: map<string, AgentSession>): map<string, AgentSession> {
    map k | k in m && m[k].isAlive :: m[k].(isAlive := false)
  }

  /** The devices a tick disconnects: those whose last ping went unanswered. */
  function Dead(m: map<string, AgentSession>): set<string> {
    set k | k in m && !m[k].isAlive
  }

  /** What a tick does to one agent's socket. */
  function TickAction(s: AgentSession): SocketAction {
    if s.isAlive then Pinged(s.socket) else Terminated(s.socket)
  }

  /** The socket actions of a tick that visits the agents in `order`. */
  function TickActions(m: map<string, AgentSession>, order: seq<string>): (r: seq<SocketAction>)
    requires forall i :: 0 <= i < |order| ==> order[i] in m
    ensures |r| == |order|
    ensures forall i :: 0 <= i < |order| ==> r[i] == TickAction(m[order[i]])
  {
    if order == [] then [] else TickActions(m, order[..|order| - 1]) + [TickAction(m[order[|order| - 1]])]
  }

  /** The registry part-way through a tick that has visited `done`. */
  function TickPartial(m: map<string, AgentSession>, done: set<string>): map<string, AgentSession> {
    map k | k in m && (k !in done || m[k].isAlive) :: if k in done then m[k].(isAlive := false) else m[k]
  }

  /** The pending acks left once every device in `devices` was cancelled. */
  function WithoutDevices(pending: map<string, PendingAck>, devices: set<string>): map<string, PendingAck> {
    map id | id in pending && pending[id].deviceId !in devices :: pending[id]
  }

  /** The ids of the pending acks stored under one of `devices`. */
  function IdsOwnedBy(pending: map<string, PendingAck>, devices: set<string>): set<string> {
    set id | id in pending && pending[id].deviceId in devices
  }

  /** The handles of the pending acks stored under one of `devices`. */
  function HandlesOwnedBy(pending: map<string, PendingAck>, devices: set<string>): set<nat> {
    set id | id in pending && pending[id].deviceId in devices :: pending[id].handle
  }

  /** heartbeat.ts:24-39: after a tick no remaining agent is marked alive,
      and exactly the agents that were alive remain. */
  lemma AfterTickAllSuspect(m: map<string, AgentSession>)
    ensures forall k :: k in TickSurvivors(m) ==> !TickSurvivors(m)[k].isAlive
    ensures forall k :: k in TickSurvivors(m) <==> k in m && k !in Dead(m)
  {
  }

  /** Two strikes: an agent registered alive that never answers a ping
      survives the first tick and is removed by the second. */
  lemma SilentAgentRemovedOnSecondTick(m: map<string, AgentSession>, k: string)
    requires k in m && m[k].isAlive
    ensures k in TickSurvivors(m)
    ensures k in Dead(TickSurvivors(m))
    ensures k !in TickSurvivors(TickSurvivors(m))
  {
  }

  /** A pong between two ticks keeps the agent registered through the
      second tick. */
  lemma PongBetweenTicksKeepsAgent(m: map<string, AgentSession>, k: string)
    requires k in m && m[k].isAlive
    ensures var m1 := TickSurvivors(m);
      k in m1 && k in TickSurvivors(m1[k := m1[k].(isAlive := true)])
  {
  }

  /** Nobody answers: two ticks empty the registry. */
  lemma TwoSilentTicksEmpty(m: map<string, AgentSession>)
    ensures TickSurvivors(TickSurvivors(m)) == map[]
  {
    assert forall k :: k !in TickSurvivors(TickSurvivors(m));
  }

  lemma TickKeepsWellKeyed(m: map<string, AgentSession>)
    requires WellKeyed(m)
    ensures WellKeyed(TickSurvivors(m))
  {
  }

  lemma PartialDone(m: map<string, AgentSession>)
    ensures TickPartial(m, m.Keys) == TickSurvivors(m)
  {
  }

  lemma PartialStep(m: map<string, AgentSession>, done: set<string>, k: string)
    requires k in m && k !in done
    ensures !m[k].isAlive ==> TickPartial(m, done + {k}) == TickPartial(m, done) - {k}
    ensures m[k].isAlive ==> TickPartial(m, done + {k}) == TickPartial(m, done)[k := m[k].(isAlive := false)]
  {
  }

  lemma HandlesOwnedByStep(p: map<string, PendingAck>, devices: set<string>, d: string)
    ensures HandlesOwnedBy(p, devices) + OwnedHandles(WithoutDevices(p, devices), d)
         == HandlesOwnedBy(p, devices + {d})
  {
    var left := HandlesOwnedBy(p, devices) + OwnedHandles(WithoutDevices(p, devices), d);
    forall h | h in HandlesOwnedBy(p, devices + {d})
      ensures h in left
    {
      var id :| id in p && p[id].deviceId in devices + {d} && p[id].handle == h;
      if p[id].deviceId !in devices {
        assert id in WithoutDevices(p, devices);
      }
    }
  }

  /** Cancelling one more device's acks during a tick. */
  lemma AcksStep(p0: map<string, PendingAck>, a0: map<nat, AckTimer>, dead: set<string>, k: string,
                 pending: map<string, PendingAck>, armed: map<nat, AckTimer>)
    requires pending == WithoutDevices(p0, dead)
    requires armed == a0 - HandlesOwnedBy(p0, dead)
    ensures Without(pending, k) == WithoutDevices(p0, dead + {k})
    ensures armed - OwnedHandles(pending, k) == a0 - HandlesOwnedBy(p0, dead + {k})
  {
    HandlesOwnedByStep(p0, dead, k);
    RemoveBoth(a0, HandlesOwnedBy(p0, dead), OwnedHandles(pending, k));
  }

  lemma RemoveBoth<K, V>(m: map<K, V>, a: set<K>, b: set<K>)
    ensures (m - a) - b == m - (a + b)
  {
  }

  lemma TickActionsStep(m: map<string, AgentSession>, order: seq<string>, k: string)
    requires forall i :: 0 <= i < |order| ==> order[i] in m
    requires k in m
    ensures TickActions(m, order + [k]) == TickActions(m, order) + [TickAction(m[k])]
  {
    assert (order + [k])[..|order|] == order;
  }

  /** The acknowledgement tracker part-way through a tick that started
      from `p0`, `a0`, `log0`, `n0` and has cancelled the devices in `dead`. */
  ghost predicate AcksCancelled(acks: AckTracker, p0: map<string, PendingAck>, a0: map<nat, AckTimer>,
                                log0: seq<Resolution>, n0: nat, dead: set<string>)
    reads acks
  {
    && acks.pending == WithoutDevices(p0, dead)
    && acks.armed == a0 - HandlesOwnedBy(p0, dead)
    && |acks.resolutions| == |log0| + |IdsOwnedBy(p0, dead)| && acks.resolutions[..|log0|] == log0
    && (forall i :: |log0| <= i < |acks.resolutions| ==>
          acks.resolutions[i] in CancelsOf(HandlesOwnedBy(p0, dead)))
    && acks.nextHandle == n0
  }

  /** The ids one more cancelled device adds are new, so the count of
      cancelled ids grows by exactly their number. */
  lemma IdsOwnedByStep(p: map<string, PendingAck>, devices: set<string>, d: string)
    ensures IdsOwnedBy(p, devices) !! Owned(WithoutDevices(p, devices), d)
    ensures |IdsOwnedBy(p, devices + {d})| == |IdsOwnedBy(p, devices)| + |Owned(WithoutDevices(p, devices), d)|
  {
    assert IdsOwnedBy(p, devices) + Owned(WithoutDevices(p, devices), d) == IdsOwnedBy(p, devices + {d});
  }

  /** A visit to an agent that missed the previous ping: terminate the
      socket, unregister the id, cancel the acks stored under that id. */
  method VisitDead(reg: ConnectionRegistry, acks: AckTracker, wire: Wire, k: string,
                   ghost m0: map<string, AgentSession>, ghost done: set<string>,
                   ghost p0: map<string, PendingAck>, ghost a0: map<nat, AckTimer>,
                   ghost log0: seq<Resolution>, ghost n0: nat)
    requires reg.Valid() && acks.Valid()
    requires k in m0 && k !in done && !m0[k].isAlive
    requires reg.agents == TickPartial(m0, done)
    requires AcksCancelled(acks, p0, a0, log0, n0, Dead(m0) * done)
    modifies reg, acks, wire
    ensures reg.Valid() && acks.Valid()
    ensures reg.agents == TickPartial(m0, done + {k})
    ensures AcksCancelled(acks, p0, a0, log0, n0, Dead(m0) * (done + {k}))
    ensures wire.actions == old(wire.actions) + [TickAction(m0[k])]
  {
    DropAgent(reg, wire, k, m0, done);
    CancelDevice(acks, k, p0, a0, log0, n0, Dead(m0) * done);
    assert Dead(m0) * (done + {k}) == Dead(m0) * done + {k};
  }

  method DropAgent(reg: ConnectionRegistry, wire: Wire, k: string,
                   ghost m0: map<string, AgentSession>, ghost done: set<string>)
    requires reg.Valid()
    requires k in m0 && k !in done && !m0[k].isAlive
    requires reg.agents == TickPartial(m0, done)
    modifies reg, wire
    ensures reg.Valid()
    ensures reg.agents == TickPartial(m0, done + {k})
    ensures wire.actions == old(wire.actions) + [TickAction(m0[k])]
  {
    PartialStep(m0, done, k);
    var agent := reg.agents[k];
    wire.Terminate(agent.socket);
    reg.UnregisterAgent(k);
  }

  method CancelDevice(acks: AckTracker, k: string, ghost p0: map<string, PendingAck>, ghost a0: map<nat, AckTimer>,
                      ghost log0: seq<Resolution>, ghost n0: nat, ghost dead: set<string>)
    requires acks.Valid()
    requires AcksCancelled(acks, p0, a0, log0, n0, dead)
    modifies acks
    ensures acks.Valid()
    ensures AcksCancelled(acks, p0, a0, log0, n0, dead + {k})
  {
    ghost var before := acks.resolutions;
    ghost var pending := acks.pending;
    AcksStep(p0, a0, dead, k, acks.pending, acks.armed);
    IdsOwnedByStep(p0, dead, k);
    HandlesOwnedByStep(p0, dead, k);
    acks.ClearPendingAcks(k);
    assert acks.resolutions[..|log0|] == before[..|log0|];
    forall i | |log0| <= i < |acks.resolutions|
      ensures acks.resolutions[i] in CancelsOf(HandlesOwnedBy(p0, dead + {k}))
    {
      if i < |before| {
        assert acks.resolutions[i] == before[i];
      }
    }
  }

  /** A visit to an agent that answered the previous ping. */
  method VisitAlive(reg: ConnectionRegistry, acks: AckTracker, wire: Wire, k: string,
                    ghost m0: map<string, AgentSession>, ghost done: set<string>)
    requires reg.Valid()
    requires k in m0 && k !in done && m0[k].isAlive
    requires reg.agents == TickPartial(m0, done)
    modifies reg, wire
    ensures reg.Valid()
    ensures reg.agents == TickPartial(m0, done + {k})
    ensures wire.actions == old(wire.actions) + [TickAction(m0[k])]
  {
    PartialStep(m0, done, k);
    var agent := reg.agents[k];
    reg.SetAgentAlive(k, false);
    wire.Ping(agent.socket);
  }

  /** Where a tick stands after visiting the agents in `order` (the set
      `done`), having started from registry `m0`, acknowledgement state
      `p0`, `a0`, `log0`, `n0` and socket log `w0`. */
  ghost predicate Ticked(reg: ConnectionRegistry, acks: AckTracker, wire: Wire,
                         m0: map<string, AgentSession>, p0: map<string, PendingAck>, a0: map<nat, AckTimer>,
                         log0: seq<Resolution>, n0: nat, w0: seq<SocketAction>,
                         order: seq<string>, done: set<string>)
    reads reg, acks, wire
  {
    && done == (set k | k in order)
    && (forall i :: 0 <= i < |order| ==> order[i] in m0)
    && (forall i, j :: 0 <= i < j < |order| ==> order[i] != order[j])
    && reg.agents == TickPartial(m0, done)
    && AcksCancelled(acks, p0, a0, log0, n0, Dead(m0) * done)
    && wire.actions == w0 + TickActions(m0, order)
  }

  /** One call of the `forEach` callback. */
  method Visit(reg: ConnectionRegistry, acks: AckTracker, wire: Wire, k: string,
               ghost m0: map<string, AgentSession>, ghost p0: map<string, PendingAck>, ghost a0: map<nat, AckTimer>,
               ghost log0: seq<Resolution>, ghost n0: nat, ghost w0: seq<SocketAction>,
               ghost order: seq<string>, ghost done: set<string>)
    requires reg.Valid() && acks.Valid()
    requires Ticked(reg, acks, wire, m0, p0, a0, log0, n0, w0, order, done)
    requires k in m0 && k !in done
    modifies reg, acks, wire
    ensures reg.Valid() && acks.Valid()
    ensures Ticked(reg, acks, wire, m0, p0, a0, log0, n0, w0, order + [k], done + {k})
  {
    assert reg.agents[k] == m0[k];
    ghost var w1 := wire.actions;
    if !reg.agents[k].isAlive {
      VisitDead(reg, acks, wire, k, m0, done, p0, a0, log0, n0);
    } else {
      VisitAlive(reg, acks, wire, k, m0, done);
      AliveKeepsDead(m0, done, k);
    }
    VisitedSnoc(order, k);
    VisitedStep(m0, order, k);
    LoggedStep(m0, w0, order, k, w1, wire.actions);
  }

  /** Visiting a live agent cancels no acks. */
  lemma AliveKeepsDead(m0: map<string, AgentSession>, done: set<string>, k: string)
    requires k in m0 && m0[k].isAlive
    ensures Dead(m0) * (done + {k}) == Dead(m0) * done
  {
  }

  /** The bookkeeping of one visit: `k` joins the visited agents. */
  lemma VisitedStep(m0: map<string, AgentSession>, order: seq<string>, k: string)
    requires forall i :: 0 <= i < |order| ==> order[i] in m0
    requires k in m0
    ensures forall i :: 0 <= i < |order + [k]| ==> (order + [k])[i] in m0
  {
    var order' := order + [k];
    forall i | 0 <= i < |order'|
      ensures order'[i] in m0
    {
      if i < |order| {
        assert order'[i] == order[i];
      }
    }
  }

  /** ... and its action joins the socket log. */
  lemma LoggedStep(m0: map<string, AgentSession>, w0: seq<SocketAction>, order: seq<string>, k: string,
                   w1: seq<SocketAction>, w2: seq<SocketAction>)
    requires forall i :: 0 <= i < |order| ==> order[i] in m0
    requires k in m0
    requires w1 == w0 + TickActions(m0, order)
    requires w2 == w1 + [TickAction(m0[k])]
    ensures w2 == w0 + TickActions(m0, order + [k])
  {
    TickActionsStep(m0, order, k);
    assert w0 + (TickActions(m0, order) + [TickAction(m0[k])]) == w0 + TickActions(m0, order) + [TickAction(m0[k])];
  }

  lemma VisitedSnoc(order: seq<string>, k: string)
    requires forall i, j :: 0 <= i < j < |order| ==> order[i] != order[j]
    requires k !in (set x | x in order)
    ensures (set x | x in order + [k]) == (set x | x in order) + {k}
    ensures forall i, j :: 0 <= i < j < |order + [k]| ==> (order + [k])[i] != (order + [k])[j]
  {
    assert k !in order;
  }

  /** One firing of the heartbeat interval. `order` is the order in which
      the registry's entries are visited (the map's insertion order, not
      modelled): each agent is visited once; dead ones are terminated,
      unregistered and have their pending acks cancelled; live ones are
      marked not alive and pinged. */
  method Tick(reg: ConnectionRegistry, acks: AckTracker, wire: Wire) returns (order: seq<string>)
    requires reg.Valid() && acks.Valid()
    modifies reg, acks, wire
    ensures reg.Valid() && acks.Valid()
    ensures (set k | k in order) == old(reg.agents).Keys
    ensures forall i, j :: 0 <= i < j < |order| ==> order[i] != order[j]
    ensures reg.agents == TickSurvivors(old(reg.agents))
    ensures acks.pending == WithoutDevices(old(acks.pending), Dead(old(reg.agents)))
    ensures acks.armed == old(acks.armed) - HandlesOwnedBy(old(acks.pending), Dead(old(reg.agents)))
    ensures |acks.resolutions| == |old(acks.resolutions)| + |IdsOwnedBy(old(acks.pending), Dead(old(reg.agents)))|
    ensures acks.resolutions[..|old(acks.resolutions)|] == old(acks.resolutions)
    ensures forall i :: |old(acks.resolutions)| <= i < |acks.resolutions| ==>
      acks.resolutions[i] in CancelsOf(HandlesOwnedBy(old(acks.pending), Dead(old(reg.agents))))
    ensures acks.nextHandle == old(acks.nextHandle)
    ensures wire.actions == old(wire.actions) + TickActions(old(reg.agents), order)
  {
    var agents := reg.GetAllAgents();
    ghost var p0, a0, log0, n0, w0 := acks.pending, acks.armed, acks.resolutions, acks.nextHandle, wire.actions;
    TickStarts(reg, acks, wire, agents);
    order := VisitAll(reg, acks, wire, agents, p0, a0, log0, n0, w0);
    TickDone(reg, acks, wire, agents, p0, a0, log0, n0, w0, order, agents.Keys);
  }

  /** The `forEach` over the registry: every agent of `m0` is visited
      once, in the returned order. */
  method VisitAll(reg: ConnectionRegistry, acks: AckTracker, wire: Wire, m0: map<string, AgentSession>,
                  ghost p0: map<string, PendingAck>, ghost a0: map<nat, AckTimer>,
                  ghost log0: seq<Resolution>, ghost n0: nat, ghost w0: seq<SocketAction>)
    returns (order: seq<string>)
    requires reg.Valid() && acks.Valid()
    requires Ticked(reg, acks, wire, m0, p0, a0, log0, n0, w0, [], {})
    modifies reg, acks, wire
    ensures reg.Valid() && acks.Valid()
    ensures Ticked(reg, acks, wire, m0, p0, a0, log0, n0, w0, order, m0.Keys)
  {
    var rest := m0.Keys;
    order := [];
    ghost var done: set<string> := {};
    while rest != {}
      invariant reg.Valid() && acks.Valid()
      invariant rest !! done && rest + done == m0.Keys
      invariant Ticked(reg, acks, wire, m0, p0, a0, log0, n0, w0, order, done)
      decreases rest
    {
      var k :| k in rest;
      Visit(reg, acks, wire, k, m0, p0, a0, log0, n0, w0, order, done);
      order := order + [k];
      done := done + {k};
      rest := rest - {k};
    }
  }

  /** Once every agent was visited, the tick's state is what `Tick`
      promises. */
  lemma TickDone(reg: ConnectionRegistry, acks: AckTracker, wire: Wire,
                 m0: map<string, AgentSession>, p0: map<string, PendingAck>, a0: map<nat, AckTimer>,
                 log0: seq<Resolution>, n0: nat, w0: seq<SocketAction>,
                 order: seq<string>, done: set<string>)
    requires Ticked(reg, acks, wire, m0, p0, a0, log0, n0, w0, order, done)
    requires done == m0.Keys
    ensures (set k | k in order) == m0.Keys
    ensures forall i, j :: 0 <= i < j < |order| ==> order[i] != order[j]
    ensures reg.agents == TickSurvivors(m0)
    ensures AcksCancelled(acks, p0, a0, log0, n0, Dead(m0))
    ensures forall i :: 0 <= i < |order| ==> order[i] in m0
    ensures wire.actions == w0 + TickActions(m0, order)
  {
    PartialDone(m0);
    assert Dead(m0) * done == Dead(m0);
  }

  lemma TickStarts(reg: ConnectionRegistry, acks: AckTracker, wire: Wire, m0: map<string, AgentSession>)
    requires reg.agents == m0
    ensures Ticked(reg, acks, wire, m0, acks.pending, acks.armed, acks.resolutions, acks.nextHandle,
                   wire.actions, [], {})
  {
    assert acks.pending == WithoutDevices(acks.pending, {});
    assert acks.armed == acks.armed - HandlesOwnedBy(acks.pending, {});
    assert reg.agents == TickPartial(m0, {});
    assert acks.resolutions[..|acks.resolutions|] == acks.resolutions;
    assert IdsOwnedBy(acks.pending, {}) == {};
    assert wire.actions + [] == wire.actions;
  }

  /** The module-level `heartbeatInterval`: the period of the running
      interval, if one is running. */
  class HeartbeatMonitor {
    var interval: Option<int>

    constructor ()
      ensures interval == None
    {
      interval := None;
    }

    /** `startHeartbeat`: a no-op while an interval is running. */
    method Start()
      modifies this
      ensures old(interval).Some? ==> interval == old(interval)
      ensures old(interval).None? ==> interval == Some(HeartbeatIntervalMs)
    {
      if interval.Some? {
        return;
      }
      interval := Some(HeartbeatIntervalMs);
    }

    /** `stopHeartbeat`: clears the interval; stopping twice is harmless. */
    method Stop()
      modifies this
      ensures interval == None
    {
      if interval.Some? {
        interval := None;
      }
    }
  }
}
