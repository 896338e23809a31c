/** The relay's connection registry (backend-server/src/services/registry.ts):
    one session per normalised device id. */
module Registry {
  import opened Common
  import opened Messages

  /** `AgentConnection` in the relay's types; `connectedAt` is the time of
      registration in milliseconds. */
  datatype AgentSession = AgentSession(socket: SocketId, deviceId: string, connectedAt: int, isAlive: bool)

  /** Every key is a normalised id and the session stored under it carries
      exactly that id. */
  ghost predicate WellKeyed(m: map<string, AgentSession>) {
    forall k :: k in m ==> IsNormalized(k) && m[k].deviceId == k
  }

  lemma KeepsWellKeyed(m: map<string, AgentSession>, k: string, isAlive: bool)
    requires WellKeyed(m) && k in m
    ensures WellKeyed(m[k := m[k].(isAlive := isAlive)])
  {
    var m' := m[k := m[k].(isAlive := isAlive)];
    forall j | j in m'
      ensures IsNormalized(j) && m'[j].deviceId == j
    {
      assert j in m;
    }
  }

  /** The module-level `registry` map. */
  class ConnectionRegistry {
    var agents: map<string, AgentSession>

    ghost predicate Valid()
      reads this
    {
      WellKeyed(agents)
    }

    constructor ()
      ensures Valid() && agents == map[]
    {
      agents := map[];
    }

    /** `registerAgent`: refuses an id whose normal form is already present
        and leaves the map as it was; otherwise stores one live session
        under the normal form. */
    method RegisterAgent(deviceId: string, socket: SocketId, now: int) returns (ok: bool)
      requires Valid()
      modifies this
      ensures Valid()
      ensures ok <==> NormalizeDeviceId(deviceId) !in old(agents)
      ensures !ok ==> agents == old(agents)
      ensures ok ==> agents == old(agents)[NormalizeDeviceId(deviceId) :=
        AgentSession(socket, NormalizeDeviceId(deviceId), now, true)]
    {
      var normalized := NormalizeDeviceId(deviceId);
      if normalized in agents {
        return false;
      }
      NormalizeIdempotent(deviceId);
      agents := agents[normalized := AgentSession(socket, normalized, now, true)];
      return true;
    }

    /** `unregisterAgent`: removes the normal form's entry, if any. */
    method UnregisterAgent(deviceId: string)
      requires Valid()
      modifies this
      ensures Valid()
      ensures agents == old(agents) - {NormalizeDeviceId(deviceId)}
    {
      agents := agents - {NormalizeDeviceId(deviceId)};
    }

    /** `getAgent`: looks the id up by its normal form, so the session
        found (if any) is the one registered under that normal form. */
    function GetAgent(deviceId: string): (r: Option<AgentSession>)
      reads this
      requires Valid()
      ensures r.Some? <==> NormalizeDeviceId(deviceId) in agents
      ensures r.Some? ==> r.value.deviceId == NormalizeDeviceId(deviceId)
                          && agents[r.value.deviceId] == r.value
    {
      var normalized := NormalizeDeviceId(deviceId);
      if normalized in agents then Some(agents[normalized]) else None
    }

    /** registry.ts:48-51: the lookup ignores ASCII letter case and white
        space around the id. */
    lemma GetAgentIgnoresCaseAndPadding(a: string, b: string, w1: string, w2: string)
      requires Valid()
      requires AsciiLower(a) == AsciiLower(b)
      requires AllWhitespace(w1) && AllWhitespace(w2)
      ensures GetAgent(w1 + a + w2) == GetAgent(b)
    {
      NormalizeIgnoresCaseAndPadding(a, b, w1, w2);
    }

    /** `getConnectedDevices`: the registry's keys, each exactly once. */
    method GetConnectedDevices() returns (ids: seq<string>)
      requires Valid()
      ensures forall id :: id in ids <==> id in agents
      ensures forall i, j :: 0 <= i < j < |ids| ==> ids[i] != ids[j]
      ensures forall i :: 0 <= i < |ids| ==> IsNormalized(ids[i])
    {
      ids := [];
      var rest := agents.Keys;
      while rest != {}
        invariant rest <= agents.Keys
        invariant forall id :: id in ids <==> id in agents && id !in rest
        invariant forall i, j :: 0 <= i < j < |ids| ==> ids[i] != ids[j]
        decreases rest
      {
        var id :| id in rest;
        ids := ids + [id];
        rest := rest - {id};
      }
    }

    /** `setAgentAlive`: flips only the `isAlive` flag of an existing
        session; an unknown id changes nothing. */
    method SetAgentAlive(deviceId: string, isAlive: bool)
      requires Valid()
      modifies this
      ensures Valid()
      ensures var n := NormalizeDeviceId(deviceId);
        agents == if n in old(agents) then old(agents)[n := old(agents)[n].(isAlive := isAlive)]
                  else old(agents)
    {
      var normalized := NormalizeDeviceId(deviceId);
      if normalized in agents {
        KeepsWellKeyed(agents, normalized, isAlive);
        agents := agents[normalized := agents[normalized].(isAlive := isAlive)];
      }
    }

    /** `getAllAgents`: the registry itself, every session keyed by its own
        normalised id. */
    function GetAllAgents(): (all: map<string, AgentSession>)
      reads this
      requires Valid()
      ensures WellKeyed(all)
      ensures all.Keys == agents.Keys
    {
      agents
    }
  }
}
