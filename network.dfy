/** The phone's connectivity status (mobile-app/src/services/network.ts):
    online, offline or reconnecting, with subscribers told of each change.
    A subscriber callback is named by a `ListenerId`; calling it is
    recorded in the monitor's event log, and so are the `onOnline` and
    `onOffline` callbacks of the platform handler. */
module Network {
  /** `ConnectionStatus`. */
  datatype ConnectionStatus = Online | Offline | Reconnecting

  type ListenerId = nat

  datatype Event =
    | Notified(listener: ListenerId, status: ConnectionStatus)
    | OnOnlineCalled
    | OnOfflineCalled

  /** `getConnectionStatus`: reconnecting wins over the platform flag. */
  function StatusOf(online: bool, reconnecting: bool): (s: ConnectionStatus)
    ensures s == Reconnecting <==> reconnecting
    ensures s == Online <==> !reconnecting && online
    ensures s == Offline <==> !reconnecting && !online
  {
    if reconnecting then Reconnecting else if online then Online else Offline
  }

  /** `listeners.forEach(l => l(status))`: one call per listener, in order. */
  function Notifications(listeners: seq<ListenerId>, status: ConnectionStatus): (r: seq<Event>)
    ensures |r| == |listeners|
    ensures forall i :: 0 <= i < |r| ==> r[i] == Notified(listeners[i], status)
  {
    if listeners == [] then [] else [Notified(listeners[0], status)] + Notifications(listeners[1..], status)
  }

  /** `listeners.filter(l => l !== callback)`. */
  function Unsubscribed(listeners: seq<ListenerId>, callback: ListenerId): (r: seq<ListenerId>)
    ensures |r| <= |listeners|
  {
    if listeners == [] then []
    else if listeners[0] != callback then [listeners[0]] + Unsubscribed(listeners[1..], callback)
    else Unsubscribed(listeners[1..], callback)
  }

  /** Unsubscribing removes that callback, and only it. */
  lemma {:induction false} UnsubscribedMembers(listeners: seq<ListenerId>, callback: ListenerId)
    ensures forall l :: l in Unsubscribed(listeners, callback) <==> l in listeners && l != callback
  {
    if listeners != [] {
      UnsubscribedMembers(listeners[1..], callback);
      assert listeners == [listeners[0]] + listeners[1..];
    }
  }

  /** The other subscribers keep their order. */
  lemma {:induction false} UnsubscribedConcat(a: seq<ListenerId>, b: seq<ListenerId>, callback: ListenerId)
    ensures Unsubscribed(a + b, callback) == Unsubscribed(a, callback) + Unsubscribed(b, callback)
  {
    if a == [] {
      assert a + b == b;
    } else {
      assert (a + b)[0] == a[0];
      assert (a + b)[1..] == a[1..] + b;
      UnsubscribedConcat(a[1..], b, callback);
    }
  }

  /** Subscribing and then unsubscribing a new callback gives back the
      listeners as they were. */
  lemma SubscribeThenUnsubscribe(listeners: seq<ListenerId>, callback: ListenerId)
    requires callback !in listeners
    ensures Unsubscribed(listeners + [callback], callback) == listeners
  {
    UnsubscribedConcat(listeners, [callback], callback);
    UnsubscribedAbsent(listeners, callback);
  }

  lemma {:induction false} UnsubscribedAbsent(listeners: seq<ListenerId>, callback: ListenerId)
    requires callback !in listeners
    ensures Unsubscribed(listeners, callback) == listeners
  {
    if listeners != [] {
      UnsubscribedAbsent(listeners[1..], callback);
      assert [listeners[0]] + listeners[1..] == listeners;
    }
  }

  /** The module-level `isOnline`, `isReconnecting` and `listeners`. */
  class NetworkMonitor {
    var isOnline: bool
    var isReconnecting: bool
    var listeners: seq<ListenerId>
    var log: seq<Event>

    constructor ()
      ensures isOnline && !isReconnecting && listeners == [] && log == []
    {
      isOnline := true;
      isReconnecting := false;
      listeners := [];
      log := [];
    }

    /** `getConnectionStatus`. */
    function GetConnectionStatus(): (s: ConnectionStatus)
      reads this
      ensures s == StatusOf(isOnline, isReconnecting)
    {
      if isReconnecting then Reconnecting else if isOnline then Online else Offline
    }

    /** `checkNetworkStatus`: records what the platform reports. */
    method CheckNetworkStatus(connected: bool) returns (online: bool)
      modifies this
      ensures online == connected && isOnline == connected
      ensures isReconnecting == old(isReconnecting) && listeners == old(listeners) && log == old(log)
    {
      isOnline := connected;
      online := isOnline;
    }

    /** `notifyListeners`: tells every subscriber the current status. */
    method NotifyListeners()
      modifies this
      ensures isOnline == old(isOnline) && isReconnecting == old(isReconnecting) && listeners == old(listeners)
      ensures log == old(log) + Notifications(listeners, GetConnectionStatus())
    {
      var status := GetConnectionStatus();
      var i := 0;
      while i < |listeners|
        invariant 0 <= i <= |listeners|
        invariant isOnline == old(isOnline) && isReconnecting == old(isReconnecting) && listeners == old(listeners)
        invariant log == old(log) + Notifications(listeners, status)[..i]
      {
        assert Notifications(listeners, status)[..i + 1] == Notifications(listeners, status)[..i] + [Notified(listeners[i], status)];
        log := log + [Notified(listeners[i], status)];
        i := i + 1;
      }
      assert Notifications(listeners, status)[..i] == Notifications(listeners, status);
    }

    /** `setReconnecting`: sets the flag and tells every subscriber. */
    method SetReconnecting(reconnecting: bool)
      modifies this
      ensures isReconnecting == reconnecting && isOnline == old(isOnline) && listeners == old(listeners)
      ensures log == old(log) + Notifications(listeners, StatusOf(isOnline, reconnecting))
    {
      isReconnecting := reconnecting;
      NotifyListeners();
    }

    /** The `networkStatusChange` handler: back online after being offline
        starts reconnecting, notifies and calls `onOnline`; going offline
        stops reconnecting, notifies and calls `onOffline`; online while
        online does nothing more than record the status. */
    method NetworkStatusChange(connected: bool)
      modifies this
      ensures isOnline == connected && listeners == old(listeners)
      ensures connected && !old(isOnline) ==>
        isReconnecting && log == old(log) + Notifications(listeners, Reconnecting) + [OnOnlineCalled]
      ensures !connected ==>
        !isReconnecting && log == old(log) + Notifications(listeners, Offline) + [OnOfflineCalled]
      ensures connected && old(isOnline) ==> isReconnecting == old(isReconnecting) && log == old(log)
    {
      var wasOffline := !isOnline;
      isOnline := connected;
      if isOnline && wasOffline {
        isReconnecting := true;
        NotifyListeners();
        log := log + [OnOnlineCalled];
      } else if !isOnline {
        isReconnecting := false;
        NotifyListeners();
        log := log + [OnOfflineCalled];
      }
    }

    /** `stopNetworkMonitoring`: forgets every subscriber. */
    method StopNetworkMonitoring()
      modifies this
      ensures listeners == [] && isOnline == old(isOnline) && isReconnecting == old(isReconnecting) && log == old(log)
    {
      listeners := [];
    }

    /** `subscribeToNetworkStatus`: adds the callback and calls it once
        with the current status. */
    method SubscribeToNetworkStatus(callback: ListenerId)
      modifies this
      ensures listeners == old(listeners) + [callback]
      ensures log == old(log) + [Notified(callback, StatusOf(isOnline, isReconnecting))]
      ensures isOnline == old(isOnline) && isReconnecting == old(isReconnecting)
    {
      listeners := listeners + [callback];
      log := log + [Notified(callback, GetConnectionStatus())];
    }

    /** The unsubscribe function `subscribeToNetworkStatus` returns. */
    method Unsubscribe(callback: ListenerId)
      modifies this
      ensures listeners == Unsubscribed(old(listeners), callback)
      ensures isOnline == old(isOnline) && isReconnecting == old(isReconnecting) && log == old(log)
    {
      listeners := Unsubscribed(listeners, callback);
    }
  }
}
