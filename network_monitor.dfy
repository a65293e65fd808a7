/**
 * The connectivity monitor (`NetworkMonitor`): connection state updated from
 * path reports, a one-shot delayed "restored" signal armed on an
 * offline → online edge, and the FIFO queue of work deferred while offline.
 *
 * The timer is a flag plus an explicit `Fire`; a deferred closure is a request
 * id, and running it appends `Ran(id)` to the monitor's trace.
 */
module Network {
  import opened Wrappers
  import ImageCache

  /** `ConnectionType`. */
  datatype ConnectionType = Wifi | Cellular | Ethernet | Unknown

  /** Interface kinds a network path can use. */
  datatype InterfaceType = WifiInterface | CellularInterface | WiredEthernetInterface | Loopback | OtherInterface

  /** A path report: whether it is satisfied and which interfaces it uses. */
  datatype Path = Path(satisfied: bool, interfaces: set<InterfaceType>)

  /** Priority of a connection type: lower is preferred. */
  function Rank(t: ConnectionType): nat {
    match t
    case Wifi => 0
    case Cellular => 1
    case Ethernet => 2
    case Unknown => 3
  }

  /** The interface a known connection type stands for. */
  function InterfaceOf(t: ConnectionType): InterfaceType
    requires t != Unknown
  {
    match t
    case Wifi => WifiInterface
    case Cellular => CellularInterface
    case Ethernet => WiredEthernetInterface
  }

  /**
   * `determineConnectionType(from:)`: the most preferred of Wi-Fi, cellular and
   * wired Ethernet that the path uses, or `Unknown` when it uses none of them.
   */
  function DetermineConnectionType(path: Path): (t: ConnectionType)
    ensures t != Unknown ==> InterfaceOf(t) in path.interfaces
    ensures forall u :: u != Unknown && InterfaceOf(u) in path.interfaces ==> Rank(t) <= Rank(u)
    ensures t == Unknown <==> forall u :: u != Unknown ==> InterfaceOf(u) !in path.interfaces
  {
    if WifiInterface in path.interfaces then Wifi
    else if CellularInterface in path.interfaces then Cellular
    else if WiredEthernetInterface in path.interfaces then Ethernet
    else Unknown
  }

  /** An error as `isNetworkError` sees it: a `URLError` with its code, or anything else. */
  datatype Error = URLError(code: int) | OtherError(description: string)

  // `URLError.Code` raw values
  const TimedOut := -1001
  const CannotFindHost := -1003
  const CannotConnectToHost := -1004
  const NetworkConnectionLost := -1005
  const NotConnectedToInternet := -1009

  /** `isNetworkError`: exactly five `URLError` codes count as connectivity failures. */
  function IsNetworkError(e: Error): (r: bool)
    ensures r <==> e.URLError? && e.code in {NotConnectedToInternet, NetworkConnectionLost,
                                             CannotConnectToHost, CannotFindHost, TimedOut}
    ensures e.OtherError? ==> !r
  {
    match e
    case URLError(code) =>
      code == NotConnectedToInternet || code == NetworkConnectionLost ||
      code == CannotConnectToHost || code == CannotFindHost || code == TimedOut
    case OtherError(_) => false
  }

  /** A deferred closure, by identity. */
  type RequestId = nat

  /** What the monitor did, in order: the restored signals it sent and the closures it ran. */
  datatype Event = RestoredPublished | RestoredNotificationPosted | Ran(request: RequestId)

  /** The events of running `requests` in order, each once. */
  function RunAll(requests: seq<RequestId>): (events: seq<Event>)
    ensures |events| == |requests|
    ensures forall i :: 0 <= i < |requests| ==> events[i] == Ran(requests[i])
  {
    seq(|requests|, i requires 0 <= i < |requests| => Ran(requests[i]))
  }

  /** Running a batch then another is running their concatenation. */
  lemma RunAllAppend(a: seq<RequestId>, b: seq<RequestId>)
    ensures RunAll(a + b) == RunAll(a) + RunAll(b)
  {
  }

  class NetworkMonitor {
    var isConnected: bool
    var connectionType: ConnectionType
    var pendingRequests: seq<RequestId>
    /** The live delayed-restore timer, by the number it was scheduled under. */
    var restoreTimer: Option<nat>
    /** How many restore timers have been scheduled so far. */
    var timersScheduled: nat
    var trace: seq<Event>

    /** Connected, type unknown, nothing queued, no timer. */
    constructor ()
      ensures isConnected && connectionType == Unknown
      ensures pendingRequests == [] && restoreTimer == None && timersScheduled == 0 && trace == []
    {
      isConnected := true;
      connectionType := Unknown;
      pendingRequests := [];
      restoreTimer := None;
      timersScheduled := 0;
      trace := [];
    }

    /**
     * The path-update handler: overwrite the state, and arm the restore timer
     * on an offline → online edge only.
     */
    method PathUpdate(path: Path)
      modifies this
      ensures isConnected == path.satisfied
      ensures connectionType == DetermineConnectionType(path)
      ensures !old(isConnected) && path.satisfied ==>
                restoreTimer == Some(old(timersScheduled)) && timersScheduled == old(timersScheduled) + 1
      ensures !(!old(isConnected) && path.satisfied) ==>
                restoreTimer == old(restoreTimer) && timersScheduled == old(timersScheduled)
      ensures pendingRequests == old(pendingRequests) && trace == old(trace)
    {
      var wasConnected := isConnected;
      isConnected := path.satisfied;
      connectionType := DetermineConnectionType(path);
      if !wasConnected && isConnected {
        HandleConnectionRestored();
      }
    }

    /**
     * `handleConnectionRestored`: invalidate any pending timer and schedule a
     * fresh one-shot timer: only the newest timer can fire.
     */
    method HandleConnectionRestored()
      modifies this`restoreTimer, this`timersScheduled
      ensures restoreTimer == Some(old(timersScheduled))
      ensures timersScheduled == old(timersScheduled) + 1
    {
      restoreTimer := None;                     // invalidate
      restoreTimer := Some(timersScheduled);    // schedule, non-repeating
      timersScheduled := timersScheduled + 1;
    }

    /**
     * The timer firing: publish the restored event, post the notification,
     * then drain the queue. An invalidated or already fired timer does nothing.
     */
    method Fire(timer: nat)
      modifies this
      ensures isConnected == old(isConnected) && connectionType == old(connectionType)
      ensures timersScheduled == old(timersScheduled)
      ensures old(restoreTimer) == Some(timer) ==>
                && restoreTimer == None
                && pendingRequests == []
                && trace == old(trace) + [RestoredPublished, RestoredNotificationPosted]
                                       + RunAll(old(pendingRequests))
      ensures old(restoreTimer) != Some(timer) ==>
                && restoreTimer == old(restoreTimer)
                && pendingRequests == old(pendingRequests) && trace == old(trace)
    {
      if restoreTimer != Some(timer) {
        return;
      }
      restoreTimer := None;
      trace := trace + [RestoredPublished, RestoredNotificationPosted];
      ProcessPendingRequests();
    }

    /**
     * `processPendingRequests`: take the whole queue, empty it, then run the
     * taken requests in enqueue order, each once.
     */
    method ProcessPendingRequests()
      modifies this`pendingRequests, this`trace
      ensures pendingRequests == []
      ensures trace == old(trace) + RunAll(old(pendingRequests))
    {
      if pendingRequests == [] {
        return;
      }
      var requests := pendingRequests;
      pendingRequests := [];
      for i := 0 to |requests|
        invariant pendingRequests == []
        invariant trace == old(trace) + RunAll(requests[..i])
      {
        assert requests[..i + 1] == requests[..i] + [requests[i]];
        RunAllAppend(requests[..i], [requests[i]]);
        trace := trace + [Ran(requests[i])];
      }
      assert requests[..|requests|] == requests;
    }

    /** `enqueueRequestIfOffline`: queue the request at the back when offline. */
    method EnqueueRequestIfOffline(request: RequestId) returns (queued: bool)
      modifies this`pendingRequests
      ensures queued == !isConnected
      ensures queued ==> pendingRequests == old(pendingRequests) + [request]
      ensures !queued ==> pendingRequests == old(pendingRequests)
    {
      if !isConnected {
        pendingRequests := pendingRequests + [request];
        return true;
      }
      return false;
    }

    /**
     * `isOfflineAndNotCached(for:cacheCheck:)`: never while online; offline,
     * the negated answer of the caller's check, or else whether both tiers
     * miss for the URL's key. `cacheCheck` is that check's answer.
     */
    function IsOfflineAndNotCached(url: string, cacheCheck: Option<bool>,
                                   cache: ImageCache.ImageCacheManager): (r: bool)
      reads this, cache
      ensures isConnected ==> !r
      ensures !isConnected && cacheCheck.Some? ==> r == !cacheCheck.value
      ensures !isConnected && cacheCheck.None? ==>
                (r <==> cache.CacheKey(url) !in cache.memory
                        && cache.GetImageFromDiskCache(cache.CacheKey(url)).None?)
    {
      if !isConnected then
        match cacheCheck
        case Some(inCache) => !inCache
        case None =>
          var key := cache.CacheKey(url);
          cache.GetImageFromMemoryCache(key).None? && cache.GetImageFromDiskCache(key).None?
      else false
    }

    /** `checkOfflineAndNotCached(for:)`: the same answer without a caller-supplied check. */
    function CheckOfflineAndNotCached(url: string, cache: ImageCache.ImageCacheManager): (r: bool)
      reads this, cache
      ensures r == IsOfflineAndNotCached(url, None, cache)
    {
      if !isConnected then
        var key := cache.CacheKey(url);
        cache.GetImageFromMemoryCache(key).None? && cache.GetImageFromDiskCache(key).None?
      else false
    }
  }

  /** Offline, with no cache check given, a URL whose disk file cannot be read and that is not in memory is not cached. */
  lemma UnreadableFileIsNotCached(monitor: NetworkMonitor, url: string, cache: ImageCache.ImageCacheManager)
    requires !monitor.isConnected
    requires cache.CacheKey(url) !in cache.memory
    requires ImageCache.FileName(cache.CacheKey(url)) in cache.disk
    requires cache.disk[ImageCache.FileName(cache.CacheKey(url))].contents.None?
    ensures monitor.IsOfflineAndNotCached(url, None, cache)
  {
  }

  /**
   * Three requests deferred while offline run once each, in order, when the
   * connection comes back; a flap re-arms the timer, so the superseded timer
   * does nothing, and a second firing runs nothing again.
   */
  method OfflineReplayScenario() returns (events: seq<Event>, queuedAll: bool)
    ensures queuedAll
    ensures events == [RestoredPublished, RestoredNotificationPosted, Ran(1), Ran(2), Ran(3)]
  {
    var m := new NetworkMonitor();
    m.PathUpdate(Path(false, {}));
    var a := m.EnqueueRequestIfOffline(1);
    var b := m.EnqueueRequestIfOffline(2);
    var c := m.EnqueueRequestIfOffline(3);
    m.PathUpdate(Path(true, {WifiInterface}));      // arms timer 0
    m.PathUpdate(Path(false, {}));
    m.PathUpdate(Path(true, {CellularInterface}));  // arms timer 1, timer 0 is invalid
    m.PathUpdate(Path(true, {WifiInterface}));      // no edge: nothing re-armed
    assert m.pendingRequests == [1, 2, 3] && m.trace == [];
    m.Fire(0);
    assert RunAll([1, 2, 3]) == [Ran(1), Ran(2), Ran(3)];
    m.Fire(1);
    m.Fire(1);
    queuedAll := a && b && c;
    events := m.trace;
  }
}
