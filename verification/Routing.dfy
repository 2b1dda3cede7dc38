/** Promotion as the gateway sees it: the routing table, its update in place, and the
    gateway's retry on the backup port.
*/
module Routing {
  import opened Records
  import opened Service

  const REPLICATION_HOST := "127.0.0.1"
  const HEARTBEAT_PORT_OFFSET := 1000

  datatype Entry = Entry(restaurant: string, host: string, port: int)

  /** RESTAURANT_SERVICE_MAP: one shared, mutable table. */
  class ServiceMap {
    var entries: seq<Entry>

    constructor (entries: seq<Entry>)
      ensures this.entries == entries
    {
      this.entries := entries;
    }
  }

  ghost predicate DistinctRestaurants(entries: seq<Entry>) {
    forall i, j | 0 <= i < j < |entries| :: entries[i].restaurant != entries[j].restaurant
  }

  ghost predicate DistinctPorts(entries: seq<Entry>) {
    forall i, j | 0 <= i < j < |entries| :: entries[i].port != entries[j].port
  }

  /** Primary ports are pairwise distinct and none is a backup port. */
  ghost predicate PortsOk(original: seq<Entry>) {
    && DistinctPorts(original)
    && forall i, j | 0 <= i < |original| && 0 <= j < |original| ::
        original[i].port + HEARTBEAT_PORT_OFFSET != original[j].port
  }

  /** BACKUP_MAP, computed once from the original table. */
  function BackupMap(original: seq<Entry>): map<int, int> {
    map i | 0 <= i < |original| :: original[i].port := original[i].port + HEARTBEAT_PORT_OFFSET
  }

  /** The table with its first entry at `port`, if any, moved to the new address. */
  function Redirect(entries: seq<Entry>, port: int, host: string, newPort: int): (r: seq<Entry>)
    ensures |r| == |entries|
  {
    if |entries| == 0 then []
    else if entries[0].port == port then [Entry(entries[0].restaurant, host, newPort)] + entries[1..]
    else [entries[0]] + Redirect(entries[1..], port, host, newPort)
  }

  lemma {:induction false} RedirectMisses(entries: seq<Entry>, port: int, host: string, newPort: int)
    requires forall i | 0 <= i < |entries| :: entries[i].port != port
    ensures Redirect(entries, port, host, newPort) == entries
  {
    if |entries| > 0 {
      RedirectMisses(entries[1..], port, host, newPort);
    }
  }

  lemma {:induction false} RedirectHits(entries: seq<Entry>, port: int, host: string, newPort: int, i: nat)
    requires i < |entries| && entries[i].port == port
    requires forall j | 0 <= j < i :: entries[j].port != port
    ensures Redirect(entries, port, host, newPort) == entries[i := Entry(entries[i].restaurant, host, newPort)]
  {
    if i > 0 {
      RedirectHits(entries[1..], port, host, newPort, i - 1);
    }
  }

  class BackupService {
    const svc: ReservationService
    const primaryPort: int

    constructor (svc: ReservationService, primaryPort: int)
      modifies svc`observesHeartbeat
      ensures this.svc == svc && this.primaryPort == primaryPort && svc.observesHeartbeat
    {
      this.svc, this.primaryPort := svc, primaryPort;
      new;
      svc.SetHeartbeatObserver();
    }

    /** The monitor's on_failure: take over, then point the gateway here. */
    method Promote(routes: ServiceMap)
      requires svc.Valid()
      modifies svc`backUp, svc`isPromotedPrimary, svc`observesHeartbeat, svc`replicator, routes
      ensures svc.Valid() && svc.isPromotedPrimary
      ensures !old(svc.isPromotedPrimary) ==> !svc.backUp
      ensures routes.entries == Redirect(old(routes.entries), primaryPort, svc.host, svc.port)
    {
      svc.PromoteToPrimary();
      var i := 0;
      while i < |routes.entries|
        invariant 0 <= i <= |routes.entries|
        invariant routes.entries == old(routes.entries)
        invariant forall j | 0 <= j < i :: routes.entries[j].port != primaryPort
        modifies {}
      {
        if routes.entries[i].port == primaryPort {
          break;
        }
        i := i + 1;
      }
      if i < |routes.entries| {
        RedirectHits(routes.entries, primaryPort, svc.host, svc.port, i);
        routes.entries := routes.entries[i := Entry(routes.entries[i].restaurant, svc.host, svc.port)];
      } else {
        RedirectMisses(routes.entries, primaryPort, svc.host, svc.port);
      }
    }
  }

  // ---------- Any sequence of promotions ----------

  predicate ShardsOf(original: seq<Entry>, promoted: seq<nat>) {
    forall x | 0 <= x < |promoted| :: promoted[x] < |original|
  }

  /** What one promotion of shard `i` makes of the table. */
  function AfterPromotion(original: seq<Entry>, routes: seq<Entry>, i: nat): (r: seq<Entry>)
    requires i < |original|
    ensures |r| == |routes|
  {
    Redirect(routes, original[i].port, original[i].host, original[i].port + HEARTBEAT_PORT_OFFSET)
  }

  /** The table after the backups of the shards `promoted` took over, in that order. */
  function AfterPromotions(original: seq<Entry>, promoted: seq<nat>): (r: seq<Entry>)
    requires ShardsOf(original, promoted)
    ensures |r| == |original|
  {
    if |promoted| == 0 then original
    else
      AfterPromotion(original, AfterPromotions(original, promoted[..|promoted| - 1]), promoted[|promoted| - 1])
  }

  function BackupEntry(e: Entry): Entry {
    e.(port := e.port + HEARTBEAT_PORT_OFFSET)
  }

  /** A shard is at its backup's address exactly when it was promoted, and where it was otherwise. */
  ghost predicate Routed(original: seq<Entry>, promoted: seq<nat>, routes: seq<Entry>) {
    && |routes| == |original|
    && forall i | 0 <= i < |original| :: routes[i] == if i in promoted then BackupEntry(original[i]) else original[i]
  }

  /** Only an unpromoted shard is found at its primary's port. */
  lemma FoundAtPrimary(original: seq<Entry>, promoted: seq<nat>, routes: seq<Entry>, i: nat, j: nat)
    requires PortsOk(original) && Routed(original, promoted, routes) && i < |original| && j < |original|
    ensures routes[j].port == original[i].port <==> i == j && i !in promoted
  {
  }

  lemma OnePromotion(original: seq<Entry>, promoted: seq<nat>, routes: seq<Entry>, i: nat)
    requires PortsOk(original) && Routed(original, promoted, routes) && i < |original|
    ensures Routed(original, promoted + [i], AfterPromotion(original, routes, i))
  {
    var port, host := original[i].port, original[i].host;
    forall j | 0 <= j < |original| ensures routes[j].port == port <==> i == j && i !in promoted {
      FoundAtPrimary(original, promoted, routes, i, j);
    }
    if i in promoted {
      RedirectMisses(routes, port, host, port + HEARTBEAT_PORT_OFFSET);
    } else {
      RedirectHits(routes, port, host, port + HEARTBEAT_PORT_OFFSET, i);
    }
  }

  /** Routing is correct after any promotions, repeated and in any order. */
  lemma {:induction false} RoutesAfterPromotions(original: seq<Entry>, promoted: seq<nat>)
    requires PortsOk(original) && ShardsOf(original, promoted)
    ensures Routed(original, promoted, AfterPromotions(original, promoted))
  {
    if |promoted| > 0 {
      var before, i := promoted[..|promoted| - 1], promoted[|promoted| - 1];
      assert promoted == before + [i];
      RoutesAfterPromotions(original, before);
      OnePromotion(original, before, AfterPromotions(original, before), i);
    }
  }

  /** Ports stay distinct: two shards never share an address. */
  lemma PortsStayDistinct(original: seq<Entry>, promoted: seq<nat>)
    requires PortsOk(original) && ShardsOf(original, promoted)
    ensures DistinctPorts(AfterPromotions(original, promoted))
  {
    RoutesAfterPromotions(original, promoted);
    var routes := AfterPromotions(original, promoted);
    forall i, j | 0 <= i < j < |routes| ensures routes[i].port != routes[j].port {
      assert original[i].port != original[j].port;
    }
  }

  // ---------- The gateway ----------

  datatype Address = Address(host: string, port: int)

  /** A service's answer, or a transport failure. */
  datatype Attempt = Unavailable | Answered(response: Response)

  /** Try the address; on a transport failure try the backup port, if the address has one.
      `first` and `second` are what the network would make of the two attempts. */
  method SendToServiceWithFailover(to: Address, backups: map<int, int>, first: Attempt, second: Attempt)
    returns (result: Attempt, tried: seq<Address>)
    ensures first.Answered? || to.port !in backups ==> result == first && tried == [to]
    ensures first.Unavailable? && to.port in backups ==>
      result == second && tried == [to, Address(REPLICATION_HOST, backups[to.port])]
  {
    tried := [to];
    result := first;
    if result.Unavailable? {
      if to.port in backups {
        tried := tried + [Address(REPLICATION_HOST, backups[to.port])];
        result := second;
      }
    }
  }

  function GetServiceAddress(entries: seq<Entry>, restaurant: string): Option<Address> {
    if |entries| == 0 then None
    else if entries[0].restaurant == restaurant then Some(Address(entries[0].host, entries[0].port))
    else GetServiceAddress(entries[1..], restaurant)
  }

  lemma {:induction false} AddressOf(entries: seq<Entry>, i: nat)
    requires DistinctRestaurants(entries) && i < |entries|
    ensures GetServiceAddress(entries, entries[i].restaurant) == Some(Address(entries[i].host, entries[i].port))
  {
    if i > 0 {
      AddressOf(entries[1..], i - 1);
    }
  }

  lemma AddressRouted(original: seq<Entry>, promoted: seq<nat>, routes: seq<Entry>, i: nat)
    requires Routed(original, promoted, routes) && DistinctRestaurants(original) && i < |original|
    ensures GetServiceAddress(routes, original[i].restaurant) ==
            Some(Address(original[i].host, original[i].port + if i in promoted then HEARTBEAT_PORT_OFFSET else 0))
  {
    RestaurantsKept(original, promoted, routes);
    AddressOf(routes, i);
  }

  /** Where the gateway finds shard `i` after the promotions, and whether it would retry. */
  lemma AddressAfterPromotions(original: seq<Entry>, promoted: seq<nat>, i: nat)
    requires PortsOk(original) && DistinctRestaurants(original) && ShardsOf(original, promoted) && i < |original|
    ensures
      var port := original[i].port + if i in promoted then 1000 else 0;
      && GetServiceAddress(AfterPromotions(original, promoted), original[i].restaurant) ==
          Some(Address(original[i].host, port))
      && (port in BackupMap(original) <==> i !in promoted)
      && (i !in promoted ==> BackupMap(original)[port] == port + 1000)
  {
    RoutesAfterPromotions(original, promoted);
    AddressRouted(original, promoted, AfterPromotions(original, promoted), i);
    BackupPorts(original, i);
  }

  lemma RestaurantsKept(original: seq<Entry>, promoted: seq<nat>, routes: seq<Entry>)
    requires Routed(original, promoted, routes) && DistinctRestaurants(original)
    ensures DistinctRestaurants(routes)
  {
  }

  lemma BackupPorts(original: seq<Entry>, i: nat)
    requires PortsOk(original) && i < |original|
    ensures var b := BackupMap(original);
            && original[i].port in b && b[original[i].port] == original[i].port + HEARTBEAT_PORT_OFFSET
            && original[i].port + HEARTBEAT_PORT_OFFSET !in b
  {
  }

  /** A client request to shard `i` after any promotions: a promoted shard is tried once, at its
      backup; any other is tried at its primary first, and at its backup only if that fails. */
  method RouteRequest(routes: ServiceMap, ghost original: seq<Entry>, ghost promoted: seq<nat>, ghost i: nat,
                      restaurant: string, backups: map<int, int>, first: Attempt, second: Attempt)
    returns (result: Attempt, tried: seq<Address>)
    requires PortsOk(original) && DistinctRestaurants(original) && ShardsOf(original, promoted)
    requires routes.entries == AfterPromotions(original, promoted) && backups == BackupMap(original)
    requires i < |original| && original[i].restaurant == restaurant
    ensures i in promoted ==> tried == [Address(original[i].host, original[i].port + 1000)] && result == first
    ensures i !in promoted && first.Answered? ==>
      tried == [Address(original[i].host, original[i].port)] && result == first
    ensures i !in promoted && first.Unavailable? ==>
      && tried == [Address(original[i].host, original[i].port), Address("127.0.0.1", original[i].port + 1000)]
      && result == second
  {
    AddressAfterPromotions(original, promoted, i);
    var address := GetServiceAddress(routes.entries, restaurant);
    result, tried := SendToServiceWithFailover(address.value, backups, first, second);
  }
}
