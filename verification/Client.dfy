/** The client's table matching and its modify saga, as functions of the service's responses. */
module Client {
  import opened Records
  import opened NodeModel
  import opened Service

  // ---------- Table matching ----------

  function LowerChar(c: char): char {
    if 'A' <= c <= 'Z' then (c as int + 32) as char else c
  }

  function Lower(s: string): string {
    seq(|s|, i requires 0 <= i < |s| => LowerChar(s[i]))
  }

  /** The same letter, case aside. */
  predicate SameLetter(c: char, d: char) {
    || c == d
    || ('A' <= c <= 'Z' && d as int == c as int + 32)
    || ('A' <= d <= 'Z' && c as int == d as int + 32)
  }

  predicate SameText(s: string, t: string) {
    |s| == |t| && forall i | 0 <= i < |s| :: SameLetter(s[i], t[i])
  }

  /** Lower-casing makes two strings equal exactly when they have the same letters, case aside. */
  lemma LowerIff(s: string, t: string)
    ensures Lower(s) == Lower(t) <==> SameText(s, t)
  {
    if Lower(s) == Lower(t) {
      forall i | 0 <= i < |s| ensures |s| == |t| && SameLetter(s[i], t[i]) {
        assert |Lower(s)| == |s| && |Lower(t)| == |t|;
        assert Lower(s)[i] == LowerChar(s[i]) && Lower(t)[i] == LowerChar(t[i]);
      }
      assert |Lower(s)| == |s| && |Lower(t)| == |t|;
    }
  }

  /** Insert behind everything that is not larger. */
  function InsertByCapacity(tables: seq<TableInfo>, t: TableInfo): seq<TableInfo> {
    if |tables| == 0 || tables[|tables| - 1].capacity <= t.capacity then tables + [t]
    else InsertByCapacity(tables[..|tables| - 1], t) + [tables[|tables| - 1]]
  }

  /** A stable sort by capacity. */
  function SortByCapacity(tables: seq<TableInfo>): seq<TableInfo> {
    if |tables| == 0 then [] else InsertByCapacity(SortByCapacity(tables[..|tables| - 1]), tables[|tables| - 1])
  }

  function AtLocation(tables: seq<TableInfo>, preference: string): seq<TableInfo> {
    if |tables| == 0 then []
    else
      var front, t := AtLocation(tables[..|tables| - 1], preference), tables[|tables| - 1];
      if Lower(t.location) == Lower(preference) then front + [t] else front
  }

  /** An empty preference counts as none. */
  function MatchTable(tables: seq<TableInfo>, preference: Option<string>): Option<TableInfo> {
    if |tables| == 0 then None
    else
      var candidates := SortByCapacity(tables);
      var preferred := if preference.GetOr("") == "" then [] else AtLocation(candidates, preference.value);
      if |preferred| > 0 then Some(preferred[0])
      else if |candidates| > 0 then Some(candidates[0])
      else None
  }

  ghost predicate ByCapacity(tables: seq<TableInfo>) {
    forall i, j | 0 <= i < j < |tables| :: tables[i].capacity <= tables[j].capacity
  }

  lemma {:induction false} InsertKeepsOrder(tables: seq<TableInfo>, t: TableInfo)
    requires ByCapacity(tables)
    ensures ByCapacity(InsertByCapacity(tables, t))
    ensures |InsertByCapacity(tables, t)| == |tables| + 1
    ensures forall x | x in InsertByCapacity(tables, t) :: x == t || x in tables
    ensures InsertByCapacity(tables, t)[0] == if |tables| > 0 && tables[0].capacity <= t.capacity then tables[0] else t
  {
    var n := |tables| - 1;
    if n >= 0 && t.capacity < tables[n].capacity {
      InsertKeepsOrder(tables[..n], t);
      var r := InsertByCapacity(tables[..n], t);
      forall i | 0 <= i < |r| ensures r[i].capacity <= tables[n].capacity {
        assert r[i] in r;
      }
    }
  }

  lemma {:induction false} SortOrders(tables: seq<TableInfo>)
    ensures ByCapacity(SortByCapacity(tables)) && |SortByCapacity(tables)| == |tables|
  {
    if |tables| > 0 {
      var n := |tables| - 1;
      SortOrders(tables[..n]);
      InsertKeepsOrder(SortByCapacity(tables[..n]), tables[n]);
    }
  }

  /** Filtering by location and inserting in order commute. */
  lemma {:induction false} FilterInsert(tables: seq<TableInfo>, t: TableInfo, preference: string)
    requires ByCapacity(tables)
    ensures AtLocation(InsertByCapacity(tables, t), preference) ==
            if Lower(t.location) == Lower(preference) then InsertByCapacity(AtLocation(tables, preference), t)
            else AtLocation(tables, preference)
  {
    var n := |tables| - 1;
    if n >= 0 && t.capacity < tables[n].capacity {
      FilterInsert(tables[..n], t, preference);
      var r := InsertByCapacity(tables[..n], t);
      assert (r + [tables[n]])[..|r|] == r;
      var kept := AtLocation(tables[..n], preference);
      assert (kept + [tables[n]])[..|kept|] == kept;
    } else {
      assert (tables + [t])[..|tables|] == tables;
      FilterSmall(tables, preference, t.capacity);
    }
  }

  lemma {:induction false} FilterSmall(tables: seq<TableInfo>, preference: string, capacity: int)
    requires ByCapacity(tables) && (|tables| > 0 ==> tables[|tables| - 1].capacity <= capacity)
    ensures forall x | x in AtLocation(tables, preference) :: x.capacity <= capacity
  {
    if |tables| > 0 {
      FilterSmall(tables[..|tables| - 1], preference, capacity);
    }
  }

  /** Sorting stably and filtering by location commute. */
  lemma {:induction false} FilterSort(tables: seq<TableInfo>, preference: string)
    ensures AtLocation(SortByCapacity(tables), preference) == SortByCapacity(AtLocation(tables, preference))
  {
    if |tables| > 0 {
      var n := |tables| - 1;
      var front := SortByCapacity(tables[..n]);
      FilterSort(tables[..n], preference);
      SortOrders(tables[..n]);
      FilterInsert(front, tables[n], preference);
      var kept := AtLocation(tables[..n], preference);
      assert (kept + [tables[n]])[..|kept|] == kept;
    }
  }

  ghost predicate EarliestSmallestAt(pool: seq<TableInfo>, t: TableInfo, i: int) {
    && 0 <= i < |pool| && pool[i] == t
    && (forall j | 0 <= j < i :: pool[j].capacity > t.capacity)
    && (forall j | 0 <= j < |pool| :: pool[j].capacity >= t.capacity)
  }

  /** `t` is the earliest of the pool's tables of smallest capacity. */
  ghost predicate EarliestSmallest(pool: seq<TableInfo>, t: TableInfo) {
    exists i :: EarliestSmallestAt(pool, t, i)
  }

  lemma {:induction false} HeadOfSort(pool: seq<TableInfo>) returns (i: int)
    requires |pool| > 0
    ensures |SortByCapacity(pool)| > 0 && EarliestSmallestAt(pool, SortByCapacity(pool)[0], i)
  {
    var n := |pool| - 1;
    SortOrders(pool[..n]);
    InsertKeepsOrder(SortByCapacity(pool[..n]), pool[n]);
    if n == 0 {
      i := 0;
    } else {
      var f := HeadOfSort(pool[..n]);
      i := NewHead(pool, SortByCapacity(pool[..n])[0], f);
    }
  }

  /** The smallest so far, or the last table if that is smaller still. */
  lemma NewHead(pool: seq<TableInfo>, head: TableInfo, f: int) returns (i: int)
    requires |pool| > 0 && EarliestSmallestAt(pool[..|pool| - 1], head, f)
    ensures EarliestSmallestAt(pool, if head.capacity <= pool[|pool| - 1].capacity then head else pool[|pool| - 1], i)
  {
    var n := |pool| - 1;
    forall j | 0 <= j < n ensures pool[..n][j] == pool[j] {
    }
    i := if head.capacity <= pool[n].capacity then f else n;
    forall j | 0 <= j < n ensures pool[j].capacity >= head.capacity {
      assert pool[..n][j].capacity >= head.capacity;
    }
  }

  /** Nothing only if there are no tables; otherwise the earliest smallest of the preferred pool. */
  lemma MatchHeadsPool(tables: seq<TableInfo>, preference: Option<string>)
    ensures MatchTable(tables, preference).None? <==> |tables| == 0
    ensures |tables| > 0 ==>
      var preferred := if preference.GetOr("") == "" then [] else AtLocation(tables, preference.value);
      EarliestSmallest(if |preferred| > 0 then preferred else tables, MatchTable(tables, preference).value)
  {
    if |tables| > 0 {
      var i := HeadOfSort(tables);
      if preference.GetOr("") != "" {
        var preferred := AtLocation(tables, preference.value);
        FilterSort(tables, preference.value);
        SortOrders(preferred);
        if |preferred| > 0 {
          i := HeadOfSort(preferred);
        }
      }
    }
  }

  lemma {:induction false} AtLocationExact(tables: seq<TableInfo>, preference: string, t: TableInfo)
    ensures t in AtLocation(tables, preference) <==> t in tables && SameText(t.location, preference)
  {
    if |tables| > 0 {
      AtLocationExact(tables[..|tables| - 1], preference, t);
      LowerIff(tables[|tables| - 1].location, preference);
      assert tables == tables[..|tables| - 1] + [tables[|tables| - 1]];
    }
  }

  predicate Wanted(t: TableInfo, location: Option<string>) {
    location.None? || SameText(t.location, location.value)
  }

  /** Table `i` is the earliest of the smallest among the wanted ones. */
  ghost predicate BestAmong(tables: seq<TableInfo>, i: int, location: Option<string>) {
    && 0 <= i < |tables| && Wanted(tables[i], location)
    && forall j | 0 <= j < |tables| && Wanted(tables[j], location) ::
        tables[i].capacity <= tables[j].capacity && (j < i ==> tables[i].capacity < tables[j].capacity)
  }

  /** Somebody wants a location that is offered. */
  ghost predicate Available(tables: seq<TableInfo>, preference: Option<string>) {
    preference.GetOr("") != "" && exists t :: t in tables && SameText(t.location, preference.value)
  }

  /** The places of the tables at the location: all of them, in order. */
  lemma {:induction false} PlacesAt(tables: seq<TableInfo>, preference: string) returns (places: seq<nat>)
    ensures var pool := AtLocation(tables, preference);
            && |places| == |pool|
            && (forall x | 0 <= x < |pool| :: places[x] < |tables| && tables[places[x]] == pool[x])
            && (forall x, y | 0 <= x < y < |pool| :: places[x] < places[y])
    ensures forall j | 0 <= j < |tables| && SameText(tables[j].location, preference) :: j in places
  {
    if |tables| == 0 {
      places := [];
    } else {
      var n := |tables| - 1;
      places := PlacesAt(tables[..n], preference);
      LowerIff(tables[n].location, preference);
      forall j | 0 <= j < n && SameText(tables[j].location, preference) ensures j in places {
        assert tables[..n][j] == tables[j];
      }
      if Lower(tables[n].location) == Lower(preference) {
        places := places + [n];
      }
    }
  }

  /** The earliest smallest of the pool is the best of the tables at the location. */
  lemma PoolBest(tables: seq<TableInfo>, preference: string, t: TableInfo) returns (i: int)
    requires EarliestSmallest(AtLocation(tables, preference), t)
    ensures BestAmong(tables, i, Some(preference)) && tables[i] == t
  {
    var pool := AtLocation(tables, preference);
    var places := PlacesAt(tables, preference);
    var x :| EarliestSmallestAt(pool, t, x);
    i := places[x];
    AtLocationExact(tables, preference, t);
    forall j | 0 <= j < |tables| && SameText(tables[j].location, preference)
      ensures t.capacity <= tables[j].capacity && (j < i ==> t.capacity < tables[j].capacity)
    {
      var y :| 0 <= y < |places| && places[y] == j;
      assert pool[y] == tables[j];
    }
  }

  /** Best fit: nothing only if there are no tables; otherwise the earliest smallest table among those at the
      preferred location, case aside, if there are any, and else among all. */
  lemma MatchIsBestFit(tables: seq<TableInfo>, preference: Option<string>) returns (i: int)
    ensures MatchTable(tables, preference).None? <==> |tables| == 0
    ensures |tables| > 0 ==>
      && BestAmong(tables, i, if Available(tables, preference) then preference else None)
      && MatchTable(tables, preference) == Some(tables[i])
  {
    i := 0;
    MatchHeadsPool(tables, preference);
    if |tables| > 0 {
      var best := MatchTable(tables, preference).value;
      if Available(tables, preference) {
        var t :| t in tables && SameText(t.location, preference.value);
        AtLocationExact(tables, preference.value, t);
        i := PoolBest(tables, preference.value, best);
      } else {
        if preference.GetOr("") != "" && |AtLocation(tables, preference.value)| > 0 {
          AtLocationExact(tables, preference.value, AtLocation(tables, preference.value)[0]);
        }
        i :| EarliestSmallestAt(tables, best, i);
      }
    }
  }

  // ---------- Reserving and modifying, through the service ----------

  /** The gateway passes a party size on only if it is a string of digits. */
  function GatewayParty(party: int): int {
    if party < 0 then 1 else party
  }

  ghost predicate Acknowledged(svc: ReservationService, net: Exchange)
    reads svc
  {
    !svc.Replicates() || net == Reply("ok")
  }

  lemma FreeTableIsFree(tables: seq<TableInfo>, store: Store, restaurant: string, slot: string, party: int,
                        t: TableInfo)
    requires t in FreeTables(tables, store, restaurant, slot, party)
    ensures t.id in TableIds(tables) && party <= t.capacity && Key(restaurant, t.id, slot) !in store
  {
  }

  // ---------- One request, from the client through the gateway to the service and back ----------

  /** A request is answered; or the client is told of an error; or its reply is overdue and
      reading it raises.  In the last two cases the service may have carried it out or not. */
  datatype Trip = Answered | Failed(arrived: bool) | Raised(arrived: bool) {
    predicate Arrives() {
      Answered? || arrived
    }
  }

  datatype Answer = Got(resp: Response) | NoAnswer | Exception {
    predicate Ok() {
      Got? && resp.Accepted?
    }
  }

  /** What the client makes of the service's response. */
  function Seen(trip: Trip, resp: Response): Answer {
    match trip
    case Answered => Got(resp)
    case Failed(_) => NoAnswer
    case Raised(_) => Exception
  }

  /** POST /reservations. */
  method HttpPost(svc: ReservationService, req: Request, now: real, net: Exchange, trip: Trip, ghost h: Hid)
    returns (answer: Answer)
    requires svc.Valid() && req.BookReq? && h !in svc.node.handlers
    modifies svc, if svc.replicator == null then {} else {svc.replicator}
    ensures svc.Valid() && svc.held == old(svc.held) && svc.replicator == old(svc.replicator)
            && svc.backUp == old(svc.backUp)
    ensures svc.node.handlers.Keys <= old(svc.node.handlers.Keys) + {h}
    ensures (answer.Got? <==> trip.Answered?) && (answer.Exception? <==> trip.Raised?)
    ensures var k := svc.RequestKey(req);
      if (trip.Answered? || trip.arrived) && req.table in TableIds(svc.tables) && req.table !in svc.held
         && k !in old(svc.reservations) && old(Acknowledged(svc, net))
      then
        && k in svc.reservations && svc.reservations == old(svc.reservations)[k := svc.reservations[k]]
        && EraseRecord(svc.reservations[k]) == Record(svc.restaurantId, req.table, req.date, req.timeslot, req.customer,
                                                      req.party.GetOr(1), req.contact.GetOr(""), 0.0, 0)
        && answer == Seen(trip, Accepted(svc.reservations[k]))
      else svc.reservations == old(svc.reservations) && !answer.Ok()
  {
    if !trip.Arrives() {
      return if trip.Raised? then Exception else NoAnswer;
    }
    ghost var script;
    var resp;
    resp, script := svc.BookTable(req, now, net, h);
    answer := Seen(trip, resp);
  }

  /** DELETE /reservations. */
  method HttpDelete(svc: ReservationService, req: Request, net: Exchange, trip: Trip, ghost h: Hid)
    returns (answer: Answer)
    requires svc.Valid() && req.CancelReq? && h !in svc.node.handlers
    modifies svc, if svc.replicator == null then {} else {svc.replicator}
    ensures svc.Valid() && svc.held == old(svc.held) && svc.replicator == old(svc.replicator)
            && svc.backUp == old(svc.backUp)
    ensures svc.node.handlers.Keys <= old(svc.node.handlers.Keys) + {h}
    ensures (answer.Got? <==> trip.Answered?) && (answer.Exception? <==> trip.Raised?)
    ensures var k := svc.RequestKey(req);
      if (trip.Answered? || trip.arrived) && req.table in TableIds(svc.tables) && req.table !in svc.held
         && k in old(svc.reservations) && old(Acknowledged(svc, net))
      then svc.reservations == old(svc.reservations) - {k} && (answer.Ok() <==> trip.Answered?)
      else svc.reservations == old(svc.reservations) && !answer.Ok()
  {
    if !trip.Arrives() {
      return if trip.Raised? then Exception else NoAnswer;
    }
    ghost var script;
    var resp;
    resp, script := svc.CancelReservation(req, net, h);
    answer := Seen(trip, resp);
  }

  /** GET availability: no answer counts as no tables. */
  method HttpAvailability(svc: ReservationService, date: string, timeslot: string, party: int, trip: Trip)
    returns (offered: seq<TableInfo>)
    ensures offered ==
      if trip.Answered? then
        FreeTables(svc.tables, svc.reservations, svc.restaurantId, Slot(date, timeslot), GatewayParty(party))
      else []
  {
    offered := [];
    if trip.Answered? {
      offered := svc.CheckAvailability(date, timeslot, Some(GatewayParty(party)));
    }
  }

  /** The match, unless it misses the preferred location and the user declines it: then the offered
      table the user names by its number, or none. */
  function Chosen(offered: seq<TableInfo>, preference: Option<string>, declined: Option<int>): Option<TableInfo> {
    var best := MatchTable(offered, preference);
    if best.None? || declined.None? || preference.GetOr("") == "" then best
    else if Lower(best.value.location) == Lower(preference.value) then best
    else if 1 <= declined.value <= |offered| then Some(offered[declined.value - 1])
    else None
  }

  /** The choice: the n-th of the offered tables, or none, if no offered table is at the preferred
      location and the user declines the match and names n; otherwise the best fit. */
  lemma ChoiceIs(offered: seq<TableInfo>, preference: Option<string>, declined: Option<int>) returns (i: int)
    ensures var best := Chosen(offered, preference, declined);
      if |offered| == 0 then best == None
      else if preference.GetOr("") != "" && !Available(offered, preference) && declined.Some? then
        best == if 1 <= declined.value <= |offered| then Some(offered[declined.value - 1]) else None
      else
        && BestAmong(offered, i, if Available(offered, preference) then preference else None)
        && best == Some(offered[i])
  {
    i := MatchIsBestFit(offered, preference);
    if |offered| > 0 && preference.GetOr("") != "" {
      LowerIff(offered[i].location, preference.value);
      assert offered[i] in offered;
    }
  }

  /** Availability, matching and booking in one state: the best of the offered tables is chosen
      (or, if it misses the preferred location, the user's own choice of them), and it is booked
      whenever the request arrives, its lock is free and replication is acknowledged.  Without
      an offer or a choice no booking is sent. */
  method MakeReservation(svc: ReservationService, date: string, timeslot: string, party: int,
                         preference: Option<string>, declined: Option<int>,
                         customer: string, contact: string, now: real, net: Exchange, look: Trip, book: Trip,
                         ghost h: Hid)
    returns (best: Option<TableInfo>, answer: Answer)
    requires svc.Valid() && h !in svc.node.handlers
    modifies svc, if svc.replicator == null then {} else {svc.replicator}
    ensures svc.Valid() && svc.held == old(svc.held) && svc.replicator == old(svc.replicator)
            && svc.backUp == old(svc.backUp)
    ensures svc.node.handlers.Keys <= old(svc.node.handlers.Keys) + {h}
    ensures var offered := Offered(svc, old(svc.reservations), Slot(date, timeslot), party, look);
      && (forall t :: t in offered <==>
            && look.Answered? && t in svc.tables && (if party < 0 then 1 else party) <= t.capacity
            && Key(svc.restaurantId, t.id, Slot(date, timeslot)) !in old(svc.reservations))
      && (|offered| == 0 ==> best == None)
      && (preference.GetOr("") != "" && !Available(offered, preference) && declined.Some? ==>
            best == if 1 <= declined.value <= |offered| then Some(offered[declined.value - 1]) else None)
      && (|offered| > 0 && (preference.GetOr("") == "" || Available(offered, preference) || declined.None?) ==>
            exists i ::
              && BestAmong(offered, i, if Available(offered, preference) then preference else None)
              && best == Some(offered[i]))
    ensures best.None? ==>
        svc.reservations == old(svc.reservations) && answer == if look.Raised? then Exception else NoAnswer
    ensures best.Some? ==> (answer.Exception? <==> book.Raised?)
    ensures best.Some? ==>
      var k := Key(svc.restaurantId, best.value.id, Slot(date, timeslot));
      if book.Arrives() && best.value.id !in svc.held && old(Acknowledged(svc, net)) then
        && k !in old(svc.reservations) && k in svc.reservations
        && svc.reservations == old(svc.reservations)[k := svc.reservations[k]]
        && EraseRecord(svc.reservations[k]) ==
            Record(svc.restaurantId, best.value.id, date, timeslot, customer, party, contact, 0.0, 0)
        && answer == Seen(book, Accepted(svc.reservations[k]))
      else svc.reservations == old(svc.reservations) && !answer.Ok()
  {
    var offered := HttpAvailability(svc, date, timeslot, party, look);
    best := Chosen(offered, preference, declined);
    ghost var i := ChoiceIs(offered, preference, declined);
    OfferedExactly(svc, svc.reservations, Slot(date, timeslot), party, look);
    if best.None? {
      return best, if look.Raised? then Exception else NoAnswer;
    }
    FreeTableIsFree(svc.tables, svc.reservations, svc.restaurantId, Slot(date, timeslot), GatewayParty(party),
                    best.value);
    answer := HttpPost(svc, BookReq(best.value.id, date, timeslot, customer, Some(party), Some(contact)), now, net,
                       book, h);
  }

  lemma OfferedExactly(svc: ReservationService, store: Store, slot: string, party: int, look: Trip)
    ensures forall t :: t in Offered(svc, store, slot, party, look) <==>
              && look.Answered? && t in svc.tables && (if party < 0 then 1 else party) <= t.capacity
              && Key(svc.restaurantId, t.id, slot) !in store
  {
    forall t: TableInfo {
      FreeTablesExact(svc.tables, store, svc.restaurantId, slot, GatewayParty(party), t);
    }
  }

  function Offered(svc: ReservationService, store: Store, slot: string, party: int, look: Trip): seq<TableInfo> {
    if look.Answered? then FreeTables(svc.tables, store, svc.restaurantId, slot, GatewayParty(party)) else []
  }

  // ---------- The modify saga ----------

  /** What became of a request the service has no reason to refuse: whether the backup acknowledged
      it, and its trip. */
  datatype Fate = Fate(acknowledged: bool, trip: Trip) {
    predicate Done() {
      acknowledged && trip.Arrives()
    }

    predicate Accepted() {
      acknowledged && trip.Answered?
    }
  }

  datatype ModifyOutcome = NotCancelled | Modified(reservation: Record) | Restored | Aborted

  function RecordKey(r: Record): Key {
    Key(r.restaurant, r.table, Slot(r.date, r.timeslot))
  }

  /** What the four requests of the saga met. */
  datatype Course = Course(cancel: Fate, look: Trip, book: Fate, restore: Fate)

  /** `r` books for the original's customer, at `slot`, the best fitting of the offered tables. */
  ghost predicate Replaces(r: Record, existing: Record, offered: seq<TableInfo>, slot: string, party: int) {
    && (exists i :: BestAmong(offered, i, None) && r.table == offered[i].id)
    && RecordKey(r) == Key(existing.restaurant, r.table, slot)
    && r.customer == existing.customer && r.contact == existing.contact && r.party == party
  }

  /** What modifying makes of the dictionary; `booked` is the new reservation, if the service made one. */
  ghost predicate ModifyEffect(before: Store, after: Store, existing: Record, offered: seq<TableInfo>, slot: string,
                               party: int, c: Course, booked: Option<Record>, outcome: ModifyOutcome)
  {
    var k := RecordKey(existing);
    var without := before - {k};
    if !c.cancel.Accepted() then
      && booked == None && outcome == (if c.cancel.trip.Raised? then Aborted else NotCancelled)
      && after == if c.cancel.Done() then without else before
    else
      AfterCancelling(without, after, existing, offered, slot, party, c, booked, outcome)
  }

  ghost predicate AfterCancelling(without: Store, after: Store, existing: Record, offered: seq<TableInfo>, slot: string,
                                  party: int, c: Course, booked: Option<Record>, outcome: ModifyOutcome)
  {
    if c.look.Raised? then
      booked == None && outcome == Aborted && after == without
    else
      && (booked.Some? <==> |offered| > 0 && c.book.Done())
      && (booked.Some? ==>
            Replaces(booked.value, existing, offered, slot, party) && RecordKey(booked.value) !in without)
      && AfterBooking(if booked.Some? then without[RecordKey(booked.value) := booked.value] else without,
                      after, existing, |offered| > 0, c, booked, outcome)
  }

  /** From the dictionary after the new booking, if any: success, an exception, or restoring. */
  ghost predicate AfterBooking(middle: Store, after: Store, existing: Record, tried: bool, c: Course,
                               booked: Option<Record>, outcome: ModifyOutcome)
    requires tried && c.book.Done() ==> booked.Some?
  {
    if tried && c.book.Accepted() then outcome == Modified(booked.value) && after == middle
    else if tried && c.book.trip.Raised? then outcome == Aborted && after == middle
    else AfterRestoring(middle, after, existing, c.restore, outcome)
  }

  /** The original's key holds the original's data again, unless it is taken or the request fails. */
  ghost predicate AfterRestoring(middle: Store, after: Store, existing: Record, restore: Fate, outcome: ModifyOutcome) {
    var k := RecordKey(existing);
    && outcome == (if restore.trip.Raised? then Aborted else Restored)
    && if restore.Done() && k !in middle then
         k in after && EraseRecord(after[k]) == EraseRecord(existing) && after == middle[k := after[k]]
       else after == middle
  }

  /** Exactly one reservation stands in for the original, every other key is as before. */
  ghost predicate Conserved(before: Store, after: Store, k: Key) {
    exists k' :: k' in after && (k' == k || k' !in before) && after - {k'} == before - {k}
  }

  /** None does. */
  ghost predicate Lost(before: Store, after: Store, k: Key) {
    after == before - {k}
  }

  /** Two do. */
  ghost predicate Doubled(before: Store, after: Store, k: Key) {
    k in after && exists k' :: k' in after && k' != k && k' !in before && after - {k, k'} == before - {k}
  }

  /** The original is cancelled and neither replaced nor restored: the reply to the cancellation did
      not come through, the availability query raised, or the new booking was not made and
      restoring was not reached or not carried out. */
  predicate Loses(c: Course, tried: bool) {
    c.cancel.Done() &&
    (!c.cancel.Accepted() || c.look.Raised?
     || (!(tried && c.book.Done()) && ((tried && c.book.trip.Raised?) || !c.restore.Done())))
  }

  /** The best fitting table at the new slot is the original's own table and slot. */
  ghost predicate SameSpot(existing: Record, offered: seq<TableInfo>, slot: string) {
    && slot == Slot(existing.date, existing.timeslot)
    && exists i :: BestAmong(offered, i, None) && offered[i].id == existing.table
  }

  /** A replacement takes the original's key exactly when it gets the original's table and slot. */
  lemma ReplacesSameKey(r: Record, existing: Record, offered: seq<TableInfo>, slot: string, party: int)
    requires Replaces(r, existing, offered, slot, party)
    ensures RecordKey(r) == RecordKey(existing) <==> SameSpot(existing, offered, slot)
  {
    var i :| BestAmong(offered, i, None) && r.table == offered[i].id;
    forall j | BestAmong(offered, j, None) ensures i == j {
      assert Wanted(offered[i], None) && Wanted(offered[j], None);
    }
  }

  /** The new booking was made, on another key, but the client was told of an error and restored the original. */
  predicate Doubles(c: Course, tried: bool, sameSpot: bool) {
    c.cancel.Accepted() && !c.look.Raised? && tried && c.book.Done() && c.book.trip.Failed? && !sameSpot
      && c.restore.Done()
  }

  /** Modifying conserves the reservations exactly when it neither loses nor doubles one, and when it
      does either is decided by what its requests met and which table it was offered. */
  lemma ModifyConservesIff(before: Store, after: Store, existing: Record, offered: seq<TableInfo>, slot: string,
                           party: int, c: Course, booked: Option<Record>, outcome: ModifyOutcome)
    requires RecordKey(existing) in before && before[RecordKey(existing)] == existing
    requires ModifyEffect(before, after, existing, offered, slot, party, c, booked, outcome)
    ensures var k, tried := RecordKey(existing), |offered| > 0;
      var sameSpot := SameSpot(existing, offered, slot);
      && (Lost(before, after, k) <==> Loses(c, tried))
      && (Doubled(before, after, k) <==> Doubles(c, tried, sameSpot))
      && (Conserved(before, after, k) <==> !Loses(c, tried) && !Doubles(c, tried, sameSpot))
  {
    if booked.Some? {
      ReplacesSameKey(booked.value, existing, offered, slot, party);
    }
  }

  lemma BookedReplaces(existing: Record, offered: seq<TableInfo>, date: string, timeslot: string, party: int,
                       best: TableInfo, r: Record)
    requires exists i :: BestAmong(offered, i, None) && best == offered[i]
    requires EraseRecord(r) ==
        Record(existing.restaurant, best.id, date, timeslot, existing.customer, party, existing.contact, 0.0, 0)
    ensures Replaces(r, existing, offered, Slot(date, timeslot), party)
    ensures RecordKey(r) == Key(existing.restaurant, best.id, Slot(date, timeslot))
  {
  }

  /** The modify saga: cancel, look for a table, book it, and restore the original otherwise.
      Whether restoring worked is not looked at. */
  method ModifyReservation(svc: ReservationService, existing: Record, newDate: string, newTimeslot: string,
                           newParty: Option<int>, now: real, net1: Exchange, net2: Exchange, net3: Exchange,
                           cancel: Trip, look: Trip, book: Trip, restore: Trip,
                           ghost h1: Hid, ghost h2: Hid, ghost h3: Hid)
    returns (outcome: ModifyOutcome, ghost booked: Option<Record>)
    requires svc.Valid() && svc.held == {}
    requires h1 !in svc.node.handlers && h2 !in svc.node.handlers && h3 !in svc.node.handlers
    requires h1 != h2 && h1 != h3 && h2 != h3
    // `existing` was picked from this service's list of reservations
    requires existing.restaurant == svc.restaurantId && existing.table in TableIds(svc.tables)
    requires RecordKey(existing) in svc.reservations && svc.reservations[RecordKey(existing)] == existing
    modifies svc, if svc.replicator == null then {} else {svc.replicator}
    ensures svc.Valid()
    ensures var slot := Slot(if newDate == "" then existing.date else newDate,
                             if newTimeslot == "" then existing.timeslot else newTimeslot);
      var party, k := newParty.GetOr(existing.party), RecordKey(existing);
      var offered := Offered(svc, old(svc.reservations) - {k}, slot, party, look);
      var c := old(CourseOf(svc, net1, net2, net3, cancel, look, book, restore));
      && ModifyEffect(old(svc.reservations), svc.reservations, existing, offered, slot, party, c, booked, outcome)
      && (Conserved(old(svc.reservations), svc.reservations, k) <==>
            !Loses(c, |offered| > 0) && !Doubles(c, |offered| > 0, SameSpot(existing, offered, slot)))
  {
    var date := if newDate == "" then existing.date else newDate;
    var timeslot := if newTimeslot == "" then existing.timeslot else newTimeslot;
    var party := newParty.GetOr(existing.party);
    ghost var before, k, slot := svc.reservations, RecordKey(existing), Slot(date, timeslot);
    ghost var c := CourseOf(svc, net1, net2, net3, cancel, look, book, restore);
    ghost var offered := Offered(svc, before - {k}, slot, party, look);
    booked := None;
    var cancelled := Cancel(svc, existing, net1, cancel, h1);
    if cancelled.Ok() {
      outcome, booked := Rebook(svc, existing, date, timeslot, party, now, net2, net3, look, book, restore, h2, h3, c);
    } else {
      outcome := if cancelled.Exception? then Aborted else NotCancelled;
    }
    ModifyConservesIff(before, svc.reservations, existing, offered, slot, party, c, booked, outcome);
  }

  /** The cancellation of the original: the service has no reason to refuse it. */
  method Cancel(svc: ReservationService, existing: Record, net: Exchange, trip: Trip, ghost h: Hid)
    returns (answer: Answer)
    requires svc.Valid() && svc.held == {} && h !in svc.node.handlers
    requires existing.restaurant == svc.restaurantId && existing.table in TableIds(svc.tables)
    requires RecordKey(existing) in svc.reservations
    modifies svc, if svc.replicator == null then {} else {svc.replicator}
    ensures svc.Valid() && svc.held == {} && svc.replicator == old(svc.replicator) && svc.backUp == old(svc.backUp)
    ensures svc.node.handlers.Keys <= old(svc.node.handlers.Keys) + {h}
    ensures var fate := Fate(old(Acknowledged(svc, net)), trip);
      && svc.reservations ==
          (if fate.Done() then old(svc.reservations) - {RecordKey(existing)} else old(svc.reservations))
      && (answer.Ok() <==> fate.Accepted())
    ensures answer.Exception? <==> trip.Raised?
  {
    answer := HttpDelete(svc, CancelReq(existing.table, existing.date, existing.timeslot), net, trip, h);
  }

  /** The new booking, at the best fitting table if there is one. */
  method BookReplacement(svc: ReservationService, existing: Record, date: string, timeslot: string, party: int,
                         now: real, net: Exchange, look: Trip, book: Trip, ghost h: Hid, ghost c: Course)
    returns (answer: Answer, ghost booked: Option<Record>)
    requires svc.Valid() && svc.held == {} && h !in svc.node.handlers && existing.restaurant == svc.restaurantId
    requires c.book == Fate(Acknowledged(svc, net), book)
    modifies svc, if svc.replicator == null then {} else {svc.replicator}
    ensures svc.Valid() && svc.held == {} && svc.replicator == old(svc.replicator) && svc.backUp == old(svc.backUp)
    ensures svc.node.handlers.Keys <= old(svc.node.handlers.Keys) + {h}
    ensures var offered := Offered(svc, old(svc.reservations), Slot(date, timeslot), party, look);
      && (booked.Some? <==> |offered| > 0 && c.book.Done())
      && (booked.Some? ==> Replaces(booked.value, existing, offered, Slot(date, timeslot), party)
                           && RecordKey(booked.value) !in old(svc.reservations))
      && svc.reservations ==
          (if booked.Some? then old(svc.reservations)[RecordKey(booked.value) := booked.value]
           else old(svc.reservations))
      && (answer.Exception? <==> look.Raised? || (|offered| > 0 && book.Raised?))
      && (answer.Ok() <==> |offered| > 0 && c.book.Accepted())
    ensures answer.Ok() ==> booked == Some(answer.resp.reservation)
  {
    var best;
    best, answer := MakeReservation(svc, date, timeslot, party, None, None, existing.customer, existing.contact, now,
                                    net, look, book, h);
    booked := None;
    if best.Some? && c.book.Done() {
      booked := Some(svc.reservations[Key(svc.restaurantId, best.value.id, Slot(date, timeslot))]);
      BookedReplaces(existing, Offered(svc, old(svc.reservations), Slot(date, timeslot), party, look), date, timeslot,
                     party, best.value, booked.value);
    }
  }

  /** The saga after the cancellation. */
  method Rebook(svc: ReservationService, existing: Record, date: string, timeslot: string, party: int, now: real,
                net2: Exchange, net3: Exchange, look: Trip, book: Trip, restore: Trip, ghost h2: Hid, ghost h3: Hid,
                ghost c: Course)
    returns (outcome: ModifyOutcome, ghost booked: Option<Record>)
    requires svc.Valid() && svc.held == {}
    requires h2 !in svc.node.handlers && h3 !in svc.node.handlers && h2 != h3
    requires existing.restaurant == svc.restaurantId && existing.table in TableIds(svc.tables)
    requires c.look == look && c.book == Fate(Acknowledged(svc, net2), book)
             && c.restore == Fate(Acknowledged(svc, net3), restore)
    modifies svc, if svc.replicator == null then {} else {svc.replicator}
    ensures svc.Valid()
    ensures var offered := Offered(svc, old(svc.reservations), Slot(date, timeslot), party, look);
      AfterCancelling(old(svc.reservations), svc.reservations, existing, offered, Slot(date, timeslot), party, c,
                      booked, outcome)
  {
    var answer;
    answer, booked := BookReplacement(svc, existing, date, timeslot, party, now, net2, look, book, h2, c);
    if answer.Exception? {
      outcome := Aborted;
    } else if answer.Ok() {
      outcome := Modified(answer.resp.reservation);
    } else {
      ghost var middle := svc.reservations;
      outcome := Restore(svc, existing, now, net3, restore, h3);
      assert AfterRestoring(middle, svc.reservations, existing, c.restore, outcome);
    }
  }

  ghost function CourseOf(svc: ReservationService, net1: Exchange, net2: Exchange, net3: Exchange,
                          cancel: Trip, look: Trip, book: Trip, restore: Trip): Course
    reads svc
  {
    Course(Fate(Acknowledged(svc, net1), cancel), look, Fate(Acknowledged(svc, net2), book),
           Fate(Acknowledged(svc, net3), restore))
  }

  /** Book the original again; the client reports it restored unless the request raises. */
  method Restore(svc: ReservationService, existing: Record, now: real, net: Exchange, trip: Trip, ghost h: Hid)
    returns (outcome: ModifyOutcome)
    requires svc.Valid() && h !in svc.node.handlers && existing.table !in svc.held
    requires existing.restaurant == svc.restaurantId && existing.table in TableIds(svc.tables)
    modifies svc, if svc.replicator == null then {} else {svc.replicator}
    ensures svc.Valid()
    ensures AfterRestoring(old(svc.reservations), svc.reservations, existing, Fate(old(Acknowledged(svc, net)), trip),
                           outcome)
  {
    var answer := HttpPost(svc, BookReq(existing.table, existing.date, existing.timeslot, existing.customer,
                                        Some(existing.party), Some(existing.contact)), now, net, trip, h);
    outcome := if answer.Exception? then Aborted else Restored;
  }
}
