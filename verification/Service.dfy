/** The reservation service object: its methods as the source runs them, each proved to be the
    uninterrupted composition of its steps in NodeModel.
*/
module Service {
  import opened Records
  import opened NodeModel
  import opened NodeScripts
  import opened NodeTheorems

  datatype TableInfo = TableInfo(id: TableId, capacity: int, location: string)

  /** What becomes of one request/reply exchange over a socket. */
  datatype Exchange =
    | NoConnection             // connect refused
    | NoReply                  // sent; the reply timed out, was cut off or was unreadable
    | Reply(status: string)

  /** A replication message. */
  datatype Payload = Payload(operation: string, key: seq<string>, reservation: Record)

  /** The synchronous sender of the primary. */
  class PrimaryReplicator {
    const backupPort: int
    var sent: seq<Payload>  // messages that left for the backup

    constructor (port: int)
      ensures backupPort == port && sent == []
    {
      backupPort := port;
      sent := [];
    }

    /** True only for a reply with status `ok`.  False does not mean the message was not sent. */
    method Replicate(message: Payload, net: Exchange) returns (ok: bool)
      modifies this
      ensures ok <==> net == Reply("ok")
      ensures sent == if net.NoConnection? then old(sent) else old(sent) + [message]
    {
      if net.NoConnection? {
        return false;
      }
      sent := sent + [message];
      match net
      case NoReply => ok := false;
      case Reply(status) => ok := status == "ok";
    }
  }

  datatype Response = Accepted(reservation: Record) | Rejected(message: string)

  ghost predicate DistinctIds(tables: seq<TableInfo>) {
    forall i, j | 0 <= i < j < |tables| :: tables[i].id != tables[j].id
  }

  function TableIds(tables: seq<TableInfo>): set<TableId> {
    set i | 0 <= i < |tables| :: tables[i].id
  }

  /** The tables that seat the party and are free at the slot, in table order. */
  function FreeTables(tables: seq<TableInfo>, store: Store, restaurant: string, slot: string,
                      party: int): seq<TableInfo> {
    if |tables| == 0 then []
    else
      var front := FreeTables(tables[..|tables| - 1], store, restaurant, slot, party);
      var t := tables[|tables| - 1];
      if party <= t.capacity && Key(restaurant, t.id, slot) !in store then front + [t] else front
  }

  /** Exactly those tables, each once, in order: the result is the subsequence of the
      suitable tables. */
  lemma {:induction false} FreeTablesExact(tables: seq<TableInfo>, store: Store, restaurant: string, slot: string,
                                           party: int, t: TableInfo)
    ensures t in FreeTables(tables, store, restaurant, slot, party) <==>
            t in tables && party <= t.capacity && Key(restaurant, t.id, slot) !in store
  {
    if |tables| > 0 {
      FreeTablesExact(tables[..|tables| - 1], store, restaurant, slot, party, t);
      assert tables == tables[..|tables| - 1] + [tables[|tables| - 1]];
    }
  }

  lemma {:induction false} FreeTablesInOrder(tables: seq<TableInfo>, store: Store, restaurant: string, slot: string,
                                             party: int)
    returns (positions: seq<nat>)
    ensures var free := FreeTables(tables, store, restaurant, slot, party);
            && |positions| == |free|
            && (forall i | 0 <= i < |free| :: positions[i] < |tables| && tables[positions[i]] == free[i])
            && (forall i, j | 0 <= i < j < |free| :: positions[i] < positions[j])
  {
    if |tables| == 0 {
      positions := [];
    } else {
      var n := |tables| - 1;
      positions := FreeTablesInOrder(tables[..n], store, restaurant, slot, party);
      if party <= tables[n].capacity && Key(restaurant, tables[n].id, slot) !in store {
        positions := positions + [n];
      }
    }
  }

  /** What the object's part of a booking made of the state `before`: response, dictionary and clock. */
  predicate BookingEffect(before: Node, req: Request, now: real, acked: bool, resp: Response, store: Store, clock: nat)
    requires req.BookReq?
  {
    var k := KeyOf(before.cfg, req);
    var fits := req.table in before.cfg.tables && req.table !in before.locks && k !in before.store;
    && (resp.Accepted? <==> fits && acked)
    && (resp.Accepted? ==>
          && store == before.store[k := resp.reservation]
          && resp.reservation == Record(before.cfg.restaurant, req.table, req.date, req.timeslot, req.customer,
                                        req.party.GetOr(1), req.contact.GetOr(""), now, clock))
    && (resp.Rejected? ==> store == before.store)
    && clock == (if fits then before.clock + 1 else before.clock)
  }

  predicate CancellationEffect(before: Node, req: Request, acked: bool, resp: Response, store: Store, clock: nat)
    requires req.CancelReq?
  {
    var k := KeyOf(before.cfg, req);
    var fits := req.table in before.cfg.tables && req.table !in before.locks && k in before.store;
    && (resp.Accepted? <==> fits && acked)
    && (resp.Accepted? ==> store == before.store - {k} && resp.reservation == before.store[k].(lamport := clock))
    && (resp.Rejected? ==> store == before.store)
    && clock == (if fits then before.clock + 1 else before.clock)
  }

  /** The response of handler `h`'s request says what the step model decides. */
  ghost predicate Answers(before: Node, after: Node, req: Request, now: real, acked: bool, h: Hid, script: seq<Act>,
                          resp: Response)
    requires !req.ApplyReq?
  {
    var outcome := Decision(before, req, now, acked);
    && Served(before, after, h, script, outcome)
    && (outcome.Ok? <==> resp.Accepted?)
    && (outcome.Ok? ==> resp == Accepted(outcome.w.rec))
  }

  /** The steps of handler `h` make of the state what the object's part made of it. */
  lemma ServesBooking(init: Node, trace: seq<Act>, before: Node, req: Request, now: real, replicates: bool, acked: bool,
                      h: Hid, resp: Response, store: Store, clock: nat)
    returns (n: Node, script: seq<Act>)
    requires Plays(init, trace, before) && h !in before.handlers && (!replicates ==> acked)
    requires req.BookReq? && BookingEffect(before, req, now, acked, resp, store, clock)
    ensures Plays(init, trace + script, n) && n.store == store && n.clock == clock
    ensures Answers(before, n, req, now, acked, h, script, resp)
  {
    n, script := ServesRequest(before, h, req, now, replicates, acked);
    PlaysThen(init, trace, before, script, n);
  }

  lemma ServesCancellation(init: Node, trace: seq<Act>, before: Node, req: Request, replicates: bool, acked: bool,
                           h: Hid, resp: Response, store: Store, clock: nat)
    returns (n: Node, script: seq<Act>)
    requires Plays(init, trace, before) && h !in before.handlers && (!replicates ==> acked)
    requires req.CancelReq? && CancellationEffect(before, req, acked, resp, store, clock)
    ensures Plays(init, trace + script, n) && n.store == store && n.clock == clock
    ensures Answers(before, n, req, 0.0, acked, h, script, resp)
  {
    n, script := ServesRequest(before, h, req, 0.0, replicates, acked);
    PlaysThen(init, trace, before, script, n);
  }

  class ReservationService {
    const restaurantId: string
    const host: string
    const port: int
    const tables: seq<TableInfo>
    const backupMap: map<int, int>   // primary port to backup port

    var backUp: bool
    var reservations: Store
    var logicalClock: nat
    var held: set<TableId>           // table locks taken
    var replicator: PrimaryReplicator?
    var isPromotedPrimary: bool
    var observesHeartbeat: bool

    ghost var node: Node             // this object as a state of NodeModel
    ghost var trace: seq<Act>        // the steps that led there

    ghost predicate Valid()
      reads this
    {
      && DistinctIds(tables)
      && Plays(InitNode(Config(restaurantId, TableIds(tables))), trace, node)
      && node.cfg == Config(restaurantId, TableIds(tables))
      && node.store == reservations
      && node.clock == logicalClock
      && node.locks.Keys == held
    }

    constructor (restaurantId: string, host: string, port: int, tables: seq<TableInfo>, backupMap: map<int, int>,
                 backUp: bool)
      requires DistinctIds(tables)
      ensures Valid() && fresh(this)
      ensures this.restaurantId == restaurantId && this.host == host && this.port == port
      ensures this.tables == tables && this.backupMap == backupMap && this.backUp == backUp
      ensures reservations == map[] && logicalClock == 0 && held == {} && !isPromotedPrimary && !observesHeartbeat
      ensures replicator != null <==> !backUp && port in backupMap
      ensures replicator != null ==> fresh(replicator) && replicator.backupPort == backupMap[port]
      ensures node == InitNode(Config(restaurantId, TableIds(tables)))
    {
      this.restaurantId, this.host, this.port := restaurantId, host, port;
      this.tables, this.backupMap, this.backUp := tables, backupMap, backUp;
      reservations, logicalClock, held := map[], 0, {};
      isPromotedPrimary, observesHeartbeat := false, false;
      replicator := null;
      node, trace := InitNode(Config(restaurantId, TableIds(tables))), [];
      new;
      if !backUp && port in backupMap {
        replicator := new PrimaryReplicator(backupMap[port]);
      }
    }

    /** The object is always in a state the step model can reach, so what is proved of those
        states holds of it: in particular the dictionary of a node that took no replicated
        writes is its committed writes, executed in timestamp order. */
    lemma DictionaryIsSerialReplay()
      requires Valid()
      ensures NodeInv(node)
      ensures (forall e | e in node.hist :: !e.remote) ==> reservations == Replay(SortByTs(Writes(node.hist)))
    {
      InitNodeInv(Config(restaurantId, TableIds(tables)));
      PlaysKeepInv(InitNode(Config(restaurantId, TableIds(tables))), trace, node);
      if forall e | e in node.hist :: !e.remote {
        SortingSerializes(node);
      }
    }

    // ---------- Lamport clock ----------

    method NextLamport() returns (ts: nat)
      modifies this`logicalClock
      ensures ts == logicalClock == old(logicalClock) + 1
    {
      logicalClock := logicalClock + 1;
      ts := logicalClock;
    }

    /** `ts` is None when the message carries no usable timestamp. */
    method AdvanceLamportFromPeer(ts: Option<int>)
      modifies this`logicalClock
      ensures ts.None? ==> logicalClock == old(logicalClock)
      ensures ts.Some? ==> logicalClock > ts.value && logicalClock > old(logicalClock)
      ensures ts.Some? ==> logicalClock == ts.value + 1 || logicalClock == old(logicalClock) + 1
    {
      if ts.None? {
        return;
      }
      logicalClock := (if logicalClock < ts.value then ts.value else logicalClock) + 1;
    }

    // ---------- Roles ----------

    ghost predicate Replicates()
      reads this`replicator, this`backUp
    {
      replicator != null && !backUp
    }

    /** Taking over.  Done once; a second call changes nothing. */
    method PromoteToPrimary()
      requires Valid()
      modifies this`backUp, this`isPromotedPrimary, this`observesHeartbeat, this`replicator
      ensures Valid() && isPromotedPrimary
      ensures old(isPromotedPrimary) ==>
          backUp == old(backUp) && observesHeartbeat == old(observesHeartbeat) && replicator == old(replicator)
      ensures !old(isPromotedPrimary) ==> !backUp && !observesHeartbeat
      ensures !old(isPromotedPrimary) && port in backupMap ==>
          replicator != null && fresh(replicator) && replicator.backupPort == backupMap[port]
      ensures !old(isPromotedPrimary) && port !in backupMap ==> replicator == old(replicator)
    {
      if isPromotedPrimary {
        return;
      }
      isPromotedPrimary := true;
      backUp := false;
      observesHeartbeat := false;
      if port in backupMap {
        replicator := new PrimaryReplicator(backupMap[port]);
      }
    }

    method SetHeartbeatObserver()
      modifies this`observesHeartbeat
      ensures observesHeartbeat
    {
      observesHeartbeat := true;
    }

    // ---------- Replication ----------

    /** Forward a booking to the backup.  True without an exchange when there is no one to forward to. */
    method ReplicateBook(key: Key, reservation: Record, net: Exchange) returns (ok: bool)
      modifies if replicator == null then {} else {replicator}
      ensures ok <==> !Replicates() || net == Reply("ok")
      ensures Forwarded(true, net, Payload("book", [key.restaurant, key.table, key.slot], reservation))
    {
      if replicator == null || backUp {
        return true;
      }
      ok := replicator.Replicate(Payload("book", KeyToList(key), reservation), net);
    }

    /** Forward a cancellation, with the cancelled record. */
    method ReplicateCancel(key: Key, cancelled: Record, net: Exchange) returns (ok: bool)
      modifies if replicator == null then {} else {replicator}
      ensures ok <==> !Replicates() || net == Reply("ok")
      ensures Forwarded(true, net, Payload("cancel", [key.restaurant, key.table, key.slot], cancelled))
    {
      if replicator == null || backUp {
        return true;
      }
      ok := replicator.Replicate(Payload("cancel", KeyToList(key), cancelled), net);
    }

    function KeyToList(key: Key): seq<string> {
      [key.restaurant, key.table, key.slot]
    }

    /** Exactly this message left for the backup if the request was stamped, there is a backup to
        forward to and the connection was made; otherwise none did. */
    twostate predicate Forwarded(stamped: bool, net: Exchange, message: Payload)
      reads this`replicator, this`backUp, replicator
    {
      && replicator == old(replicator)
      && (replicator != null ==>
            replicator.sent ==
            old(replicator.sent) + if stamped && Replicates() && !net.NoConnection? then [message] else [])
    }

    /** A replicated write arrives at this node. */
    method ApplyReplication(msg: Payload, ghost h: Hid) returns (status: string, ghost script: seq<Act>)
      requires Valid() && h !in node.handlers
      modifies this`reservations, this`logicalClock, this`held, this`node, this`trace
      ensures Valid() && held == old(held)
      ensures status == "ok" <==>
        msg.operation in {"book", "cancel"} && |msg.key| == 3 && msg.key[1] in TableIds(tables)
          && msg.key[1] !in old(held)
      ensures status != "ok" ==> reservations == old(reservations) && logicalClock == old(logicalClock)
      ensures status == "ok" ==>
        var w := Write(if msg.operation == "book" then Book else Cancel, Key(msg.key[0], msg.key[1], msg.key[2]),
                       msg.reservation);
        && Served(old(node), node, h, script, Outcome.Ok(w))
        && reservations == Apply(old(reservations), w)
        && logicalClock == AdvancedClock(old(logicalClock), w.Ts())
    {
      script := [];
      if (msg.operation != "book" && msg.operation != "cancel") || |msg.key| != 3 {
        return "Invalid replication payload", script;
      }
      var tableId := msg.key[1];
      if tableId !in TableIds(tables) {
        return "Unknown table", script;
      }
      if tableId in held {  // lock.acquire(timeout) expires
        return "Lock timeout", script;
      }
      held := held + {tableId};
      var key := Key(msg.key[0], tableId, msg.key[2]);
      ghost var w := Write(if msg.operation == "book" then Book else Cancel, key, msg.reservation);
      ghost var n;
      n, script := ServesReplica(node, h, w);
      PlaysThen(InitNode(node.cfg), trace, node, script, n);
      AdvanceLamportFromPeer(Some(msg.reservation.lamport));
      if msg.operation == "book" {
        reservations := reservations[key := msg.reservation];
      } else {
        reservations := reservations - {key};
      }
      status := "ok";
      held := held - {tableId};
      node, trace := n, trace + script;
    }

    // ---------- Requests ----------

    /** The tables with enough seats that are free at the slot. */
    method CheckAvailability(date: string, timeslot: string, party: Option<int>) returns (available: seq<TableInfo>)
      ensures available == FreeTables(tables, reservations, restaurantId, Slot(date, timeslot), party.GetOr(1))
    {
      available := [];
      var i := 0;
      while i < |tables|
        invariant 0 <= i <= |tables|
        invariant available == FreeTables(tables[..i], reservations, restaurantId, Slot(date, timeslot), party.GetOr(1))
      {
        var t := tables[i];
        assert tables[..i + 1][..i] == tables[..i];
        if t.capacity < party.GetOr(1) {
          i := i + 1;
          continue;
        }
        var key := Key(restaurantId, t.id, Slot(date, timeslot));
        if key !in reservations {
          available := available + [t];
        }
        i := i + 1;
      }
      assert tables[..|tables|] == tables;
    }

    function RequestKey(req: Request): Key
      requires !req.ApplyReq?
    {
      Key(restaurantId, req.table, Slot(req.date, req.timeslot))
    }

    /** A booking is accepted exactly when table, lock, key and replication allow it; then the key
        holds the new record, otherwise nothing is written. */
    twostate predicate BookingServed(req: Request, now: real, net: Exchange, resp: Response)
      requires req.BookReq?
      reads this`reservations, this`logicalClock, this`replicator, this`backUp
    {
      var fits := req.table in TableIds(tables) && req.table !in old(held) && RequestKey(req) !in old(reservations);
      && (resp.Accepted? <==> fits && (!Replicates() || net == Reply("ok")))
      && (resp.Accepted? ==>
            && reservations == old(reservations)[RequestKey(req) := resp.reservation]
            && resp.reservation == Record(restaurantId, req.table, req.date, req.timeslot, req.customer,
                                          req.party.GetOr(1), req.contact.GetOr(""), now, logicalClock))
      && (resp.Rejected? ==> reservations == old(reservations))
      && logicalClock == (if fits then old(logicalClock) + 1 else old(logicalClock))
    }

    /** Why it was not. */
    twostate predicate BookingRefused(req: Request, resp: Response)
      requires req.BookReq?
      reads {}
    {
      resp.Rejected? ==>
        if req.table !in TableIds(tables) then resp.message == "Table " + req.table + " does not exist"
        else if req.table in old(held) then resp.message == "Could not acquire table lock (timed out)"
        else if RequestKey(req) in old(reservations) then
          resp.message == "Table " + req.table + " at " + req.timeslot + " is already booked"
        else resp.message == "Backup replication failed"
    }

    /** The message of a booking: the key as a list, and the whole new record. */
    twostate predicate BookingForwarded(req: Request, now: real, net: Exchange)
      requires req.BookReq?
      reads this`logicalClock, this`replicator, this`backUp, replicator
    {
      Forwarded(req.table in TableIds(tables) && req.table !in old(held) && RequestKey(req) !in old(reservations), net,
                Payload("book", [restaurantId, req.table, Slot(req.date, req.timeslot)],
                        Record(restaurantId, req.table, req.date, req.timeslot, req.customer,
                               req.party.GetOr(1), req.contact.GetOr(""), now, logicalClock)))
    }

    /** The same for a cancellation, which removes the key and returns its record, stamped. */
    twostate predicate CancellationServed(req: Request, net: Exchange, resp: Response)
      requires req.CancelReq?
      reads this`reservations, this`logicalClock, this`replicator, this`backUp
    {
      var fits := req.table in TableIds(tables) && req.table !in old(held) && RequestKey(req) in old(reservations);
      && (resp.Accepted? <==> fits && (!Replicates() || net == Reply("ok")))
      && (resp.Accepted? ==>
            && reservations == old(reservations) - {RequestKey(req)}
            && resp.reservation == old(reservations)[RequestKey(req)].(lamport := logicalClock))
      && (resp.Rejected? ==> reservations == old(reservations))
      && logicalClock == (if fits then old(logicalClock) + 1 else old(logicalClock))
    }

    twostate predicate CancellationRefused(req: Request, resp: Response)
      requires req.CancelReq?
      reads {}
    {
      resp.Rejected? ==>
        if req.table !in TableIds(tables) then resp.message == "Table " + req.table + " does not exist"
        else if req.table in old(held) then resp.message == "Could not acquire table lock (timed out)"
        else if RequestKey(req) !in old(reservations) then resp.message == "No reservation found to cancel"
        else resp.message == "Backup replication failed"
    }

    /** The message of a cancellation: the key as a list, and the old record with the new timestamp. */
    twostate predicate CancellationForwarded(req: Request, net: Exchange)
      requires req.CancelReq?
      reads this`logicalClock, this`replicator, this`backUp, replicator
    {
      var found := req.table in TableIds(tables) && req.table !in old(held) && RequestKey(req) in old(reservations);
      if found then
        Forwarded(true, net, Payload("cancel", [restaurantId, req.table, Slot(req.date, req.timeslot)],
                                     old(reservations)[RequestKey(req)].(lamport := logicalClock)))
      else
        Unforwarded()
    }

    /** No message left. */
    twostate predicate Unforwarded()
      reads this`replicator, replicator
    {
      replicator == old(replicator) && (replicator != null ==> replicator.sent == old(replicator.sent))
    }

    /** The object's part of a booking; BookTable adds what it means in the step model. */
    method RunBooking(req: Request, now: real, net: Exchange) returns (resp: Response)
      requires Valid() && req.BookReq?
      modifies this`reservations, this`logicalClock, this`held
      modifies if replicator == null then {} else {replicator}
      ensures held == old(held)
      ensures BookingEffect(node, req, now, !Replicates() || net == Reply("ok"), resp, reservations, logicalClock)
      ensures BookingServed(req, now, net, resp)
      ensures BookingForwarded(req, now, net) && BookingRefused(req, resp)
    {
      if req.table !in TableIds(tables) {
        return Rejected("Table " + req.table + " does not exist");
      }
      if req.table in held {  // lock.acquire(timeout) expires
        return Rejected("Could not acquire table lock (timed out)");
      }
      held := held + {req.table};
      var key := Key(restaurantId, req.table, Slot(req.date, req.timeslot));
      if key in reservations {
        resp := Rejected("Table " + req.table + " at " + req.timeslot + " is already booked");
      } else {
        var ts := NextLamport();
        var reservation := Record(restaurantId, req.table, req.date, req.timeslot, req.customer,
                                  req.party.GetOr(1), req.contact.GetOr(""), now, ts);
        var ok := ReplicateBook(key, reservation, net);
        if !ok {
          resp := Rejected("Backup replication failed");
        } else {
          reservations := reservations[key := reservation];
          resp := Accepted(reservation);
        }
      }
      held := held - {req.table};
    }

    /** The step model follows the object. */
    ghost method SettleBooking(req: Request, now: real, acked: bool, h: Hid, resp: Response) returns (script: seq<Act>)
      requires req.BookReq? && h !in node.handlers && (!Replicates() ==> acked)
      requires DistinctIds(tables) && Plays(InitNode(Config(restaurantId, TableIds(tables))), trace, node)
      requires node.cfg == Config(restaurantId, TableIds(tables)) && node.locks.Keys == held
      requires BookingEffect(node, req, now, acked, resp, reservations, logicalClock)
      modifies this`node, this`trace
      ensures Valid() && node.handlers.Keys == old(node.handlers.Keys) + {h}
      ensures Answers(old(node), node, req, now, acked, h, script, resp)
    {
      var n;
      n, script := ServesBooking(InitNode(node.cfg), trace, node, req, now, Replicates(), acked, h, resp,
                                 reservations, logicalClock);
      node, trace := n, trace + script;
    }

    method BookTable(req: Request, now: real, net: Exchange, ghost h: Hid)
      returns (resp: Response, ghost script: seq<Act>)
      requires Valid() && req.BookReq? && h !in node.handlers
      modifies this`reservations, this`logicalClock, this`held, this`node, this`trace
      modifies if replicator == null then {} else {replicator}
      ensures Valid() && held == old(held) && node.handlers.Keys == old(node.handlers.Keys) + {h}
      ensures Answers(old(node), node, req, now, !Replicates() || net == Reply("ok"), h, script, resp)
      ensures BookingServed(req, now, net, resp)
      ensures BookingForwarded(req, now, net) && BookingRefused(req, resp)
    {
      resp := RunBooking(req, now, net);
      script := SettleBooking(req, now, !Replicates() || net == Reply("ok"), h, resp);
    }

    /** The object's part of a cancellation. */
    method RunCancellation(req: Request, net: Exchange) returns (resp: Response)
      requires Valid() && req.CancelReq?
      modifies this`reservations, this`logicalClock, this`held
      modifies if replicator == null then {} else {replicator}
      ensures held == old(held)
      ensures CancellationEffect(node, req, !Replicates() || net == Reply("ok"), resp, reservations, logicalClock)
      ensures CancellationServed(req, net, resp)
      ensures CancellationForwarded(req, net) && CancellationRefused(req, resp)
    {
      if req.table !in TableIds(tables) {
        return Rejected("Table " + req.table + " does not exist");
      }
      var key := Key(restaurantId, req.table, Slot(req.date, req.timeslot));
      if req.table in held {  // lock.acquire(timeout) expires
        return Rejected("Could not acquire table lock (timed out)");
      }
      held := held + {req.table};
      if key !in reservations {
        resp := Rejected("No reservation found to cancel");
      } else {
        var cancelled := reservations[key];
        var ts := NextLamport();
        cancelled := cancelled.(lamport := ts);
        var ok := ReplicateCancel(key, cancelled, net);
        if !ok {
          resp := Rejected("Backup replication failed");
        } else {
          reservations := reservations - {key};
          resp := Accepted(cancelled);
        }
      }
      held := held - {req.table};
    }

    ghost method SettleCancellation(req: Request, acked: bool, h: Hid, resp: Response) returns (script: seq<Act>)
      requires req.CancelReq? && h !in node.handlers && (!Replicates() ==> acked)
      requires DistinctIds(tables) && Plays(InitNode(Config(restaurantId, TableIds(tables))), trace, node)
      requires node.cfg == Config(restaurantId, TableIds(tables)) && node.locks.Keys == held
      requires CancellationEffect(node, req, acked, resp, reservations, logicalClock)
      modifies this`node, this`trace
      ensures Valid() && node.handlers.Keys == old(node.handlers.Keys) + {h}
      ensures Answers(old(node), node, req, 0.0, acked, h, script, resp)
    {
      var n;
      n, script := ServesCancellation(InitNode(node.cfg), trace, node, req, Replicates(), acked, h, resp,
                                      reservations, logicalClock);
      node, trace := n, trace + script;
    }

    method CancelReservation(req: Request, net: Exchange, ghost h: Hid) returns (resp: Response, ghost script: seq<Act>)
      requires Valid() && req.CancelReq? && h !in node.handlers
      modifies this`reservations, this`logicalClock, this`held, this`node, this`trace
      modifies if replicator == null then {} else {replicator}
      ensures Valid() && held == old(held) && node.handlers.Keys == old(node.handlers.Keys) + {h}
      ensures Answers(old(node), node, req, 0.0, !Replicates() || net == Reply("ok"), h, script, resp)
      ensures CancellationServed(req, net, resp)
      ensures CancellationForwarded(req, net) && CancellationRefused(req, resp)
    {
      resp := RunCancellation(req, net);
      script := SettleCancellation(req, !Replicates() || net == Reply("ok"), h, resp);
    }
  }

  // ---------- Primary and backup together ----------

  /** What a request whose replication the backup processes in time leaves on both nodes: what is
      accepted is on both, nothing else changes, and nodes that held the same go on holding the same. */
  twostate predicate OnBoth(p: ReservationService, b: ReservationService, req: Request, resp: Response)
    requires !req.ApplyReq?
    reads p`reservations, b`reservations, b`logicalClock
  {
    var k := p.RequestKey(req);
    && (resp.Accepted? <==>
          && req.table in TableIds(p.tables) && req.table !in old(p.held)
          && req.table in TableIds(b.tables) && req.table !in old(b.held)
          && (req.BookReq? <==> k !in old(p.reservations)))
    && (resp.Rejected? ==> p.reservations == old(p.reservations) && b.reservations == old(b.reservations))
    && (resp.Accepted? && req.BookReq? ==>
          && p.reservations == old(p.reservations)[k := resp.reservation]
          && b.reservations == old(b.reservations)[k := resp.reservation])
    && (resp.Accepted? && req.CancelReq? ==>
          && p.reservations == old(p.reservations) - {k} && b.reservations == old(b.reservations) - {k})
    && (resp.Accepted? ==> b.logicalClock > resp.reservation.lamport)
  }

  /** What the backup will answer to a message for the table. */
  method Reaction(b: ReservationService, table: TableId) returns (net: Exchange)
    ensures net == Reply("ok") <==> table in TableIds(b.tables) && table !in b.held
    ensures !net.NoConnection?
  {
    net := Reply(if table in TableIds(b.tables) && table !in b.held then "ok" else "error");
  }

  /** The backup processes a message that names a table. */
  method Process(b: ReservationService, msg: Payload, ghost g: Hid)
    requires b.Valid() && g !in b.node.handlers
    requires |msg.key| == 3 && (msg.operation == "book" || msg.operation == "cancel")
    modifies b
    ensures b.Valid()
    ensures
      if msg.key[1] in TableIds(b.tables) && msg.key[1] !in old(b.held) then
        var k := Key(msg.key[0], msg.key[1], msg.key[2]);
        && b.logicalClock > msg.reservation.lamport
        && b.reservations ==
           (if msg.operation == "book" then old(b.reservations)[k := msg.reservation] else old(b.reservations) - {k})
      else b.reservations == old(b.reservations)
  {
    ghost var script;
    var status;
    status, script := b.ApplyReplication(msg, g);
  }

  /** A booking at the primary; if its message leaves, the backup processes it in time. */
  method BookOnBoth(p: ReservationService, b: ReservationService, req: Request, now: real, ghost h: Hid, ghost g: Hid)
    returns (resp: Response)
    requires p.Valid() && b.Valid() && p != b && p.Replicates()
    requires req.BookReq? && h !in p.node.handlers && g !in b.node.handlers
    modifies p, p.replicator, b
    ensures p.Valid() && b.Valid() && OnBoth(p, b, req, resp)
    ensures p.Replicates() && p.replicator == old(p.replicator)
  {
    var net := Reaction(b, req.table);
    var count := |p.replicator.sent|;
    ghost var script;
    resp, script := p.BookTable(req, now, net, h);
    if |p.replicator.sent| > count {
      Process(b, p.replicator.sent[count], g);
    }
  }

  /** The same for a cancellation. */
  method CancelOnBoth(p: ReservationService, b: ReservationService, req: Request, ghost h: Hid, ghost g: Hid)
    returns (resp: Response)
    requires p.Valid() && b.Valid() && p != b && p.Replicates()
    requires req.CancelReq? && h !in p.node.handlers && g !in b.node.handlers
    modifies p, p.replicator, b
    ensures p.Valid() && b.Valid() && OnBoth(p, b, req, resp)
    ensures p.Replicates() && p.replicator == old(p.replicator)
  {
    var net := Reaction(b, req.table);
    var count := |p.replicator.sent|;
    ghost var script;
    resp, script := p.CancelReservation(req, net, h);
    if |p.replicator.sent| > count {
      Process(b, p.replicator.sent[count], g);
    }
  }

  /** Nodes that held the same go on holding the same, through any requests whose replication the
      backup processes in time, whatever becomes of each. */
  method ServeAllOnBoth(p: ReservationService, b: ReservationService, reqs: seq<Request>, now: real)
    requires p.Valid() && b.Valid() && p != b && p.Replicates()
    requires forall i | 0 <= i < |reqs| :: !reqs[i].ApplyReq?
    requires p.reservations == b.reservations
    modifies p, p.replicator, b
    ensures p.Valid() && b.Valid() && p.reservations == b.reservations
  {
    var i := 0;
    while i < |reqs|
      invariant 0 <= i <= |reqs|
      invariant p.Valid() && b.Valid() && p.Replicates() && p.replicator == old(p.replicator)
      invariant p.reservations == b.reservations
    {
      ghost var h := FreshId(p.node.handlers.Keys);
      ghost var g := FreshId(b.node.handlers.Keys);
      var resp;
      if reqs[i].BookReq? {
        resp := BookOnBoth(p, b, reqs[i], now, h, g);
      } else {
        resp := CancelOnBoth(p, b, reqs[i], h, g);
      }
      i := i + 1;
    }
  }

  ghost function FreshId(used: set<Hid>): (h: Hid)
    ensures h !in used
  {
    SomeFresh(used);
    var h :| h !in used;
    h
  }

  lemma {:induction false} SomeFresh(used: set<Hid>)
    ensures exists h: Hid :: h !in used
  {
    var bound := Above(used);
    assert bound !in used;
  }

  lemma {:induction false} Above(used: set<Hid>) returns (bound: Hid)
    ensures forall h | h in used :: h < bound
  {
    bound := 0;
    var rest := used;
    while rest != {}
      invariant forall h | h in used && h !in rest :: h < bound
    {
      var h :| h in rest;
      rest := rest - {h};
      bound := if h < bound then bound else h + 1;
    }
  }
}
