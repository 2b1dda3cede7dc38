/** One restaurant node as a transition system over any number of concurrent request handlers.

    Each handler runs the code of `_bookTable`, `_cancelReservation` or `_applyReplication`
    one shared-memory access at a time, and the handlers of a node interleave freely.  A
    clock-lock section (`with self.clock_lock`) blocks on nothing and is one step.
*/
module NodeModel {
  import opened Records

  type Hid = nat  // handler identifier

  datatype Request =
    | BookReq(table: TableId, date: string, timeslot: string, customer: string,
              party: Option<int>, contact: Option<string>)
    | CancelReq(table: TableId, date: string, timeslot: string)
    | ApplyReq(w: Write)  // a replicated write that arrived from the primary
  {
    function Table(): TableId {
      match this
      case BookReq(t, _, _, _, _, _) => t
      case CancelReq(t, _, _) => t
      case ApplyReq(w) => w.key.table
    }
  }

  datatype Error =
    | NoSuchTable
    | LockTimeout
    | AlreadyBooked
    | NothingToCancel
    | ReplicationFailed(w: Write)  // the write that was stamped but not confirmed

  datatype Outcome = Ok(w: Write) | Err(why: Error)

  /** Where a handler is.  From Locked up to Refused it holds its table's lock. */
  datatype Phase =
    | Waiting                                // wants the table lock
    | Locked                                 // has it
    | Checked(snapshot: Option<Record>)      // key checked; a cancel has copied the record
    | Stamped(w: Write)                      // timestamp drawn
    | Sent(w: Write)                         // replication message sent, waiting for the reply
    | Acked(w: Write)                        // replicate() returned True
    | Advanced(w: Write)                     // replica only: clock advanced past the peer's
    | Committed(w: Write)                    // dictionary updated
    | Refused(why: Error)                    // leaving with an error
    | Done(outcome: Outcome)                 // lock released, response returned
  {
    predicate HoldsLock() {
      !Waiting? && !Done?
    }

    /** The write this handler drew a timestamp for, if it got that far. */
    function Stamp(): Option<Write> {
      match this
      case Stamped(w) => Some(w)
      case Sent(w) => Some(w)
      case Acked(w) => Some(w)
      case Committed(w) => Some(w)
      case Refused(ReplicationFailed(w)) => Some(w)
      case Done(Ok(w)) => Some(w)
      case Done(Err(ReplicationFailed(w))) => Some(w)
      case _ => None
    }

    /** The handler has written the dictionary. */
    predicate Wrote(w: Write) {
      this == Committed(w) || this == Done(Ok(w))
    }
  }

  datatype Handler = Handler(req: Request, phase: Phase, since: nat)

  /** An update of the dictionary: by a local request, or by a replicated one. */
  datatype Event = Event(h: Hid, w: Write, remote: bool)

  /** A move of the logical clock. */
  datatype Tick = Draw(h: Hid) | Peer(h: Hid, ts: nat)

  datatype Config = Config(restaurant: string, tables: set<TableId>)

  datatype Node = Node(
    cfg: Config,
    store: Store,
    clock: nat,
    locks: map<TableId, Hid>,
    handlers: map<Hid, Handler>,
    hist: seq<Event>,   // every dictionary update so far
    ticks: seq<Tick>)   // every clock move so far

  function InitNode(cfg: Config): Node {
    Node(cfg, map[], 0, map[], map[], [], [])
  }

  function KeyOf(cfg: Config, req: Request): Key {
    match req
    case BookReq(t, d, s, _, _, _) => Key(cfg.restaurant, t, Slot(d, s))
    case CancelReq(t, d, s) => Key(cfg.restaurant, t, Slot(d, s))
    case ApplyReq(w) => w.key
  }

  /** The write a client request turns into once it has its timestamp. */
  function MakeWrite(cfg: Config, req: Request, snapshot: Option<Record>, now: real, ts: nat): Write
    requires !req.ApplyReq?
    requires req.CancelReq? ==> snapshot.Some?
  {
    match req
    case BookReq(t, d, s, customer, party, contact) =>
      Write(Book, KeyOf(cfg, req),
            Record(cfg.restaurant, t, d, s, customer, party.GetOr(1), contact.GetOr(""), now, ts))
    case CancelReq(_, _, _) =>
      Write(Cancel, KeyOf(cfg, req), snapshot.value.(lamport := ts))
  }

  function AdvancedClock(clock: nat, ts: nat): nat {
    (if clock < ts then ts else clock) + 1
  }

  // ---------- Steps ----------

  datatype Act =
    | Start(h: Hid, req: Request, since: nat)
    | Acquire(h: Hid)
    | LockExpires(h: Hid)
    | Check(h: Hid)
    | Stamp(h: Hid, now: real)
    | Send(h: Hid)
    | Confirm(h: Hid)
    | Fail(h: Hid)
    | NoReplica(h: Hid)
    | Advance(h: Hid)
    | Commit(h: Hid)
    | Release(h: Hid)

  predicate Enabled(n: Node, a: Act) {
    if a.Start? then a.h !in n.handlers
    else
      && a.h in n.handlers
      && var Handler(req, phase, _) := n.handlers[a.h];
         match a
         case Acquire(_) => phase.Waiting? && req.Table() !in n.locks
         case LockExpires(_) => phase.Waiting? && req.Table() in n.locks
         case Check(_) => phase.Locked? && !req.ApplyReq?
         case Stamp(_, _) => phase.Checked? && !req.ApplyReq? && (req.CancelReq? ==> phase.snapshot.Some?)
         case Send(_) => phase.Stamped?
         case NoReplica(_) => phase.Stamped?
         case Confirm(_) => phase.Sent?
         case Fail(_) => phase.Sent?
         case Advance(_) => phase.Locked? && req.ApplyReq?
         case Commit(_) => phase.Acked? || phase.Advanced?
         case Release(_) => phase.Committed? || phase.Refused?
  }

  function Goto(n: Node, h: Hid, phase: Phase): Node
    requires h in n.handlers
  {
    n.(handlers := n.handlers[h := n.handlers[h].(phase := phase)])
  }

  function Next(n: Node, a: Act): Node
    requires Enabled(n, a)
  {
    match a
    case Start(h, req, since) =>
      var phase := if req.Table() in n.cfg.tables then Waiting else Done(Err(NoSuchTable));
      n.(handlers := n.handlers[h := Handler(req, phase, since)])
    case Acquire(h) =>
      Goto(n, h, Locked).(locks := n.locks[n.handlers[h].req.Table() := h])
    case LockExpires(h) =>
      Goto(n, h, Done(Err(LockTimeout)))
    case Check(h) =>
      var req := n.handlers[h].req;
      var key := KeyOf(n.cfg, req);
      if req.BookReq? then
        Goto(n, h, if key in n.store then Refused(AlreadyBooked) else Checked(None))
      else
        Goto(n, h, if key in n.store then Checked(Some(n.store[key])) else Refused(NothingToCancel))
    case Stamp(h, now) =>
      var w := MakeWrite(n.cfg, n.handlers[h].req, n.handlers[h].phase.snapshot, now, n.clock + 1);
      Goto(n, h, Stamped(w)).(clock := n.clock + 1, ticks := n.ticks + [Draw(h)])
    case Send(h) =>
      Goto(n, h, Sent(n.handlers[h].phase.w))
    case NoReplica(h) =>
      Goto(n, h, Acked(n.handlers[h].phase.w))
    case Confirm(h) =>
      Goto(n, h, Acked(n.handlers[h].phase.w))
    case Fail(h) =>
      Goto(n, h, Refused(ReplicationFailed(n.handlers[h].phase.w)))
    case Advance(h) =>
      var w := n.handlers[h].req.w;
      Goto(n, h, Advanced(w)).(clock := AdvancedClock(n.clock, w.Ts()), ticks := n.ticks + [Peer(h, w.Ts())])
    case Commit(h) =>
      var w := n.handlers[h].phase.w;
      Goto(n, h, Committed(w)).(
        store := Apply(n.store, w),
        hist := n.hist + [Event(h, w, n.handlers[h].req.ApplyReq?)])
    case Release(h) =>
      var phase := n.handlers[h].phase;
      Goto(n, h, Done(if phase.Committed? then Ok(phase.w) else Err(phase.why))).(
        locks := n.locks - {n.handlers[h].req.Table()})
  }

  // ---------- Invariant ----------

  function Writes(hist: seq<Event>): seq<Write> {
    seq(|hist|, i requires 0 <= i < |hist| => hist[i].w)
  }

  /** The lock table and the handlers' phases agree: one holder per table, and only
      handlers between acquire and release hold anything. */
  ghost predicate LocksOk(n: Node) {
    && (forall h | h in n.handlers && n.handlers[h].phase.HoldsLock() ::
          n.handlers[h].req.Table() in n.locks && n.locks[n.handlers[h].req.Table()] == h)
    && (forall t | t in n.locks ::
          && n.locks[t] in n.handlers
          && n.handlers[n.locks[t]].phase.HoldsLock()
          && n.handlers[n.locks[t]].req.Table() == t)
  }

  /** `w` is what request `req` asks for. */
  ghost predicate Matches(cfg: Config, req: Request, w: Write) {
    && w.key == KeyOf(cfg, req)
    && match req
       case BookReq(t, d, s, customer, party, contact) =>
         && w.op.Book?
         && w.rec ==
             Record(cfg.restaurant, t, d, s, customer, party.GetOr(1), contact.GetOr(""), w.rec.createdAt, w.Ts())
       case CancelReq(_, _, _) => w.op.Cancel?
       case ApplyReq(w0) => w == w0
  }

  /** `w` is newer than everything written on its table. */
  ghost predicate NewestOnTable(hist: seq<Event>, w: Write) {
    forall e | e in hist && e.w.key.table == w.key.table :: e.w.Ts() < w.Ts()
  }

  /** What a handler that holds the lock may rely on. */
  ghost predicate PhaseOk(n: Node, h: Hid)
    requires h in n.handlers
  {
    var Handler(req, phase, _) := n.handlers[h];
    var key := KeyOf(n.cfg, req);
    match phase
    case Waiting => true
    case Locked => true
    case Checked(snapshot) =>
      && !req.ApplyReq?
      && (req.BookReq? ==> key !in n.store && snapshot.None?)
      && (req.CancelReq? ==> key in n.store && snapshot == Some(n.store[key]))
    case Advanced(w) => req == ApplyReq(w) && w.Ts() < n.clock
    case Committed(w) =>
      && Matches(n.cfg, req, w)
      && Event(h, w, req.ApplyReq?) in n.hist
      && (!req.ApplyReq? ==> forall e | e in n.hist && e.w.key.table == w.key.table :: e.w.Ts() < w.Ts() || e.h == h)
    case Done(Ok(w)) =>
      && Matches(n.cfg, req, w)
      && Event(h, w, req.ApplyReq?) in n.hist
    case Done(Err(ReplicationFailed(w))) => !req.ApplyReq? && Matches(n.cfg, req, w)
    case Done(_) => true
    case Refused(ReplicationFailed(w)) => !req.ApplyReq? && Matches(n.cfg, req, w)
    case Refused(_) => !req.ApplyReq?
    case _ =>  // Stamped, Sent, Acked
      && !req.ApplyReq?
      && Matches(n.cfg, req, phase.w)
      && (req.BookReq? <==> phase.w.key !in n.store)
      && NewestOnTable(n.hist, phase.w)
  }

  ghost predicate PhasesOk(n: Node) {
    forall h | h in n.handlers :: PhaseOk(n, h)
  }

  ghost predicate HasStamp(n: Node, h: Hid, ts: int) {
    && h in n.handlers
    && !n.handlers[h].req.ApplyReq?
    && n.handlers[h].phase.Stamp().Some?
    && n.handlers[h].phase.Stamp().value.Ts() == ts
  }

  /** Client handlers never share a timestamp, and none is ahead of the clock. */
  ghost predicate StampsOk(n: Node) {
    && (forall h, ts | HasStamp(n, h, ts) :: ts <= n.clock)
    && (forall g, h, ts | g != h && HasStamp(n, g, ts) :: !HasStamp(n, h, ts))
  }

  /** A local booking found its key free and a local cancellation found it taken. */
  ghost predicate LegalHist(hist: seq<Event>) {
    forall i | 0 <= i < |hist| && !hist[i].remote ::
      hist[i].w.op.Book? <==> hist[i].w.key !in Replay(Writes(hist)[..i])
  }

  /** On each table, a local write is newer than everything written before it. */
  ghost predicate LocalsAscend(hist: seq<Event>) {
    forall i, j | 0 <= i < j < |hist| && !hist[j].remote && hist[i].w.key.table == hist[j].w.key.table ::
      hist[i].w.Ts() < hist[j].w.Ts()
  }

  ghost predicate EventOk(n: Node, e: Event) {
    && e.h in n.handlers
    && n.handlers[e.h].phase.Wrote(e.w)
    && e.remote == n.handlers[e.h].req.ApplyReq?
    && Matches(n.cfg, n.handlers[e.h].req, e.w)
    && e.w.Ts() <= n.clock
    && (e.remote ==> e.w.Ts() < n.clock)
  }

  ghost predicate HistOk(n: Node) {
    && n.store == Replay(Writes(n.hist))
    && (forall e | e in n.hist :: EventOk(n, e))
    && (forall i, j | 0 <= i < j < |n.hist| :: n.hist[i].h != n.hist[j].h)
    && LegalHist(n.hist)
    && LocalsAscend(n.hist)
  }

  ghost predicate NodeInv(n: Node) {
    LocksOk(n) && PhasesOk(n) && StampsOk(n) && HistOk(n)
  }

  lemma InitNodeInv(cfg: Config)
    ensures NodeInv(InitNode(cfg))
  {
  }

  /** The handler a step belongs to takes its lock, drops it, or leaves the lock table alone. */
  ghost predicate LockMove(n: Node, n': Node, h: Hid, x: Handler) {
    var held := h in n.handlers && n.handlers[h].phase.HoldsLock();
    || (n'.locks == n.locks && x.phase.HoldsLock() == held)
    || (!held && x.phase.HoldsLock() && x.req.Table() !in n.locks && n'.locks == n.locks[x.req.Table() := h])
    || (held && !x.phase.HoldsLock() && n'.locks == n.locks - {x.req.Table()})
  }

  /** A step changes one handler, never its request, and never turns the clock back. */
  ghost predicate Touches(n: Node, n': Node, h: Hid, x: Handler) {
    && n'.cfg == n.cfg
    && n'.handlers == n.handlers[h := x]
    && (h in n.handlers ==> x.req == n.handlers[h].req && x.since == n.handlers[h].since)
    && n.clock <= n'.clock
  }

  lemma StepTouches(n: Node, a: Act)
    requires Enabled(n, a)
    ensures a.h in Next(n, a).handlers
    ensures Touches(n, Next(n, a), a.h, Next(n, a).handlers[a.h])
    ensures !a.Commit? ==> Next(n, a).hist == n.hist && Next(n, a).store == n.store
    ensures !a.Start? ==> a.h in n.handlers
  {
  }

  lemma StepMovesLock(n: Node, a: Act)
    requires Enabled(n, a)
    ensures LockMove(n, Next(n, a), a.h, Next(n, a).handlers[a.h])
  {
  }

  lemma LocksKept(n: Node, n': Node, h: Hid, x: Handler)
    requires LocksOk(n) && Touches(n, n', h, x) && LockMove(n, n', h, x)
    ensures LocksOk(n')
  {
  }

  /** A client handler keeps its stamp; a new stamp is the new clock value. */
  ghost predicate StampMove(n: Node, n': Node, h: Hid) {
    forall ts | HasStamp(n', h, ts) :: HasStamp(n, h, ts) || ts == n.clock + 1 == n'.clock
  }

  lemma StepMovesStamp(n: Node, a: Act)
    requires Enabled(n, a)
    requires a.h in n.handlers ==> PhaseOk(n, a.h)
    ensures StampMove(n, Next(n, a), a.h)
  {
  }

  lemma StampsKept(n: Node, n': Node, h: Hid, x: Handler)
    requires StampsOk(n) && Touches(n, n', h, x) && StampMove(n, n', h)
    ensures StampsOk(n')
  {
    forall g, ts | HasStamp(n', g, ts) ensures ts <= n'.clock {
      assert g == h || HasStamp(n, g, ts);
    }
    forall f, g, ts | f != g && HasStamp(n', f, ts) ensures !HasStamp(n', g, ts) {
      assert f == h || HasStamp(n, f, ts);
      assert HasStamp(n', g, ts) && g != h ==> HasStamp(n, g, ts);
    }
  }

  lemma StepKeepsHist(n: Node, a: Act)
    requires NodeInv(n) && Enabled(n, a)
    ensures HistOk(Next(n, a))
  {
    var n' := Next(n, a);
    StepTouches(n, a);
    if a.Commit? {
      CommitKeepsHist(n, a.h);
    } else {
      if !a.Start? {
        StepKeepsWrote(n, a);
      }
      HistKept(n, n', a.h, n'.handlers[a.h]);
    }
  }

  /** Once a handler has written, it stays in a phase that says so. */
  lemma StepKeepsWrote(n: Node, a: Act)
    requires Enabled(n, a) && a.h in n.handlers
    ensures forall w | n.handlers[a.h].phase.Wrote(w) :: Next(n, a).handlers[a.h].phase.Wrote(w)
  {
  }

  lemma HistKept(n: Node, n': Node, h: Hid, x: Handler)
    requires HistOk(n) && Touches(n, n', h, x)
    requires n'.hist == n.hist && n'.store == n.store
    requires h in n.handlers ==> forall w | n.handlers[h].phase.Wrote(w) :: x.phase.Wrote(w)
    ensures HistOk(n')
  {
  }

  lemma WritesAppend(hist: seq<Event>, e: Event)
    ensures Writes(hist + [e]) == Writes(hist) + [e.w]
    ensures Replay(Writes(hist + [e])) == Apply(Replay(Writes(hist)), e.w)
  {
  }

  lemma CommitKeepsHist(n: Node, h: Hid)
    requires NodeInv(n) && Enabled(n, Commit(h))
    ensures HistOk(Next(n, Commit(h)))
  {
    var n' := Next(n, Commit(h));
    var w := n.handlers[h].phase.w;
    var e := Event(h, w, n.handlers[h].req.ApplyReq?);
    assert PhaseOk(n, h);
    if !e.remote {
      assert HasStamp(n, h, w.Ts());
    }
    StepTouches(n, Commit(h));
    HistGrows(n, n', e, n'.handlers[h]);
  }

  /** What it takes to append an event. */
  lemma HistGrows(n: Node, n': Node, e: Event, x: Handler)
    requires HistOk(n) && Touches(n, n', e.h, x)
    requires n'.hist == n.hist + [e] && n'.store == Apply(n.store, e.w)
    requires e.h in n.handlers && forall w :: !n.handlers[e.h].phase.Wrote(w)
    requires EventOk(n', e)
    requires !e.remote ==> (e.w.op.Book? <==> e.w.key !in n.store) && NewestOnTable(n.hist, e.w)
    ensures HistOk(n')
  {
    WritesAppend(n.hist, e);
    forall x | x in n.hist ensures EventOk(n', x) {
      assert EventOk(n, x);
    }
    forall i | 0 <= i < |n.hist| ensures n.hist[i].h != e.h {
      assert EventOk(n, n.hist[i]);
    }
    assert Writes(n.hist)[..|n.hist|] == Writes(n.hist);
    forall i | 0 <= i <= |n.hist| ensures Writes(n'.hist)[..i] == Writes(n.hist)[..i] {
    }
    forall i | 0 <= i < |n.hist| && n.hist[i].w.key.table == e.w.key.table && !e.remote
      ensures n.hist[i].w.Ts() < e.w.Ts()
    {
      assert n.hist[i] in n.hist;
    }
  }

  lemma StepKeepsPhases(n: Node, a: Act)
    requires NodeInv(n) && Enabled(n, a)
    ensures PhasesOk(Next(n, a))
  {
    var n' := Next(n, a);
    forall g | g in n'.handlers ensures PhaseOk(n', g) {
      if g == a.h {
        OwnPhaseKept(n, a);
      } else {
        assert PhaseOk(n, g);
        OtherPhaseKept(n, a, g);
      }
    }
  }

  lemma OwnPhaseKept(n: Node, a: Act)
    requires NodeInv(n) && Enabled(n, a)
    ensures PhaseOk(Next(n, a), a.h)
  {
    if a.Stamp? {
      forall e | e in n.hist ensures e.w.Ts() < n.clock + 1 {
        assert EventOk(n, e);
      }
      assert PhaseOk(n, a.h);
      StampPhaseOk(n, a);
    } else if a.Commit? {
      assert PhaseOk(n, a.h);
      CommitPhaseOk(n, a);
    } else {
      assert a.h in n.handlers ==> PhaseOk(n, a.h);
      PlainPhaseOk(n, a);
    }
  }

  lemma StampPhaseOk(n: Node, a: Act)
    requires Enabled(n, a) && a.Stamp? && PhaseOk(n, a.h)
    requires forall e | e in n.hist :: e.w.Ts() < n.clock + 1
    ensures PhaseOk(Next(n, a), a.h)
  {
  }

  lemma CommitPhaseOk(n: Node, a: Act)
    requires Enabled(n, a) && a.Commit? && PhaseOk(n, a.h)
    ensures PhaseOk(Next(n, a), a.h)
  {
  }

  lemma PlainPhaseOk(n: Node, a: Act)
    requires Enabled(n, a) && !a.Stamp? && !a.Commit?
    requires a.h in n.handlers ==> PhaseOk(n, a.h)
    ensures PhaseOk(Next(n, a), a.h)
  {
  }

  lemma OtherPhaseKept(n: Node, a: Act, g: Hid)
    requires NodeInv(n) && Enabled(n, a)
    requires g in n.handlers && g != a.h
    ensures PhaseOk(Next(n, a), g)
  {
    var n' := Next(n, a);
    StepTouches(n, a);
    assert PhaseOk(n, g);
    if a.Commit? {
      var w := n.handlers[a.h].phase.w;
      assert PhaseOk(n, a.h);
      if n.handlers[g].phase.HoldsLock() {
        OtherHolderOtherTable(n, a.h, g);
      }
      BystanderOfCommit(n, n', a.h, g, n'.handlers[a.h], Event(a.h, w, n.handlers[a.h].req.ApplyReq?));
    } else {
      Bystander(n, n', a.h, g, n'.handlers[a.h]);
    }
  }

  lemma OtherHolderOtherTable(n: Node, g: Hid, h: Hid)
    requires LocksOk(n) && g != h
    requires g in n.handlers && n.handlers[g].phase.HoldsLock()
    requires h in n.handlers && n.handlers[h].phase.HoldsLock()
    ensures n.handlers[g].req.Table() != n.handlers[h].req.Table()
  {
  }

  lemma Bystander(n: Node, n': Node, h: Hid, g: Hid, x: Handler)
    requires Touches(n, n', h, x) && g != h
    requires n'.hist == n.hist && n'.store == n.store
    requires g in n.handlers && PhaseOk(n, g)
    ensures PhaseOk(n', g)
  {
  }

  lemma BystanderOfCommit(n: Node, n': Node, h: Hid, g: Hid, x: Handler, e: Event)
    requires Touches(n, n', h, x) && g != h
    requires n'.hist == n.hist + [e] && n'.store == Apply(n.store, e.w)
    requires g in n.handlers && PhaseOk(n, g)
    requires n.handlers[g].phase.HoldsLock() ==> n.handlers[g].req.Table() != e.w.key.table
    ensures PhaseOk(n', g)
  {
  }

  /** Every step of any handler keeps the node invariant. */
  lemma StepKeepsNodeInv(n: Node, a: Act)
    requires NodeInv(n) && Enabled(n, a)
    ensures NodeInv(Next(n, a))
  {
    var n' := Next(n, a);
    StepTouches(n, a);
    StepMovesLock(n, a);
    LocksKept(n, n', a.h, n'.handlers[a.h]);
    StepMovesStamp(n, a);
    StampsKept(n, n', a.h, n'.handlers[a.h]);
    StepKeepsHist(n, a);
    StepKeepsPhases(n, a);
  }
}
