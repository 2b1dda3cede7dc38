/** Where the system's claims stop: runs that show which assumptions cannot be dropped. */
module Limits {
  import opened Records
  import opened NodeModel
  import opened SystemModel
  import opened NodeScripts

  ghost predicate Reached(cfg: Config, s: System, failStop: bool) {
    if failStop then ReachableFailStop(cfg, s) else Reachable(cfg, s)
  }

  lemma DoAny(cfg: Config, s: System, m: Move)
    requires Reachable(cfg, s) && CanMove(s, m)
    ensures Reachable(cfg, Moved(s, m))
  {
    var states, moves :| IsRun(cfg, states, moves) && states[|moves|] == s;
    var more := states + [Moved(s, m)];
    assert IsRun(cfg, more, moves + [m]);
    assert more[|moves + [m]|] == Moved(s, m);
  }

  lemma DoFailStop(cfg: Config, s: System, m: Move)
    requires ReachableFailStop(cfg, s) && CanMove(s, m) && FailStop(s, m)
    ensures ReachableFailStop(cfg, Moved(s, m))
  {
    var states, moves :| IsFailStopRun(cfg, states, moves) && states[|moves|] == s;
    var more := states + [Moved(s, m)];
    assert IsFailStopRun(cfg, more, moves + [m]);
    assert more[|moves + [m]|] == Moved(s, m);
  }

  /** One more move of a run. */
  lemma Do(cfg: Config, s: System, failStop: bool, m: Move) returns (s': System)
    requires Reached(cfg, s, failStop) && CanMove(s, m) && (failStop ==> FailStop(s, m))
    ensures s' == Moved(s, m) && Reached(cfg, s', failStop)
  {
    s' := Moved(s, m);
    if failStop {
      DoFailStop(cfg, s, m);
    } else {
      DoAny(cfg, s, m);
    }
  }

  lemma Begin(cfg: Config, failStop: bool)
    ensures Reached(cfg, Init(cfg), failStop)
  {
    var none: seq<Move> := [];
    assert IsFailStopRun(cfg, [Init(cfg)], none);
    assert IsRun(cfg, [Init(cfg)], none);
    assert [Init(cfg)][|none|] == Init(cfg);
  }

  predicate Fresh(s: System, h: Hid) {
    h !in s.p.handlers && h !in s.b.handlers && h !in s.net && h !in s.lost
  }

  /** The request can run on the primary at once, and finds its key as it needs it. */
  predicate Ready(s: System, h: Hid, req: Request) {
    && !s.crashed && Fresh(s, h) && !req.ApplyReq?
    && s.p.cfg == s.b.cfg && req.Table() in s.p.cfg.tables
    && req.Table() !in s.p.locks && req.Table() !in s.b.locks
    && (req.BookReq? <==> KeyOf(s.p.cfg, req) !in s.p.store)
  }

  lemma StartsAndChecks(cfg: Config, s: System, failStop: bool, backup: bool, h: Hid, req: Request) returns (s': System)
    requires Reached(cfg, s, failStop) && (backup && failStop ==> s.crashed) && (!backup ==> !s.crashed)
    requires h !in s.p.handlers && h !in s.b.handlers && !req.ApplyReq?
    requires var n := if backup then s.b else s.p;
             && req.Table() in n.cfg.tables && req.Table() !in n.locks
             && (req.BookReq? <==> KeyOf(n.cfg, req) !in n.store)
    ensures Reached(cfg, s', failStop)
    ensures var n := if backup then s.b else s.p;
            var snapshot := if req.BookReq? then None else Some(n.store[KeyOf(n.cfg, req)]);
            var n' := n.(handlers := n.handlers[h := Handler(req, Checked(snapshot), |s.acks|)],
                         locks := n.locks[req.Table() := h]);
            s' == if backup then s.(b := n') else s.(p := n')
  {
    ReachesChecked(if backup then s.b else s.p, h, req, |s.acks|);
    if backup {
      var s1 := Do(cfg, s, failStop, BStart(h, req));
      var s2 := Do(cfg, s1, failStop, BStep(Acquire(h)));
      s' := Do(cfg, s2, failStop, BStep(Check(h)));
    } else {
      var s1 := Do(cfg, s, failStop, PStart(h, req));
      var s2 := Do(cfg, s1, failStop, PStep(Acquire(h)));
      s' := Do(cfg, s2, failStop, PStep(Check(h)));
    }
  }

  /** The primary has sent its message for the write and waits. */
  lemma SendsWrite(cfg: Config, s: System, failStop: bool, h: Hid, req: Request) returns (s': System, w: Write)
    requires Reached(cfg, s, failStop) && Ready(s, h, req)
    ensures Reached(cfg, s', failStop)
    ensures w.key == KeyOf(s.p.cfg, req) && w.op == if req.BookReq? then Book else Cancel
    ensures s'.b == s.b && s'.acks == s.acks && s'.lost == s.lost && s'.crashed == s.crashed
    ensures s'.net == s.net[h := w] && w.Ts() == s.p.clock + 1 == s'.p.clock
    ensures s'.p.store == s.p.store && s'.p.cfg == s.p.cfg && s'.p.locks == s.p.locks[req.Table() := h]
    ensures s'.p.handlers == s.p.handlers[h := Handler(req, Sent(w), |s.acks|)]
  {
    var s3 := StartsAndChecks(cfg, s, failStop, false, h, req);
    var n4; n4, w := DrawsStamp(s3.p, h, 0.0);
    var s4 := Do(cfg, s3, failStop, PStep(Act.Stamp(h, 0.0)));
    assert s4.p == n4;
    s' := Do(cfg, s4, failStop, PSend(h));
  }

  lemma DeliversAndLocks(cfg: Config, s: System, failStop: bool, h: Hid, w: Write) returns (s': System)
    requires Reached(cfg, s, failStop)
    requires h in s.net && s.net[h] == w && h !in s.lost && h !in s.b.handlers
    requires w.key.table in s.b.cfg.tables && w.key.table !in s.b.locks
    ensures Reached(cfg, s', failStop)
    ensures s' == s.(b := s.b.(handlers := s.b.handlers[h := Handler(ApplyReq(w), Locked, |s.acks|)],
                               locks := s.b.locks[w.key.table := h]))
  {
    AppliesMessage(s.b, h, w, |s.acks|);
    var s1 := Do(cfg, s, failStop, Deliver(h));
    s' := Do(cfg, s1, failStop, BStep(Acquire(h)));
  }

  lemma AppliesAndReplies(cfg: Config, s: System, failStop: bool, h: Hid) returns (s': System)
    requires Reached(cfg, s, failStop)
    requires h in s.b.handlers && s.b.handlers[h].req.ApplyReq? && s.b.handlers[h].phase.Locked?
    ensures Reached(cfg, s', failStop)
    ensures var w := s.b.handlers[h].req.w;
            && s'.p == s.p && s'.acks == s.acks && s'.lost == s.lost && s'.crashed == s.crashed && s'.net == s.net
            && s'.b.store == Apply(s.b.store, w) && s'.b.cfg == s.b.cfg && s'.b.locks == s.b.locks - {w.key.table}
            && s'.b.handlers == s.b.handlers[h := s.b.handlers[h].(phase := Done(Ok(w)))]
  {
    FinishesMessage(s.b, h);
    var s1 := Do(cfg, s, failStop, BStep(Advance(h)));
    var s2 := Do(cfg, s1, failStop, BStep(Commit(h)));
    s' := Do(cfg, s2, failStop, BRelease(h));
  }

  /** The backup receives and applies the message. */
  lemma AppliesWrite(cfg: Config, s: System, failStop: bool, h: Hid, w: Write) returns (s': System)
    requires Reached(cfg, s, failStop)
    requires h in s.net && s.net[h] == w && h !in s.lost && h !in s.b.handlers
    requires w.key.table in s.b.cfg.tables && w.key.table !in s.b.locks
    ensures Reached(cfg, s', failStop)
    ensures s'.p == s.p && s'.acks == s.acks && s'.lost == s.lost && s'.crashed == s.crashed && s'.net == s.net
    ensures s'.b.store == Apply(s.b.store, w) && s'.b.cfg == s.b.cfg && s'.b.locks == s.b.locks
    ensures s'.b.handlers == s.b.handlers[h := Handler(ApplyReq(w), Done(Ok(w)), |s.acks|)]
  {
    var s1 := DeliversAndLocks(cfg, s, failStop, h, w);
    s' := AppliesAndReplies(cfg, s1, failStop, h);
    assert s1.b.locks - {w.key.table} == s.b.locks;
  }

  lemma FinishesAt(cfg: Config, s: System, failStop: bool, backup: bool, h: Hid) returns (s': System)
    requires Reached(cfg, s, failStop) && (!backup ==> !s.crashed)
    requires var n := if backup then s.b else s.p;
             h in n.handlers && n.handlers[h].phase.Acked? && !n.handlers[h].req.ApplyReq?
    ensures Reached(cfg, s', failStop)
    ensures var n, n' := if backup then s.b else s.p, if backup then s'.b else s'.p;
            var w := n.handlers[h].phase.w;
            && n'.store == Apply(n.store, w) && n'.cfg == n.cfg && n'.locks == n.locks - {n.handlers[h].req.Table()}
            && n'.handlers.Keys == n.handlers.Keys
            && s'.acks == s.acks + [Ack(backup, h, w)]
            && (if backup then s'.p == s.p else s'.b == s.b)
            && s'.net == s.net && s'.lost == s.lost && s'.crashed == s.crashed && s'.promoted == s.promoted
  {
    Finishes(if backup then s.b else s.p, h);
    if backup {
      var s1 := Do(cfg, s, failStop, BStep(Commit(h)));
      s' := Do(cfg, s1, failStop, BRelease(h));
    } else {
      var s1 := Do(cfg, s, failStop, PStep(Commit(h)));
      s' := Do(cfg, s1, failStop, PRelease(h));
    }
  }

  /** A request executed on the primary with its replication acknowledged. */
  lemma Succeeds(cfg: Config, s: System, failStop: bool, h: Hid, req: Request) returns (s': System, w: Write)
    requires Reached(cfg, s, failStop) && Ready(s, h, req)
    ensures Reached(cfg, s', failStop)
    ensures w.key == KeyOf(s.p.cfg, req) && w.op == if req.BookReq? then Book else Cancel
    ensures s'.acks == s.acks + [Ack(false, h, w)]
    ensures s'.p.store == Apply(s.p.store, w) && s'.b.store == Apply(s.b.store, w)
    ensures s'.p.locks == s.p.locks && s'.b.locks == s.b.locks && s'.lost == s.lost && s'.crashed == s.crashed
    ensures s'.p.cfg == s.p.cfg && s'.b.cfg == s.b.cfg
    ensures s'.p.handlers.Keys == s.p.handlers.Keys + {h} && s'.b.handlers.Keys == s.b.handlers.Keys + {h}
    ensures s'.net == s.net[h := w] && w.Ts() == s.p.clock + 1
  {
    var s1; s1, w := SendsWrite(cfg, s, failStop, h, req);
    var s2 := AppliesWrite(cfg, s1, failStop, h, w);
    var s3 := Do(cfg, s2, failStop, PAck(h));
    assert s3.p == Goto(s2.p, h, Acked(w));
    s' := FinishesAt(cfg, s3, failStop, false, h);
    assert s'.p.locks == s.p.locks;
  }

  /** The same with the reply lost: the primary reports failure and keeps its dictionary,
      the backup has applied the write. */
  lemma LosesReply(cfg: Config, s: System, failStop: bool, h: Hid, req: Request) returns (s': System, w: Write)
    requires Reached(cfg, s, failStop) && Ready(s, h, req)
    ensures Reached(cfg, s', failStop)
    ensures w.key == KeyOf(s.p.cfg, req) && w.op == if req.BookReq? then Book else Cancel
    ensures s'.acks == s.acks && s'.p.store == s.p.store && s'.b.store == Apply(s.b.store, w)
    ensures s'.p.locks == s.p.locks && s'.crashed == s.crashed
  {
    var s1; s1, w := SendsWrite(cfg, s, failStop, h, req);
    var s2 := AppliesWrite(cfg, s1, failStop, h, w);
    s' := GivesUpOn(cfg, s2, failStop, h);
    assert s'.p.locks == s.p.locks;
  }

  lemma GivesUpOn(cfg: Config, s: System, failStop: bool, h: Hid) returns (s': System)
    requires Reached(cfg, s, failStop) && !s.crashed
    requires h in s.p.handlers && s.p.handlers[h].phase.Sent? && !s.p.handlers[h].req.ApplyReq?
    ensures Reached(cfg, s', failStop)
    ensures s' == s.(p := s'.p)
    ensures s'.p.store == s.p.store && s'.p.cfg == s.p.cfg && s'.p.clock == s.p.clock
    ensures s'.p.locks == s.p.locks - {s.p.handlers[h].req.Table()}
    ensures s'.p.handlers.Keys == s.p.handlers.Keys
  {
    var s1 := Do(cfg, s, failStop, PFail(h, true));
    s' := Do(cfg, s1, failStop, PRelease(h));
  }

  /** The unconditional claim "every confirmed reservation exists on both nodes" is false: a
      cancellation whose reply is lost leaves a confirmed reservation on the primary alone. */
  lemma ConfirmedReservationCanBeMissing(cfg: Config, book: Request, cancel: Request) returns (s: System)
    requires book.BookReq? && cancel.CancelReq? && book.table in cfg.tables
    requires KeyOf(cfg, book) == KeyOf(cfg, cancel)
    ensures ReachableFailStop(cfg, s) && !s.crashed && s.p.locks == map[]
    ensures KeyOf(cfg, book) in s.p.store && KeyOf(cfg, book) !in s.b.store
    ensures |s.acks| == 1 && s.acks[0].w.op.Book? && s.acks[0].w.key == KeyOf(cfg, book)
  {
    Begin(cfg, true);
    var s1, w1 := Succeeds(cfg, Init(cfg), true, 1, book);
    var w2;
    s, w2 := LosesReply(cfg, s1, true, 2, cancel);
  }

  /** The backup serves a booking of its own. */
  lemma BackupBooks(cfg: Config, s: System, failStop: bool, h: Hid, req: Request) returns (s': System, w: Write)
    requires Reached(cfg, s, failStop) && Fresh(s, h) && (failStop ==> s.crashed)
    requires req.BookReq? && req.table in s.b.cfg.tables && req.table !in s.b.locks
    requires KeyOf(s.b.cfg, req) !in s.b.store
    ensures Reached(cfg, s', failStop)
    ensures w.op.Book? && w.key == KeyOf(s.b.cfg, req)
    ensures s'.acks == s.acks + [Ack(true, h, w)]
    ensures s'.p == s.p && s'.net == s.net && s'.lost == s.lost
    ensures s'.crashed == s.crashed && s'.promoted == s.promoted
    ensures s'.b.locks == s.b.locks && s'.b.cfg == s.b.cfg && s'.b.handlers.Keys == s.b.handlers.Keys + {h}
  {
    var s3 := StartsAndChecks(cfg, s, failStop, true, h, req);
    var s5; s5, w := BackupStamps(cfg, s3, failStop, h);
    s' := FinishesAt(cfg, s5, failStop, true, h);
    assert s'.b.locks == s.b.locks;
  }

  lemma BackupStamps(cfg: Config, s: System, failStop: bool, h: Hid) returns (s': System, w: Write)
    requires Reached(cfg, s, failStop)
    requires h in s.b.handlers && s.b.handlers[h].phase.Checked? && s.b.handlers[h].req.BookReq?
    ensures Reached(cfg, s', failStop)
    ensures w.op.Book? && w.key == KeyOf(s.b.cfg, s.b.handlers[h].req)
    ensures s' == s.(b := s'.b)
    ensures s'.b.cfg == s.b.cfg && s'.b.locks == s.b.locks && s'.b.store == s.b.store
    ensures s'.b.handlers == s.b.handlers[h := s.b.handlers[h].(phase := Acked(w))]
  {
    var n1; n1, w := DrawsStamp(s.b, h, 0.0);
    var s1 := Do(cfg, s, failStop, BStep(Act.Stamp(h, 0.0)));
    assert s1.b == n1;
    s' := Do(cfg, s1, failStop, BStep(NoReplica(h)));
    assert s'.b == Goto(s1.b, h, Acked(w));
  }

  /** The backup applies the request's write, then the primary crashes before it hears of that, and
      the backup is promoted. */
  lemma CrashesUnconfirmed(cfg: Config, s: System, h: Hid, req: Request) returns (s': System, w: Write)
    requires ReachableFailStop(cfg, s) && Ready(s, h, req)
    ensures ReachableFailStop(cfg, s') && s'.crashed && s'.promoted
    ensures w.key == KeyOf(s.p.cfg, req) && w.op == if req.BookReq? then Book else Cancel
    ensures s'.acks == s.acks && s'.b.store == Apply(s.b.store, w) && s'.b.locks == s.b.locks && s'.b.cfg == s.b.cfg
    ensures s'.p.handlers.Keys == s.p.handlers.Keys + {h} && s'.b.handlers.Keys == s.b.handlers.Keys + {h}
    ensures s'.net.Keys == s.net.Keys + {h} && s'.lost == s.lost
  {
    var s1; s1, w := SendsWrite(cfg, s, true, h, req);
    var s2 := AppliesWrite(cfg, s1, true, h, w);
    var s3 := Do(cfg, s2, true, Crash);
    s' := s3;
    if !s3.promoted {
      s' := Do(cfg, s3, true, Promote);
    }
  }

  /** The claim "no double bookings" is false even under fail-stop: an acknowledged booking, a cancellation
      the backup applied but the primary never confirmed before it crashed, and an acknowledged
      booking of the same key on the backup.  Nobody was told that the first was cancelled. */
  lemma DoubleBookingUnderFailStop(cfg: Config, book: Request, cancel: Request, again: Request) returns (s: System)
    requires book.BookReq? && cancel.CancelReq? && again.BookReq? && book.table in cfg.tables
    requires KeyOf(cfg, book) == KeyOf(cfg, cancel) == KeyOf(cfg, again)
    ensures ReachableFailStop(cfg, s) && s.promoted
    ensures |s.acks| == 2 && s.acks[0].w.op.Book? && s.acks[1].w.op.Book?
    ensures s.acks[0].w.key == s.acks[1].w.key == KeyOf(cfg, book)
  {
    Begin(cfg, true);
    var s1, w1 := Succeeds(cfg, Init(cfg), true, 1, book);
    var s2, w2 := CrashesUnconfirmed(cfg, s1, 2, cancel);
    var w3;
    s, w3 := BackupBooks(cfg, s2, true, 3, again);
  }

  /** Fail-stop cannot be dropped: with a live primary and a backup that takes a client's
      request (a gateway timeout is enough), one key gets two acknowledged bookings and no
      cancellation, and the backup does not notice. */
  lemma SplitBrainDoubleBooks(cfg: Config, req: Request) returns (s: System)
    requires req.BookReq? && req.table in cfg.tables
    ensures Reachable(cfg, s) && !s.crashed
    ensures |s.acks| == 2 && s.acks[0].w.op.Book? && s.acks[1].w.op.Book?
    ensures s.acks[0].w.key == s.acks[1].w.key == KeyOf(cfg, req)
    ensures s.acks[0].backup && !s.acks[1].backup
  {
    Begin(cfg, false);
    var s1, w1 := BackupBooks(cfg, Init(cfg), false, 1, req);
    var w2;
    s, w2 := Succeeds(cfg, s1, false, 2, req);
  }

  /** No bound on how late a message may arrive: a booking abandoned by the primary can
      overwrite, on the backup, the record of a later confirmed booking. */
  lemma LateMessageOverwrites(cfg: Config, req: Request) returns (s: System)
    requires req.BookReq? && req.table in cfg.tables
    ensures ReachableFailStop(cfg, s) && !s.crashed && s.p.locks == map[]
    ensures KeyOf(cfg, req) in s.p.store && KeyOf(cfg, req) in s.b.store
    ensures s.p.store[KeyOf(cfg, req)] != s.b.store[KeyOf(cfg, req)]
    ensures |s.acks| == 1
  {
    Begin(cfg, true);
    var s1, w1 := SendsWrite(cfg, Init(cfg), true, 1, req);
    var s3 := GivesUpOn(cfg, s1, true, 1);
    assert s3.p.locks == map[];
    var s4, w2 := Succeeds(cfg, s3, true, 2, req);
    s := AppliesWrite(cfg, s4, true, 1, w1);
    assert w1.Ts() < w2.Ts();
    RecordsHeld(cfg, s, KeyOf(cfg, req), w1, w2);
  }

  lemma RecordsHeld(cfg: Config, s: System, k: Key, w1: Write, w2: Write)
    requires w1.op.Book? && w2.op.Book? && w1.key == w2.key == k && w1.Ts() < w2.Ts()
    requires Lookup(s.p.store, k) == w2.Effect() && Lookup(s.b.store, k) == w1.Effect()
    ensures k in s.p.store && k in s.b.store && s.p.store[k] != s.b.store[k]
  {
  }

  lemma LosesMessage(cfg: Config, s: System, h: Hid) returns (s': System)
    requires ReachableFailStop(cfg, s) && !s.crashed && Undelivered(s, h)
    requires h in s.p.handlers && s.p.handlers[h].phase.Sent? && !s.p.handlers[h].req.ApplyReq?
    ensures ReachableFailStop(cfg, s')
    ensures s' == s.(p := s'.p, lost := s.lost + {h})
    ensures s'.p.store == s.p.store && s'.p.cfg == s.p.cfg && s'.p.clock == s.p.clock
    ensures s'.p.locks == s.p.locks - {s.p.handlers[h].req.Table()}
    ensures s'.p.handlers.Keys == s.p.handlers.Keys
  {
    var s1 := Do(cfg, s, true, Lose(h));
    var s2 := Do(cfg, s1, true, PFail(h, false));
    s' := Do(cfg, s2, true, PRelease(h));
  }

  /** A lost message costs a refused request and one timestamp: the primary learns of the failure without
      its reply wait running out, nothing is stored, and the same request then succeeds on both nodes. */
  lemma LostMessageIsHarmless(cfg: Config, req: Request) returns (s: System, w: Write)
    requires req.BookReq? && req.table in cfg.tables
    ensures ReachableFailStop(cfg, s) && !s.crashed && s.p.locks == map[]
    ensures s.acks == [Ack(false, 2, w)] && w.Ts() == 2
    ensures s.p.store == s.b.store == map[KeyOf(cfg, req) := w.rec]
  {
    Begin(cfg, true);
    var s1, w1 := SendsWrite(cfg, Init(cfg), true, 1, req);
    var s2 := LosesMessage(cfg, s1, 1);
    assert s2.p.locks == map[];
    s, w := Succeeds(cfg, s2, true, 2, req);
  }
}
