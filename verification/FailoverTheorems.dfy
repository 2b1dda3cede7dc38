/** The promises across both nodes: agreement of the replicas, preservation of the serial
    history by a failover, timestamps that extend real time, and no double booking.
*/
module FailoverTheorems {
  import opened Records
  import opened NodeModel
  import opened NodeTheorems
  import opened SystemModel
  import opened FailStopModel

  /** The primary told its client that this write succeeded. */
  predicate Confirmed(s: System, h: Hid) {
    h in s.p.handlers && s.p.handlers[h].phase.Done? && s.p.handlers[h].phase.outcome.Ok?
  }

  /** The last thing the backup did to the key was to apply a replicated write that the
      primary never confirmed: its reply was lost or late, or the primary crashed first. */
  ghost predicate InDoubt(s: System, k: Key) {
    exists i :: IsLastOn(Writes(s.b.hist), k, i) && s.b.hist[i].remote && !Confirmed(s, s.b.hist[i].h)
  }

  // ---------- Facts about the two histories ----------

  /** Two writes of one table in the backup's history are in timestamp order if each is the
      backup's own or confirmed by the primary. */
  lemma BackupOrder(cfg: Config, s: System, i: int, j: int)
    requires ReachableFailStop(cfg, s)
    requires 0 <= i < j < |s.b.hist|
    requires s.b.hist[i].w.key.table == s.b.hist[j].w.key.table
    requires s.b.hist[i].remote ==> Confirmed(s, s.b.hist[i].h)
    requires s.b.hist[j].remote ==> Confirmed(s, s.b.hist[j].h)
    ensures s.b.hist[i].w.Ts() < s.b.hist[j].w.Ts()
  {
    ReachableFailStopInv(cfg, s);
  }

  lemma PrimaryOrder(cfg: Config, s: System, x: int, y: int)
    requires Reachable(cfg, s)
    requires 0 <= x < y < |s.p.hist|
    requires s.p.hist[x].w.key.table == s.p.hist[y].w.key.table
    ensures s.p.hist[x].w.Ts() < s.p.hist[y].w.Ts()
  {
    ReachableSysInv(cfg, s);
    assert EventOk(s.p, s.p.hist[y]);
  }

  lemma FailStopIsReachable(cfg: Config, s: System)
    requires ReachableFailStop(cfg, s)
    ensures Reachable(cfg, s)
  {
  }

  /** Whatever the primary committed is in the backup's history, at position j. */
  lemma PrimaryEvent(cfg: Config, s: System, x: int) returns (j: int)
    requires Reachable(cfg, s)
    requires 0 <= x < |s.p.hist|
    ensures s.p.hist[x] == Event(s.p.hist[x].h, s.p.hist[x].w, false)
    ensures 0 <= j < |s.b.hist| && s.b.hist[j] == Event(s.p.hist[x].h, s.p.hist[x].w, true)
    ensures HasStamp(s.p, s.p.hist[x].h, s.p.hist[x].w.Ts())
    ensures s.p.hist[x].w.key.table !in s.p.locks ==> Confirmed(s, s.p.hist[x].h)
  {
    ReachableSysInv(cfg, s);
    var f := s.p.hist[x];
    CommittedIsStamped(s.p, f);
    SucceededInBackupHist(s, f.h);
    j :| 0 <= j < |s.b.hist| && s.b.hist[j] == Event(f.h, f.w, true);
  }

  /** Whatever the primary confirmed is in its own history and acknowledged. */
  lemma ConfirmedEvent(cfg: Config, s: System, i: int) returns (y: int)
    requires Reachable(cfg, s)
    requires 0 <= i < |s.b.hist| && s.b.hist[i].remote && Confirmed(s, s.b.hist[i].h)
    ensures 0 <= y < |s.p.hist| && s.p.hist[y] == Event(s.b.hist[i].h, s.b.hist[i].w, false)
    ensures Ack(false, s.b.hist[i].h, s.b.hist[i].w) in s.acks
  {
    ReachableSysInv(cfg, s);
    var e := s.b.hist[i];
    RemoteEventSender(s, e);
    assert PhaseOk(s.p, e.h);
    y :| 0 <= y < |s.p.hist| && s.p.hist[y] == Event(e.h, e.w, false);
  }

  lemma RemoteEvent(cfg: Config, s: System, i: int)
    requires Reachable(cfg, s)
    requires 0 <= i < |s.b.hist| && s.b.hist[i].remote
    ensures HasStamp(s.p, s.b.hist[i].h, s.b.hist[i].w.Ts())
  {
    ReachableSysInv(cfg, s);
    RemoteEventSender(s, s.b.hist[i]);
  }

  lemma StampsDiffer(cfg: Config, s: System, backup: bool, g: Hid, h: Hid, ts1: int, ts2: int)
    requires Reachable(cfg, s) && g != h
    requires var n := if backup then s.b else s.p; HasStamp(n, g, ts1) && HasStamp(n, h, ts2)
    ensures ts1 != ts2
  {
    ReachableSysInv(cfg, s);
  }

  lemma AckHolder(cfg: Config, s: System, m: int)
    requires Reachable(cfg, s)
    requires 0 <= m < |s.acks|
    ensures !s.acks[m].backup ==> Confirmed(s, s.acks[m].h)
    ensures HasStamp(if s.acks[m].backup then s.b else s.p, s.acks[m].h, s.acks[m].w.Ts())
  {
    ReachableSysInv(cfg, s);
    AckedIsDone(s, s.acks[m]);
  }

  lemma AckedIsDone(s: System, a: Ack)
    requires IdsOk(s) && IsAcked(s, a)
    ensures !a.backup ==> Confirmed(s, a.h)
    ensures HasStamp(if a.backup then s.b else s.p, a.h, a.w.Ts())
  {
  }

  lemma AckInHist(cfg: Config, s: System, m: int, inBackup: bool)
    requires Reachable(cfg, s)
    requires 0 <= m < |s.acks| && (s.acks[m].backup ==> inBackup)
    ensures Event(s.acks[m].h, s.acks[m].w, inBackup && !s.acks[m].backup) in (if inBackup then s.b else s.p).hist
  {
    ReachableSysInv(cfg, s);
    if inBackup {
      AckInBackupHist(s, s.acks[m]);
    } else {
      AckInPrimaryHist(s, s.acks[m]);
    }
  }

  /** Position of an acknowledged write in a history: the backup has them all. */
  lemma AckPosition(cfg: Config, s: System, m: int, inBackup: bool) returns (x: int)
    requires Reachable(cfg, s)
    requires 0 <= m < |s.acks| && (s.acks[m].backup ==> inBackup)
    ensures var n := if inBackup then s.b else s.p;
            0 <= x < |n.hist| && n.hist[x] == Event(s.acks[m].h, s.acks[m].w, inBackup && !s.acks[m].backup)
    ensures !s.acks[m].backup ==> Confirmed(s, s.acks[m].h)
    ensures HasStamp(if s.acks[m].backup then s.b else s.p, s.acks[m].h, s.acks[m].w.Ts())
  {
    AckHolder(cfg, s, m);
    AckInHist(cfg, s, m, inBackup);
    var hist := (if inBackup then s.b else s.p).hist;
    x :| 0 <= x < |hist| && hist[x] == Event(s.acks[m].h, s.acks[m].w, inBackup && !s.acks[m].backup);
  }

  lemma AckByTimestamp(cfg: Config, s: System, m: int, i: int)
    requires ReachableFailStop(cfg, s)
    requires 0 <= m < |s.acks| && 0 <= i < |s.acks|
    requires s.acks[m].w.key.table == s.acks[i].w.key.table
    ensures s.acks[m].w.Ts() < s.acks[i].w.Ts() <==> m < i
  {
    ReachableFailStopInv(cfg, s);
  }

  // ---------- Agreement of the replicas ----------

  lemma NewestAtBothNodes(cfg: Config, s: System, k: Key, i: int, x: int)
    requires ReachableFailStop(cfg, s)
    requires IsLastOn(Writes(s.b.hist), k, i) && s.b.hist[i].remote && Confirmed(s, s.b.hist[i].h)
    requires IsLastOn(Writes(s.p.hist), k, x) && k.table !in s.p.locks
    ensures s.p.hist[x].w == s.b.hist[i].w
  {
    FailStopIsReachable(cfg, s);
    var y := ConfirmedEvent(cfg, s, i);
    var j := PrimaryEvent(cfg, s, x);
    assert Writes(s.b.hist)[j].key == k && Writes(s.p.hist)[y].key == k;
    assert j <= i && y <= x;
    if j < i {
      BackupOrder(cfg, s, j, i);
    }
    if y < x {
      PrimaryOrder(cfg, s, y, x);
    }
  }

  lemma UntouchedAtBothNodes(cfg: Config, s: System, k: Key)
    requires Reachable(cfg, s) && Untouched(Writes(s.b.hist), k)
    ensures Untouched(Writes(s.p.hist), k)
  {
    forall x | 0 <= x < |s.p.hist| ensures s.p.hist[x].w.key != k {
      var j := PrimaryEvent(cfg, s, x);
      assert Writes(s.b.hist)[j] == s.p.hist[x].w;
    }
  }

  lemma AllRemoteBeforeCrash(cfg: Config, s: System, i: int)
    requires ReachableFailStop(cfg, s) && !s.crashed && 0 <= i < |s.b.hist|
    ensures s.b.hist[i].remote
  {
    ReachableFailStopInv(cfg, s);
    assert EventOk(s.b, s.b.hist[i]);
  }

  lemma StoresAreReplays(cfg: Config, s: System)
    requires Reachable(cfg, s)
    ensures s.p.store == Replay(Writes(s.p.hist)) && s.b.store == Replay(Writes(s.b.hist))
  {
    ReachableSysInv(cfg, s);
  }

  /** Replica agreement: before the crash, whatever was lost, delayed or retried, a key that
      is not in doubt has the same record on both nodes, or none on either.  The table must not
      be locked at the primary. */
  lemma ReplicasAgree(cfg: Config, s: System, k: Key)
    requires ReachableFailStop(cfg, s) && !s.crashed
    requires k.table !in s.p.locks && !InDoubt(s, k)
    ensures Lookup(s.p.store, k) == Lookup(s.b.store, k)
  {
    FailStopIsReachable(cfg, s);
    StoresAreReplays(cfg, s);
    var i := LastOrUntouched(Writes(s.b.hist), k);
    if i < 0 {
      UntouchedAtBothNodes(cfg, s, k);
      NeverWritten(Writes(s.b.hist), k);
      NeverWritten(Writes(s.p.hist), k);
    } else {
      AllRemoteBeforeCrash(cfg, s, i);
      var y := ConfirmedEvent(cfg, s, i);
      assert Writes(s.p.hist)[y].key == k;
      var x := LastOrUntouched(Writes(s.p.hist), k);
      NewestAtBothNodes(cfg, s, k, i, x);
      LastWriteWins(Writes(s.b.hist), k, i);
      LastWriteWins(Writes(s.p.hist), k, x);
    }
  }

  /** A key in doubt that the primary holds is missing from the backup or holds another record:
      timestamps tell the unconfirmed booking from the confirmed one. */
  lemma DoubtMeansDifferent(cfg: Config, s: System, k: Key)
    requires Reachable(cfg, s)
    requires k.table !in s.p.locks && k in s.p.store && InDoubt(s, k)
    ensures Lookup(s.b.store, k) != Some(s.p.store[k])
  {
    StoresAreReplays(cfg, s);
    var i :| IsLastOn(Writes(s.b.hist), k, i) && s.b.hist[i].remote && !Confirmed(s, s.b.hist[i].h);
    var x := LastOrUntouched(Writes(s.p.hist), k);
    if x < 0 {
      NeverWritten(Writes(s.p.hist), k);
    } else {
      LastWriteWins(Writes(s.b.hist), k, i);
      LastWriteWins(Writes(s.p.hist), k, x);
      RemoteEvent(cfg, s, i);
      var j := PrimaryEvent(cfg, s, x);
      StampsDiffer(cfg, s, false, s.b.hist[i].h, s.p.hist[x].h, s.b.hist[i].w.Ts(), s.p.hist[x].w.Ts());
    }
  }

  /** The exact condition for agreement on any key, held or not: outside doubt, or when the primary holds
      nothing and the doubtful write was a cancellation. */
  lemma ReplicasAgreeIff(cfg: Config, s: System, k: Key)
    requires ReachableFailStop(cfg, s) && !s.crashed && k.table !in s.p.locks
    ensures Lookup(s.p.store, k) == Lookup(s.b.store, k) <==>
            || !InDoubt(s, k)
            || (k !in s.p.store && exists i :: IsLastOn(Writes(s.b.hist), k, i) && s.b.hist[i].w.op.Cancel?)
  {
    FailStopIsReachable(cfg, s);
    StoresAreReplays(cfg, s);
    if !InDoubt(s, k) {
      ReplicasAgree(cfg, s, k);
    } else if k in s.p.store {
      DoubtMeansDifferent(cfg, s, k);
    } else {
      var i :| IsLastOn(Writes(s.b.hist), k, i) && s.b.hist[i].remote && !Confirmed(s, s.b.hist[i].h);
      LastWriteWins(Writes(s.b.hist), k, i);
    }
  }

  /** "Every confirmed reservation exists on both nodes" holds of a reservation exactly when
      its key is not in doubt. */
  lemma ConfirmedReservationOnBothIff(cfg: Config, s: System, k: Key)
    requires ReachableFailStop(cfg, s) && !s.crashed
    requires k.table !in s.p.locks && k in s.p.store
    ensures Lookup(s.b.store, k) == Some(s.p.store[k]) <==> !InDoubt(s, k)
  {
    FailStopIsReachable(cfg, s);
    if InDoubt(s, k) {
      DoubtMeansDifferent(cfg, s, k);
    } else {
      ReplicasAgree(cfg, s, k);
    }
  }

  // ---------- The serial history survives the failover ----------

  function AckedWrites(acks: seq<Ack>): seq<Write> {
    seq(|acks|, i requires 0 <= i < |acks| => acks[i].w)
  }

  /** The last write of a key in the backup's history, if it is the backup's own or confirmed,
      is the newest acknowledged write of that key. */
  lemma LastAckedIsNewest(cfg: Config, s: System, k: Key, i: int, m: int)
    requires ReachableFailStop(cfg, s)
    requires IsLastOn(Writes(s.b.hist), k, i)
    requires s.b.hist[i].remote ==> Confirmed(s, s.b.hist[i].h)
    requires 0 <= m < |s.acks| && s.acks[m].w.key == k && s.acks[m].w != s.b.hist[i].w
    ensures s.acks[m].w.Ts() < s.b.hist[i].w.Ts()
  {
    FailStopIsReachable(cfg, s);
    var j := AckPosition(cfg, s, m, true);
    assert Writes(s.b.hist)[j].key == k;
    assert j < i;
    BackupOrder(cfg, s, j, i);
  }

  lemma LastIsAcked(cfg: Config, s: System, k: Key, i: int)
    requires Reachable(cfg, s) && IsLastOn(Writes(s.b.hist), k, i)
    requires k.table !in s.b.locks && !InDoubt(s, k)
    ensures Ack(!s.b.hist[i].remote, s.b.hist[i].h, s.b.hist[i].w) in s.acks
    ensures s.b.hist[i].remote ==> Confirmed(s, s.b.hist[i].h)
  {
    if s.b.hist[i].remote {
      var y := ConfirmedEvent(cfg, s, i);
    } else {
      ReachableSysInv(cfg, s);
      assert EventOk(s.b, s.b.hist[i]);
    }
  }

  /** Failover preserves the serial history: in every state of a fail-stop run, before or after
      the crash and the promotion, what the backup holds for a key that is not in doubt is
      what the acknowledged writes of BOTH nodes leave when executed in timestamp order. */
  lemma FailoverPreservesHistory(cfg: Config, s: System, k: Key, sorted: seq<Write>)
    requires ReachableFailStop(cfg, s)
    requires k.table !in s.b.locks && !InDoubt(s, k)
    requires SortedByTs(sorted) && multiset(sorted) == multiset(AckedWrites(s.acks))
    ensures Lookup(s.b.store, k) == Lookup(Replay(sorted), k)
  {
    FailStopIsReachable(cfg, s);
    StoresAreReplays(cfg, s);
    var ws := AckedWrites(s.acks);
    var i := LastOrUntouched(Writes(s.b.hist), k);
    if i < 0 {
      NeverWritten(Writes(s.b.hist), k);
      forall m | 0 <= m < |ws| ensures ws[m].key != k {
        var j := AckPosition(cfg, s, m, true);
        assert Writes(s.b.hist)[j] == ws[m];
      }
      SortedReplayUntouched(ws, sorted, k);
    } else {
      var e := s.b.hist[i];
      LastWriteWins(Writes(s.b.hist), k, i);
      LastIsAcked(cfg, s, k, i);
      assert e.w in ws by {
        var m :| 0 <= m < |s.acks| && s.acks[m] == Ack(!e.remote, e.h, e.w);
        assert ws[m] == e.w;
      }
      forall w | w in ws && w.key == k && w != e.w ensures w.Ts() < e.w.Ts() {
        var m :| 0 <= m < |ws| && ws[m] == w;
        LastAckedIsNewest(cfg, s, k, i, m);
      }
      SortedReplayHoldsNewest(ws, sorted, k, e.w);
    }
  }

  /** Two requests book the same: same table, slot, customer, party and contact. */
  predicate SameBooking(r: Request, q: Request) {
    && r.BookReq? && q.BookReq?
    && r.table == q.table && r.date == q.date && r.timeslot == q.timeslot
    && r.customer == q.customer && r.party.GetOr(1) == q.party.GetOr(1) && r.contact.GetOr("") == q.contact.GetOr("")
  }

  /** The backup's own booking was overwritten by the late message of a request for the same booking,
      with the same timestamp and the same creation time. */
  ghost predicate LateCopy(s: System, k: Key, a: Ack) {
    exists i ::
      && IsLastOn(Writes(s.b.hist), k, i) && s.b.hist[i].remote && a.backup
      && s.b.hist[i].h in s.p.handlers && a.h in s.b.handlers
      && SameBooking(s.p.handlers[s.b.hist[i].h].req, s.b.handlers[a.h].req)
      && s.b.hist[i].w.Ts() == a.w.Ts() && s.b.hist[i].w.rec.createdAt == a.w.rec.createdAt
  }

  /** What a request asks for, its timestamp and its creation time make the record. */
  lemma WriteOfRequest(cfg: Config, r: Request, q: Request, v: Write, w: Write)
    requires Matches(cfg, r, v) && Matches(cfg, q, w) && !r.ApplyReq? && !q.ApplyReq?
    requires w.op.Book? && v.key == w.key && v.Ts() == w.Ts() && v.rec.createdAt == w.rec.createdAt
    ensures v == w <==> SameBooking(r, q)
  {
  }

  lemma AckMatches(cfg: Config, s: System, m: int)
    requires Reachable(cfg, s)
    requires 0 <= m < |s.acks| && s.acks[m].backup
    ensures s.acks[m].h in s.b.handlers && !s.b.handlers[s.acks[m].h].req.ApplyReq?
    ensures Matches(s.b.cfg, s.b.handlers[s.acks[m].h].req, s.acks[m].w)
  {
    ReachableSysInv(cfg, s);
    var a := s.acks[m];
    assert IsAcked(s, a);
    DoneMatches(s.b, a.h, a.w);
  }

  lemma DoneMatches(n: Node, h: Hid, w: Write)
    requires h in n.handlers && PhaseOk(n, h) && n.handlers[h].phase == Done(Ok(w))
    ensures Matches(n.cfg, n.handlers[h].req, w)
  {
  }

  lemma RemoteMatches(cfg: Config, s: System, i: int)
    requires Reachable(cfg, s)
    requires 0 <= i < |s.b.hist| && s.b.hist[i].remote
    ensures s.b.hist[i].h in s.p.handlers && !s.p.handlers[s.b.hist[i].h].req.ApplyReq?
    ensures Matches(s.b.cfg, s.p.handlers[s.b.hist[i].h].req, s.b.hist[i].w)
  {
    ReachableSysInv(cfg, s);
    RemoteEventSender(s, s.b.hist[i]);
    StampMatches(s.p, s.b.hist[i].h);
  }

  lemma StampMatches(n: Node, h: Hid)
    requires h in n.handlers && PhaseOk(n, h) && !n.handlers[h].req.ApplyReq? && n.handlers[h].phase.Stamp().Some?
    ensures Matches(n.cfg, n.handlers[h].req, n.handlers[h].phase.Stamp().value)
  {
  }

  /** A confirmed reservation that no later acknowledged write of its key replaced is still what the
      backup holds, before or after the failover, exactly when its key is not in doubt (or
      what put it in doubt is a late copy of the same booking). */
  lemma ConfirmedReservationSurvivesIff(cfg: Config, s: System, k: Key, m: int)
    requires ReachableFailStop(cfg, s) && k.table !in s.b.locks
    requires IsLastOn(AckedWrites(s.acks), k, m) && s.acks[m].w.op.Book?
    ensures Lookup(s.b.store, k) == Some(s.acks[m].w.rec) <==> !InDoubt(s, k) || LateCopy(s, k, s.acks[m])
  {
    FailStopIsReachable(cfg, s);
    StoresAreReplays(cfg, s);
    var j := AckPosition(cfg, s, m, true);
    assert Writes(s.b.hist)[j].key == k;
    var i := LastOrUntouched(Writes(s.b.hist), k);
    LastWriteWins(Writes(s.b.hist), k, i);
    if InDoubt(s, k) {
      DoubtfulCopyIsLate(cfg, s, k, m, i);
    } else {
      SettledIsLastAcked(cfg, s, k, m, i);
    }
  }

  lemma SettledIsLastAcked(cfg: Config, s: System, k: Key, m: int, i: int)
    requires ReachableFailStop(cfg, s) && k.table !in s.b.locks && !InDoubt(s, k)
    requires IsLastOn(AckedWrites(s.acks), k, m) && IsLastOn(Writes(s.b.hist), k, i)
    ensures s.b.hist[i].w == s.acks[m].w
  {
    FailStopIsReachable(cfg, s);
    LastIsAcked(cfg, s, k, i);
    var e := s.b.hist[i];
    var last :| 0 <= last < |s.acks| && s.acks[last] == Ack(!e.remote, e.h, e.w);
    assert AckedWrites(s.acks)[last].key == k;
    if e.w != s.acks[m].w {
      LastAckedIsNewest(cfg, s, k, i, m);
      AckByTimestamp(cfg, s, m, last);
    }
  }

  lemma DoubtfulCopyIsLate(cfg: Config, s: System, k: Key, m: int, i: int)
    requires Reachable(cfg, s) && InDoubt(s, k)
    requires IsLastOn(AckedWrites(s.acks), k, m) && IsLastOn(Writes(s.b.hist), k, i)
    requires s.acks[m].w.op.Book?
    ensures s.b.hist[i].w == s.acks[m].w <==> LateCopy(s, k, s.acks[m])
  {
    AckHolder(cfg, s, m);
    var d :| IsLastOn(Writes(s.b.hist), k, d) && s.b.hist[d].remote && !Confirmed(s, s.b.hist[d].h);
    assert d == i;
    RemoteEvent(cfg, s, i);
    if !s.acks[m].backup {
      StampsDiffer(cfg, s, false, s.b.hist[i].h, s.acks[m].h, s.b.hist[i].w.Ts(), s.acks[m].w.Ts());
    } else {
      AckMatches(cfg, s, m);
      RemoteMatches(cfg, s, i);
      if s.b.hist[i].w.Ts() == s.acks[m].w.Ts() && s.b.hist[i].w.rec.createdAt == s.acks[m].w.rec.createdAt {
        WriteOfRequest(s.b.cfg, s.p.handlers[s.b.hist[i].h].req, s.b.handlers[s.acks[m].h].req, s.b.hist[i].w,
                       s.acks[m].w);
      }
    }
  }

  /** After a failover in which no key is left in doubt, the backup's whole dictionary is the
      serial execution of the acknowledged writes, sorted by timestamp. */
  lemma FailoverPreservesWholeHistory(cfg: Config, s: System)
    requires ReachableFailStop(cfg, s)
    requires s.b.locks == map[] && forall k :: !InDoubt(s, k)
    ensures s.b.store == Replay(SortByTs(AckedWrites(s.acks)))
  {
    var sorted := SortByTs(AckedWrites(s.acks));
    SortSorts(AckedWrites(s.acks));
    forall k ensures Lookup(s.b.store, k) == Lookup(Replay(sorted), k) {
      FailoverPreservesHistory(cfg, s, k, sorted);
    }
    SameLookupsSameStore(s.b.store, Replay(sorted));
  }

  /** Serializability in Lamport order: in every reachable state the primary's dictionary is its
      committed writes executed one after the other in timestamp order, whatever the order of
      commits was. */
  lemma PrimarySerializable(cfg: Config, s: System, sorted: seq<Write>)
    requires Reachable(cfg, s)
    requires SortedByTs(sorted) && multiset(sorted) == multiset(Writes(s.p.hist))
    ensures s.p.store == Replay(sorted)
  {
    ReachableSysInv(cfg, s);
    forall e | e in s.p.hist ensures !e.remote {
      assert EventOk(s.p, e);
    }
    SerializableInTimestampOrder(s.p, sorted);
  }

  // ---------- Timestamps extend real time ----------

  predicate Starts(m: Move, h: Hid) {
    (m.PStart? || m.BStart?) && m.h == h
  }

  lemma MoveKeepsStart(s: System, m: Move, backup: bool, h: Hid)
    requires CanMove(s, m)
    requires h in (if backup then s.b else s.p).handlers
    ensures s.acks <= Moved(s, m).acks
    ensures var n' := if backup then Moved(s, m).b else Moved(s, m).p;
            && h in n'.handlers
            && n'.handlers[h].since == (if backup then s.b else s.p).handlers[h].since
            && n'.handlers[h].req == (if backup then s.b else s.p).handlers[h].req
  {
    MoveFrame(s, m);
    if NodeAct(s, m).Some? {
      MoveAcksFrame(s, m);
    }
  }

  lemma {:induction false} StartRemembered(cfg: Config, states: seq<System>, moves: seq<Move>, i: nat, j: nat)
    requires IsRun(cfg, states, moves) && i < j <= |moves|
    requires moves[i].PStart? || moves[i].BStart?
    ensures states[i].acks <= states[j].acks
    ensures var n := if moves[i].BStart? then states[j].b else states[j].p;
            && moves[i].h in n.handlers && n.handlers[moves[i].h].since == |states[i].acks|
            && !n.handlers[moves[i].h].req.ApplyReq?
  {
    if j == i + 1 {
      MoveStarts(states[i], moves[i]);
      MoveFrame(states[i], moves[i]);
      MoveAcksFrame(states[i], moves[i]);
    } else {
      StartRemembered(cfg, states, moves, i, j - 1);
      MoveKeepsStart(states[j - 1], moves[j - 1], moves[i].BStart?, moves[i].h);
    }
  }

  lemma AckSince(cfg: Config, s: System, m: int, h: Hid, backup: bool)
    requires ReachableFailStop(cfg, s)
    requires 0 <= m < |s.acks| && s.acks[m].h == h
    requires var n := if backup then s.b else s.p; h in n.handlers && !n.handlers[h].req.ApplyReq?
    ensures s.acks[m].backup == backup
    ensures var n := if backup then s.b else s.p;
            && n.handlers[h].since <= |s.acks|
            && (forall i | 0 <= i < n.handlers[h].since :: s.acks[i].w.Ts() < s.acks[m].w.Ts())
            && (backup ==> forall i | n.handlers[h].since <= i < |s.acks| :: s.acks[i].backup)
  {
    ReachableFailStopInv(cfg, s);
    assert IsAcked(s, s.acks[m]);
    StampedSince(s, m, h, backup);
  }

  lemma StampedSince(s: System, m: int, h: Hid, backup: bool)
    requires IdsOk(s) && RealTimeOk(s)
    requires 0 <= m < |s.acks| && s.acks[m].h == h && IsAcked(s, s.acks[m])
    requires var n := if backup then s.b else s.p; h in n.handlers && !n.handlers[h].req.ApplyReq?
    ensures s.acks[m].backup == backup
    ensures var n := if backup then s.b else s.p;
            && n.handlers[h].since <= |s.acks|
            && (forall i | 0 <= i < n.handlers[h].since :: s.acks[i].w.Ts() < s.acks[m].w.Ts())
            && (backup ==> forall i | n.handlers[h].since <= i < |s.acks| :: s.acks[i].backup)
  {
  }

  /** A write acknowledged before another acknowledged write's request arrived has the smaller
      timestamp: on any tables, on either node, on either side of the failover. */
  lemma TimestampsExtendRealTime(cfg: Config, states: seq<System>, moves: seq<Move>, i: nat, j: nat, x: Ack, y: Ack)
    requires IsFailStopRun(cfg, states, moves) && i < j <= |moves|
    requires x in states[i].acks        // acknowledged already when...
    requires Starts(moves[i], y.h)      // ...this request arrives
    requires y in states[j].acks
    ensures x.w.Ts() < y.w.Ts()
  {
    StartRemembered(cfg, states, moves, i, j);
    assert ReachableFailStop(cfg, states[j]) by {
      assert IsFailStopRun(cfg, states[..j + 1], moves[..j]);
      assert states[..j + 1][|moves[..j]|] == states[j];
    }
    var m :| 0 <= m < |states[j].acks| && states[j].acks[m] == y;
    AckSince(cfg, states[j], m, y.h, moves[i].BStart?);
    var p :| 0 <= p < |states[i].acks| && states[i].acks[p] == x;
    assert states[j].acks[p] == x;
  }

  /** All acknowledged timestamps of a restaurant are distinct, across the failover too. */
  lemma AckedTimestampsDistinct(cfg: Config, s: System, i: int, j: int)
    requires ReachableFailStop(cfg, s) && 0 <= i < j < |s.acks|
    ensures s.acks[i].w.Ts() != s.acks[j].w.Ts()
  {
    FailStopIsReachable(cfg, s);
    var x, y := s.acks[i], s.acks[j];
    var px := AckPosition(cfg, s, i, true);
    var py := AckPosition(cfg, s, j, true);
    if x.backup == y.backup {
      DistinctAckers(cfg, s, i, j);
      StampsDiffer(cfg, s, x.backup, x.h, y.h, x.w.Ts(), y.w.Ts());
    } else {
      DistinctAckers(cfg, s, i, j);
      AckSince(cfg, s, j, y.h, y.backup);
    }
  }

  lemma DistinctAckers(cfg: Config, s: System, i: int, j: int)
    requires ReachableFailStop(cfg, s) && 0 <= i < j < |s.acks|
    ensures s.acks[i].h != s.acks[j].h
    ensures s.acks[i].backup ==> s.acks[j].backup
    ensures var n := if s.acks[j].backup then s.b else s.p;
            s.acks[j].h in n.handlers && !n.handlers[s.acks[j].h].req.ApplyReq?
  {
    ReachableFailStopInv(cfg, s);
    assert IsAcked(s, s.acks[j]);
  }

  // ---------- No double booking ----------

  /** An unconfirmed replicated write of the key, opposite in kind to `op`, that the backup
      applied between its events x and y. */
  ghost predicate UnconfirmedBetween(s: System, k: Key, op: Op, x: int, y: int) {
    exists z :: x < z < y < |s.b.hist| && 0 <= z
      && s.b.hist[z].w.key == k && s.b.hist[z].w.op != op
      && s.b.hist[z].remote && !Confirmed(s, s.b.hist[z].h)
  }

  /** An acknowledged write of the key, opposite in kind to `op`, between acknowledgements i and j. */
  ghost predicate AckedBetween(s: System, k: Key, op: Op, i: int, j: int) {
    exists m :: i < m < j && 0 <= m < |s.acks| && s.acks[m].w.key == k && s.acks[m].w.op != op
  }

  /** A local write followed on its table by another local write was acknowledged. */
  lemma OvertakenIsAcked(cfg: Config, s: System, backup: bool, z: int, y: int)
    requires Reachable(cfg, s)
    requires var n := if backup then s.b else s.p;
             && 0 <= z < y < |n.hist| && !n.hist[z].remote && !n.hist[y].remote
             && n.hist[z].w.key.table == n.hist[y].w.key.table
    ensures var n := if backup then s.b else s.p; Ack(backup, n.hist[z].h, n.hist[z].w) in s.acks
  {
    ReachableSysInv(cfg, s);
    var n := if backup then s.b else s.p;
    OvertakenIsDone(n, z, y);
  }

  lemma OvertakenIsDone(n: Node, z: int, y: int)
    requires NodeInv(n)
    requires 0 <= z < y < |n.hist| && !n.hist[z].remote && !n.hist[y].remote
    requires n.hist[z].w.key.table == n.hist[y].w.key.table
    ensures n.hist[z].h in n.handlers && !n.handlers[n.hist[z].h].req.ApplyReq?
    ensures n.handlers[n.hist[z].h].phase == Done(Ok(n.hist[z].w))
  {
    var e, f := n.hist[z], n.hist[y];
    assert EventOk(n, e) && EventOk(n, f);
    assert PhaseOk(n, e.h);
    assert f in n.hist && f.h != e.h && e.w.Ts() < f.w.Ts();
  }

  lemma NodeInvs(cfg: Config, s: System)
    requires Reachable(cfg, s)
    ensures NodeInv(s.p) && NodeInv(s.b)
  {
    ReachableSysInv(cfg, s);
  }

  lemma PrimaryAllLocal(cfg: Config, s: System, x: int)
    requires Reachable(cfg, s) && 0 <= x < |s.p.hist|
    ensures !s.p.hist[x].remote
  {
    var j := PrimaryEvent(cfg, s, x);
  }

  /** In every reachable state, on either node: no two handlers are inside one table's lock,
      and whatever a handler returned, it holds no lock afterwards. */
  lemma LocksExclusiveAndReleased(cfg: Config, s: System, backup: bool, g: Hid, h: Hid)
    requires Reachable(cfg, s)
    requires var n := if backup then s.b else s.p; g in n.handlers && h in n.handlers
    ensures var n := if backup then s.b else s.p;
            && (n.handlers[g].phase.HoldsLock() && n.handlers[h].phase.HoldsLock() && g != h ==>
                  n.handlers[g].req.Table() != n.handlers[h].req.Table())
            && (n.handlers[h].phase.Done? ==> h !in n.locks.Values)
  {
    NodeInvs(cfg, s);
  }

  /** Per-node mutual exclusion, with no assumption on the environment: between two bookings of a key that
      one node served lies a cancellation of it on that node, local or replicated, whatever
      the interleaving of handlers and lock timeouts.  The same with the roles exchanged. */
  lemma MutualExclusion(cfg: Config, s: System, backup: bool, x: int, y: int) returns (z: int)
    requires Reachable(cfg, s)
    requires var n := if backup then s.b else s.p;
             && 0 <= x < y < |n.hist| && !n.hist[y].remote
             && n.hist[x].w.key == n.hist[y].w.key && n.hist[x].w.op == n.hist[y].w.op
    ensures var n := if backup then s.b else s.p;
            x < z < y && n.hist[z].w.key == n.hist[x].w.key && n.hist[z].w.op != n.hist[x].w.op
  {
    NodeInvs(cfg, s);
    z := LocalWritesOfAKeyAlternate(if backup then s.b else s.p, x, y);
  }

  lemma BothAtPrimary(cfg: Config, s: System, i: int, j: int)
    requires ReachableFailStop(cfg, s)
    requires 0 <= i < j < |s.acks| && !s.acks[i].backup && !s.acks[j].backup
    requires s.acks[i].w.key == s.acks[j].w.key && s.acks[i].w.op == s.acks[j].w.op
    ensures AckedBetween(s, s.acks[i].w.key, s.acks[i].w.op, i, j)
  {
    FailStopIsReachable(cfg, s);
    var x := AckPosition(cfg, s, i, false);
    var y := AckPosition(cfg, s, j, false);
    AckByTimestamp(cfg, s, i, j);
    if y < x {
      PrimaryOrder(cfg, s, y, x);
    }
    var z := MutualExclusion(cfg, s, false, x, y);
    PrimaryAllLocal(cfg, s, z);
    PrimaryOrder(cfg, s, x, z);
    PrimaryOrder(cfg, s, z, y);
    OvertakenIsAcked(cfg, s, false, z, y);
    var m :| 0 <= m < |s.acks| && s.acks[m] == Ack(false, s.p.hist[z].h, s.p.hist[z].w);
    AckByTimestamp(cfg, s, i, m);
    AckByTimestamp(cfg, s, m, j);
  }

  lemma SecondAtBackup(cfg: Config, s: System, i: int, j: int, x: int, y: int)
    requires ReachableFailStop(cfg, s)
    requires 0 <= i < j < |s.acks| && s.acks[j].backup
    requires s.acks[i].w.key == s.acks[j].w.key && s.acks[i].w.op == s.acks[j].w.op
    requires 0 <= x < |s.b.hist| && s.b.hist[x] == Event(s.acks[i].h, s.acks[i].w, !s.acks[i].backup)
    requires 0 <= y < |s.b.hist| && s.b.hist[y] == Event(s.acks[j].h, s.acks[j].w, false)
    requires !s.acks[i].backup ==> Confirmed(s, s.acks[i].h)
    ensures
      || AckedBetween(s, s.acks[i].w.key, s.acks[i].w.op, i, j)
      || UnconfirmedBetween(s, s.acks[i].w.key, s.acks[i].w.op, x, y)
  {
    FailStopIsReachable(cfg, s);
    AckByTimestamp(cfg, s, i, j);
    if y < x {
      BackupOrder(cfg, s, y, x);
    }
    var z := MutualExclusion(cfg, s, true, x, y);
    var e := s.b.hist[z];
    if e.remote ==> Confirmed(s, e.h) {
      BackupOrder(cfg, s, x, z);
      BackupOrder(cfg, s, z, y);
      var m := SettledIsAcked(cfg, s, z, y);
      AckByTimestamp(cfg, s, i, m);
      AckByTimestamp(cfg, s, m, j);
    }
  }

  /** A write of the backup's history that is confirmed, or local and overtaken, was acknowledged. */
  lemma SettledIsAcked(cfg: Config, s: System, z: int, y: int) returns (m: int)
    requires Reachable(cfg, s)
    requires 0 <= z < y < |s.b.hist| && !s.b.hist[y].remote
    requires s.b.hist[z].w.key.table == s.b.hist[y].w.key.table
    requires s.b.hist[z].remote ==> Confirmed(s, s.b.hist[z].h)
    ensures 0 <= m < |s.acks| && s.acks[m] == Ack(!s.b.hist[z].remote, s.b.hist[z].h, s.b.hist[z].w)
  {
    if s.b.hist[z].remote {
      var x := ConfirmedEvent(cfg, s, z);
    } else {
      OvertakenIsAcked(cfg, s, true, z, y);
    }
    m :| 0 <= m < |s.acks| && s.acks[m] == Ack(!s.b.hist[z].remote, s.b.hist[z].h, s.b.hist[z].w);
  }

  /** No double booking, failover or not: between two acknowledged bookings of a key there is
      an acknowledged cancellation of it, or the backup applied a replicated cancellation
      that the primary never confirmed, between the two.  The same with the roles of booking
      and cancellation exchanged. */
  lemma NoDoubleBooking(cfg: Config, s: System, i: int, j: int)
    requires ReachableFailStop(cfg, s)
    requires 0 <= i < j < |s.acks|
    requires s.acks[i].w.key == s.acks[j].w.key && s.acks[i].w.op == s.acks[j].w.op
    ensures
      || AckedBetween(s, s.acks[i].w.key, s.acks[i].w.op, i, j)
      || (s.acks[j].backup && UnconfirmedBetweenHandlers(s, s.acks[i].w.key, s.acks[i].w.op, s.acks[i].h, s.acks[j].h))
  {
    FailStopIsReachable(cfg, s);
    DistinctAckers(cfg, s, i, j);
    if !s.acks[j].backup {
      BothAtPrimary(cfg, s, i, j);
    } else {
      var x := AckPosition(cfg, s, i, true);
      var y := AckPosition(cfg, s, j, true);
      SecondAtBackup(cfg, s, i, j, x, y);
    }
  }

  ghost predicate UnconfirmedBetweenHandlers(s: System, k: Key, op: Op, g: Hid, h: Hid) {
    exists x, y ::
      && 0 <= x < |s.b.hist| && s.b.hist[x].h == g
      && 0 <= y < |s.b.hist| && s.b.hist[y].h == h
      && UnconfirmedBetween(s, k, op, x, y)
  }

  /** When backup handler `h` wrote the key, the last write of it that the backup had applied was an
      unconfirmed replicated one, opposite in kind to `op`. */
  ghost predicate FoundUnconfirmed(s: System, k: Key, op: Op, h: Hid) {
    exists y, z ::
      && 0 <= y < |s.b.hist| && s.b.hist[y].h == h
      && IsLastOn(Writes(s.b.hist)[..y], k, z)
      && s.b.hist[z].remote && !Confirmed(s, s.b.hist[z].h) && s.b.hist[z].w.op != op
  }

  /** The kind of the acknowledged write before `j`; a key starts out free, as if cancelled. */
  function KindBefore(acks: seq<Ack>, i: int): Op
    requires -1 <= i < |acks|
  {
    if i < 0 then Cancel else acks[i].w.op
  }

  /** Acknowledgements i and j of the key have none of it between them; -1 stands for the beginning. */
  ghost predicate Consecutive(s: System, k: Key, i: int, j: int) {
    && -1 <= i < j < |s.acks| && s.acks[j].w.key == k && (i >= 0 ==> s.acks[i].w.key == k)
    && forall m | i < m < j :: s.acks[m].w.key != k
  }

  /** The exact condition for a double booking: an acknowledged write is of the same kind as the
      acknowledged write of its key before it (a first one: a cancellation) if and only if the backup served
      it and found there the opposite, left by a replicated write the primary never confirmed. */
  lemma DoubleBookingIff(cfg: Config, s: System, k: Key, i: int, j: int)
    requires ReachableFailStop(cfg, s) && Consecutive(s, k, i, j)
    ensures s.acks[j].w.op == KindBefore(s.acks, i) <==>
            s.acks[j].backup && FoundUnconfirmed(s, k, KindBefore(s.acks, i), s.acks[j].h)
  {
    if s.acks[j].backup {
      AtBackupIff(cfg, s, k, i, j);
    } else if i >= 0 && s.acks[i].w.op == s.acks[j].w.op {
      DistinctAckers(cfg, s, i, j);
      BothAtPrimary(cfg, s, i, j);
    } else if i < 0 {
      FirstAtPrimary(cfg, s, j);
    }
  }

  lemma FirstAtPrimary(cfg: Config, s: System, j: int)
    requires ReachableFailStop(cfg, s)
    requires 0 <= j < |s.acks| && !s.acks[j].backup
    requires forall i | 0 <= i < j :: s.acks[i].w.key != s.acks[j].w.key
    ensures s.acks[j].w.op.Book?
  {
    FailStopIsReachable(cfg, s);
    if s.acks[j].w.op.Cancel? {
      var y := AckPosition(cfg, s, j, false);
      var z := BookedBefore(cfg, s, y);
      PrimaryAllLocal(cfg, s, z);
      PrimaryOrder(cfg, s, z, y);
      OvertakenIsAcked(cfg, s, false, z, y);
      var m :| 0 <= m < |s.acks| && s.acks[m] == Ack(false, s.p.hist[z].h, s.p.hist[z].w);
      AckByTimestamp(cfg, s, m, j);
    }
  }

  lemma BookedBefore(cfg: Config, s: System, y: int) returns (z: int)
    requires Reachable(cfg, s)
    requires 0 <= y < |s.p.hist| && !s.p.hist[y].remote && s.p.hist[y].w.op.Cancel?
    ensures 0 <= z < y && s.p.hist[z].w.key == s.p.hist[y].w.key && s.p.hist[z].w.op.Book?
  {
    NodeInvs(cfg, s);
    assert Writes(s.p.hist)[..0] == [];
    z := FlipNeedsWrite(Writes(s.p.hist), s.p.hist[y].w.key, 0, y);
  }

  /** A local write of the backup is opposite in kind to the last write of its key before it. */
  lemma OppositeOfLast(cfg: Config, s: System, k: Key, y: int, z: int)
    requires Reachable(cfg, s)
    requires 0 <= y < |s.b.hist| && !s.b.hist[y].remote && s.b.hist[y].w.key == k
    requires if z < 0 then Untouched(Writes(s.b.hist)[..y], k) else IsLastOn(Writes(s.b.hist)[..y], k, z)
    ensures s.b.hist[y].w.op != if z < 0 then Cancel else s.b.hist[z].w.op
  {
    NodeInvs(cfg, s);
    if z < 0 {
      NeverWritten(Writes(s.b.hist)[..y], k);
    } else {
      LastWriteWins(Writes(s.b.hist)[..y], k, z);
    }
  }

  /** What handler `h` found is decided by that last write. */
  lemma FoundIsLast(cfg: Config, s: System, k: Key, op: Op, y: int, z: int)
    requires Reachable(cfg, s) && 0 <= y < |s.b.hist|
    requires if z < 0 then Untouched(Writes(s.b.hist)[..y], k) else IsLastOn(Writes(s.b.hist)[..y], k, z)
    ensures FoundUnconfirmed(s, k, op, s.b.hist[y].h) <==>
            z >= 0 && s.b.hist[z].remote && !Confirmed(s, s.b.hist[z].h) && s.b.hist[z].w.op != op
  {
    NodeInvs(cfg, s);
  }

  lemma AtBackupIff(cfg: Config, s: System, k: Key, i: int, j: int)
    requires ReachableFailStop(cfg, s) && Consecutive(s, k, i, j) && s.acks[j].backup
    ensures s.acks[j].w.op == KindBefore(s.acks, i) <==> FoundUnconfirmed(s, k, KindBefore(s.acks, i), s.acks[j].h)
  {
    FailStopIsReachable(cfg, s);
    var y := AckPosition(cfg, s, j, true);
    var z := LastOrUntouched(Writes(s.b.hist)[..y], k);
    OppositeOfLast(cfg, s, k, y, z);
    FoundIsLast(cfg, s, k, KindBefore(s.acks, i), y, z);
    if z >= 0 && (s.b.hist[z].remote ==> Confirmed(s, s.b.hist[z].h)) {
      SettledIsPrevious(cfg, s, k, i, j, y, z);
    } else if z < 0 && i >= 0 {
      var x := EarlierAtBackup(cfg, s, i, j, y);
    }
  }

  /** An acknowledged write is earlier in the backup's history than one the backup served later. */
  lemma EarlierAtBackup(cfg: Config, s: System, i: int, j: int, y: int) returns (x: int)
    requires ReachableFailStop(cfg, s) && 0 <= i < j < |s.acks| && s.acks[j].backup
    requires s.acks[i].w.key.table == s.acks[j].w.key.table
    requires 0 <= y < |s.b.hist| && s.b.hist[y] == Event(s.acks[j].h, s.acks[j].w, false)
    ensures 0 <= x < y && s.b.hist[x] == Event(s.acks[i].h, s.acks[i].w, !s.acks[i].backup)
    ensures !s.acks[i].backup ==> Confirmed(s, s.acks[i].h)
    ensures !Untouched(Writes(s.b.hist)[..y], s.acks[i].w.key)
  {
    FailStopIsReachable(cfg, s);
    x := AckPosition(cfg, s, i, true);
    AckByTimestamp(cfg, s, i, j);
    if y < x {
      BackupOrder(cfg, s, y, x);
    }
    assert Writes(s.b.hist)[..y][x].key == s.acks[i].w.key;
  }

  /** A settled last write is the acknowledged write before. */
  lemma SettledIsPrevious(cfg: Config, s: System, k: Key, i: int, j: int, y: int, z: int)
    requires ReachableFailStop(cfg, s) && Consecutive(s, k, i, j) && s.acks[j].backup
    requires 0 <= y < |s.b.hist| && s.b.hist[y] == Event(s.acks[j].h, s.acks[j].w, false)
    requires IsLastOn(Writes(s.b.hist)[..y], k, z) && (s.b.hist[z].remote ==> Confirmed(s, s.b.hist[z].h))
    ensures i >= 0 && s.b.hist[z].w == s.acks[i].w
  {
    FailStopIsReachable(cfg, s);
    var m := SettledIsAcked(cfg, s, z, y);
    BackupOrder(cfg, s, z, y);
    AckByTimestamp(cfg, s, m, j);
    assert m <= i;
    var x := EarlierAtBackup(cfg, s, i, j, y);
    assert Writes(s.b.hist)[..y][x].key == k;
    if x < z {
      BackupOrder(cfg, s, x, z);
      AckByTimestamp(cfg, s, i, m);
    }
  }

  /** The first acknowledged write of a key is a booking unless the backup served it and found a
      booking that the primary never confirmed. */
  lemma FirstAckIsBooking(cfg: Config, s: System, j: int)
    requires ReachableFailStop(cfg, s)
    requires 0 <= j < |s.acks|
    requires forall i | 0 <= i < j :: s.acks[i].w.key != s.acks[j].w.key
    ensures s.acks[j].w.op.Book? <==>
            !(s.acks[j].backup && FoundUnconfirmed(s, s.acks[j].w.key, Cancel, s.acks[j].h))
  {
    DoubleBookingIff(cfg, s, s.acks[j].w.key, -1, j);
  }

  /** With no unconfirmed replicated write of the key, acknowledged bookings and
      cancellations of it alternate strictly, starting with a booking. */
  lemma AcknowledgedWritesAlternate(cfg: Config, s: System, k: Key, i: int, j: int)
    requires ReachableFailStop(cfg, s)
    requires forall e | e in s.b.hist && e.remote && e.w.key == k :: Confirmed(s, e.h)
    requires Consecutive(s, k, i, j)
    ensures s.acks[j].w.op.Book? <==> i < 0 || s.acks[i].w.op.Cancel?
  {
    DoubleBookingIff(cfg, s, k, i, j);
  }
}
