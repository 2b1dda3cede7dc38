/** What holds in addition in every fail-stop run: one in which the backup takes client
    writes, and is promoted, only after the primary has crashed.
*/
module FailStopModel {
  import opened Records
  import opened NodeModel
  import opened SystemModel

  /** The primary has not given up on this message's write. */
  ghost predicate Live(p: Node, h: Hid) {
    h in p.handlers && (p.handlers[h].phase.Sent? || Succeeded(p.handlers[h].phase))
  }

  /** Until the crash only the primary takes client writes. */
  ghost predicate SingleWriter(s: System) {
    !s.crashed ==>
      && (forall h | h in s.b.handlers :: s.b.handlers[h].req.ApplyReq?)
      && (forall a | a in s.acks :: !a.backup)
  }

  /** Whoever holds a table's lock and has drawn a timestamp drew the newest one on that table. */
  ghost predicate HolderNewest(n: Node) {
    forall h, g, ts | h in n.handlers && n.handlers[h].phase.HoldsLock() && n.handlers[h].phase.Stamp().Some?
      && g != h && HasStamp(n, g, ts) && n.handlers[g].req.Table() == n.handlers[h].req.Table() ::
      ts < n.handlers[h].phase.Stamp().value.Ts()
  }

  /** A live write is newer than every replicated write of its table that the backup applied before it. */
  ghost predicate LiveAscend(s: System) {
    forall i, j | 0 <= i < j < |s.b.hist|
      && s.b.hist[i].remote && s.b.hist[j].remote
      && s.b.hist[i].w.key.table == s.b.hist[j].w.key.table
      && Live(s.p, s.b.hist[j].h) ::
      s.b.hist[i].w.Ts() < s.b.hist[j].w.Ts()
  }

  /** A replicated write applied after a local one never succeeded at the primary. */
  ghost predicate LateNeverSucceeded(s: System) {
    forall i, j | 0 <= i < j < |s.b.hist| && !s.b.hist[i].remote && s.b.hist[j].remote ::
      s.b.hist[j].h in s.p.handlers && !Succeeded(s.p.handlers[s.b.hist[j].h].phase)
  }

  /** Acknowledgements on one table come in timestamp order, the primary's before the backup's. */
  ghost predicate AcksAscend(s: System) {
    forall i, j | 0 <= i < j < |s.acks| ::
      && (s.acks[i].w.key.table == s.acks[j].w.key.table ==> s.acks[i].w.Ts() < s.acks[j].w.Ts())
      && (s.acks[i].backup ==> s.acks[j].backup)
  }

  /** Whatever was acknowledged before a handler started is older than its timestamp. */
  ghost predicate SinceOk(s: System, x: Handler) {
    && x.since <= |s.acks|
    && (x.phase.Stamp().Some? ==> forall i | 0 <= i < x.since :: s.acks[i].w.Ts() < x.phase.Stamp().value.Ts())
  }

  ghost predicate RealTimeOk(s: System) {
    && (forall h | h in s.p.handlers :: SinceOk(s, s.p.handlers[h]))
    && (forall h | h in s.b.handlers && !s.b.handlers[h].req.ApplyReq? ::
          && SinceOk(s, s.b.handlers[h])
          && forall i | s.b.handlers[h].since <= i < |s.acks| :: s.acks[i].backup)
  }

  ghost predicate FailStopInv(s: System) {
    SingleWriter(s) && HolderNewest(s.p) && LiveAscend(s) && LateNeverSucceeded(s) && AcksAscend(s) && RealTimeOk(s)
  }

  // ---------- Consequences of the run invariant ----------

  /** The handler of a replicated event is a primary handler that sent exactly this write. */
  lemma RemoteEventSender(s: System, e: Event)
    requires SysInv(s) && e in s.b.hist && e.remote
    ensures e.h in s.p.handlers && HasSent(s.p.handlers[e.h].phase)
    ensures s.p.handlers[e.h].phase.Stamp() == Some(e.w)
    ensures e.h in s.net && s.net[e.h] == e.w
  {
  }

  /** A write that succeeded at the primary is in the backup's history. */
  lemma SucceededInBackupHist(s: System, h: Hid)
    requires SysInv(s)
    requires h in s.p.handlers && Succeeded(s.p.handlers[h].phase)
    ensures Event(h, s.p.handlers[h].phase.Stamp().value, true) in s.b.hist
  {
    assert PhaseOk(s.b, h);
    assert HasSent(s.p.handlers[h].phase);
  }

  /** An acknowledged write is in the history of the backup, whoever acknowledged it. */
  lemma AckInBackupHist(s: System, a: Ack)
    requires SysInv(s) && a in s.acks
    ensures Event(a.h, a.w, !a.backup) in s.b.hist
  {
    assert IsAcked(s, a);
    if a.backup {
      DoneIsInHist(s.b, a.h, a.w);
    } else {
      SucceededInBackupHist(s, a.h);
    }
  }

  lemma DoneIsInHist(n: Node, h: Hid, w: Write)
    requires h in n.handlers && PhaseOk(n, h) && n.handlers[h].phase == Done(Ok(w))
    ensures Event(h, w, n.handlers[h].req.ApplyReq?) in n.hist
  {
  }

  lemma AckInPrimaryHist(s: System, a: Ack)
    requires SysInv(s) && a in s.acks && !a.backup
    ensures Event(a.h, a.w, false) in s.p.hist
  {
  }

  /** No acknowledged timestamp is ahead of the clock of the node that draws next. */
  lemma AcksBelowClocks(s: System, a: Ack)
    requires SysInv(s) && a in s.acks
    ensures a.w.Ts() <= s.b.clock
    ensures !a.backup ==> a.w.Ts() <= s.p.clock && a.w.Ts() < s.b.clock
  {
    AckInBackupHist(s, a);
    assert EventOk(s.b, Event(a.h, a.w, !a.backup));
    if !a.backup {
      AckInPrimaryHist(s, a);
      assert EventOk(s.p, Event(a.h, a.w, false));
    }
  }

  // ---------- The moves keep it ----------

  lemma SingleWriterKept(s: System, s': System, backup: bool, h: Hid, x: Handler)
    requires SingleWriter(s) && Frame(s, s', backup, h, x) && AcksFrame(s, s', backup, h)
    requires backup && h !in s.b.handlers && !x.req.ApplyReq? ==> s.crashed
    ensures SingleWriter(s')
  {
  }

  lemma LiveComesFromLive(s: System, s': System, backup: bool, h: Hid, x: Handler, e: Event)
    requires SysInv(s) && Frame(s, s', backup, h, x)
    requires !backup && h in s.p.handlers && HasSent(s.p.handlers[h].phase) ==>
      (x.phase.Sent? || Succeeded(x.phase) ==> Live(s.p, h))
    requires e in s.b.hist && e.remote && Live(s'.p, e.h)
    ensures Live(s.p, e.h)
  {
    RemoteEventSender(s, e);
  }

  lemma StillLive(n: Node, a: Act)
    requires Enabled(n, a) && a.h in n.handlers
    requires HasSent(n.handlers[a.h].phase)
    ensures Live(Next(n, a), a.h) ==> Live(n, a.h)
  {
  }

  /** A new stamp is drawn inside the table's lock and is the next clock value. */
  lemma StampInsideLock(n: Node, a: Act, ts: int)
    requires Enabled(n, a) && (a.h in n.handlers ==> PhaseOk(n, a.h))
    requires HasStamp(Next(n, a), a.h, ts)
    ensures a.h in n.handlers
    ensures HasStamp(n, a.h, ts) || (ts == n.clock + 1 && n.handlers[a.h].phase.HoldsLock())
    ensures Next(n, a).handlers[a.h].phase.HoldsLock() ==> n.handlers[a.h].phase.HoldsLock()
  {
  }

  lemma StepKeepsHolderNewest(n: Node, a: Act)
    requires NodeInv(n) && HolderNewest(n) && Enabled(n, a)
    requires forall h | h in n.handlers :: !n.handlers[h].req.ApplyReq?
    requires a.Start? ==> !a.req.ApplyReq?
    ensures HolderNewest(Next(n, a))
  {
    var n' := Next(n, a);
    StepTouches(n, a);
    forall h, g, ts | h in n'.handlers && n'.handlers[h].phase.HoldsLock() && n'.handlers[h].phase.Stamp().Some?
      && g != h && HasStamp(n', g, ts) && n'.handlers[g].req.Table() == n'.handlers[h].req.Table()
      ensures ts < n'.handlers[h].phase.Stamp().value.Ts()
    {
      if g == a.h {
        StampInsideLock(n, a, ts);
        assert n'.handlers[h] == n.handlers[h];
      } else if h == a.h {
        StampInsideLock(n, a, n'.handlers[h].phase.Stamp().value.Ts());
        assert HasStamp(n, g, ts);
      } else {
        assert HasStamp(n, g, ts);
      }
    }
  }

  /** A live write being applied is newer than every replicated write of its table applied before. */
  lemma AppliedLiveIsNewest(s: System, h: Hid, e: Event)
    requires SysInv(s) && HolderNewest(s.p)
    requires h in s.b.handlers && s.b.handlers[h].phase.Advanced?
    requires Live(s.p, h)
    requires e in s.b.hist && e.remote
    requires e.w.key.table == s.b.handlers[h].phase.w.key.table
    ensures e.w.Ts() < s.b.handlers[h].phase.w.Ts()
  {
    SenderOfApplied(s, h);
    StampOfRemote(s, e);
    assert EventOk(s.b, e);
  }

  /** The sender of a live write being applied waits for the reply, inside its table's lock. */
  lemma SenderOfApplied(s: System, h: Hid)
    requires SysInv(s)
    requires h in s.b.handlers && s.b.handlers[h].phase.Advanced? && Live(s.p, h)
    ensures s.p.handlers[h].phase == Sent(s.b.handlers[h].phase.w)
    ensures s.p.handlers[h].req.Table() == s.b.handlers[h].phase.w.key.table
  {
    assert PhaseOk(s.b, h);
    assert PhaseOk(s.p, h);
  }

  lemma StampOfRemote(s: System, e: Event)
    requires SysInv(s) && e in s.b.hist && e.remote
    ensures HasStamp(s.p, e.h, e.w.Ts()) && s.p.handlers[e.h].req.Table() == e.w.key.table
  {
    RemoteEventSender(s, e);
    StampIsOnTable(s.p, e.h);
  }

  lemma StampIsOnTable(n: Node, h: Hid)
    requires h in n.handlers && PhaseOk(n, h) && !n.handlers[h].req.ApplyReq? && n.handlers[h].phase.Stamp().Some?
    ensures n.handlers[h].phase.Stamp().value.key.table == n.handlers[h].req.Table()
  {
  }

  lemma LiveAscendKept(s: System, s': System, backup: bool, h: Hid, x: Handler)
    requires SysInv(s) && HolderNewest(s.p) && LiveAscend(s) && Frame(s, s', backup, h, x)
             && HistFrame(s, s', backup, h)
    requires !backup && h in s.p.handlers && HasSent(s.p.handlers[h].phase) ==>
      (x.phase.Sent? || Succeeded(x.phase) ==> Live(s.p, h))
    ensures LiveAscend(s')
  {
    forall i, j | 0 <= i < j < |s'.b.hist|
      && s'.b.hist[i].remote && s'.b.hist[j].remote
      && s'.b.hist[i].w.key.table == s'.b.hist[j].w.key.table
      && Live(s'.p, s'.b.hist[j].h)
      ensures s'.b.hist[i].w.Ts() < s'.b.hist[j].w.Ts()
    {
      if j < |s.b.hist| {
        LiveComesFromLive(s, s', backup, h, x, s.b.hist[j]);
      } else {
        assert PhaseOk(s.b, h);
        AppliedLiveIsNewest(s, h, s.b.hist[i]);
      }
    }
  }

  lemma LateKept(s: System, s': System, backup: bool, h: Hid, x: Handler)
    requires SysInv(s) && SingleWriter(s) && LateNeverSucceeded(s)
    requires Frame(s, s', backup, h, x) && HistFrame(s, s', backup, h)
    ensures LateNeverSucceeded(s')
  {
    if !backup {
      forall i | 0 <= i < |s.b.hist| ensures s.b.hist[i].remote {
        assert EventOk(s.b, s.b.hist[i]);
      }
    } else if s'.b.hist != s.b.hist {
      assert PhaseOk(s.b, h);
      LateGrows(s, s', Event(h, s.b.handlers[h].phase.w, s.b.handlers[h].req.ApplyReq?));
    }
  }

  lemma LateGrows(s: System, s': System, e: Event)
    requires LateNeverSucceeded(s) && s'.p == s.p && s'.b.hist == s.b.hist + [e]
    requires e.remote ==> e.h in s.p.handlers && !Succeeded(s.p.handlers[e.h].phase)
    ensures LateNeverSucceeded(s')
  {
  }

  lemma CommittedIsNewest(n: Node, h: Hid, e: Event)
    requires h in n.handlers && PhaseOk(n, h) && !n.handlers[h].req.ApplyReq? && n.handlers[h].phase.Committed?
    requires e in n.hist && e.h != h && e.w.key.table == n.handlers[h].phase.w.key.table
    ensures e.w.Ts() < n.handlers[h].phase.w.Ts()
  {
  }

  lemma AckedIsNewest(s: System, n: Node, backup: bool, h: Hid, a: Ack)
    requires SysInv(s) && n == if backup then s.b else s.p
    requires h in n.handlers && !n.handlers[h].req.ApplyReq? && n.handlers[h].phase.Committed?
    requires a in s.acks && (a.backup ==> backup)
    requires a.w.key.table == n.handlers[h].phase.w.key.table
    ensures a.w.Ts() < n.handlers[h].phase.w.Ts()
  {
    assert PhaseOk(n, h);
    assert IsAcked(s, a);
    if backup {
      AckInBackupHist(s, a);
      CommittedIsNewest(n, h, Event(a.h, a.w, !a.backup));
    } else {
      AckInPrimaryHist(s, a);
      CommittedIsNewest(n, h, Event(a.h, a.w, false));
    }
  }

  /** `a` is newer than every acknowledgement on its table, and the backup is not overtaken. */
  ghost predicate NewestAck(acks: seq<Ack>, a: Ack) {
    forall b | b in acks :: (b.w.key.table == a.w.key.table ==> b.w.Ts() < a.w.Ts()) && (b.backup ==> a.backup)
  }

  lemma NewAckIsNewest(s: System, n: Node, backup: bool, h: Hid)
    requires SysInv(s) && n == if backup then s.b else s.p
    requires h in n.handlers && !n.handlers[h].req.ApplyReq? && n.handlers[h].phase.Committed?
    requires forall b | b in s.acks :: b.backup ==> backup
    ensures NewestAck(s.acks, Ack(backup, h, n.handlers[h].phase.w))
  {
    forall b | b in s.acks && b.w.key.table == n.handlers[h].phase.w.key.table
      ensures b.w.Ts() < n.handlers[h].phase.w.Ts()
    {
      AckedIsNewest(s, n, backup, h, b);
    }
  }

  lemma AcksAscendKept(s: System, s': System, backup: bool, h: Hid)
    requires SysInv(s) && SingleWriter(s) && AcksAscend(s) && AcksFrame(s, s', backup, h)
    requires !backup ==> !s.crashed
    ensures AcksAscend(s')
  {
    if s'.acks != s.acks {
      var n := if backup then s.b else s.p;
      NewAckIsNewest(s, n, backup, h);
      AcksGrowAscending(s, s', Ack(backup, h, n.handlers[h].phase.w));
    }
  }

  lemma AcksGrowAscending(s: System, s': System, a: Ack)
    requires AcksAscend(s) && s'.acks == s.acks + [a] && NewestAck(s.acks, a)
    ensures AcksAscend(s')
  {
  }

  lemma SinceKept(s: System, s': System, x: Handler, x': Handler)
    requires SinceOk(s, x) && x'.since == x.since
    requires s.acks <= s'.acks
    requires x'.phase.Stamp().Some? ==>
      || x.phase.Stamp() == x'.phase.Stamp()
      || forall i | 0 <= i < |s.acks| :: s.acks[i].w.Ts() < x'.phase.Stamp().value.Ts()
    ensures SinceOk(s', x')
  {
  }

  /** A client handler's stamp stays, or is the next clock value. */
  ghost predicate StampFrame(n: Node, h: Hid, x: Handler) {
    h in n.handlers && !x.req.ApplyReq? && x.phase.Stamp().Some? ==>
      || x.phase.Stamp() == n.handlers[h].phase.Stamp()
      || x.phase.Stamp().value.Ts() == n.clock + 1
  }

  lemma StampOfStep(n: Node, a: Act)
    requires Enabled(n, a)
    requires a.h in n.handlers ==> PhaseOk(n, a.h)
    ensures StampFrame(n, a.h, Next(n, a).handlers[a.h])
  {
  }

  lemma OwnSinceKept(s: System, s': System, n: Node, backup: bool, h: Hid, x: Handler)
    requires SysInv(s) && SingleWriter(s) && n == if backup then s.b else s.p
    requires Frame(s, s', backup, h, x) && s.acks <= s'.acks && StampFrame(n, h, x)
    requires h in n.handlers && !x.req.ApplyReq? && SinceOk(s, n.handlers[h])
    ensures SinceOk(s', x)
  {
    forall i | 0 <= i < |s.acks| ensures s.acks[i].w.Ts() <= n.clock {
      AcksBelowClocks(s, s.acks[i]);
    }
    SinceKept(s, s', n.handlers[h], x);
  }

  lemma PrimarySinceKept(s: System, s': System, backup: bool, h: Hid, x: Handler, g: Hid)
    requires SysInv(s) && SingleWriter(s) && RealTimeOk(s)
    requires Frame(s, s', backup, h, x) && s.acks <= s'.acks && (!backup ==> StampFrame(s.p, h, x))
    requires g in s.p.handlers
    ensures SinceOk(s', s'.p.handlers[g])
  {
    if g == h && !backup {
      OwnSinceKept(s, s', s.p, backup, h, x);
    } else {
      SinceKept(s, s', s.p.handlers[g], s'.p.handlers[g]);
    }
  }

  lemma BackupSinceKept(s: System, s': System, backup: bool, h: Hid, x: Handler, g: Hid)
    requires SysInv(s) && SingleWriter(s) && RealTimeOk(s)
    requires Frame(s, s', backup, h, x) && s.acks <= s'.acks && (backup ==> StampFrame(s.b, h, x))
    requires g in s.b.handlers && !s.b.handlers[g].req.ApplyReq?
    ensures SinceOk(s', s'.b.handlers[g]) && s'.b.handlers[g].since == s.b.handlers[g].since
  {
    if g == h && backup {
      OwnSinceKept(s, s', s.b, backup, h, x);
    } else {
      SinceKept(s, s', s.b.handlers[g], s'.b.handlers[g]);
    }
  }

  /** Only the backup acknowledges while a client handler of the backup runs. */
  lemma BackupTailKept(s: System, s': System, backup: bool, h: Hid, x: Handler, g: Hid)
    requires SingleWriter(s) && Frame(s, s', backup, h, x) && AcksFrame(s, s', backup, h)
    requires g in s.b.handlers && !s.b.handlers[g].req.ApplyReq?
    requires forall i | s.b.handlers[g].since <= i < |s.acks| :: s.acks[i].backup
    ensures forall i | s.b.handlers[g].since <= i < |s'.acks| :: s'.acks[i].backup
  {
  }

  lemma PrimaryRealTimeKept(s: System, s': System, backup: bool, h: Hid, x: Handler)
    requires SysInv(s) && SingleWriter(s) && RealTimeOk(s)
    requires Frame(s, s', backup, h, x) && s.acks <= s'.acks && (!backup ==> StampFrame(s.p, h, x))
    requires !backup && h !in s.p.handlers ==> x.phase.Stamp().None? && x.since == |s.acks|
    ensures forall g | g in s'.p.handlers :: SinceOk(s', s'.p.handlers[g])
  {
    forall g | g in s'.p.handlers ensures SinceOk(s', s'.p.handlers[g]) {
      if g in s.p.handlers {
        PrimarySinceKept(s, s', backup, h, x, g);
      }
    }
  }

  lemma BackupRealTimeKept(s: System, s': System, backup: bool, h: Hid, x: Handler, g: Hid)
    requires SysInv(s) && SingleWriter(s) && RealTimeOk(s)
    requires Frame(s, s', backup, h, x) && AcksFrame(s, s', backup, h) && (backup ==> StampFrame(s.b, h, x))
    requires backup && h !in s.b.handlers ==> x.phase.Stamp().None? && x.since == |s.acks| && s'.acks == s.acks
    requires g in s'.b.handlers && !s'.b.handlers[g].req.ApplyReq?
    ensures SinceOk(s', s'.b.handlers[g])
    ensures forall i | s'.b.handlers[g].since <= i < |s'.acks| :: s'.acks[i].backup
  {
    if g in s.b.handlers {
      BackupTailKept(s, s', backup, h, x, g);
      BackupSinceKept(s, s', backup, h, x, g);
    }
  }

  lemma RealTimeKept(s: System, s': System, n: Node, backup: bool, h: Hid, x: Handler)
    requires SysInv(s) && SingleWriter(s) && RealTimeOk(s) && n == if backup then s.b else s.p
    requires Frame(s, s', backup, h, x) && AcksFrame(s, s', backup, h) && StampFrame(n, h, x)
    requires h !in n.handlers ==> x.phase.Stamp().None? && x.since == |s.acks| && s'.acks == s.acks
    ensures RealTimeOk(s')
  {
    PrimaryRealTimeKept(s, s', backup, h, x);
    forall g | g in s'.b.handlers && !s'.b.handlers[g].req.ApplyReq?
      ensures SinceOk(s', s'.b.handlers[g])
      ensures forall i | s'.b.handlers[g].since <= i < |s'.acks| :: s'.acks[i].backup
    {
      BackupRealTimeKept(s, s', backup, h, x, g);
    }
  }

  lemma IdleKeepsFailStopInv(s: System, s': System)
    requires FailStopInv(s) && Idle(s, s')
    ensures FailStopInv(s')
  {
  }

  lemma FramedKeepsFailStopInv(s: System, s': System, n: Node, backup: bool, h: Hid, x: Handler)
    requires SysInv(s) && FailStopInv(s) && n == if backup then s.b else s.p
    requires Frame(s, s', backup, h, x) && AcksFrame(s, s', backup, h) && HistFrame(s, s', backup, h)
    requires StampFrame(n, h, x)
    requires !backup && h in s.p.handlers && HasSent(s.p.handlers[h].phase) ==>
      (x.phase.Sent? || Succeeded(x.phase) ==> Live(s.p, h))
    requires HolderNewest(s'.p)
    requires h !in n.handlers ==> x.phase.Stamp().None? && x.since == |s.acks| && s'.acks == s.acks
    requires backup && h !in s.b.handlers && !x.req.ApplyReq? ==> s.crashed
    ensures FailStopInv(s')
  {
    SingleWriterKept(s, s', backup, h, x);
    LiveAscendKept(s, s', backup, h, x);
    LateKept(s, s', backup, h, x);
    AcksAscendKept(s, s', backup, h);
    RealTimeKept(s, s', n, backup, h, x);
  }

  lemma MoveKeepsFailStopInv(s: System, m: Move)
    requires SysInv(s) && FailStopInv(s) && CanMove(s, m) && FailStop(s, m)
    ensures FailStopInv(Moved(s, m))
  {
    var s' := Moved(s, m);
    MoveFrame(s, m);
    match NodeAct(s, m)
    case None => IdleKeepsFailStopInv(s, s');
    case Some(a) =>
      var n := if OnPrimary(m) then s.p else s.b;
      var x := (if OnPrimary(m) then s'.p else s'.b).handlers[a.h];
      MoveHistFrame(s, m);
      MoveAcksFrame(s, m);
      MoveStarts(s, m);
      MoveIsNodeStep(s, m);
      assert a.h in n.handlers ==> PhaseOk(n, a.h);
      StampOfStep(n, a);
      if OnPrimary(m) {
        StepKeepsHolderNewest(s.p, a);
      }
      if OnPrimary(m) && a.h in s.p.handlers && HasSent(s.p.handlers[a.h].phase) {
        StillLive(s.p, a);
      }
      FramedKeepsFailStopInv(s, s', n, !OnPrimary(m), a.h, x);
  }

  lemma {:induction false} RunKeepsFailStopInv(cfg: Config, states: seq<System>, moves: seq<Move>, i: nat)
    requires IsFailStopRun(cfg, states, moves) && i <= |moves|
    ensures SysInv(states[i]) && FailStopInv(states[i])
  {
    if i == 0 {
      InitSysInv(cfg);
    } else {
      RunKeepsFailStopInv(cfg, states, moves, i - 1);
      MoveKeepsSysInv(states[i - 1], moves[i - 1]);
      MoveKeepsFailStopInv(states[i - 1], moves[i - 1]);
    }
  }

  lemma ReachableFailStopInv(cfg: Config, s: System)
    requires ReachableFailStop(cfg, s)
    ensures SysInv(s) && FailStopInv(s)
  {
    var states, moves :| IsFailStopRun(cfg, states, moves) && states[|moves|] == s;
    RunKeepsFailStopInv(cfg, states, moves, |moves|);
  }
}
