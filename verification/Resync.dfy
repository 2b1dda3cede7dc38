/** Re-synchronisation: one acknowledged write of a key makes the replicas equal on it again,
    whatever they held before.
*/
module Resync {
  import opened Records
  import opened NodeModel
  import opened SystemModel
  import opened FailStopModel
  import opened FailoverTheorems

  /** The backup may still apply this message. */
  ghost predicate Pending(s: System, h: Hid) {
    && h in s.net
    && if h in s.b.handlers
       then s.b.handlers[h].phase.Waiting? || s.b.handlers[h].phase.Locked? || s.b.handlers[h].phase.Advanced?
       else h !in s.lost
  }

  /** No abandoned message for the key is undelivered: whatever may still be applied is awaited. */
  ghost predicate NoStray(s: System, k: Key) {
    forall h | Pending(s, h) && s.net[h].key == k :: h in s.p.handlers && s.p.handlers[h].phase.Sent?
  }

  /** The backup's last write of the key is one the primary has not given up on. */
  ghost predicate Settled(s: System, k: Key) {
    forall i | IsLastOn(Writes(s.b.hist), k, i) :: Live(s.p, s.b.hist[i].h)
  }

  ghost predicate NotYetApplied(s: System, h: Hid) {
    forall e | e in s.b.hist :: e.h != h
  }

  /** A write of the key is on its way to the backup. */
  ghost predicate Underway(s: System, k: Key) {
    exists h :: IsUnderway(s, k, h)
  }

  ghost predicate IsUnderway(s: System, k: Key, h: Hid) {
    && h in s.p.handlers && KeyOf(s.p.cfg, s.p.handlers[h].req) == k
    && (s.p.handlers[h].phase.Stamped? || (s.p.handlers[h].phase.Sent? && NotYetApplied(s, h)))
  }

  ghost predicate Resyncing(s: System, k: Key) {
    !s.crashed && NoStray(s, k) && (Underway(s, k) || Settled(s, k))
  }

  /** The move gives up on a replication of the key. */
  predicate GivesUp(s: System, m: Move, k: Key) {
    m.Crash? || (m.PFail? && m.h in s.p.handlers && KeyOf(s.p.cfg, s.p.handlers[m.h].req) == k)
  }

  lemma LastOnAppend(hist: seq<Event>, e: Event, k: Key, i: int)
    requires IsLastOn(Writes(hist + [e]), k, i)
    ensures e.w.key == k ==> i == |hist|
    ensures e.w.key != k ==> IsLastOn(Writes(hist), k, i) && i < |hist|
  {
    var ws := Writes(hist + [e]);
    assert ws[|hist|] == e.w;
    forall j | 0 <= j < |hist| ensures ws[j] == Writes(hist)[j] {
    }
  }

  lemma NoStrayKept(s: System, m: Move, k: Key)
    requires SysInv(s) && NoStray(s, k) && CanMove(s, m) && !GivesUp(s, m, k)
    ensures NoStray(Moved(s, m), k)
  {
    var s' := Moved(s, m);
    MoveFrame(s, m);
    forall h | Pending(s', h) && s'.net[h].key == k ensures h in s'.p.handlers && s'.p.handlers[h].phase.Sent? {
      if m.PSend? && m.h == h {
        PendingSent(s, m);
      } else {
        PendingBefore(s, m, h);
        KeyOfSender(s, h);
        SentKept(s, m, h, k);
      }
    }
  }

  lemma PendingSent(s: System, m: Move)
    requires CanMove(s, m) && m.PSend?
    ensures m.h in Moved(s, m).p.handlers && Moved(s, m).p.handlers[m.h].phase.Sent?
  {
  }

  lemma PendingBefore(s: System, m: Move, h: Hid)
    requires CanMove(s, m) && !(m.PSend? && m.h == h)
    requires forall g | g in s.net :: g in s.p.handlers
    requires Pending(Moved(s, m), h)
    ensures Pending(s, h) && Moved(s, m).net[h] == s.net[h]
  {
    MoveFrame(s, m);
    NetMoves(s, m);
    if !OnPrimary(m) && NodeAct(s, m).Some? && NodeAct(s, m).value.h == h {
      BecomesPending(s, m);
    }
  }

  lemma NetMoves(s: System, m: Move)
    requires CanMove(s, m)
    ensures s.lost <= Moved(s, m).lost
    ensures Moved(s, m).net == if m.PSend? then s.net[m.h := s.p.handlers[m.h].phase.w] else s.net
  {
  }

  /** The step that leads a message's handler into one of the phases before the update. */
  lemma BecomesPending(s: System, m: Move)
    requires CanMove(s, m) && !OnPrimary(m) && NodeAct(s, m).Some?
    requires var h := NodeAct(s, m).value.h;
             && h in Moved(s, m).b.handlers && h in s.net && (h in s.net ==> h in s.p.handlers)
             && var phase := Moved(s, m).b.handlers[h].phase;
                phase.Waiting? || phase.Locked? || phase.Advanced?
    ensures Pending(s, NodeAct(s, m).value.h)
  {
  }

  /** The sender of a message asked for the key it writes. */
  lemma KeyOfSender(s: System, h: Hid)
    requires SysInv(s) && h in s.net
    ensures h in s.p.handlers && KeyOf(s.p.cfg, s.p.handlers[h].req) == s.net[h].key
  {
  }

  /** Only its reply, or giving up, takes an awaiting handler further. */
  lemma SentKept(s: System, m: Move, h: Hid, k: Key)
    requires CanMove(s, m) && !GivesUp(s, m, k)
    requires Pending(s, h)
    requires h in s.p.handlers && s.p.handlers[h].phase.Sent? && KeyOf(s.p.cfg, s.p.handlers[h].req) == k
    ensures h in Moved(s, m).p.handlers && Moved(s, m).p.handlers[h].phase.Sent?
  {
    MoveFrame(s, m);
    if OnPrimary(m) && NodeAct(s, m).value.h == h {
      SentOnlyMoves(s, m, h);
      AckedNotPending(s, m);
    }
  }

  lemma AckedNotPending(s: System, m: Move)
    requires CanMove(s, m)
    ensures m.PAck? ==> !Pending(s, m.h)
  {
  }

  lemma SentOnlyMoves(s: System, m: Move, h: Hid)
    requires CanMove(s, m) && h in s.p.handlers && s.p.handlers[h].phase.Sent?
    requires OnPrimary(m) && NodeAct(s, m).value.h == h
    ensures m.h == h && (m.PFail? || m.PAck?)
  {
  }

  /** Without giving up, a live write stays live. */
  lemma LiveStays(s: System, m: Move)
    requires CanMove(s, m) && OnPrimary(m) && !m.PFail?
    requires Live(s.p, NodeAct(s, m).value.h)
    ensures Live(Moved(s, m).p, NodeAct(s, m).value.h)
  {
  }

  lemma SettledKeptByPrimary(s: System, m: Move, k: Key)
    requires SysInv(s) && Settled(s, k) && CanMove(s, m) && OnPrimary(m) && !GivesUp(s, m, k)
    requires forall e | e in s.b.hist :: e.remote
    ensures Settled(Moved(s, m), k)
  {
    MoveFrame(s, m);
    forall i | IsLastOn(Writes(s.b.hist), k, i) ensures Live(Moved(s, m).p, s.b.hist[i].h) {
      KeyOfRemote(s, s.b.hist[i]);
      LiveThrough(s, m, k, s.b.hist[i].h);
    }
  }

  lemma LiveThrough(s: System, m: Move, k: Key, h: Hid)
    requires CanMove(s, m) && OnPrimary(m) && !GivesUp(s, m, k)
    requires Live(s.p, h) && KeyOf(s.p.cfg, s.p.handlers[h].req) == k
    ensures Live(Moved(s, m).p, h)
  {
    MoveFrame(s, m);
    if NodeAct(s, m).value.h == h {
      FailNames(s, m);
      LiveStays(s, m);
    }
  }

  lemma FailNames(s: System, m: Move)
    requires CanMove(s, m) && OnPrimary(m)
    ensures m.PFail? ==> NodeAct(s, m).value.h == m.h && m.h in s.p.handlers
  {
  }

  /** The sender of a replicated write asked for the key it writes. */
  lemma KeyOfRemote(s: System, e: Event)
    requires SysInv(s) && e in s.b.hist && e.remote
    ensures e.h in s.p.handlers && KeyOf(s.p.cfg, s.p.handlers[e.h].req) == e.w.key
  {
  }

  lemma UnderwayKeptByPrimary(s: System, m: Move, k: Key, h: Hid)
    requires SysInv(s) && IsUnderway(s, k, h) && CanMove(s, m) && OnPrimary(m) && !GivesUp(s, m, k)
    ensures IsUnderway(Moved(s, m), k, h)
  {
    if s.p.handlers[h].phase.Stamped? {
      StampedNotApplied(s, h);
    }
    if m.PAck? && m.h == h {
      AckMeansApplied(s, m);
    }
    UnderwayMoves(s, m, k, h);
  }

  lemma UnderwayMoves(s: System, m: Move, k: Key, h: Hid)
    requires IsUnderway(s, k, h) && NotYetApplied(s, h)
    requires CanMove(s, m) && OnPrimary(m) && !GivesUp(s, m, k) && !(m.PAck? && m.h == h)
    ensures IsUnderway(Moved(s, m), k, h)
  {
    MoveFrame(s, m);
    FailNames(s, m);
    if NodeAct(s, m).value.h == h {
      UnderwayAdvances(s, m, h);
    }
  }

  lemma StampedNotApplied(s: System, h: Hid)
    requires SysInv(s) && h in s.p.handlers && s.p.handlers[h].phase.Stamped?
    ensures NotYetApplied(s, h)
  {
  }

  lemma AckMeansApplied(s: System, m: Move)
    requires SysInv(s) && CanMove(s, m) && m.PAck?
    ensures !NotYetApplied(s, m.h)
  {
    assert PhaseOk(s.b, m.h);
  }

  lemma UnderwayAdvances(s: System, m: Move, h: Hid)
    requires CanMove(s, m) && OnPrimary(m) && NodeAct(s, m).value.h == h
    requires h in s.p.handlers && (s.p.handlers[h].phase.Stamped? || s.p.handlers[h].phase.Sent?)
    ensures s.p.handlers[h].phase.Stamped? ==> Moved(s, m).p.handlers[h].phase.Sent?
    ensures s.p.handlers[h].phase.Sent? ==> (m.PAck? || m.PFail?) && m.h == h
  {
  }

  /** The backup applies a write: of the key, and then it is a live one; or of another. */
  lemma AppliedKeeps(s: System, s': System, k: Key, h: Hid, x: Handler)
    requires SysInv(s) && NoStray(s, k) && (Underway(s, k) || Settled(s, k))
    requires Frame(s, s', true, h, x) && HistFrame(s, s', true, h)
    requires forall g | g in s.b.handlers :: s.b.handlers[g].req.ApplyReq?
    ensures Underway(s', k) || Settled(s', k)
  {
    if s'.b.hist == s.b.hist {
      UnderwaySame(s, s', k);
      assert Settled(s, k) ==> Settled(s', k);
    } else {
      BeingApplied(s, h);
      GrownKeeps(s, s', k, Event(h, s.b.handlers[h].phase.w, true));
    }
  }

  lemma BeingApplied(s: System, h: Hid)
    requires SysInv(s) && h in s.b.handlers && s.b.handlers[h].req.ApplyReq?
    requires s.b.handlers[h].phase.Acked? || s.b.handlers[h].phase.Advanced?
    ensures Pending(s, h) && s.net[h] == s.b.handlers[h].phase.w
    ensures h in s.p.handlers && KeyOf(s.p.cfg, s.p.handlers[h].req) == s.b.handlers[h].phase.w.key
  {
    assert PhaseOk(s.b, h);
    KeyOfSender(s, h);
  }

  lemma GrownKeeps(s: System, s': System, k: Key, e: Event)
    requires NoStray(s, k) && (Underway(s, k) || Settled(s, k))
    requires s'.p == s.p && s'.b.hist == s.b.hist + [e]
    requires Pending(s, e.h) && s.net[e.h] == e.w
    requires e.h in s.p.handlers && KeyOf(s.p.cfg, s.p.handlers[e.h].req) == e.w.key
    ensures Underway(s', k) || Settled(s', k)
  {
    if e.w.key == k || Settled(s, k) {
      forall i | IsLastOn(Writes(s'.b.hist), k, i) ensures Live(s'.p, s'.b.hist[i].h) {
        LastOnAppend(s.b.hist, e, k, i);
      }
    } else {
      var g :| IsUnderway(s, k, g);
      assert IsUnderway(s', k, g);
    }
  }

  lemma UnderwaySame(s: System, s': System, k: Key)
    requires s'.p == s.p && s'.b.hist == s.b.hist
    ensures Underway(s, k) ==> Underway(s', k)
  {
    if g :| IsUnderway(s, k, g) {
      assert IsUnderway(s', k, g);
    }
  }

  lemma BackupAllRemote(s: System)
    requires SysInv(s) && SingleWriter(s) && !s.crashed
    ensures forall e | e in s.b.hist :: e.remote
    ensures forall g | g in s.b.handlers :: s.b.handlers[g].req.ApplyReq?
  {
  }

  lemma MoveKeepsResyncing(s: System, m: Move, k: Key)
    requires SysInv(s) && FailStopInv(s) && Resyncing(s, k)
    requires CanMove(s, m) && !GivesUp(s, m, k)
    ensures Resyncing(Moved(s, m), k)
  {
    var s' := Moved(s, m);
    NoStrayKept(s, m, k);
    BackupAllRemote(s);
    MoveFrame(s, m);
    if NodeAct(s, m).None? {
      UnderwaySame(s, s', k);
      assert Settled(s, k) ==> Settled(s', k);
    } else if OnPrimary(m) {
      if Settled(s, k) {
        SettledKeptByPrimary(s, m, k);
      } else {
        var h :| IsUnderway(s, k, h);
        UnderwayKeptByPrimary(s, m, k, h);
      }
    } else {
      MoveHistFrame(s, m);
      AppliedKeeps(s, s', k, NodeAct(s, m).value.h, s'.b.handlers[NodeAct(s, m).value.h]);
    }
  }

  lemma NextStaysResyncing(cfg: Config, states: seq<System>, moves: seq<Move>, k: Key, s: System, x: nat)
    requires IsFailStopRun(cfg, states, moves) && x < |moves| && s == states[x]
    requires Resyncing(s, k) && !GivesUp(s, moves[x], k)
    ensures Resyncing(Moved(s, moves[x]), k)
  {
    RunKeepsFailStopInv(cfg, states, moves, x);
    MoveKeepsResyncing(s, moves[x], k);
  }

  lemma {:induction false} RunKeepsResyncing(cfg: Config, states: seq<System>, moves: seq<Move>, k: Key, i: nat, j: nat)
    requires IsFailStopRun(cfg, states, moves) && i <= j <= |moves|
    requires Resyncing(states[i], k)
    requires forall x | i <= x < j :: !GivesUp(states[x], moves[x], k)
    ensures Resyncing(states[j], k)
  {
    if i < j {
      RunKeepsResyncing(cfg, states, moves, k, i, j - 1);
      NextStaysResyncing(cfg, states, moves, k, states[j - 1], j - 1);
    }
  }

  lemma NoHolderOfFreeTable(s: System, k: Key, h: Hid)
    requires LocksOk(s.p) && k.table !in s.p.locks
    requires h in s.p.handlers && KeyOf(s.p.cfg, s.p.handlers[h].req) == k
    ensures !s.p.handlers[h].phase.HoldsLock()
  {
  }

  lemma ResyncedNotInDoubt(s: System, k: Key)
    requires SysInv(s) && Resyncing(s, k) && k.table !in s.p.locks
    ensures !InDoubt(s, k)
  {
    forall h | h in s.p.handlers && KeyOf(s.p.cfg, s.p.handlers[h].req) == k
      ensures !s.p.handlers[h].phase.HoldsLock()
    {
      NoHolderOfFreeTable(s, k, h);
    }
    forall e | e in s.b.hist && e.remote
      ensures e.h in s.p.handlers && KeyOf(s.p.cfg, s.p.handlers[e.h].req) == e.w.key
    {
      KeyOfRemote(s, e);
    }
    SettledIsConfirmed(s, k);
  }

  lemma SettledIsConfirmed(s: System, k: Key)
    requires Underway(s, k) || Settled(s, k)
    requires forall h | h in s.p.handlers && KeyOf(s.p.cfg, s.p.handlers[h].req) == k ::
        !s.p.handlers[h].phase.HoldsLock()
    requires forall e | e in s.b.hist && e.remote ::
        e.h in s.p.handlers && KeyOf(s.p.cfg, s.p.handlers[e.h].req) == e.w.key
    ensures !InDoubt(s, k)
  {
  }

  lemma PrefixReachable(cfg: Config, states: seq<System>, moves: seq<Move>, j: nat)
    requires IsFailStopRun(cfg, states, moves) && j <= |moves|
    ensures ReachableFailStop(cfg, states[j])
  {
    assert IsFailStopRun(cfg, states[..j + 1], moves[..j]);
    assert states[..j + 1][|moves[..j]|] == states[j];
  }

  /** Re-synchronisation.  In state i some write of the key has its timestamp and is about to
      be replicated; the replicas may hold anything for the key, but no abandoned message for
      it is undelivered.  Then in every later state up to the next time the primary gives up on
      a replication of the key (or crashes) the replicas agree on it whenever its table is
      not locked. */
  lemma OneWriteResynchronises(cfg: Config, states: seq<System>, moves: seq<Move>, k: Key, h: Hid, i: nat, j: nat)
    requires IsFailStopRun(cfg, states, moves) && i <= j <= |moves|
    requires !states[i].crashed && NoStray(states[i], k)
    requires h in states[i].p.handlers && states[i].p.handlers[h].phase.Stamped?
    requires KeyOf(states[i].p.cfg, states[i].p.handlers[h].req) == k
    requires forall x | i <= x < j :: !GivesUp(states[x], moves[x], k)
    requires k.table !in states[j].p.locks
    ensures Lookup(states[j].p.store, k) == Lookup(states[j].b.store, k)
  {
    assert IsUnderway(states[i], k, h);
    RunKeepsResyncing(cfg, states, moves, k, i, j);
    RunKeepsSysInv(cfg, states, moves, j);
    ResyncedNotInDoubt(states[j], k);
    PrefixReachable(cfg, states, moves, j);
    ReplicasAgree(cfg, states[j], k);
  }
}
