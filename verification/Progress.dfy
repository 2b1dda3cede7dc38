/** Deadlock freedom and termination of the protocol, in every run. */
module Progress {
  import opened Records
  import opened NodeModel
  import opened SystemModel

  // ---------- Deadlock freedom ----------

  /** A move that gets something done: no new request, no fault, and no timeout. */
  predicate IsProgress(m: Move) {
    && !m.PStart? && !m.BStart? && !m.Lose? && !m.Crash? && !m.Promote?
    && !(m.PStep? && m.a.LockExpires?) && !(m.BStep? && m.a.LockExpires?)
    && !(m.PFail? && m.timedOut)
  }

  ghost predicate CanProgress(s: System) {
    exists m :: IsProgress(m) && CanMove(s, m)
  }

  /** The own next step of a handler that holds its lock. */
  function HolderAct(phase: Phase, h: Hid, replica: bool): Act
    requires phase.HoldsLock()
  {
    match phase
    case Locked => if replica then Advance(h) else Check(h)
    case Checked(_) => NodeModel.Stamp(h, 0.0)
    case Stamped(_) => NoReplica(h)
    case Acked(_) => Commit(h)
    case Advanced(_) => Commit(h)
    case _ => Release(h)
  }

  /** Inside the lock a handler waits for nothing but the peer's reply. */
  lemma HolderCanStep(n: Node, h: Hid)
    requires h in n.handlers && PhaseOk(n, h)
    requires n.handlers[h].phase.HoldsLock() && !n.handlers[h].phase.Sent?
    ensures Enabled(n, HolderAct(n.handlers[h].phase, h, n.handlers[h].req.ApplyReq?))
  {
  }

  lemma BackupHolderProgresses(s: System, h: Hid)
    requires SysInv(s) && h in s.b.handlers && s.b.handlers[h].phase.HoldsLock()
    ensures CanProgress(s)
  {
    assert PhaseOk(s.b, h);
    HolderCanStep(s.b, h);
    var a := HolderAct(s.b.handlers[h].phase, h, s.b.handlers[h].req.ApplyReq?);
    var m := if a.Release? then BRelease(h) else BStep(a);
    assert IsProgress(m) && CanMove(s, m);
  }

  /** On the backup a handler waits for a lock at most, and lock holders never wait. */
  lemma BackupProgresses(s: System, h: Hid)
    requires SysInv(s) && h in s.b.handlers && !s.b.handlers[h].phase.Done?
    ensures CanProgress(s)
  {
    if s.b.handlers[h].phase.HoldsLock() {
      BackupHolderProgresses(s, h);
    } else {
      var t := s.b.handlers[h].req.Table();
      if t in s.b.locks {
        BackupHolderProgresses(s, s.b.locks[t]);
      } else {
        var m := BStep(Acquire(h));
        assert IsProgress(m) && CanMove(s, m);
      }
    }
  }

  /** A handler waiting for a reply: its message travels on, or its reply or its loss is noticed. */
  lemma AwaitingProgresses(s: System, h: Hid)
    requires SysInv(s) && !s.crashed && h in s.p.handlers && s.p.handlers[h].phase.Sent?
    ensures CanProgress(s)
  {
    if h in s.b.handlers && !s.b.handlers[h].phase.Done? {
      BackupProgresses(s, h);
    } else {
      assert h in s.net;
      ReplyProgresses(s, h);
    }
  }

  lemma ReplyProgresses(s: System, h: Hid)
    requires !s.crashed && h in s.p.handlers && s.p.handlers[h].phase.Sent? && h in s.net
    requires h in s.b.handlers ==> s.b.handlers[h].phase.Done?
    ensures CanProgress(s)
  {
    var m :=
      if h !in s.b.handlers then (if h in s.lost then PFail(h, false) else Deliver(h))
      else if s.b.handlers[h].phase.outcome.Ok? then PAck(h) else PFail(h, false);
    assert IsProgress(m) && CanMove(s, m);
  }

  lemma PrimaryHolderProgresses(s: System, h: Hid)
    requires SysInv(s) && !s.crashed && h in s.p.handlers && s.p.handlers[h].phase.HoldsLock()
    ensures CanProgress(s)
  {
    if s.p.handlers[h].phase.Sent? {
      AwaitingProgresses(s, h);
    } else {
      assert PhaseOk(s.p, h);
      WorkingProgresses(s, h);
    }
  }

  lemma WorkingProgresses(s: System, h: Hid)
    requires !s.crashed && h in s.p.handlers && PhaseOk(s.p, h) && !s.p.handlers[h].req.ApplyReq?
    requires s.p.handlers[h].phase.HoldsLock() && !s.p.handlers[h].phase.Sent?
    ensures CanProgress(s)
  {
    HolderCanStep(s.p, h);
    var a := HolderAct(s.p.handlers[h].phase, h, false);
    var m := if a.Release? then PRelease(h) else if a.NoReplica? then PSend(h) else PStep(a);
    assert IsProgress(m) && CanMove(s, m);
  }

  lemma PrimaryProgresses(s: System, h: Hid)
    requires SysInv(s) && !s.crashed && h in s.p.handlers && !s.p.handlers[h].phase.Done?
    ensures CanProgress(s)
  {
    if s.p.handlers[h].phase.HoldsLock() {
      PrimaryHolderProgresses(s, h);
    } else {
      var t := s.p.handlers[h].req.Table();
      if t in s.p.locks {
        PrimaryHolderProgresses(s, s.p.locks[t]);
      } else {
        var m := PStep(Acquire(h));
        assert IsProgress(m) && CanMove(s, m);
      }
    }
  }

  ghost predicate HasUnfinished(s: System) {
    || (!s.crashed && exists h :: h in s.p.handlers && !s.p.handlers[h].phase.Done?)
    || (exists h :: h in s.b.handlers && !s.b.handlers[h].phase.Done?)
  }

  /** Deadlock freedom: in every reachable state with an unfinished handler on a running node,
      something other than a timeout or a fault can happen. */
  lemma NoDeadlock(cfg: Config, s: System)
    requires Reachable(cfg, s) && HasUnfinished(s)
    ensures CanProgress(s)
  {
    ReachableSysInv(cfg, s);
    if h :| h in s.b.handlers && !s.b.handlers[h].phase.Done? {
      BackupProgresses(s, h);
    } else {
      var h :| h in s.p.handlers && !s.p.handlers[h].phase.Done?;
      PrimaryProgresses(s, h);
    }
  }

  // ---------- Termination ----------

  /** An upper bound on the moves a handler and its message still have to make. */
  function Rank(x: Handler): nat {
    match x.phase
    case Waiting => if x.req.ApplyReq? then 5 else 17
    case Locked => if x.req.ApplyReq? then 4 else 16
    case Checked(_) => 15
    case Stamped(_) => 14
    case Sent(_) => 6
    case Acked(_) => 5
    case Advanced(_) => 3
    case Committed(_) => 2
    case Refused(_) => 1
    case Done(_) => 0
  }

  ghost function Total(m: map<Hid, Handler>): nat
    decreases |m|
  {
    if m == map[] then 0
    else var h :| h in m; Rank(m[h]) + Total(m - {h})
  }

  lemma {:induction false} TotalWithout(m: map<Hid, Handler>, h: Hid)
    requires h in m
    ensures Total(m) == Rank(m[h]) + Total(m - {h})
    decreases |m|
  {
    var g :| g in m && Total(m) == Rank(m[g]) + Total(m - {g});
    if g != h {
      TotalWithout(m - {g}, h);
      TotalWithout(m - {h}, g);
      assert m - {g} - {h} == m - {h} - {g};
    }
  }

  lemma TotalUpdate(m: map<Hid, Handler>, h: Hid, x: Handler)
    ensures Total(m[h := x]) == Total(m) + Rank(x) - if h in m then Rank(m[h]) else 0
  {
    TotalWithout(m[h := x], h);
    assert m[h := x] - {h} == m - {h};
    if h in m {
      TotalWithout(m, h);
    } else {
      assert m - {h} == m;
    }
  }

  /** Messages that may still be delivered. */
  ghost function InTransit(s: System): set<Hid> {
    s.net.Keys - s.lost - s.b.handlers.Keys
  }

  ghost function Measure(s: System): nat {
    Total(s.p.handlers) + Total(s.b.handlers) + 6 * |InTransit(s)|
    + (if s.crashed then 0 else 1) + (if s.promoted then 0 else 1)
  }

  function NewWork(m: Move): nat {
    if m.PStart? || m.BStart? then 18 else 0
  }

  lemma RankFalls(n: Node, a: Act)
    requires Enabled(n, a) && !a.Start?
    requires PhaseOk(n, a.h)
    ensures a.h in Next(n, a).handlers && Rank(Next(n, a).handlers[a.h]) < Rank(n.handlers[a.h])
    ensures a.Send? ==> Rank(Next(n, a).handlers[a.h]) + 8 == Rank(n.handlers[a.h])
  {
  }

  lemma RankOfNew(n: Node, a: Act)
    requires Enabled(n, a) && a.Start?
    ensures a.h in Next(n, a).handlers
    ensures Rank(Next(n, a).handlers[a.h]) <= if a.req.ApplyReq? then 5 else 17
  {
  }

  lemma TransitFrame(s: System, m: Move)
    requires CanMove(s, m)
    ensures m.PSend? ==> InTransit(Moved(s, m)) <= InTransit(s) + {m.h}
    ensures m.Lose? || m.Deliver? ==> m.h in InTransit(s) && InTransit(Moved(s, m)) == InTransit(s) - {m.h}
    ensures !m.PSend? && !m.Lose? && !m.Deliver? ==> InTransit(Moved(s, m)) <= InTransit(s)
  {
    MoveFrame(s, m);
    if NodeAct(s, m).Some? {
      MoveNet(s, m);
    }
  }

  lemma MoveNet(s: System, m: Move)
    requires CanMove(s, m)
    ensures !m.PSend? ==> Moved(s, m).net == s.net
    ensures m.PSend? ==> Moved(s, m).net.Keys == s.net.Keys + {m.h}
    ensures m.Lose? ==> Moved(s, m).lost == s.lost + {m.h}
    ensures !m.Lose? ==> Moved(s, m).lost == s.lost
    ensures m.Deliver? ==> m.h in Moved(s, m).b.handlers
    ensures !m.Promote? ==> Moved(s, m).promoted == s.promoted
    ensures m.PSend? <==> OnPrimary(m) && NodeAct(s, m).value.Send?
    ensures m.PStart? || m.BStart? || m.Deliver? <==> NodeAct(s, m).Some? && NodeAct(s, m).value.Start?
    ensures NodeAct(s, m).Some? && NodeAct(s, m).value.Start? ==> (NodeAct(s, m).value.req.ApplyReq? <==> m.Deliver?)
    ensures m.Deliver? ==> NodeAct(s, m).value.h == m.h
  {
  }

  lemma TransitCount(before: set<Hid>, after: set<Hid>, h: Hid)
    ensures after <= before ==> |after| <= |before|
    ensures after <= before + {h} ==> |after| <= |before| + 1
    ensures h in before && after == before - {h} ==> |after| == |before| - 1
  {
    SubsetCount(after, before);
    SubsetCount(after, before + {h});
  }

  lemma {:induction false} SubsetCount(a: set<Hid>, b: set<Hid>)
    ensures a <= b ==> |a| <= |b|
  {
    if a <= b {
      assert b == a + (b - a);
    }
  }

  lemma IdleLowersMeasure(s: System, m: Move)
    requires CanMove(s, m) && NodeAct(s, m).None?
    ensures Measure(Moved(s, m)) + 1 <= Measure(s) + NewWork(m)
  {
    MoveFrame(s, m);
    MoveNet(s, m);
    TransitFrame(s, m);
    TransitCount(InTransit(s), InTransit(Moved(s, m)), if m.Lose? then m.h else 0);
  }

  lemma StepLowersTotal(n: Node, a: Act)
    requires Enabled(n, a) && (a.h in n.handlers ==> PhaseOk(n, a.h))
    ensures var before, after := Total(n.handlers), Total(Next(n, a).handlers);
            && (a.Start? ==> after <= before + if a.req.ApplyReq? then 5 else 17)
            && (!a.Start? ==> after < before)
            && (a.Send? ==> after + 8 == before)
  {
    StepTouches(n, a);
    if a.Start? {
      RankOfNew(n, a);
    } else {
      RankFalls(n, a);
    }
    TotalUpdate(n.handlers, a.h, Next(n, a).handlers[a.h]);
  }

  /** Every move but the arrival of a request makes the measure smaller; an arriving request
      adds at most 18 to it, its own arrival included. */
  lemma MoveLowersMeasure(s: System, m: Move)
    requires SysInv(s) && CanMove(s, m)
    ensures Measure(Moved(s, m)) + 1 <= Measure(s) + NewWork(m)
  {
    match NodeAct(s, m)
    case None => IdleLowersMeasure(s, m);
    case Some(a) =>
      var n := if OnPrimary(m) then s.p else s.b;
      assert a.h in n.handlers ==> PhaseOk(n, a.h);
      StepLowersMeasure(s, m, n);
  }

  lemma StepLowersMeasure(s: System, m: Move, n: Node)
    requires CanMove(s, m) && NodeAct(s, m).Some? && n == if OnPrimary(m) then s.p else s.b
    requires NodeAct(s, m).value.h in n.handlers ==> PhaseOk(n, NodeAct(s, m).value.h)
    ensures Measure(Moved(s, m)) + 1 <= Measure(s) + NewWork(m)
  {
    var a := NodeAct(s, m).value;
    MoveIsNodeStep(s, m);
    MoveFrame(s, m);
    MoveNet(s, m);
    TransitFrame(s, m);
    StepLowersTotal(n, a);
    TransitCount(InTransit(s), InTransit(Moved(s, m)), a.h);
    SendIsOwn(s, m);
  }

  lemma SendIsOwn(s: System, m: Move)
    requires CanMove(s, m)
    ensures m.PSend? ==> NodeAct(s, m).value.h == m.h
  {
  }

  function Requests(moves: seq<Move>): nat {
    if |moves| == 0 then 0
    else Requests(moves[..|moves| - 1]) + if moves[|moves| - 1].PStart? || moves[|moves| - 1].BStart? then 1 else 0
  }

  lemma NextLowersMeasure(cfg: Config, states: seq<System>, moves: seq<Move>, i: nat, s: System)
    requires IsRun(cfg, states, moves) && i < |moves| && s == states[i]
    ensures Measure(Moved(s, moves[i])) + 1 <= Measure(s) + NewWork(moves[i])
  {
    RunKeepsSysInv(cfg, states, moves, i);
    MoveLowersMeasure(s, moves[i]);
  }

  lemma OneMoreRequest(moves: seq<Move>, i: nat)
    requires i < |moves|
    ensures 18 * Requests(moves[..i + 1]) == 18 * Requests(moves[..i]) + NewWork(moves[i])
  {
    assert moves[..i + 1][..i] == moves[..i];
  }

  lemma {:induction false} MovesSoFar(cfg: Config, states: seq<System>, moves: seq<Move>, i: nat)
    requires IsRun(cfg, states, moves) && i <= |moves|
    ensures i + Measure(states[i]) <= 2 + 18 * Requests(moves[..i])
  {
    if i == 0 {
      assert InTransit(states[0]) == {};
    } else {
      MovesSoFar(cfg, states, moves, i - 1);
      NextLowersMeasure(cfg, states, moves, i - 1, states[i - 1]);
      OneMoreRequest(moves, i - 1);
    }
  }

  /** Termination: a run in which N requests arrive has at most 18 * N + 2 moves, whatever is
      lost, delayed or timed out. */
  lemma RunsAreShort(cfg: Config, states: seq<System>, moves: seq<Move>)
    requires IsRun(cfg, states, moves)
    ensures |moves| <= 2 + 18 * Requests(moves)
  {
    MovesSoFar(cfg, states, moves, |moves|);
    assert moves[..|moves|] == moves;
  }

  /** A run that cannot progress has finished every handler of a running node and
      released all of that node's locks. */
  lemma StuckMeansFinished(cfg: Config, s: System)
    requires Reachable(cfg, s) && !CanProgress(s)
    ensures !HasUnfinished(s)
    ensures s.b.locks == map[] && (!s.crashed ==> s.p.locks == map[])
  {
    if HasUnfinished(s) {
      NoDeadlock(cfg, s);
    }
    ReachableSysInv(cfg, s);
    assert forall t :: t !in s.b.locks;
    assert !s.crashed ==> forall t :: t !in s.p.locks;
  }
}
