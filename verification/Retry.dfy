/** The gateway's retry on the backup: a request the primary was interrupted in, repeated on
    the backup, leaves what ONE execution of it leaves.
*/
module Retry {
  import opened Records
  import opened NodeModel
  import opened SystemModel
  import opened Resync

  /** What one execution of a client request makes of the key, timestamps and creation times aside. */
  function Once(cfg: Config, req: Request, before: Option<Record>): Option<Record>
    requires !req.ApplyReq?
  {
    match req
    case BookReq(t, d, s, customer, party, contact) =>
      if before.Some? then before
      else Some(Record(cfg.restaurant, t, d, s, customer, party.GetOr(1), contact.GetOr(""), 0.0, 0))
    case CancelReq(_, _, _) => None
  }

  /** The request found the key in the state it needs: free for a booking, taken for a cancellation. */
  predicate Applicable(req: Request, before: Option<Record>) {
    req.BookReq? <==> before.None?
  }

  /** Handler `h` is the only one to write its key since the key held `before`. */
  ghost predicate Alone(n: Node, h: Hid, req: Request, before: Option<Record>) {
    && h in n.handlers && n.handlers[h].req == req && !req.ApplyReq?
    && var now := Lookup(n.store, KeyOf(n.cfg, req));
       match n.handlers[h].phase
       case Waiting => now == before
       case Locked => now == before
       case Committed(w) => Matches(n.cfg, req, w) && now == w.Effect() && Applicable(req, before)
       case Done(Ok(w)) => Matches(n.cfg, req, w) && now == w.Effect() && Applicable(req, before)
       case Refused(AlreadyBooked) => now == before && req.BookReq? && before.Some?
       case Done(Err(AlreadyBooked)) => now == before && req.BookReq? && before.Some?
       case Refused(NothingToCancel) => now == before && req.CancelReq? && before.None?
       case Done(Err(NothingToCancel)) => now == before && req.CancelReq? && before.None?
       case Refused(ReplicationFailed(w)) => now == before && Applicable(req, before)
       case Done(Err(ReplicationFailed(w))) => now == before && Applicable(req, before)
       case Refused(_) => now == before
       case Done(_) => now == before
       case _ => now == before && Applicable(req, before)
  }

  /** This step writes the key on behalf of another handler. */
  predicate WritesForOther(n: Node, a: Act, k: Key, h: Hid)
    requires Enabled(n, a)
  {
    a.Commit? && a.h != h && n.handlers[a.h].phase.w.key == k
  }

  lemma StepKeepsAlone(n: Node, a: Act, h: Hid, req: Request, before: Option<Record>)
    requires h in n.handlers && PhaseOk(n, h)
    requires Alone(n, h, req, before) && Enabled(n, a)
    requires !WritesForOther(n, a, KeyOf(n.cfg, req), h)
    ensures Alone(Next(n, a), h, req, before)
  {
    if a.h == h {
      OwnStepKeepsAlone(n, a, req, before);
    } else {
      StepTouches(n, a);
      StoreAfter(n, a, KeyOf(n.cfg, req), h);
    }
  }

  lemma StoreAfter(n: Node, a: Act, k: Key, h: Hid)
    requires Enabled(n, a) && a.h != h && !WritesForOther(n, a, k, h)
    ensures Lookup(Next(n, a).store, k) == Lookup(n.store, k)
  {
  }

  lemma OwnStepKeepsAlone(n: Node, a: Act, req: Request, before: Option<Record>)
    requires a.h in n.handlers && PhaseOk(n, a.h)
    requires Alone(n, a.h, req, before) && Enabled(n, a)
    ensures Alone(Next(n, a), a.h, req, before)
  {
  }

  // ---------- The first attempt, on the primary ----------

  /** What the backup holds for the key while the first attempt runs or lies interrupted. */
  ghost predicate FirstAttempt(s: System, h: Hid, req: Request, before: Option<Record>) {
    && Alone(s.p, h, req, before)
    && var now := Lookup(s.b.store, KeyOf(s.p.cfg, req));
       if NotYetApplied(s, h) then now == before
       else
         && HasSent(s.p.handlers[h].phase)
         && Matches(s.p.cfg, req, s.p.handlers[h].phase.Stamp().value)
         && now == s.p.handlers[h].phase.Stamp().value.Effect()
         && Applicable(req, before)
  }

  /** This move writes the key on behalf of a handler other than `h`, on either node. */
  predicate Interferes(s: System, m: Move, k: Key, h: Hid)
    requires CanMove(s, m)
  {
    (m.PStep? && WritesForOther(s.p, m.a, k, h)) || (m.BStep? && WritesForOther(s.b, m.a, k, h))
  }

  lemma PrimaryNotOther(s: System, m: Move, k: Key, h: Hid)
    requires CanMove(s, m) && OnPrimary(m) && !Interferes(s, m, k, h)
    ensures Enabled(s.p, NodeAct(s, m).value) && !WritesForOther(s.p, NodeAct(s, m).value, k, h)
  {
  }

  lemma SentApplicable(s: System, h: Hid, req: Request, before: Option<Record>)
    requires Alone(s.p, h, req, before) && PhaseOk(s.p, h) && HasSent(s.p.handlers[h].phase)
    ensures Applicable(req, before) && Matches(s.p.cfg, req, s.p.handlers[h].phase.Stamp().value)
  {
  }

  lemma PrimaryKeepsFirstAttempt(s: System, m: Move, h: Hid, req: Request, before: Option<Record>)
    requires SysInv(s) && FirstAttempt(s, h, req, before)
    requires CanMove(s, m) && OnPrimary(m) && !Interferes(s, m, KeyOf(s.p.cfg, req), h)
    ensures FirstAttempt(Moved(s, m), h, req, before)
  {
    var s' := Moved(s, m);
    var a := NodeAct(s, m).value;
    assert PhaseOk(s.p, h);
    MoveKeepsNodeInvs(s, m);
    assert a.h in s.p.handlers ==> PhaseOk(s.p, a.h) && !s.p.handlers[a.h].req.ApplyReq?;
    PrimaryAttemptStep(s, s', m, h, req, before);
  }

  lemma PrimaryAttemptStep(s: System, s': System, m: Move, h: Hid, req: Request, before: Option<Record>)
    requires FirstAttempt(s, h, req, before) && PhaseOk(s.p, h)
    requires CanMove(s, m) && OnPrimary(m) && !Interferes(s, m, KeyOf(s.p.cfg, req), h) && s' == Moved(s, m)
    requires var a := NodeAct(s, m).value; a.h in s.p.handlers ==> PhaseOk(s.p, a.h) && !s.p.handlers[a.h].req.ApplyReq?
    ensures FirstAttempt(s', h, req, before)
  {
    var a := NodeAct(s, m).value;
    MoveIsNodeStep(s, m);
    MoveFrame(s, m);
    PrimaryNotOther(s, m, KeyOf(s.p.cfg, req), h);
    StepKeepsAlone(s.p, a, h, req, before);
    PrimaryActs(s, m);
    if a.h == h {
      StepInExchange(s.p, a);
    }
  }

  lemma PrimaryActs(s: System, m: Move)
    requires CanMove(s, m) && OnPrimary(m)
    ensures var a := NodeAct(s, m).value; !a.NoReplica? && !a.Advance? && (a.Start? ==> !a.req.ApplyReq?)
  {
  }

  /** The backup's own step: applying the attempt's message, or something else entirely. */
  lemma BackupKeepsFirstAttempt(s: System, m: Move, h: Hid, req: Request, before: Option<Record>)
    requires SysInv(s) && FirstAttempt(s, h, req, before)
    requires CanMove(s, m) && !OnPrimary(m) && !Interferes(s, m, KeyOf(s.p.cfg, req), h)
    ensures FirstAttempt(Moved(s, m), h, req, before)
  {
    var s' := Moved(s, m);
    MoveFrame(s, m);
    if m.BStep? && m.a.Commit? && m.a.h == h {
      AppliesAttempt(s, h);
      assert PhaseOk(s.p, h);
      SentApplicable(s, h, req, before);
      CommitOf(s, m);
      assert s'.b.hist[|s.b.hist|].h == h;
    } else {
      OtherBackupMove(s, m, KeyOf(s.p.cfg, req), h);
      assert NotYetApplied(s', h) <==> NotYetApplied(s, h);
    }
  }

  lemma AppliesAttempt(s: System, h: Hid)
    requires SysInv(s) && h in s.p.handlers
    requires h in s.b.handlers && (s.b.handlers[h].phase.Acked? || s.b.handlers[h].phase.Advanced?)
    ensures HasSent(s.p.handlers[h].phase) && s.p.handlers[h].phase.Stamp() == Some(s.b.handlers[h].phase.w)
  {
  }

  lemma CommitOf(s: System, m: Move)
    requires CanMove(s, m) && m.BStep? && m.a.Commit?
    ensures var w := s.b.handlers[m.a.h].phase.w;
            && Moved(s, m).b.store == Apply(s.b.store, w)
            && Moved(s, m).b.hist == s.b.hist + [Event(m.a.h, w, s.b.handlers[m.a.h].req.ApplyReq?)]
            && Moved(s, m).p == s.p
  {
  }

  lemma OtherBackupMove(s: System, m: Move, k: Key, h: Hid)
    requires CanMove(s, m) && !OnPrimary(m) && !Interferes(s, m, k, h)
    requires !(m.BStep? && m.a.Commit? && m.a.h == h)
    ensures Moved(s, m).p == s.p
    ensures Lookup(Moved(s, m).b.store, k) == Lookup(s.b.store, k)
    ensures Moved(s, m).b.hist == s.b.hist
            || exists e: Event :: e.h != h && Moved(s, m).b.hist == s.b.hist + [e]
  {
  }

  lemma MoveKeepsFirstAttempt(s: System, m: Move, h: Hid, req: Request, before: Option<Record>)
    requires SysInv(s) && FirstAttempt(s, h, req, before)
    requires CanMove(s, m) && !Interferes(s, m, KeyOf(s.p.cfg, req), h)
    ensures FirstAttempt(Moved(s, m), h, req, before)
  {
    if OnPrimary(m) {
      PrimaryKeepsFirstAttempt(s, m, h, req, before);
    } else {
      BackupKeepsFirstAttempt(s, m, h, req, before);
    }
  }

  lemma ConfigFixed(s: System, m: Move)
    requires CanMove(s, m)
    ensures Moved(s, m).p.cfg == s.p.cfg && Moved(s, m).b.cfg == s.b.cfg
  {
    MoveFrame(s, m);
  }

  lemma {:induction false} RunConfig(cfg: Config, states: seq<System>, moves: seq<Move>, i: nat)
    requires IsRun(cfg, states, moves) && i <= |moves|
    ensures states[i].p.cfg == cfg && states[i].b.cfg == cfg
  {
    if i > 0 {
      RunConfig(cfg, states, moves, i - 1);
      ConfigFixed(states[i - 1], moves[i - 1]);
    }
  }

  lemma AttemptStarts(s: System, m: Move, before: Option<Record>)
    requires SysInv(s) && CanMove(s, m) && m.PStart?
    requires Lookup(s.p.store, KeyOf(s.p.cfg, m.req)) == before == Lookup(s.b.store, KeyOf(s.p.cfg, m.req))
    ensures FirstAttempt(Moved(s, m), m.h, m.req, before)
  {
  }

  lemma FirstAttemptBegins(cfg: Config, states: seq<System>, moves: seq<Move>, s: System, m: Move, i: nat,
                           before: Option<Record>)
    requires IsRun(cfg, states, moves) && i < |moves| && s == states[i] && m == moves[i] && m.PStart?
    requires Lookup(s.p.store, KeyOf(cfg, m.req)) == before == Lookup(s.b.store, KeyOf(cfg, m.req))
    ensures FirstAttempt(Moved(s, m), m.h, m.req, before)
  {
    RunConfig(cfg, states, moves, i);
    RunKeepsSysInv(cfg, states, moves, i);
    AttemptStarts(s, m, before);
  }

  lemma FirstAttemptGoesOn(cfg: Config, states: seq<System>, moves: seq<Move>, s: System, m: Move, x: nat,
                           h: Hid, req: Request, before: Option<Record>)
    requires IsRun(cfg, states, moves) && x < |moves| && s == states[x] && m == moves[x]
    requires FirstAttempt(s, h, req, before) && !Interferes(s, m, KeyOf(cfg, req), h)
    ensures FirstAttempt(Moved(s, m), h, req, before)
  {
    RunConfig(cfg, states, moves, x);
    RunKeepsSysInv(cfg, states, moves, x);
    MoveKeepsFirstAttempt(s, m, h, req, before);
  }

  /** From the request's arrival on, as long as nobody else writes the key, the backup holds either the
      value from before the request or the effect of the request's own write. */
  lemma {:induction false} FirstAttemptRuns(cfg: Config, states: seq<System>, moves: seq<Move>, h: Hid, req: Request,
                                            before: Option<Record>, i: nat, j: nat)
    requires IsRun(cfg, states, moves) && i < j <= |moves|
    requires moves[i] == PStart(h, req)
    requires Lookup(states[i].p.store, KeyOf(cfg, req)) == before == Lookup(states[i].b.store, KeyOf(cfg, req))
    requires forall x | i < x < j :: !Interferes(states[x], moves[x], KeyOf(cfg, req), h)
    ensures FirstAttempt(states[j], h, req, before)
  {
    if j == i + 1 {
      FirstAttemptBegins(cfg, states, moves, states[i], moves[i], i, before);
    } else {
      FirstAttemptRuns(cfg, states, moves, h, req, before, i, j - 1);
      FirstAttemptGoesOn(cfg, states, moves, states[j - 1], moves[j - 1], j - 1, h, req, before);
    }
  }

  // ---------- The second attempt, on the backup ----------

  predicate Written(phase: Phase) {
    phase.Committed? || (phase.Done? && phase.outcome.Ok?)
  }

  /** What the second attempt knows of the first by how far it got; `applied` says that the backup
      has applied the first attempt's message. */
  predicate SecondPhaseOk(phase: Phase, req: Request, before: Option<Record>, applied: bool) {
    match phase
    case Waiting => true
    case Locked => true
    case Committed(_) => Applicable(req, before)
    case Done(Ok(_)) => Applicable(req, before)
    case Refused(AlreadyBooked) => req.BookReq? && (before.Some? || applied)
    case Done(Err(AlreadyBooked)) => req.BookReq? && (before.Some? || applied)
    case Refused(NothingToCancel) => req.CancelReq? && (before.None? || applied)
    case Done(Err(NothingToCancel)) => req.CancelReq? && (before.None? || applied)
    case Refused(_) => true
    case Done(_) => true
    case _ => !applied && Applicable(req, before)  // checked, and inside the lock since
  }

  /** While handler `h` repeats the request, the key holds what one execution leaves as soon as either
      attempt has written it, and the value from before the request until then. */
  ghost predicate Second(n: Node, h: Hid, req: Request, before: Option<Record>, applied: bool) {
    && h in n.handlers && n.handlers[h].req == req && !req.ApplyReq?
    && (applied ==> Applicable(req, before))
    && SecondPhaseOk(n.handlers[h].phase, req, before, applied)
    && EraseOption(Lookup(n.store, KeyOf(n.cfg, req))) ==
         if applied || Written(n.handlers[h].phase) then Once(n.cfg, req, EraseOption(before)) else EraseOption(before)
  }

  lemma SecondOwnStep(n: Node, a: Act, req: Request, before: Option<Record>, applied: bool)
    requires a.h in n.handlers && PhaseOk(n, a.h)
    requires Second(n, a.h, req, before, applied) && Enabled(n, a)
    ensures Second(Next(n, a), a.h, req, before, applied)
  {
    if a.Commit? {
      SecondCommits(n, a, req, before, applied);
    } else if a.Check? {
      SecondChecks(n, a, req, before, applied);
    } else {
      SecondMovesOn(n, a, req, before, applied);
    }
  }

  lemma SecondCommits(n: Node, a: Act, req: Request, before: Option<Record>, applied: bool)
    requires a.h in n.handlers && PhaseOk(n, a.h)
    requires Second(n, a.h, req, before, applied) && Enabled(n, a) && a.Commit?
    ensures Second(Next(n, a), a.h, req, before, applied)
  {
    EffectIsOnce(n.cfg, req, before, n.handlers[a.h].phase.w);
  }

  lemma SecondChecks(n: Node, a: Act, req: Request, before: Option<Record>, applied: bool)
    requires a.h in n.handlers
    requires Second(n, a.h, req, before, applied) && Enabled(n, a) && a.Check?
    ensures Second(Next(n, a), a.h, req, before, applied)
  {
  }

  lemma SecondMovesOn(n: Node, a: Act, req: Request, before: Option<Record>, applied: bool)
    requires a.h in n.handlers && PhaseOk(n, a.h)
    requires Second(n, a.h, req, before, applied) && Enabled(n, a) && !a.Commit? && !a.Check?
    ensures Second(Next(n, a), a.h, req, before, applied)
  {
  }

  lemma SecondOtherStep(n: Node, a: Act, h: Hid, req: Request, before: Option<Record>, applied: bool)
    requires Second(n, h, req, before, applied) && Enabled(n, a) && a.h != h
    requires !WritesForOther(n, a, KeyOf(n.cfg, req), h)
    ensures Second(Next(n, a), h, req, before, applied)
  {
    StepTouches(n, a);
    StoreAfter(n, a, KeyOf(n.cfg, req), h);
  }

  /** Whoever applies a message holds its table's lock, so nobody else is inside. */
  lemma ApplierExcludes(n: Node, g: Hid, h: Hid)
    requires NodeInv(n) && g in n.handlers && h in n.handlers && g != h
    requires n.handlers[g].phase.HoldsLock() && n.handlers[g].req.Table() == n.handlers[h].req.Table()
    ensures n.handlers[h].phase.Waiting? || n.handlers[h].phase.Done?
  {
  }

  /** The first attempt's message is applied only now: the second is still waiting for the lock, or done. */
  lemma FirstLandsLate(n: Node, a: Act, h: Hid, req: Request, before: Option<Record>, applied: bool)
    requires NodeInv(n) && Second(n, h, req, before, applied) && Enabled(n, a)
    requires a.Commit? && a.h != h && n.handlers[a.h].req.ApplyReq?
    requires Matches(n.cfg, req, n.handlers[a.h].phase.w) && Applicable(req, before)
    ensures Second(Next(n, a), h, req, before, true)
  {
    assert PhaseOk(n, a.h);
    ApplierExcludes(n, a.h, h);
    StepTouches(n, a);
    EffectIsOnce(n.cfg, req, before, n.handlers[a.h].phase.w);
  }

  lemma EffectIsOnce(cfg: Config, req: Request, before: Option<Record>, w: Write)
    requires !req.ApplyReq? && Matches(cfg, req, w) && Applicable(req, before)
    ensures w.key == KeyOf(cfg, req) && EraseOption(w.Effect()) == Once(cfg, req, EraseOption(before))
  {
  }

  ghost predicate BothAttempts(s: System, g: Hid, h: Hid, req: Request, before: Option<Record>) {
    Alone(s.p, g, req, before) && g != h && Second(s.b, h, req, before, !NotYetApplied(s, g))
  }

  /** This move writes the key on behalf of a handler of neither attempt. */
  predicate ThirdParty(s: System, m: Move, k: Key, g: Hid, h: Hid)
    requires CanMove(s, m)
  {
    || (m.PStep? && WritesForOther(s.p, m.a, k, g))
    || (m.BStep? && m.a.h != g && WritesForOther(s.b, m.a, k, h))
  }

  lemma SecondStarts(s: System, s': System, m: Move, g: Hid, before: Option<Record>)
    requires s.p.cfg == s.b.cfg && CanMove(s, m) && m.BStart? && s' == Moved(s, m)
    requires FirstAttempt(s, g, m.req, before)
    ensures BothAttempts(s', g, m.h, m.req, before)
  {
    if !NotYetApplied(s, g) {
      EffectIsOnce(s.p.cfg, m.req, before, s.p.handlers[g].phase.Stamp().value);
    }
    assert s'.p == s.p && s'.b.store == s.b.store && s'.b.hist == s.b.hist;
    assert NotYetApplied(s', g) <==> NotYetApplied(s, g);
  }

  lemma PrimaryKeepsBoth(s: System, s': System, m: Move, g: Hid, h: Hid, req: Request, before: Option<Record>)
    requires BothAttempts(s, g, h, req, before) && PhaseOk(s.p, g)
    requires CanMove(s, m) && OnPrimary(m) && !ThirdParty(s, m, KeyOf(s.p.cfg, req), g, h) && s' == Moved(s, m)
    ensures BothAttempts(s', g, h, req, before)
  {
    MoveIsNodeStep(s, m);
    MoveFrame(s, m);
    PrimaryNotOther(s, m, KeyOf(s.p.cfg, req), g);
    StepKeepsAlone(s.p, NodeAct(s, m).value, g, req, before);
    assert NotYetApplied(s', g) <==> NotYetApplied(s, g);
  }

  /** The backup applies the first attempt's message. */
  lemma LateCommitKeepsBoth(s: System, m: Move, g: Hid, h: Hid, req: Request, before: Option<Record>)
    requires SysInv(s) && BothAttempts(s, g, h, req, before)
    requires CanMove(s, m) && m.BStep? && m.a.Commit? && m.a.h == g
    ensures BothAttempts(Moved(s, m), g, h, req, before)
  {
    AppliesAttempt(s, g);
    assert PhaseOk(s.p, g);
    SentApplicable(s, g, req, before);
    MoveIsNodeStep(s, m);
    CommitOf(s, m);
    FirstLandsLate(s.b, m.a, h, req, before, !NotYetApplied(s, g));
    assert Moved(s, m).b.hist[|s.b.hist|].h == g;
  }

  lemma BackupKeepsBoth(s: System, s': System, m: Move, g: Hid, h: Hid, req: Request, before: Option<Record>)
    requires BothAttempts(s, g, h, req, before) && PhaseOk(s.b, h) && s.p.cfg == s.b.cfg
    requires CanMove(s, m) && !OnPrimary(m) && !ThirdParty(s, m, KeyOf(s.p.cfg, req), g, h) && s' == Moved(s, m)
    requires !(m.BStep? && m.a.Commit? && m.a.h == g)
    ensures BothAttempts(s', g, h, req, before)
  {
    MoveIsNodeStep(s, m);
    MoveFrame(s, m);
    OtherHistory(s, m, g);
    if NodeAct(s, m).Some? {
      var a := NodeAct(s, m).value;
      if a.h == h {
        SecondOwnStep(s.b, a, req, before, !NotYetApplied(s, g));
      } else {
        SecondOtherStep(s.b, a, h, req, before, !NotYetApplied(s, g));
      }
    }
  }

  lemma OtherHistory(s: System, m: Move, g: Hid)
    requires CanMove(s, m) && !OnPrimary(m) && !(m.BStep? && m.a.Commit? && m.a.h == g)
    ensures Moved(s, m).p == s.p
    ensures NotYetApplied(Moved(s, m), g) <==> NotYetApplied(s, g)
  {
  }

  lemma MoveKeepsBoth(s: System, m: Move, g: Hid, h: Hid, req: Request, before: Option<Record>)
    requires SysInv(s) && BothAttempts(s, g, h, req, before)
    requires CanMove(s, m) && !ThirdParty(s, m, KeyOf(s.p.cfg, req), g, h)
    ensures BothAttempts(Moved(s, m), g, h, req, before)
  {
    assert PhaseOk(s.p, g) && PhaseOk(s.b, h);
    if OnPrimary(m) {
      PrimaryKeepsBoth(s, Moved(s, m), m, g, h, req, before);
    } else if m.BStep? && m.a.Commit? && m.a.h == g {
      LateCommitKeepsBoth(s, m, g, h, req, before);
    } else {
      BackupKeepsBoth(s, Moved(s, m), m, g, h, req, before);
    }
  }

  lemma BothGoOn(cfg: Config, states: seq<System>, moves: seq<Move>, s: System, m: Move, x: nat,
                 g: Hid, h: Hid, req: Request, before: Option<Record>)
    requires IsRun(cfg, states, moves) && x < |moves| && s == states[x] && m == moves[x]
    requires BothAttempts(s, g, h, req, before) && !ThirdParty(s, m, KeyOf(cfg, req), g, h)
    ensures BothAttempts(Moved(s, m), g, h, req, before)
  {
    RunConfig(cfg, states, moves, x);
    RunKeepsSysInv(cfg, states, moves, x);
    MoveKeepsBoth(s, m, g, h, req, before);
  }

  /** From the second attempt's arrival on, as long as no third handler writes the key. */
  lemma {:induction false} BothAttemptsRun(cfg: Config, states: seq<System>, moves: seq<Move>,
                                           g: Hid, h: Hid, req: Request, before: Option<Record>, j: nat, l: nat)
    requires IsRun(cfg, states, moves) && j < l <= |moves|
    requires moves[j] == BStart(h, req) && FirstAttempt(states[j], g, req, before)
    requires forall x | j < x < l :: !ThirdParty(states[x], moves[x], KeyOf(cfg, req), g, h)
    ensures BothAttempts(states[l], g, h, req, before)
  {
    if l == j + 1 {
      RunConfig(cfg, states, moves, j);
      SecondStarts(states[j], states[l], moves[j], g, before);
    } else {
      BothAttemptsRun(cfg, states, moves, g, h, req, before, j, l - 1);
      BothGoOn(cfg, states, moves, states[l - 1], moves[l - 1], l - 1, g, h, req, before);
    }
  }

  /** The request was processed: done, or refused for the state of its key. */
  predicate Processed(phase: Phase) {
    phase.Done? && (phase.outcome.Ok? || phase.outcome.why.AlreadyBooked? || phase.outcome.why.NothingToCancel?)
  }

  lemma SecondResult(n: Node, h: Hid, req: Request, before: Option<Record>, applied: bool)
    requires Second(n, h, req, before, applied) && Processed(n.handlers[h].phase)
    ensures EraseOption(Lookup(n.store, KeyOf(n.cfg, req))) == Once(n.cfg, req, EraseOption(before))
  {
  }

  /** Retry is at-most-once in effect.  The request starts on the primary at move i, when both
      nodes hold the same for its key; it is interrupted anywhere, or answered and the answer
      lost; at move j it is repeated on the backup, where it is processed by state l.  The first
      attempt's message may be applied before, during or after the second attempt, or never; no
      third handler writes the key.  Then the backup holds for the key what exactly one
      execution of the request leaves. */
  lemma RetryIsAtMostOnce(cfg: Config, states: seq<System>, moves: seq<Move>, req: Request,
                          g: Hid, h: Hid, i: nat, j: nat, l: nat)
    requires IsRun(cfg, states, moves) && i < j < l <= |moves|
    requires moves[i] == PStart(g, req) && moves[j] == BStart(h, req)
    requires Lookup(states[i].p.store, KeyOf(cfg, req)) == Lookup(states[i].b.store, KeyOf(cfg, req))
    requires forall x | i < x < j :: !Interferes(states[x], moves[x], KeyOf(cfg, req), g)
    requires forall x | j < x < l :: !ThirdParty(states[x], moves[x], KeyOf(cfg, req), g, h)
    requires h in states[l].b.handlers && Processed(states[l].b.handlers[h].phase)
    ensures EraseOption(Lookup(states[l].b.store, KeyOf(cfg, req)))
         == Once(cfg, req, EraseOption(Lookup(states[i].b.store, KeyOf(cfg, req))))
  {
    var before := Lookup(states[i].b.store, KeyOf(cfg, req));
    RunConfig(cfg, states, moves, l);
    FirstAttemptRuns(cfg, states, moves, g, req, before, i, j);
    BothAttemptsRun(cfg, states, moves, g, h, req, before, j, l);
    SecondResult(states[l].b, h, req, before, !NotYetApplied(states[l], g));
  }
}
