/** A primary, its backup, and the replication messages between them.

    The primary sends one message per stamped write.  A message may be lost, be delivered at
    any later time (also after the primary gave up on it, and after a crash), or be applied
    with its reply lost.  The primary may crash between any two steps.
*/
module SystemModel {
  import opened Records
  import opened NodeModel

  /** A response `ok` that a handler returned. */
  datatype Ack = Ack(backup: bool, h: Hid, w: Write)

  datatype System = System(
    p: Node,
    b: Node,
    net: map<Hid, Write>,   // every replication message sent, by sending handler
    lost: set<Hid>,         // messages that never arrive
    crashed: bool,          // the primary has failed
    promoted: bool,         // the backup has taken over
    acks: seq<Ack>)         // acknowledged writes of both nodes, in order of their responses

  function Init(cfg: Config): System {
    System(InitNode(cfg), InitNode(cfg), map[], {}, false, false, [])
  }

  datatype Move =
    | PStart(h: Hid, req: Request)
    | PStep(a: Act)                    // a primary handler's own step
    | PSend(h: Hid)
    | PAck(h: Hid)                     // the reply `ok` reached the primary
    | PFail(h: Hid, timedOut: bool)    // replicate() returned False
    | PRelease(h: Hid)
    | Lose(h: Hid)
    | Deliver(h: Hid)
    | BStart(h: Hid, req: Request)
    | BStep(a: Act)                    // a backup handler's own step
    | BRelease(h: Hid)
    | Crash
    | Promote

  predicate Inner(a: Act) {
    a.Acquire? || a.LockExpires? || a.Check? || a.Stamp? || a.Commit?
  }

  predicate Undelivered(s: System, h: Hid) {
    h in s.net && h !in s.lost && h !in s.b.handlers
  }

  predicate CanMove(s: System, m: Move) {
    match m
    case PStart(h, req) => !s.crashed && !req.ApplyReq? && h !in s.p.handlers && h !in s.b.handlers
    case PStep(a) => !s.crashed && Inner(a) && Enabled(s.p, a)
    case PSend(h) => !s.crashed && Enabled(s.p, Send(h))
    case PAck(h) =>
      && !s.crashed && Enabled(s.p, Confirm(h))
      && h in s.b.handlers && s.b.handlers[h].phase.Done? && s.b.handlers[h].phase.outcome.Ok?
    case PFail(h, timedOut) =>
      && !s.crashed && Enabled(s.p, Fail(h))
      && (|| timedOut
          || h in s.lost
          || (h in s.b.handlers && s.b.handlers[h].phase.Done? && s.b.handlers[h].phase.outcome.Err?))
    case PRelease(h) => !s.crashed && Enabled(s.p, Release(h))
    case Lose(h) => Undelivered(s, h)
    case Deliver(h) => Undelivered(s, h)
    case BStart(h, req) => !req.ApplyReq? && h !in s.p.handlers && h !in s.b.handlers
    case BStep(a) => (Inner(a) || a.NoReplica? || a.Advance?) && Enabled(s.b, a)
    case BRelease(h) => Enabled(s.b, Release(h))
    case Crash => !s.crashed
    case Promote => !s.promoted
  }

  function Acks(s: System, n: Node, backup: bool, h: Hid): seq<Ack>
    requires Enabled(n, Release(h))
  {
    var Handler(req, phase, _) := n.handlers[h];
    if phase.Committed? && !req.ApplyReq? then s.acks + [Ack(backup, h, phase.w)] else s.acks
  }

  function Moved(s: System, m: Move): System
    requires CanMove(s, m)
  {
    match m
    case PStart(h, req) => s.(p := Next(s.p, Start(h, req, |s.acks|)))
    case PStep(a) => s.(p := Next(s.p, a))
    case PSend(h) => s.(p := Next(s.p, Send(h)), net := s.net[h := s.p.handlers[h].phase.w])
    case PAck(h) => s.(p := Next(s.p, Confirm(h)))
    case PFail(h, _) => s.(p := Next(s.p, Fail(h)))
    case PRelease(h) => s.(p := Next(s.p, Release(h)), acks := Acks(s, s.p, false, h))
    case Lose(h) => s.(lost := s.lost + {h})
    case Deliver(h) => s.(b := Next(s.b, Start(h, ApplyReq(s.net[h]), |s.acks|)))
    case BStart(h, req) => s.(b := Next(s.b, Start(h, req, |s.acks|)))
    case BStep(a) => s.(b := Next(s.b, a))
    case BRelease(h) => s.(b := Next(s.b, Release(h)), acks := Acks(s, s.b, true, h))
    case Crash => s.(crashed := true)
    case Promote => s.(promoted := true)
  }

  // ---------- Runs ----------

  /** The environment the cross-node guarantees need: the backup serves clients, and is
      promoted, only once the primary has failed. */
  predicate FailStop(s: System, m: Move) {
    m.BStart? || m.Promote? ==> s.crashed
  }

  /** `states` is a run from the initial state along `moves`. */
  ghost predicate IsRun(cfg: Config, states: seq<System>, moves: seq<Move>) {
    && |states| == |moves| + 1
    && states[0] == Init(cfg)
    && forall i | 0 <= i < |moves| :: CanMove(states[i], moves[i]) && states[i + 1] == Moved(states[i], moves[i])
  }

  ghost predicate IsFailStopRun(cfg: Config, states: seq<System>, moves: seq<Move>) {
    && IsRun(cfg, states, moves)
    && forall i | 0 <= i < |moves| :: FailStop(states[i], moves[i])
  }

  ghost predicate Reachable(cfg: Config, s: System) {
    exists states, moves :: IsRun(cfg, states, moves) && states[|moves|] == s
  }

  ghost predicate ReachableFailStop(cfg: Config, s: System) {
    exists states, moves :: IsFailStopRun(cfg, states, moves) && states[|moves|] == s
  }

  // ---------- Invariant of every run ----------

  /** replicate() has returned True. */
  predicate Succeeded(phase: Phase) {
    phase.Acked? || phase.Committed? || (phase.Done? && phase.outcome.Ok?)
  }

  /** The primary's handler has sent its message. */
  predicate HasSent(phase: Phase) {
    phase.Stamp().Some? && !phase.Stamped?
  }

  ghost predicate IdsOk(s: System) {
    && s.p.cfg == s.b.cfg
    && (forall h | h in s.p.handlers :: !s.p.handlers[h].req.ApplyReq?)
    && (forall h | h in s.b.handlers :: s.b.handlers[h].req.ApplyReq? <==> h in s.p.handlers)
  }

  ghost predicate NetOk(s: System) {
    && (forall h | h in s.net ::
          h in s.p.handlers && HasSent(s.p.handlers[h].phase) && s.p.handlers[h].phase.Stamp() == Some(s.net[h]))
    && (forall h | h in s.p.handlers && HasSent(s.p.handlers[h].phase) :: h in s.net)
    && (forall h | h in s.b.handlers && s.b.handlers[h].req.ApplyReq? ::
          h in s.net && s.b.handlers[h].req == ApplyReq(s.net[h]))
  }

  /** Every write whose replication succeeded has been applied by the backup. */
  ghost predicate SucceededOk(s: System) {
    forall h | h in s.p.handlers && Succeeded(s.p.handlers[h].phase) ::
      h in s.b.handlers && s.b.handlers[h].phase.Done? && s.b.handlers[h].phase.outcome.Ok?
  }

  ghost predicate IsAcked(s: System, a: Ack) {
    && (a.backup ==>
          a.h in s.b.handlers && !s.b.handlers[a.h].req.ApplyReq? && s.b.handlers[a.h].phase == Done(Ok(a.w)))
    && (!a.backup ==> a.h in s.p.handlers && s.p.handlers[a.h].phase == Done(Ok(a.w)))
  }

  /** The acknowledgements are exactly the client handlers that returned `ok`, once each. */
  ghost predicate AcksOk(s: System) {
    && (forall a | a in s.acks :: IsAcked(s, a))
    && (forall i, j | 0 <= i < j < |s.acks| :: s.acks[i].h != s.acks[j].h)
    && (forall h | h in s.p.handlers && s.p.handlers[h].phase.Done? && s.p.handlers[h].phase.outcome.Ok? ::
          Ack(false, h, s.p.handlers[h].phase.outcome.w) in s.acks)
    && (forall h | h in s.b.handlers && !s.b.handlers[h].req.ApplyReq? && s.b.handlers[h].phase.Done?
        && s.b.handlers[h].phase.outcome.Ok? ::
          Ack(true, h, s.b.handlers[h].phase.outcome.w) in s.acks)
  }

  /** The backup has no replicator: its handlers never wait for a peer. */
  ghost predicate BackupNeverSends(s: System) {
    forall h | h in s.b.handlers :: !s.b.handlers[h].phase.Sent?
  }

  ghost predicate SysInv(s: System) {
    NodeInv(s.p) && NodeInv(s.b) && IdsOk(s) && NetOk(s) && SucceededOk(s) && AcksOk(s) && BackupNeverSends(s)
  }

  lemma InitSysInv(cfg: Config)
    ensures SysInv(Init(cfg))
  {
  }

  /** The node step a move makes, if any. */
  function NodeAct(s: System, m: Move): Option<Act>
    requires CanMove(s, m)
  {
    match m
    case PStart(h, req) => Some(Start(h, req, |s.acks|))
    case PStep(a) => Some(a)
    case PSend(h) => Some(Send(h))
    case PAck(h) => Some(Confirm(h))
    case PFail(h, _) => Some(Fail(h))
    case PRelease(h) => Some(Release(h))
    case Deliver(h) => Some(Start(h, ApplyReq(s.net[h]), |s.acks|))
    case BStart(h, req) => Some(Start(h, req, |s.acks|))
    case BStep(a) => Some(a)
    case BRelease(h) => Some(Release(h))
    case _ => None
  }

  predicate OnPrimary(m: Move) {
    m.PStart? || m.PStep? || m.PSend? || m.PAck? || m.PFail? || m.PRelease?
  }

  /** A move is one step of one node, or leaves both nodes alone. */
  lemma MoveIsNodeStep(s: System, m: Move)
    requires CanMove(s, m)
    ensures var s' := Moved(s, m);
            match NodeAct(s, m)
            case None => s'.p == s.p && s'.b == s.b
            case Some(a) =>
              if OnPrimary(m) then Enabled(s.p, a) && s'.p == Next(s.p, a) && s'.b == s.b
              else Enabled(s.b, a) && s'.b == Next(s.b, a) && s'.p == s.p
  {
  }

  lemma MoveKeepsNodeInvs(s: System, m: Move)
    requires SysInv(s) && CanMove(s, m)
    ensures NodeInv(Moved(s, m).p) && NodeInv(Moved(s, m).b)
  {
    MoveIsNodeStep(s, m);
    match NodeAct(s, m)
    case None =>
    case Some(a) =>
      if OnPrimary(m) {
        StepKeepsNodeInv(s.p, a);
      } else {
        StepKeepsNodeInv(s.b, a);
      }
  }

  lemma MoveKeepsIds(s: System, m: Move)
    requires IdsOk(s) && NetOk(s) && CanMove(s, m)
    ensures IdsOk(Moved(s, m))
  {
    MoveIsNodeStep(s, m);
    match NodeAct(s, m)
    case None =>
    case Some(a) =>
      if OnPrimary(m) {
        StepTouches(s.p, a);
      } else {
        StepTouches(s.b, a);
      }
  }

  /** How a primary handler's own step moves its place in the replication exchange. */
  lemma StepInExchange(n: Node, a: Act)
    requires Enabled(n, a)
    requires a.h in n.handlers ==> PhaseOk(n, a.h) && !n.handlers[a.h].req.ApplyReq?
    requires !a.NoReplica? && !a.Advance? && (a.Start? ==> !a.req.ApplyReq?)
    ensures var x := Next(n, a).handlers[a.h];
            var sent := a.h in n.handlers && HasSent(n.handlers[a.h].phase);
            var succeeded := a.h in n.handlers && Succeeded(n.handlers[a.h].phase);
            && (HasSent(x.phase) <==> sent || a.Send?)
            && (sent ==> x.phase.Stamp() == n.handlers[a.h].phase.Stamp())
            && (a.Send? ==> !sent && x.phase.Stamp() == Some(n.handlers[a.h].phase.w))
            && (Succeeded(x.phase) <==> succeeded || a.Confirm?)
  {
  }

  lemma NetKeptByPrimary(s: System, s': System, h: Hid, x: Handler)
    requires IdsOk(s) && NetOk(s) && s'.b == s.b
    requires Touches(s.p, s'.p, h, x)
    requires
      var sent := h in s.p.handlers && HasSent(s.p.handlers[h].phase);
      || (s'.net == s.net && HasSent(x.phase) == sent && (sent ==> x.phase.Stamp() == s.p.handlers[h].phase.Stamp()))
      || (!sent && HasSent(x.phase) && s'.net == s.net[h := x.phase.Stamp().value])
    ensures NetOk(s')
  {
  }

  lemma NetKeptByBackup(s: System, s': System, h: Hid, x: Handler)
    requires NetOk(s) && s'.p == s.p && s'.net == s.net
    requires Touches(s.b, s'.b, h, x)
    requires h !in s.b.handlers && x.req.ApplyReq? ==> h in s.net && x.req == ApplyReq(s.net[h])
    ensures NetOk(s')
  {
  }

  lemma MoveKeepsNet(s: System, m: Move)
    requires SysInv(s) && CanMove(s, m)
    ensures NetOk(Moved(s, m))
  {
    var s' := Moved(s, m);
    MoveIsNodeStep(s, m);
    match NodeAct(s, m)
    case None =>
    case Some(a) =>
      if OnPrimary(m) {
        StepTouches(s.p, a);
        assert a.h in s.p.handlers ==> PhaseOk(s.p, a.h);
        StepInExchange(s.p, a);
        NetKeptByPrimary(s, s', a.h, s'.p.handlers[a.h]);
      } else {
        StepTouches(s.b, a);
        NetKeptByBackup(s, s', a.h, s'.b.handlers[a.h]);
      }
  }

  lemma SucceededKeptByPrimary(s: System, s': System, h: Hid, x: Handler)
    requires SucceededOk(s) && s'.b == s.b && Touches(s.p, s'.p, h, x)
    requires Succeeded(x.phase) ==>
      || (h in s.p.handlers && Succeeded(s.p.handlers[h].phase))
      || (h in s.b.handlers && s.b.handlers[h].phase.Done? && s.b.handlers[h].phase.outcome.Ok?)
    ensures SucceededOk(s')
  {
  }

  lemma SucceededKeptByBackup(s: System, s': System, h: Hid, x: Handler)
    requires SucceededOk(s) && s'.p == s.p && Touches(s.b, s'.b, h, x)
    requires h in s.b.handlers ==> !s.b.handlers[h].phase.Done?
    ensures SucceededOk(s')
  {
  }

  lemma MoveKeepsSucceeded(s: System, m: Move)
    requires SysInv(s) && CanMove(s, m)
    ensures SucceededOk(Moved(s, m))
  {
    var s' := Moved(s, m);
    MoveIsNodeStep(s, m);
    match NodeAct(s, m)
    case None =>
    case Some(a) =>
      if OnPrimary(m) {
        StepTouches(s.p, a);
        assert a.h in s.p.handlers ==> PhaseOk(s.p, a.h);
        StepInExchange(s.p, a);
        ConfirmNeedsReply(s, m);
        SucceededKeptByPrimary(s, s', a.h, s'.p.handlers[a.h]);
      } else {
        StepTouches(s.b, a);
        StepToOk(s.b, a);
        SucceededKeptByBackup(s, s', a.h, s'.b.handlers[a.h]);
      }
  }

  lemma ConfirmNeedsReply(s: System, m: Move)
    requires CanMove(s, m) && OnPrimary(m)
    ensures var a := NodeAct(s, m).value;
            a.Confirm? ==> a.h in s.b.handlers && s.b.handlers[a.h].phase.Done? && s.b.handlers[a.h].phase.outcome.Ok?
  {
  }

  lemma StepToOk(n: Node, a: Act)
    requires Enabled(n, a)
    ensures var phase := Next(n, a).handlers[a.h].phase;
            phase.Done? && phase.outcome.Ok? ==> a.Release? && n.handlers[a.h].phase == Committed(phase.outcome.w)
    ensures a.Release? ==> !n.handlers[a.h].phase.Done?
    ensures a.h in n.handlers ==> !n.handlers[a.h].phase.Done?
  {
  }

  /** A node changed in one handler; the acknowledgements grew by that handler's, if it returned `ok`. */
  lemma AcksKept(s: System, s': System, a: Act, backup: bool)
    requires IdsOk(s) && AcksOk(s) && IdsOk(s')
    requires var n := if backup then s.b else s.p; Enabled(n, a)
    requires if backup then s'.b == Next(s.b, a) && s'.p == s.p else s'.p == Next(s.p, a) && s'.b == s.b
    requires s'.acks == if a.Release? then Acks(s, if backup then s.b else s.p, backup, a.h) else s.acks
    ensures AcksOk(s')
  {
    var n := if backup then s.b else s.p;
    StepTouches(n, a);
    StepToOk(n, a);
    forall x | x in s'.acks ensures IsAcked(s', x) {
      if x in s.acks {
        assert IsAcked(s, x);
      }
    }
    forall i | 0 <= i < |s.acks| && s'.acks != s.acks ensures s.acks[i].h != a.h {
      assert IsAcked(s, s.acks[i]);
    }
  }

  lemma MoveKeepsAcks(s: System, m: Move)
    requires SysInv(s) && CanMove(s, m)
    ensures AcksOk(Moved(s, m))
  {
    MoveIsNodeStep(s, m);
    MoveKeepsIds(s, m);
    match NodeAct(s, m)
    case None =>
      forall x | x in s.acks ensures IsAcked(Moved(s, m), x) {
        assert IsAcked(s, x);
      }
    case Some(a) =>
      AcksKept(s, Moved(s, m), a, !OnPrimary(m));
  }

  lemma MoveKeepsNeverSends(s: System, m: Move)
    requires BackupNeverSends(s) && CanMove(s, m)
    ensures BackupNeverSends(Moved(s, m))
  {
    MoveIsNodeStep(s, m);
    if !OnPrimary(m) && NodeAct(s, m).Some? {
      StepTouches(s.b, NodeAct(s, m).value);
    }
  }

  /** Every move of every handler, of the network and of the environment keeps the invariant. */
  lemma MoveKeepsSysInv(s: System, m: Move)
    requires SysInv(s) && CanMove(s, m)
    ensures SysInv(Moved(s, m))
  {
    MoveKeepsNodeInvs(s, m);
    MoveKeepsIds(s, m);
    MoveKeepsNet(s, m);
    MoveKeepsSucceeded(s, m);
    MoveKeepsAcks(s, m);
    MoveKeepsNeverSends(s, m);
  }

  lemma {:induction false} RunKeepsSysInv(cfg: Config, states: seq<System>, moves: seq<Move>, i: nat)
    requires IsRun(cfg, states, moves) && i <= |moves|
    ensures SysInv(states[i])
  {
    if i == 0 {
      InitSysInv(cfg);
    } else {
      RunKeepsSysInv(cfg, states, moves, i - 1);
      MoveKeepsSysInv(states[i - 1], moves[i - 1]);
    }
  }

  lemma ReachableSysInv(cfg: Config, s: System)
    requires Reachable(cfg, s)
    ensures SysInv(s)
  {
    var states, moves :| IsRun(cfg, states, moves) && states[|moves|] == s;
    RunKeepsSysInv(cfg, states, moves, |moves|);
  }

  // ---------- A move seen from outside ----------

  /** One handler of one node became `x`; the other node did not move. */
  ghost predicate Frame(s: System, s': System, backup: bool, h: Hid, x: Handler) {
    && s'.crashed == s.crashed
    && if backup then Touches(s.b, s'.b, h, x) && s'.p == s.p
       else Touches(s.p, s'.p, h, x) && s'.b == s.b && !s.crashed
  }

  ghost predicate Idle(s: System, s': System) {
    s'.p == s.p && s'.b == s.b && s'.acks == s.acks && (s.crashed ==> s'.crashed)
  }

  /** The backup's history is as before, or one handler appended its write. */
  ghost predicate HistFrame(s: System, s': System, backup: bool, h: Hid) {
    || s'.b.hist == s.b.hist
    || (&& backup && h in s.b.handlers
        && (s.b.handlers[h].phase.Acked? || s.b.handlers[h].phase.Advanced?)
        && s'.b.hist == s.b.hist + [Event(h, s.b.handlers[h].phase.w, s.b.handlers[h].req.ApplyReq?)])
  }

  /** The acknowledgements are as before, or one client handler returned `ok`. */
  ghost predicate AcksFrame(s: System, s': System, backup: bool, h: Hid) {
    || s'.acks == s.acks
    || (var n := if backup then s.b else s.p;
        && h in n.handlers && !n.handlers[h].req.ApplyReq? && n.handlers[h].phase.Committed?
        && s'.acks == s.acks + [Ack(backup, h, n.handlers[h].phase.w)])
  }

  lemma MoveFrame(s: System, m: Move)
    requires CanMove(s, m)
    ensures match NodeAct(s, m)
            case None => Idle(s, Moved(s, m))
            case Some(a) =>
              var n' := if OnPrimary(m) then Moved(s, m).p else Moved(s, m).b;
              a.h in n'.handlers && Frame(s, Moved(s, m), !OnPrimary(m), a.h, n'.handlers[a.h])
  {
    MoveIsNodeStep(s, m);
    match NodeAct(s, m)
    case None =>
    case Some(a) => StepTouches(if OnPrimary(m) then s.p else s.b, a);
  }

  lemma MoveHistFrame(s: System, m: Move)
    requires CanMove(s, m) && NodeAct(s, m).Some?
    ensures HistFrame(s, Moved(s, m), !OnPrimary(m), NodeAct(s, m).value.h)
  {
  }

  lemma MoveAcksFrame(s: System, m: Move)
    requires CanMove(s, m) && NodeAct(s, m).Some?
    ensures AcksFrame(s, Moved(s, m), !OnPrimary(m), NodeAct(s, m).value.h)
  {
  }

  /** A handler new to a node starts with the request the move names, and with no stamp. */
  lemma MoveStarts(s: System, m: Move)
    requires CanMove(s, m) && NodeAct(s, m).Some?
    ensures
      var h := NodeAct(s, m).value.h;
      var n := if OnPrimary(m) then s.p else s.b;
      var n' := if OnPrimary(m) then Moved(s, m).p else Moved(s, m).b;
      h !in n.handlers ==>
        && h in n'.handlers
        && (n'.handlers[h].req.ApplyReq? <==> m.Deliver?)
        && (OnPrimary(m) <==> m.PStart?)
        && n'.handlers[h].phase.Stamp().None?
        && n'.handlers[h].since == |s.acks| && Moved(s, m).acks == s.acks
  {
  }
}
