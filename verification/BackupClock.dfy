/** The backup's Lamport clock as a function of the replicated writes it has received. */
module BackupClock {
  import opened Records
  import opened NodeModel
  import opened SystemModel
  import opened FailStopModel

  /** Executing the clock moves one after another. */
  function ClockAfter(ticks: seq<Tick>): nat {
    if |ticks| == 0 then 0
    else
      var c := ClockAfter(ticks[..|ticks| - 1]);
      match ticks[|ticks| - 1]
      case Draw(_) => c + 1
      case Peer(_, ts) => AdvancedClock(c, ts)
  }

  ghost predicate AllPeers(ticks: seq<Tick>) {
    forall i | 0 <= i < |ticks| :: ticks[i].Peer?
  }

  /** Whatever the order of arrival, the clock ends above the largest timestamp received, and
      exceeds it by at most the number of messages. */
  lemma {:induction false} PeerClockBounds(ticks: seq<Tick>) returns (m: int)
    requires |ticks| > 0 && AllPeers(ticks)
    ensures 0 <= m < |ticks|
    ensures forall i | 0 <= i < |ticks| :: ticks[i].ts <= ticks[m].ts
    ensures ticks[m].ts + 1 <= ClockAfter(ticks) <= ticks[m].ts + |ticks|
  {
    var n := |ticks| - 1;
    if n == 0 {
      assert ticks[..0] == [];
      m := 0;
    } else {
      var front := ticks[..n];
      var f := PeerClockBounds(front);
      forall i | 0 <= i < n ensures front[i] == ticks[i] {
      }
      m := if ticks[n].ts < ticks[f].ts then f else n;
      forall i | 0 <= i < |ticks| ensures ticks[i].ts <= ticks[m].ts {
        assert i < n ==> front[i].ts <= front[f].ts;
      }
    }
  }

  /** Received in timestamp order, they leave the clock exactly one above the last. */
  lemma {:induction false} PeerClockInOrder(ticks: seq<Tick>)
    requires |ticks| > 0 && AllPeers(ticks)
    requires forall i, j | 0 <= i < j < |ticks| :: ticks[i].ts < ticks[j].ts
    ensures ClockAfter(ticks) == ticks[|ticks| - 1].ts + 1
  {
    var n := |ticks| - 1;
    if n == 0 {
      assert ticks[..0] == [];
    } else {
      PeerClockInOrder(ticks[..n]);
    }
  }

  // ---------- The clock moves of a node and its handlers ----------

  /** The replicated write this handler has advanced the clock for. */
  ghost predicate HasAdvanced(x: Handler) {
    x.req.ApplyReq? && (x.phase.Advanced? || x.phase.Committed? || (x.phase.Done? && x.phase.outcome.Ok?))
  }

  ghost predicate TickOk(n: Node, t: Tick) {
    && t.h in n.handlers
    && match t
       case Draw(h) => !n.handlers[h].req.ApplyReq?
       case Peer(h, ts) => HasAdvanced(n.handlers[h]) && n.handlers[h].req.w.Ts() == ts
  }

  /** The clock is the outcome of its moves; the peer moves are exactly those of the handlers
      that got as far as advancing the clock, once each. */
  ghost predicate TicksOk(n: Node) {
    && n.clock == ClockAfter(n.ticks)
    && (forall i | 0 <= i < |n.ticks| :: TickOk(n, n.ticks[i]))
    && (forall i, j | 0 <= i < j < |n.ticks| && n.ticks[i].Peer? && n.ticks[j].Peer? :: n.ticks[i].h != n.ticks[j].h)
    && (forall h | h in n.handlers && HasAdvanced(n.handlers[h]) :: Peer(h, n.handlers[h].req.w.Ts()) in n.ticks)
  }

  lemma StepTicks(n: Node, a: Act)
    requires Enabled(n, a)
    requires a.h in n.handlers ==> PhaseOk(n, a.h)
    ensures var n' := Next(n, a);
            || (n'.ticks == n.ticks && n'.clock == n.clock
                && HasAdvanced(n'.handlers[a.h]) == (a.h in n.handlers && HasAdvanced(n.handlers[a.h])))
            || (a.h in n.handlers && !n.handlers[a.h].req.ApplyReq?
                && n'.ticks == n.ticks + [Draw(a.h)] && n'.clock == n.clock + 1)
            || (a.h in n.handlers && n.handlers[a.h].req.ApplyReq? && !HasAdvanced(n.handlers[a.h])
                && HasAdvanced(n'.handlers[a.h])
                && n'.ticks == n.ticks + [Peer(a.h, n.handlers[a.h].req.w.Ts())]
                && n'.clock == AdvancedClock(n.clock, n.handlers[a.h].req.w.Ts()))
  {
  }

  lemma TicksGrow(n: Node, n': Node, h: Hid, x: Handler, t: Tick)
    requires TicksOk(n) && Touches(n, n', h, x) && h in n.handlers
    requires n'.ticks == n.ticks + [t] && n'.clock == ClockAfter(n'.ticks)
    requires if x.req.ApplyReq? then t == Peer(h, x.req.w.Ts()) && HasAdvanced(x) && !HasAdvanced(n.handlers[h])
             else t == Draw(h)
    ensures TicksOk(n')
  {
    forall i | 0 <= i < |n.ticks| ensures TickOk(n', n.ticks[i]) {
      assert TickOk(n, n.ticks[i]);
    }
    forall g | g in n'.handlers && HasAdvanced(n'.handlers[g]) ensures Peer(g, n'.handlers[g].req.w.Ts()) in n'.ticks {
      if g == h {
        assert n'.ticks[|n.ticks|] == t;
      } else {
        assert Peer(g, n.handlers[g].req.w.Ts()) in n.ticks;
      }
    }
  }

  lemma TicksStay(n: Node, n': Node, h: Hid, x: Handler)
    requires TicksOk(n) && Touches(n, n', h, x)
    requires n'.ticks == n.ticks && n'.clock == n.clock
    requires HasAdvanced(x) == (h in n.handlers && HasAdvanced(n.handlers[h]))
    ensures TicksOk(n')
  {
  }

  lemma ClockAfterOneMore(ticks: seq<Tick>, t: Tick)
    ensures ClockAfter(ticks + [t]) == if t.Draw? then ClockAfter(ticks) + 1 else AdvancedClock(ClockAfter(ticks), t.ts)
  {
    assert (ticks + [t])[..|ticks|] == ticks;
  }

  lemma TicksDraw(n: Node, n': Node, h: Hid, x: Handler, t: Tick)
    requires TicksOk(n) && Touches(n, n', h, x)
    requires h in n.handlers && !x.req.ApplyReq? && t == Draw(h)
    requires n'.ticks == n.ticks + [t] && n'.clock == n.clock + 1
    ensures TicksOk(n')
  {
    ClockAfterOneMore(n.ticks, t);
    TicksGrow(n, n', h, x, t);
  }

  lemma TicksPeer(n: Node, n': Node, h: Hid, x: Handler, t: Tick)
    requires TicksOk(n) && Touches(n, n', h, x)
    requires h in n.handlers && x.req.ApplyReq? && !HasAdvanced(n.handlers[h]) && HasAdvanced(x)
             && t == Peer(h, x.req.w.Ts())
    requires n'.ticks == n.ticks + [t] && n'.clock == AdvancedClock(n.clock, t.ts)
    ensures TicksOk(n')
  {
    ClockAfterOneMore(n.ticks, t);
    TicksGrow(n, n', h, x, t);
  }

  lemma StepKeepsTicks(n: Node, a: Act)
    requires TicksOk(n) && Enabled(n, a)
    requires a.h in n.handlers ==> PhaseOk(n, a.h)
    ensures TicksOk(Next(n, a))
  {
    var n' := Next(n, a);
    StepTouches(n, a);
    StepTicks(n, a);
    var x := n'.handlers[a.h];
    if n'.ticks == n.ticks {
      TicksStay(n, n', a.h, x);
    } else if !x.req.ApplyReq? {
      TicksDraw(n, n', a.h, x, Draw(a.h));
    } else {
      TicksPeer(n, n', a.h, x, Peer(a.h, x.req.w.Ts()));
    }
  }

  lemma {:induction false} RunKeepsTicks(cfg: Config, states: seq<System>, moves: seq<Move>, i: nat)
    requires IsRun(cfg, states, moves) && i <= |moves|
    ensures TicksOk(states[i].p) && TicksOk(states[i].b)
  {
    if i > 0 {
      var s, m := states[i - 1], moves[i - 1];
      RunKeepsTicks(cfg, states, moves, i - 1);
      RunKeepsSysInv(cfg, states, moves, i - 1);
      MoveIsNodeStep(s, m);
      if NodeAct(s, m).Some? {
        var n, a := if OnPrimary(m) then s.p else s.b, NodeAct(s, m).value;
        assert a.h in n.handlers ==> PhaseOk(n, a.h);
        StepKeepsTicks(n, a);
      }
    }
  }

  /** The messages the backup has advanced its clock for. */
  ghost function Received(n: Node): set<Hid> {
    set h | h in n.handlers && HasAdvanced(n.handlers[h])
  }

  lemma {:induction false} DistinctTicksCount(ticks: seq<Tick>, senders: set<Hid>)
    requires forall i, j | 0 <= i < j < |ticks| :: ticks[i].h != ticks[j].h
    requires senders == set i | 0 <= i < |ticks| :: ticks[i].h
    ensures |senders| == |ticks|
  {
    if |ticks| > 0 {
      var n := |ticks| - 1;
      var front := ticks[..n];
      var rest := set i | 0 <= i < |front| :: front[i].h;
      DistinctTicksCount(front, rest);
      assert senders == rest + {ticks[n].h};
      assert ticks[n].h !in rest;
    }
  }

  lemma ReceivedByTicks(n: Node)
    requires TicksOk(n) && AllPeers(n.ticks)
    ensures Received(n) == set i | 0 <= i < |n.ticks| :: n.ticks[i].h
    ensures |Received(n)| == |n.ticks|
  {
    var senders := set i | 0 <= i < |n.ticks| :: n.ticks[i].h;
    forall h | h in Received(n) ensures h in senders {
      assert Peer(h, n.handlers[h].req.w.Ts()) in n.ticks;
    }
    forall i | 0 <= i < |n.ticks| ensures n.ticks[i].h in Received(n) {
      assert TickOk(n, n.ticks[i]);
    }
    assert Received(n) == senders;
    DistinctTicksCount(n.ticks, Received(n));
  }

  lemma NewestReceived(n: Node) returns (newest: Hid)
    requires TicksOk(n) && AllPeers(n.ticks) && Received(n) != {}
    ensures newest in Received(n)
    ensures forall h | h in Received(n) :: n.handlers[h].req.w.Ts() <= n.handlers[newest].req.w.Ts()
    ensures n.handlers[newest].req.w.Ts() + 1 <= n.clock <= n.handlers[newest].req.w.Ts() + |n.ticks|
  {
    var h0 :| h0 in Received(n);
    assert Peer(h0, n.handlers[h0].req.w.Ts()) in n.ticks;
    var m := PeerClockBounds(n.ticks);
    newest := n.ticks[m].h;
    assert TickOk(n, n.ticks[m]);
    forall h | h in Received(n) ensures n.handlers[h].req.w.Ts() <= n.ticks[m].ts {
      var i :| 0 <= i < |n.ticks| && n.ticks[i] == Peer(h, n.handlers[h].req.w.Ts());
    }
  }

  /** Backup clock bounds: until the crash, after n >= 1 messages in any order of delivery with
      largest timestamp M, the backup's clock c satisfies M + 1 <= c <= M + n. */
  lemma BackupClockBounds(cfg: Config, s: System) returns (newest: Hid)
    requires ReachableFailStop(cfg, s) && !s.crashed
    requires Received(s.b) != {}
    ensures newest in Received(s.b)
    ensures forall h | h in Received(s.b) :: s.b.handlers[h].req.w.Ts() <= s.b.handlers[newest].req.w.Ts()
    ensures s.b.handlers[newest].req.w.Ts() + 1 <= s.b.clock
    ensures s.b.clock <= s.b.handlers[newest].req.w.Ts() + |Received(s.b)|
  {
    OnlyPeerTicks(cfg, s);
    newest := NewestReceived(s.b);
    ReceivedByTicks(s.b);
  }

  lemma OnlyPeerTicks(cfg: Config, s: System)
    requires ReachableFailStop(cfg, s) && !s.crashed
    ensures TicksOk(s.b) && AllPeers(s.b.ticks)
  {
    var states, moves :| IsFailStopRun(cfg, states, moves) && states[|moves|] == s;
    RunKeepsTicks(cfg, states, moves, |moves|);
    RunKeepsFailStopInv(cfg, states, moves, |moves|);
    forall i | 0 <= i < |s.b.ticks| ensures s.b.ticks[i].Peer? {
      assert TickOk(s.b, s.b.ticks[i]);
    }
  }

  /** Delivered in timestamp order, n messages leave the clock at exactly M + 1. */
  lemma BackupClockInOrder(cfg: Config, s: System)
    requires ReachableFailStop(cfg, s) && !s.crashed
    requires |s.b.ticks| > 0
    requires forall i, j | 0 <= i < j < |s.b.ticks| && s.b.ticks[i].Peer? && s.b.ticks[j].Peer? ::
        s.b.ticks[i].ts < s.b.ticks[j].ts
    ensures s.b.ticks[|s.b.ticks| - 1].Peer? && s.b.clock == s.b.ticks[|s.b.ticks| - 1].ts + 1
  {
    OnlyPeerTicks(cfg, s);
    PeerClockInOrder(s.b.ticks);
  }
}
