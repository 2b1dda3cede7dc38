/** A handler that no other handler interrupts: its steps composed into one operation.

    These are the operations of the reservation service object; each lemma says which sequence
    of steps the operation is and what that sequence does.
*/
module NodeScripts {
  import opened Records
  import opened NodeModel

  /** `n'` is what the steps `acts`, one after another, make of `n`. */
  ghost predicate Plays(n: Node, acts: seq<Act>, n': Node)
    decreases |acts|
  {
    if |acts| == 0 then n' == n
    else Enabled(n, acts[0]) && Plays(Next(n, acts[0]), acts[1..], n')
  }

  lemma {:induction false} PlaysKeepInv(n: Node, acts: seq<Act>, n': Node)
    requires NodeInv(n) && Plays(n, acts, n')
    ensures NodeInv(n')
    decreases |acts|
  {
    if |acts| > 0 {
      StepKeepsNodeInv(n, acts[0]);
      PlaysKeepInv(Next(n, acts[0]), acts[1..], n');
    }
  }

  lemma {:induction false} PlaysThen(n: Node, first: seq<Act>, mid: Node, second: seq<Act>, n': Node)
    requires Plays(n, first, mid) && Plays(mid, second, n')
    ensures Plays(n, first + second, n')
    decreases |first|
  {
    if |first| == 0 {
      assert first + second == second;
    } else {
      PlaysThen(Next(n, first[0]), first[1..], mid, second, n');
      assert (first + second)[1..] == first[1..] + second;
    }
  }

  lemma Plays1(n: Node, a: Act, n': Node)
    requires Enabled(n, a) && n' == Next(n, a)
    ensures Plays(n, [a], n')
  {
  }

  lemma PlaysOneMore(n: Node, acts: seq<Act>, mid: Node, a: Act, n': Node)
    requires Plays(n, acts, mid) && Enabled(mid, a) && n' == Next(mid, a)
    ensures Plays(n, acts + [a], n')
  {
    Plays1(mid, a, n');
    PlaysThen(n, acts, mid, [a], n');
  }

  /** Arrival, lock and key check of a request that finds its table free and its key as it needs it. */
  lemma ReachesChecked(n: Node, h: Hid, req: Request, since: nat)
    requires h !in n.handlers && !req.ApplyReq? && req.Table() in n.cfg.tables && req.Table() !in n.locks
    requires req.BookReq? <==> KeyOf(n.cfg, req) !in n.store
    ensures Enabled(n, Start(h, req, since))
    ensures var n1 := Next(n, Start(h, req, since));
            && Enabled(n1, Acquire(h))
            && var n2 := Next(n1, Acquire(h));
               && Enabled(n2, Check(h))
               && var snapshot := if req.BookReq? then None else Some(n.store[KeyOf(n.cfg, req)]);
                  Next(n2, Check(h)) == n.(handlers := n.handlers[h := Handler(req, Checked(snapshot), since)],
                                           locks := n.locks[req.Table() := h])
  {
  }

  /** Drawing the timestamp. */
  lemma DrawsStamp(n: Node, h: Hid, now: real) returns (n': Node, w: Write)
    requires h in n.handlers && n.handlers[h].phase.Checked? && !n.handlers[h].req.ApplyReq?
    requires n.handlers[h].req.CancelReq? ==> n.handlers[h].phase.snapshot.Some?
    ensures Enabled(n, Act.Stamp(h, now)) && n' == Next(n, Act.Stamp(h, now))
    ensures w == MakeWrite(n.cfg, n.handlers[h].req, n.handlers[h].phase.snapshot, now, n.clock + 1)
    ensures w.key == KeyOf(n.cfg, n.handlers[h].req) && w.Ts() == n.clock + 1
    ensures w.op == if n.handlers[h].req.BookReq? then Book else Cancel
    ensures n' == n.(handlers := n.handlers[h := n.handlers[h].(phase := Stamped(w))], clock := n.clock + 1,
                     ticks := n.ticks + [Draw(h)])
  {
    n' := Next(n, Act.Stamp(h, now));
    w := n'.handlers[h].phase.w;
  }

  /** A replica handler's undisturbed steps up to the dictionary update. */
  lemma AppliesMessage(n: Node, h: Hid, w: Write, since: nat)
    requires h !in n.handlers && w.key.table in n.cfg.tables && w.key.table !in n.locks
    ensures Enabled(n, Start(h, ApplyReq(w), since))
    ensures var n1 := Next(n, Start(h, ApplyReq(w), since));
            && Enabled(n1, Acquire(h))
            && var n2 := Next(n1, Acquire(h));
               && Enabled(n2, Advance(h))
               && n2 == n.(handlers := n.handlers[h := Handler(ApplyReq(w), Locked, since)],
                           locks := n.locks[w.key.table := h])
  {
  }

  lemma FinishesMessage(n: Node, h: Hid)
    requires h in n.handlers && n.handlers[h].req.ApplyReq? && n.handlers[h].phase.Locked?
    ensures Enabled(n, Advance(h))
    ensures var n1 := Next(n, Advance(h));
            && Enabled(n1, Commit(h))
            && var n2 := Next(n1, Commit(h));
               && Enabled(n2, Release(h))
               && var n3 := Next(n2, Release(h));
                  && n3.store == Apply(n.store, n.handlers[h].req.w)
                  && n3.cfg == n.cfg && n3.clock == AdvancedClock(n.clock, n.handlers[h].req.w.Ts())
                  && n3.locks == n.locks - {n.handlers[h].req.w.key.table}
                  && n3.handlers == n.handlers[h := n.handlers[h].(phase := Done(Ok(n.handlers[h].req.w)))]
                  && n2.handlers[h].req.ApplyReq?
  {
  }

  /** From a positive reply to the response `ok`. */
  lemma Finishes(n: Node, h: Hid)
    requires h in n.handlers && n.handlers[h].phase.Acked? && !n.handlers[h].req.ApplyReq?
    ensures Enabled(n, Commit(h))
    ensures var w := n.handlers[h].phase.w;
            var n1 := Next(n, Commit(h));
            && Enabled(n1, Release(h)) && n1.handlers[h] == n.handlers[h].(phase := Committed(w))
            && var n2 := Next(n1, Release(h));
               && n2.store == Apply(n.store, w) && n2.cfg == n.cfg && n2.clock == n.clock
               && n2.handlers[h].phase == Done(Outcome.Ok(w)) && n2.locks == n.locks - {n.handlers[h].req.Table()}
               && n2.handlers.Keys == n.handlers.Keys
  {
  }

  // ---------- Whole operations ----------

  /** What an operation of handler `h` leaves: its outcome, and the lock as it found it. */
  ghost predicate Served(n: Node, n': Node, h: Hid, script: seq<Act>, outcome: Outcome) {
    && Plays(n, script, n')
    && (forall a | a in script :: a.h == h)
    && n'.cfg == n.cfg && n'.locks == n.locks
    && n'.handlers.Keys == n.handlers.Keys + {h}
    && n'.handlers[h].phase == Done(outcome)
  }

  lemma ServesUnknownTable(n: Node, h: Hid, req: Request) returns (n': Node, script: seq<Act>)
    requires h !in n.handlers && req.Table() !in n.cfg.tables
    ensures Served(n, n', h, script, Err(NoSuchTable)) && n'.store == n.store && n'.clock == n.clock
  {
    n' := Next(n, Start(h, req, 0));
    script := [Start(h, req, 0)];
    Plays1(n, Start(h, req, 0), n');
  }

  lemma ServesLockTimeout(n: Node, h: Hid, req: Request) returns (n': Node, script: seq<Act>)
    requires h !in n.handlers && req.Table() in n.cfg.tables && req.Table() in n.locks
    ensures Served(n, n', h, script, Err(LockTimeout)) && n'.store == n.store && n'.clock == n.clock
  {
    var n1 := Next(n, Start(h, req, 0));
    Plays1(n, Start(h, req, 0), n1);
    n' := Next(n1, LockExpires(h));
    script := [Start(h, req, 0)] + [LockExpires(h)];
    PlaysOneMore(n, [Start(h, req, 0)], n1, LockExpires(h), n');
  }

  /** Arrival and lock. */
  lemma Locks(n: Node, h: Hid, req: Request) returns (n': Node, script: seq<Act>)
    requires h !in n.handlers && req.Table() in n.cfg.tables && req.Table() !in n.locks
    ensures Plays(n, script, n') && forall a | a in script :: a.h == h
    ensures n' == n.(handlers := n.handlers[h := Handler(req, Locked, 0)], locks := n.locks[req.Table() := h])
  {
    var n1 := Next(n, Start(h, req, 0));
    Plays1(n, Start(h, req, 0), n1);
    n' := Next(n1, Acquire(h));
    script := [Start(h, req, 0)] + [Acquire(h)];
    PlaysOneMore(n, [Start(h, req, 0)], n1, Acquire(h), n');
    assert n'.handlers == n.handlers[h := Handler(req, Locked, 0)];
  }

  lemma LocksAndChecks(n: Node, h: Hid, req: Request) returns (n': Node, script: seq<Act>)
    requires h !in n.handlers && !req.ApplyReq? && req.Table() in n.cfg.tables && req.Table() !in n.locks
    ensures Plays(n, script, n') && forall a | a in script :: a.h == h
    ensures var key := KeyOf(n.cfg, req);
            var phase :=
              if req.BookReq? then (if key in n.store then Refused(AlreadyBooked) else Checked(None))
              else if key in n.store then Checked(Some(n.store[key])) else Refused(NothingToCancel);
            n' == n.(handlers := n.handlers[h := Handler(req, phase, 0)], locks := n.locks[req.Table() := h])
  {
    var n2, s2 := Locks(n, h, req);
    n' := Next(n2, Check(h));
    script := s2 + [Check(h)];
    PlaysOneMore(n, s2, n2, Check(h), n');
    assert n'.handlers == n.handlers[h := n'.handlers[h]];
  }

  /** The key is not as the request needs it. */
  lemma ServesRefusal(n: Node, h: Hid, req: Request) returns (n': Node, script: seq<Act>)
    requires h !in n.handlers && !req.ApplyReq? && req.Table() in n.cfg.tables && req.Table() !in n.locks
    requires req.BookReq? <==> KeyOf(n.cfg, req) in n.store
    ensures Served(n, n', h, script, Err(if req.BookReq? then AlreadyBooked else NothingToCancel))
    ensures n'.store == n.store && n'.clock == n.clock
  {
    var n3, s3 := LocksAndChecks(n, h, req);
    n' := Next(n3, Release(h));
    script := s3 + [Release(h)];
    PlaysOneMore(n, s3, n3, Release(h), n');
  }

  /** Arrival, lock, check and timestamp. */
  lemma Stamps(n: Node, h: Hid, req: Request, now: real) returns (n': Node, script: seq<Act>, w: Write)
    requires h !in n.handlers && !req.ApplyReq? && req.Table() in n.cfg.tables && req.Table() !in n.locks
    requires req.BookReq? <==> KeyOf(n.cfg, req) !in n.store
    ensures Plays(n, script, n') && forall a | a in script :: a.h == h
    ensures w ==
        MakeWrite(n.cfg, req, if req.BookReq? then None else Some(n.store[KeyOf(n.cfg, req)]), now, n.clock + 1)
    ensures n'.handlers == n.handlers[h := Handler(req, Stamped(w), 0)]
    ensures n'.locks == n.locks[req.Table() := h] && n'.store == n.store && n'.clock == n.clock + 1 && n'.cfg == n.cfg
  {
    var n3, s3 := LocksAndChecks(n, h, req);
    n', w := DrawsStamp(n3, h, now);
    script := s3 + [Act.Stamp(h, now)];
    PlaysOneMore(n, s3, n3, Act.Stamp(h, now), n');
  }

  lemma FailsAfterStamp(n: Node, h: Hid) returns (n': Node, script: seq<Act>)
    requires h in n.handlers && n.handlers[h].phase.Stamped?
    ensures Plays(n, script, n') && forall a | a in script :: a.h == h
    ensures n' ==
        n.(handlers := n.handlers[h := n.handlers[h].(phase := Done(Err(ReplicationFailed(n.handlers[h].phase.w))))],
                     locks := n.locks - {n.handlers[h].req.Table()})
  {
    var w := n.handlers[h].phase.w;
    var n1 := Next(n, Send(h));
    Plays1(n, Send(h), n1);
    var n2 := Next(n1, Fail(h));
    assert n2.handlers == n.handlers[h := n.handlers[h].(phase := Refused(ReplicationFailed(w)))];
    PlaysOneMore(n, [Send(h)], n1, Fail(h), n2);
    n' := Next(n2, Release(h));
    script := [Send(h)] + [Fail(h)] + [Release(h)];
    PlaysOneMore(n, [Send(h)] + [Fail(h)], n2, Release(h), n');
  }

  /** Replication failed: the timestamp is spent, the dictionary untouched. */
  lemma ServesUnreplicated(n: Node, h: Hid, req: Request, now: real) returns (n': Node, script: seq<Act>, w: Write)
    requires h !in n.handlers && !req.ApplyReq? && req.Table() in n.cfg.tables && req.Table() !in n.locks
    requires req.BookReq? <==> KeyOf(n.cfg, req) !in n.store
    ensures w ==
        MakeWrite(n.cfg, req, if req.BookReq? then None else Some(n.store[KeyOf(n.cfg, req)]), now, n.clock + 1)
    ensures Served(n, n', h, script, Err(ReplicationFailed(w))) && n'.store == n.store && n'.clock == n.clock + 1
  {
    var n4, s4; n4, s4, w := Stamps(n, h, req, now);
    var s7; n', s7 := FailsAfterStamp(n4, h);
    script := s4 + s7;
    PlaysThen(n, s4, n4, s7, n');
    assert n'.locks == n.locks;
  }

  lemma Acknowledged(n: Node, h: Hid, replicates: bool) returns (n': Node, script: seq<Act>)
    requires h in n.handlers && n.handlers[h].phase.Stamped?
    ensures Plays(n, script, n') && forall a | a in script :: a.h == h
    ensures n' == Goto(n, h, Acked(n.handlers[h].phase.w))
  {
    if replicates {
      var n1 := Next(n, Send(h));
      Plays1(n, Send(h), n1);
      n' := Next(n1, Confirm(h));
      script := [Send(h)] + [Confirm(h)];
      PlaysOneMore(n, [Send(h)], n1, Confirm(h), n');
    } else {
      n' := Next(n, NoReplica(h));
      script := [NoReplica(h)];
      Plays1(n, NoReplica(h), n');
    }
  }

  lemma CommitsAndReleases(n: Node, h: Hid) returns (n': Node, script: seq<Act>)
    requires h in n.handlers && n.handlers[h].phase.Acked? && !n.handlers[h].req.ApplyReq?
    ensures Plays(n, script, n') && forall a | a in script :: a.h == h
    ensures var w := n.handlers[h].phase.w;
            && n'.store == Apply(n.store, w) && n'.cfg == n.cfg && n'.clock == n.clock
            && n'.handlers.Keys == n.handlers.Keys && n'.handlers[h].phase == Done(Outcome.Ok(w))
            && n'.locks == n.locks - {n.handlers[h].req.Table()}
  {
    Finishes(n, h);
    var n1 := Next(n, Commit(h));
    Plays1(n, Commit(h), n1);
    n' := Next(n1, Release(h));
    script := [Commit(h)] + [Release(h)];
    PlaysOneMore(n, [Commit(h)], n1, Release(h), n');
  }

  /** The request is accepted: replicated if there is a peer, then written. */
  lemma ServesAccepted(n: Node, h: Hid, req: Request, now: real, replicates: bool)
    returns (n': Node, script: seq<Act>, w: Write)
    requires h !in n.handlers && !req.ApplyReq? && req.Table() in n.cfg.tables && req.Table() !in n.locks
    requires req.BookReq? <==> KeyOf(n.cfg, req) !in n.store
    ensures w ==
        MakeWrite(n.cfg, req, if req.BookReq? then None else Some(n.store[KeyOf(n.cfg, req)]), now, n.clock + 1)
    ensures Served(n, n', h, script, Outcome.Ok(w)) && n'.store == Apply(n.store, w) && n'.clock == n.clock + 1
  {
    var n4, s4; n4, s4, w := Stamps(n, h, req, now);
    var n5, s5 := Acknowledged(n4, h, replicates);
    PlaysThen(n, s4, n4, s5, n5);
    var s7; n', s7 := CommitsAndReleases(n5, h);
    script := s4 + s5 + s7;
    PlaysThen(n, s4 + s5, n5, s7, n');
    assert n'.locks == n.locks;
  }

  lemma AppliesFromLock(n: Node, h: Hid) returns (n': Node, script: seq<Act>)
    requires h in n.handlers && n.handlers[h].req.ApplyReq? && n.handlers[h].phase.Locked?
    ensures Plays(n, script, n') && forall a | a in script :: a.h == h
    ensures var w := n.handlers[h].req.w;
            && n'.store == Apply(n.store, w) && n'.clock == AdvancedClock(n.clock, w.Ts()) && n'.cfg == n.cfg
            && n'.locks == n.locks - {w.key.table}
            && n'.handlers == n.handlers[h := n.handlers[h].(phase := Done(Outcome.Ok(w)))]
  {
    FinishesMessage(n, h);
    var n1 := Next(n, Advance(h));
    Plays1(n, Advance(h), n1);
    var n2 := Next(n1, Commit(h));
    PlaysOneMore(n, [Advance(h)], n1, Commit(h), n2);
    n' := Next(n2, Release(h));
    script := [Advance(h)] + [Commit(h)] + [Release(h)];
    PlaysOneMore(n, [Advance(h)] + [Commit(h)], n2, Release(h), n');
  }

  /** A replicated write is applied. */
  lemma ServesReplica(n: Node, h: Hid, w: Write) returns (n': Node, script: seq<Act>)
    requires h !in n.handlers && w.key.table in n.cfg.tables && w.key.table !in n.locks
    ensures Served(n, n', h, script, Outcome.Ok(w))
    ensures n'.store == Apply(n.store, w) && n'.clock == AdvancedClock(n.clock, w.Ts())
  {
    var n2, s2 := Locks(n, h, ApplyReq(w));
    var s5; n', s5 := AppliesFromLock(n2, h);
    script := s2 + s5;
    PlaysThen(n, s2, n2, s5, n');
    assert n'.locks == n.locks;
  }

  /** What a client request comes to on a node where nothing interrupts it; `acked` says whether
      replication, where there is one, succeeds. */
  function Decision(n: Node, req: Request, now: real, acked: bool): Outcome
    requires !req.ApplyReq?
  {
    var key := KeyOf(n.cfg, req);
    if req.Table() !in n.cfg.tables then Err(NoSuchTable)
    else if req.Table() in n.locks then Err(LockTimeout)
    else if req.BookReq? && key in n.store then Err(AlreadyBooked)
    else if req.CancelReq? && key !in n.store then Err(NothingToCancel)
    else
      var w := MakeWrite(n.cfg, req, if req.BookReq? then None else Some(n.store[key]), now, n.clock + 1);
      if acked then Outcome.Ok(w) else Err(ReplicationFailed(w))
  }

  /** The steps of one handler alone come to that decision, and have that effect. */
  lemma ServesRequest(n: Node, h: Hid, req: Request, now: real, replicates: bool, acked: bool)
    returns (n': Node, script: seq<Act>)
    requires h !in n.handlers && !req.ApplyReq? && (!replicates ==> acked)
    ensures Served(n, n', h, script, Decision(n, req, now, acked))
    ensures match Decision(n, req, now, acked)
            case Ok(w) => n'.store == Apply(n.store, w) && n'.clock == n.clock + 1
            case Err(ReplicationFailed(_)) => n'.store == n.store && n'.clock == n.clock + 1
            case Err(_) => n'.store == n.store && n'.clock == n.clock
  {
    var w;
    if req.Table() !in n.cfg.tables {
      n', script := ServesUnknownTable(n, h, req);
    } else if req.Table() in n.locks {
      n', script := ServesLockTimeout(n, h, req);
    } else if req.BookReq? <==> KeyOf(n.cfg, req) in n.store {
      n', script := ServesRefusal(n, h, req);
    } else if acked {
      n', script, w := ServesAccepted(n, h, req, now, replicates);
    } else {
      n', script, w := ServesUnreplicated(n, h, req, now);
    }
  }
}
