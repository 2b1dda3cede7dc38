/** Different tables commute, on both nodes: what a run leaves behind is decided table by table,
    by the order of the writes attempted there and by what became of each.
*/
module Interleavings {
  import opened Records
  import opened NodeModel
  import opened NodeTheorems
  import opened SystemModel
  import opened FailStopModel
  import opened FailoverTheorems

  // ---------- Ascending sequences of writes ----------

  ghost predicate Ascend(ws: seq<Write>) {
    forall i, j | 0 <= i < j < |ws| :: ws[i].Ts() < ws[j].Ts()
  }

  lemma HasElement(ws: seq<Write>)
    ensures |ws| > 0 ==> exists w :: w in ws
  {
    if |ws| > 0 {
      assert ws[0] in ws;
    }
  }

  /** Two ascending sequences with the same elements are equal. */
  lemma {:induction false} SameAscending(a: seq<Write>, b: seq<Write>)
    requires Ascend(a) && Ascend(b)
    requires forall w :: w in a <==> w in b
    ensures a == b
  {
    if |a| == 0 {
      HasElement(b);
    } else {
      var n, m := |a| - 1, |b| - 1;
      assert a[n] in a;
      var j :| 0 <= j < |b| && b[j] == a[n];
      assert b[m] in b;
      var i :| 0 <= i < |a| && a[i] == b[m];
      assert i == n && j == m;
      forall w ensures w in a[..n] <==> w in b[..m] {
        assert w in a[..n] <==> w in a && w != a[n];
        assert w in b[..m] <==> w in b && w != b[m];
      }
      SameAscending(a[..n], b[..m]);
    }
  }

  /** The writes of `ws` that are also in `done`, in the order of `ws`. */
  function Kept(ws: seq<Write>, done: seq<Write>): seq<Write> {
    if |ws| == 0 then []
    else
      var front := Kept(ws[..|ws| - 1], done);
      if ws[|ws| - 1] in done then front + [ws[|ws| - 1]] else front
  }

  lemma {:induction false} KeptElements(ws: seq<Write>, done: seq<Write>)
    ensures forall w :: w in Kept(ws, done) <==> w in ws && w in done
  {
    if |ws| > 0 {
      KeptElements(ws[..|ws| - 1], done);
      assert ws == ws[..|ws| - 1] + [ws[|ws| - 1]];
    }
  }

  lemma {:induction false} KeptAscends(ws: seq<Write>, done: seq<Write>)
    requires Ascend(ws)
    ensures Ascend(Kept(ws, done))
  {
    if |ws| > 0 {
      var front := Kept(ws[..|ws| - 1], done);
      KeptAscends(ws[..|ws| - 1], done);
      KeptElements(ws[..|ws| - 1], done);
      forall i | 0 <= i < |front| ensures front[i].Ts() < ws[|ws| - 1].Ts() {
        assert front[i] in front;
      }
    }
  }

  lemma Regroup(a: seq<Write>, b: seq<Write>, w: Write)
    ensures (a + b) + [w] == a + (b + [w])
  {
  }

  lemma OnTableAppend(ws: seq<Write>, w: Write, t: TableId)
    ensures OnTable(ws + [w], t) == if w.key.table == t then OnTable(ws, t) + [w] else OnTable(ws, t)
  {
    assert (ws + [w])[..|ws|] == ws;
  }

  lemma {:induction false} OnTableElements(ws: seq<Write>, t: TableId)
    ensures forall w :: w in OnTable(ws, t) <==> w in ws && w.key.table == t
  {
    if |ws| > 0 {
      OnTableElements(ws[..|ws| - 1], t);
      assert ws == ws[..|ws| - 1] + [ws[|ws| - 1]];
    }
  }

  lemma {:induction false} OnTableAscends(ws: seq<Write>, t: TableId)
    requires forall i, j | 0 <= i < j < |ws| && ws[i].key.table == ws[j].key.table == t :: ws[i].Ts() < ws[j].Ts()
    ensures Ascend(OnTable(ws, t))
  {
    if |ws| > 0 {
      var front, last := OnTable(ws[..|ws| - 1], t), ws[|ws| - 1];
      OnTableAscends(ws[..|ws| - 1], t);
      OnTableElements(ws[..|ws| - 1], t);
      if last.key.table == t {
        forall i | 0 <= i < |front| ensures front[i].Ts() < last.Ts() {
          assert front[i] in front;
        }
      }
    }
  }

  // ---------- Erasing commutes with all of it ----------

  lemma {:induction false} EraseOnTable(ws: seq<Write>, t: TableId)
    ensures OnTable(EraseAll(ws), t) == EraseAll(OnTable(ws, t))
  {
    if |ws| > 0 {
      var front, last := ws[..|ws| - 1], ws[|ws| - 1];
      EraseOnTable(front, t);
      EraseAppend(ws, []);
      assert EraseAll(ws)[..|ws| - 1] == EraseAll(front);
      EraseAppend(OnTable(front, t), [last]);
    }
  }

  lemma {:induction false} EraseAppend(a: seq<Write>, b: seq<Write>)
    ensures EraseAll(a + b) == EraseAll(a) + EraseAll(b)
    ensures |EraseAll(a)| == |a|
  {
    if |b| > 0 {
      EraseAppend(a, b[..|b| - 1]);
      assert (a + b)[..|a + b| - 1] == a + b[..|b| - 1];
    } else {
      assert a + b == a;
      if |a| > 0 {
        EraseAppend(a[..|a| - 1], []);
      }
    }
  }

  // ---------- What was attempted on a table, and what became of it ----------

  /** A client request on table `t` at the primary drew a timestamp for `w`. */
  ghost predicate Attempted(s: System, t: TableId, w: Write) {
    w.key.table == t && exists h :: h in s.p.handlers && s.p.handlers[h].phase.Stamp() == Some(w)
  }

  /** `ws` are the writes attempted on the table, in the order of their timestamps, which is the
      order in which their requests held the table's lock. */
  ghost predicate AttemptsInOrder(s: System, t: TableId, ws: seq<Write>) {
    Ascend(ws) && forall w :: w in ws <==> Attempted(s, t, w)
  }

  function Remotes(hist: seq<Event>): seq<Write> {
    if |hist| == 0 then []
    else
      var front := Remotes(hist[..|hist| - 1]);
      if hist[|hist| - 1].remote then front + [hist[|hist| - 1].w] else front
  }

  function Locals(hist: seq<Event>): seq<Write> {
    if |hist| == 0 then []
    else
      var front := Locals(hist[..|hist| - 1]);
      if hist[|hist| - 1].remote then front else front + [hist[|hist| - 1].w]
  }

  /** No message was late: every unconfirmed write of the table that the backup applied at all
      came after older writes only.  (Confirmed ones do anyhow.) */
  ghost predicate AppliedInTurn(s: System, t: TableId) {
    forall i, j | 0 <= i < j < |s.b.hist|
      && s.b.hist[i].w.key.table == t && s.b.hist[j].w.key.table == t && s.b.hist[j].remote
      && !Confirmed(s, s.b.hist[j].h) ::
      s.b.hist[i].remote && s.b.hist[i].w.Ts() < s.b.hist[j].w.Ts()
  }

  /** The same writes were attempted on the table in the same order, timestamps and creation times
      aside, with the same outcomes: committed at the primary or not, applied by the
      backup or not.  After a failover the backup's own writes take their place behind. */
  ghost predicate SameCourse(s: System, s': System, t: TableId) {
    && EraseAll(OnTable(Locals(s.b.hist), t)) == EraseAll(OnTable(Locals(s'.b.hist), t))
    && exists a, b :: AttemptsInOrder(s, t, a) && AttemptsInOrder(s', t, b) && SameOutcomes(s, s', a, b)
  }

  ghost predicate SameOutcomes(s: System, s': System, a: seq<Write>, b: seq<Write>) {
    && |a| == |b|
    && forall i | 0 <= i < |a| ::
         && EraseWrite(a[i]) == EraseWrite(b[i])
         && (a[i] in Writes(s.p.hist) <==> b[i] in Writes(s'.p.hist))
         && (a[i] in Remotes(s.b.hist) <==> b[i] in Remotes(s'.b.hist))
  }

  // ---------- The histories follow from it ----------

  /** A primary's history on a table is what was committed of the attempts. */
  lemma PrimaryFollowsAttempts(cfg: Config, s: System, t: TableId, ws: seq<Write>)
    requires Reachable(cfg, s) && AttemptsInOrder(s, t, ws)
    ensures OnTable(Writes(s.p.hist), t) == Kept(ws, Writes(s.p.hist))
  {
    var done := Writes(s.p.hist);
    forall i, j | 0 <= i < j < |done| && done[i].key.table == done[j].key.table == t
      ensures done[i].Ts() < done[j].Ts()
    {
      PrimaryOrder(cfg, s, i, j);
    }
    OnTableAscends(done, t);
    OnTableElements(done, t);
    KeptAscends(ws, done);
    KeptElements(ws, done);
    forall w | w in done && w.key.table == t ensures Attempted(s, t, w) {
      var x :| 0 <= x < |done| && done[x] == w;
      CommittedIsAttempted(cfg, s, x);
    }
    SameAscending(OnTable(done, t), Kept(ws, done));
  }

  lemma CommittedIsAttempted(cfg: Config, s: System, x: int)
    requires Reachable(cfg, s) && 0 <= x < |s.p.hist|
    ensures Attempted(s, s.p.hist[x].w.key.table, s.p.hist[x].w)
  {
    ReachableSysInv(cfg, s);
    CommittedIsStamped(s.p, s.p.hist[x]);
  }

  lemma AppliedIsAttempted(cfg: Config, s: System, e: Event)
    requires Reachable(cfg, s) && e in s.b.hist && e.remote
    ensures Attempted(s, e.w.key.table, e.w)
  {
    ReachableSysInv(cfg, s);
    RemoteEventSender(s, e);
  }

  /** On a table without late messages the backup applies in timestamp order, its own writes last. */
  lemma BackupTableInTurn(cfg: Config, s: System, t: TableId, i: int, j: int)
    requires ReachableFailStop(cfg, s) && AppliedInTurn(s, t)
    requires 0 <= i < j < |s.b.hist| && s.b.hist[j].remote
    requires s.b.hist[i].w.key.table == s.b.hist[j].w.key.table == t
    ensures s.b.hist[i].remote && s.b.hist[i].w.Ts() < s.b.hist[j].w.Ts()
  {
    ReachableFailStopInv(cfg, s);
  }

  ghost predicate RemotesFirst(hist: seq<Event>, t: TableId) {
    forall i, j | 0 <= i < j < |hist| && hist[i].w.key.table == hist[j].w.key.table == t && hist[j].remote ::
      hist[i].remote && hist[i].w.Ts() < hist[j].w.Ts()
  }

  lemma OneMoreEvent(hist: seq<Event>, e: Event)
    ensures Writes(hist + [e]) == Writes(hist) + [e.w]
    ensures Remotes(hist + [e]) == if e.remote then Remotes(hist) + [e.w] else Remotes(hist)
    ensures Locals(hist + [e]) == if e.remote then Locals(hist) else Locals(hist) + [e.w]
  {
    assert (hist + [e])[..|hist|] == hist;
  }

  lemma SplitOneMore(hist: seq<Event>, e: Event, t: TableId)
    requires OnTable(Writes(hist), t) == OnTable(Remotes(hist), t) + OnTable(Locals(hist), t)
    requires e.remote && e.w.key.table == t ==> OnTable(Locals(hist), t) == []
    ensures OnTable(Writes(hist + [e]), t) == OnTable(Remotes(hist + [e]), t) + OnTable(Locals(hist + [e]), t)
  {
    OneMoreEvent(hist, e);
    OnTableAppend(Writes(hist), e.w, t);
    if e.remote {
      OnTableAppend(Remotes(hist), e.w, t);
    } else {
      OnTableAppend(Locals(hist), e.w, t);
      Regroup(OnTable(Remotes(hist), t), OnTable(Locals(hist), t), e.w);
    }
  }

  lemma {:induction false} SplitHistory(hist: seq<Event>, t: TableId)
    requires RemotesFirst(hist, t)
    ensures OnTable(Writes(hist), t) == OnTable(Remotes(hist), t) + OnTable(Locals(hist), t)
  {
    if |hist| > 0 {
      var front, e := hist[..|hist| - 1], hist[|hist| - 1];
      SplitHistory(front, t);
      if e.remote && e.w.key.table == t {
        NoLocals(front, t);
      }
      SplitOneMore(front, e, t);
      assert hist == front + [e];
    }
  }

  lemma {:induction false} RemotesAscend(hist: seq<Event>, t: TableId)
    requires RemotesFirst(hist, t)
    ensures Ascend(OnTable(Remotes(hist), t))
  {
    if |hist| > 0 {
      var front, e := hist[..|hist| - 1], hist[|hist| - 1];
      RemotesAscend(front, t);
      if e.remote && e.w.key.table == t {
        RemotesOlder(front, t, e.w);
        AscendAppend(OnTable(Remotes(front), t), e.w);
      }
    }
  }

  lemma AscendAppend(ws: seq<Write>, w: Write)
    requires Ascend(ws) && forall x | x in ws :: x.Ts() < w.Ts()
    ensures Ascend(ws + [w])
  {
    forall i | 0 <= i < |ws| ensures ws[i].Ts() < w.Ts() {
      assert ws[i] in ws;
    }
  }

  lemma {:induction false} NoLocals(hist: seq<Event>, t: TableId)
    requires forall i | 0 <= i < |hist| && hist[i].w.key.table == t :: hist[i].remote
    ensures OnTable(Locals(hist), t) == []
  {
    if |hist| > 0 {
      NoLocals(hist[..|hist| - 1], t);
    }
  }

  lemma {:induction false} RemotesOlder(hist: seq<Event>, t: TableId, w: Write)
    requires forall i | 0 <= i < |hist| && hist[i].w.key.table == t :: hist[i].w.Ts() < w.Ts()
    ensures forall x | x in OnTable(Remotes(hist), t) :: x.Ts() < w.Ts()
  {
    if |hist| > 0 {
      RemotesOlder(hist[..|hist| - 1], t, w);
    }
  }

  lemma {:induction false} RemotesElements(hist: seq<Event>, w: Write)
    ensures w in Remotes(hist) <==> exists e :: e in hist && e.remote && e.w == w
  {
    if |hist| > 0 {
      var front, e := hist[..|hist| - 1], hist[|hist| - 1];
      RemotesElements(front, w);
      assert hist == front + [e];
    }
  }

  /** A backup's history on a table is what it applied of the primary's attempts, then its own writes. */
  lemma BackupFollowsAttempts(cfg: Config, s: System, t: TableId, ws: seq<Write>)
    requires ReachableFailStop(cfg, s) && AppliedInTurn(s, t) && AttemptsInOrder(s, t, ws)
    ensures OnTable(Writes(s.b.hist), t) == Kept(ws, Remotes(s.b.hist)) + OnTable(Locals(s.b.hist), t)
  {
    FailStopIsReachable(cfg, s);
    var done := Remotes(s.b.hist);
    forall i, j | 0 <= i < j < |s.b.hist| && s.b.hist[i].w.key.table == s.b.hist[j].w.key.table == t
      && s.b.hist[j].remote
      ensures s.b.hist[i].remote && s.b.hist[i].w.Ts() < s.b.hist[j].w.Ts()
    {
      BackupTableInTurn(cfg, s, t, i, j);
    }
    SplitHistory(s.b.hist, t);
    RemotesAscend(s.b.hist, t);
    OnTableElements(done, t);
    KeptAscends(ws, done);
    KeptElements(ws, done);
    forall w | w in done && w.key.table == t ensures Attempted(s, t, w) {
      RemotesElements(s.b.hist, w);
      var e :| e in s.b.hist && e.remote && e.w == w;
      AppliedIsAttempted(cfg, s, e);
    }
    SameAscending(OnTable(done, t), Kept(ws, done));
  }

  lemma {:induction false} SameKept(a: seq<Write>, b: seq<Write>, done: seq<Write>, done': seq<Write>)
    requires |a| == |b|
    requires forall i | 0 <= i < |a| :: EraseWrite(a[i]) == EraseWrite(b[i]) && (a[i] in done <==> b[i] in done')
    ensures EraseAll(Kept(a, done)) == EraseAll(Kept(b, done'))
  {
    if |a| > 0 {
      var n := |a| - 1;
      SameKept(a[..n], b[..n], done, done');
      EraseAppend(Kept(a[..n], done), [a[n]]);
      EraseAppend(Kept(b[..n], done'), [b[n]]);
      assert EraseAll([a[n]]) == [EraseWrite(a[n])] && EraseAll([b[n]]) == [EraseWrite(b[n])];
    }
  }

  lemma SameTable(cfg: Config, s: System, s': System, t: TableId)
    requires ReachableFailStop(cfg, s) && ReachableFailStop(cfg, s')
    requires AppliedInTurn(s, t) && AppliedInTurn(s', t) && SameCourse(s, s', t)
    ensures OnTable(EraseAll(Writes(s.p.hist)), t) == OnTable(EraseAll(Writes(s'.p.hist)), t)
    ensures OnTable(EraseAll(Writes(s.b.hist)), t) == OnTable(EraseAll(Writes(s'.b.hist)), t)
  {
    FailStopIsReachable(cfg, s);
    FailStopIsReachable(cfg, s');
    var a, b :| AttemptsInOrder(s, t, a) && AttemptsInOrder(s', t, b) && SameOutcomes(s, s', a, b);
    PrimaryFollowsAttempts(cfg, s, t, a);
    PrimaryFollowsAttempts(cfg, s', t, b);
    SameKept(a, b, Writes(s.p.hist), Writes(s'.p.hist));
    BackupFollowsAttempts(cfg, s, t, a);
    BackupFollowsAttempts(cfg, s', t, b);
    SameKept(a, b, Remotes(s.b.hist), Remotes(s'.b.hist));
    EraseAppend(Kept(a, Remotes(s.b.hist)), OnTable(Locals(s.b.hist), t));
    EraseAppend(Kept(b, Remotes(s'.b.hist)), OnTable(Locals(s'.b.hist), t));
    EraseOnTable(Writes(s.p.hist), t);
    EraseOnTable(Writes(s'.p.hist), t);
    EraseOnTable(Writes(s.b.hist), t);
    EraseOnTable(Writes(s'.b.hist), t);
  }

  /** Two runs in which the same writes were attempted in the same order table by table, with the
      same replication outcomes, end with the same dictionaries on both nodes, timestamps and
      creation times aside, however the handlers of different tables were interleaved. */
  lemma InterleavingDoesNotMatter(cfg: Config, s: System, s': System)
    requires ReachableFailStop(cfg, s) && ReachableFailStop(cfg, s')
    requires forall t :: AppliedInTurn(s, t) && AppliedInTurn(s', t)
    requires forall t :: SameCourse(s, s', t)
    ensures EraseStore(s.p.store) == EraseStore(s'.p.store)
    ensures EraseStore(s.b.store) == EraseStore(s'.b.store)
  {
    FailStopIsReachable(cfg, s);
    FailStopIsReachable(cfg, s');
    NodeInvs(cfg, s);
    NodeInvs(cfg, s');
    forall t
      ensures OnTable(EraseAll(Writes(s.p.hist)), t) == OnTable(EraseAll(Writes(s'.p.hist)), t)
      ensures OnTable(EraseAll(Writes(s.b.hist)), t) == OnTable(EraseAll(Writes(s'.b.hist)), t)
    {
      SameTable(cfg, s, s', t);
    }
    InterleavingsAgree(s.p, s'.p);
    InterleavingsAgree(s.b, s'.b);
  }

  /** Every reachable state has such an order of attempts. */
  lemma AttemptsHaveAnOrder(cfg: Config, s: System, t: TableId) returns (ws: seq<Write>)
    requires Reachable(cfg, s)
    ensures AttemptsInOrder(s, t, ws)
  {
    ReachableSysInv(cfg, s);
    var stamps := set h | h in s.p.handlers && s.p.handlers[h].phase.Stamp().Some? ::
        s.p.handlers[h].phase.Stamp().value;
    var attempts := set w | w in stamps && w.key.table == t;
    forall v, w | v in attempts && w in attempts && v != w ensures v.Ts() != w.Ts() {
      var g :| g in s.p.handlers && s.p.handlers[g].phase.Stamp() == Some(v);
      var h :| h in s.p.handlers && s.p.handlers[h].phase.Stamp() == Some(w);
      StampsDiffer(cfg, s, false, g, h, v.Ts(), w.Ts());
    }
    ws := Ordered(attempts);
  }

  lemma {:induction false} Ordered(writes: set<Write>) returns (ws: seq<Write>)
    requires forall v, w | v in writes && w in writes && v != w :: v.Ts() != w.Ts()
    ensures Ascend(ws) && forall w :: w in ws <==> w in writes
  {
    if writes == {} {
      ws := [];
    } else {
      var w :| w in writes;
      var rest := Ordered(writes - {w});
      ws := Insert(rest, w);
      InsertAscends(rest, w);
    }
  }

  lemma {:induction false} InsertAscends(ws: seq<Write>, w: Write)
    requires Ascend(ws) && forall x | x in ws :: x.Ts() != w.Ts()
    ensures Ascend(Insert(ws, w))
    ensures forall x :: x in Insert(ws, w) <==> x in ws || x == w
  {
    if |ws| > 0 && ws[|ws| - 1].Ts() > w.Ts() {
      var front, last := ws[..|ws| - 1], ws[|ws| - 1];
      InsertAscends(front, w);
      assert ws == front + [last];
      var r := Insert(front, w);
      forall i | 0 <= i < |r| ensures r[i].Ts() < last.Ts() {
        assert r[i] in r;
      }
    } else {
      forall i | 0 <= i < |ws| ensures ws[i].Ts() < w.Ts() {
        assert ws[i] in ws;
      }
    }
  }

  /** Replication keeps the order of each table: before the crash, when nothing unconfirmed was applied on a
      table and nobody holds its lock, both nodes went through the same writes there. */
  lemma TableReplicatedInOrder(cfg: Config, s: System, t: TableId)
    requires ReachableFailStop(cfg, s) && !s.crashed && t !in s.p.locks
    requires forall i | 0 <= i < |s.b.hist| && s.b.hist[i].w.key.table == t && s.b.hist[i].remote ::
        Confirmed(s, s.b.hist[i].h)
    ensures OnTable(Writes(s.b.hist), t) == OnTable(Writes(s.p.hist), t)
  {
    FailStopIsReachable(cfg, s);
    var ws := AttemptsHaveAnOrder(cfg, s, t);
    PrimaryFollowsAttempts(cfg, s, t, ws);
    BackupFollowsAttempts(cfg, s, t, ws);
    forall i | 0 <= i < |s.b.hist| ensures s.b.hist[i].remote {
      AllRemoteBeforeCrash(cfg, s, i);
    }
    NoLocals(s.b.hist, t);
    KeptElements(ws, Remotes(s.b.hist));
    KeptElements(ws, Writes(s.p.hist));
    forall w | w in ws ensures w in Remotes(s.b.hist) <==> w in Writes(s.p.hist) {
      RemotesElements(s.b.hist, w);
      if w in Remotes(s.b.hist) {
        var e :| e in s.b.hist && e.remote && e.w == w;
        var i :| 0 <= i < |s.b.hist| && s.b.hist[i] == e;
        var y := ConfirmedEvent(cfg, s, i);
        assert Writes(s.p.hist)[y] == w;
      }
      if w in Writes(s.p.hist) {
        var x :| 0 <= x < |s.p.hist| && Writes(s.p.hist)[x] == w;
        var j := PrimaryEvent(cfg, s, x);
        assert s.b.hist[j] in s.b.hist;
      }
    }
    KeptAscends(ws, Remotes(s.b.hist));
    KeptAscends(ws, Writes(s.p.hist));
    SameAscending(Kept(ws, Remotes(s.b.hist)), Kept(ws, Writes(s.p.hist)));
  }
}
