/** What one node guarantees under every interleaving of its handlers, with no assumption
    about the other node, the network or who sends it requests.
*/
module NodeTheorems {
  import opened Records
  import opened NodeModel

  /** Between two local bookings of a key lies a cancellation of it, local or replicated;
      between two local cancellations lies a booking. */
  lemma LocalWritesOfAKeyAlternate(n: Node, i: int, j: int) returns (z: int)
    requires NodeInv(n)
    requires 0 <= i < j < |n.hist| && !n.hist[j].remote
    requires n.hist[i].w.key == n.hist[j].w.key && n.hist[i].w.op == n.hist[j].w.op
    ensures i < z < j && n.hist[z].w.key == n.hist[i].w.key && n.hist[z].w.op != n.hist[i].w.op
  {
    var ws, k := Writes(n.hist), n.hist[i].w.key;
    assert ws[..i + 1] == ws[..i] + [ws[i]];
    ReplayAppend(ws[..i], ws[i]);
    z := FlipNeedsWrite(ws, k, i + 1, j);
  }

  /** The first local write of a key that no replicated write preceded is a booking. */
  lemma FirstLocalWriteIsBooking(n: Node, j: int)
    requires NodeInv(n)
    requires 0 <= j < |n.hist| && !n.hist[j].remote
    requires forall i | 0 <= i < j :: n.hist[i].w.key != n.hist[j].w.key
    ensures n.hist[j].w.op.Book?
  {
    NeverWritten(Writes(n.hist)[..j], n.hist[j].w.key);
  }

  /** On a node that applies no replicated writes, the last write of a key is its newest. */
  lemma LastIsNewest(hist: seq<Event>, k: Key, i: int, w: Write)
    requires LocalsAscend(hist) && forall e | e in hist :: !e.remote
    requires IsLastOn(Writes(hist), k, i)
    requires w in Writes(hist) && w.key == k && w != hist[i].w
    ensures w.Ts() < hist[i].w.Ts()
  {
  }

  /** Serializability in timestamp order: on a node that applies no replicated writes, the
      dictionary equals the replay of its committed writes in ANY timestamp-ascending
      arrangement, although handlers on different tables commit in another order. */
  lemma SerializableInTimestampOrder(n: Node, sorted: seq<Write>)
    requires NodeInv(n)
    requires forall e | e in n.hist :: !e.remote
    requires SortedByTs(sorted) && multiset(sorted) == multiset(Writes(n.hist))
    ensures n.store == Replay(sorted)
  {
    AscendingReplays(n.hist, sorted);
  }

  lemma AscendingReplays(hist: seq<Event>, sorted: seq<Write>)
    requires LocalsAscend(hist) && forall e | e in hist :: !e.remote
    requires SortedByTs(sorted) && multiset(sorted) == multiset(Writes(hist))
    ensures Replay(Writes(hist)) == Replay(sorted)
  {
    var ws := Writes(hist);
    forall k ensures Lookup(Replay(ws), k) == Lookup(Replay(sorted), k) {
      var i := LastOrUntouched(ws, k);
      if i < 0 {
        NeverWritten(ws, k);
        SortedReplayUntouched(ws, sorted, k);
      } else {
        LastWriteWins(ws, k, i);
        forall w | w in ws && w.key == k && w != ws[i] ensures w.Ts() < ws[i].Ts() {
          LastIsNewest(hist, k, i, w);
        }
        SortedReplayHoldsNewest(ws, sorted, k, ws[i]);
      }
    }
    SameLookupsSameStore(Replay(ws), Replay(sorted));
  }

  lemma SortingSerializes(n: Node)
    requires NodeInv(n)
    requires forall e | e in n.hist :: !e.remote
    ensures n.store == Replay(SortByTs(Writes(n.hist)))
  {
    SortSorts(Writes(n.hist));
    SerializableInTimestampOrder(n, SortByTs(Writes(n.hist)));
  }

  lemma CommittedIsStamped(n: Node, e: Event)
    requires EventOk(n, e)
    ensures n.handlers[e.h].phase.Stamp() == Some(e.w)
    ensures n.handlers[e.h].phase.Committed? || (n.handlers[e.h].phase.Done? && n.handlers[e.h].phase.outcome.Ok?)
  {
  }

  lemma LocalIsStamped(n: Node, i: int)
    requires HistOk(n) && 0 <= i < |n.hist| && !n.hist[i].remote
    ensures HasStamp(n, n.hist[i].h, n.hist[i].w.Ts())
  {
    assert EventOk(n, n.hist[i]);
  }

  /** Committed local writes of a node have pairwise different timestamps. */
  lemma LocalTimestampsDistinct(n: Node, i: int, j: int)
    requires NodeInv(n)
    requires 0 <= i < j < |n.hist| && !n.hist[i].remote && !n.hist[j].remote
    ensures n.hist[i].w.Ts() != n.hist[j].w.Ts()
  {
    LocalIsStamped(n, i);
    LocalIsStamped(n, j);
    assert n.hist[i].h != n.hist[j].h;
  }

  /** A timestamp exceeds that of every record stored when it is drawn. */
  lemma StampExceedsStored(n: Node, h: Hid, now: real)
    requires NodeInv(n) && Enabled(n, Stamp(h, now))
    ensures var w := Next(n, Stamp(h, now)).handlers[h].phase.w;
            forall k | k in n.store :: n.store[k].lamport < w.Ts()
  {
    forall k | k in n.store ensures n.store[k].lamport <= n.clock {
      var ws := Writes(n.hist);
      var i := LastOrUntouched(ws, k);
      if i < 0 {
        NeverWritten(ws, k);
      } else {
        LastWriteWins(ws, k, i);
        assert EventOk(n, n.hist[i]);
        assert Lookup(n.store, k) == Some(n.hist[i].w.rec);
      }
    }
  }

  /** Writes on different tables commute: two nodes whose histories agree table by table, up
      to timestamps and creation times, hold the same dictionary up to those. */
  lemma InterleavingsAgree(a: Node, b: Node)
    requires NodeInv(a) && NodeInv(b)
    requires forall t :: OnTable(EraseAll(Writes(a.hist)), t) == OnTable(EraseAll(Writes(b.hist)), t)
    ensures EraseStore(a.store) == EraseStore(b.store)
  {
    TablesCommute(EraseAll(Writes(a.hist)), EraseAll(Writes(b.hist)));
    ReplayErased(Writes(a.hist));
    ReplayErased(Writes(b.hist));
  }
}
