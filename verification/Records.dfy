/** Keys, reservation records, writes, and the replay of a sequence of writes.

    A reservation service keeps one dictionary from keys to records.  Everything the
    protocol proofs say about that dictionary goes through Replay: the dictionary is
    what a sequence of writes leaves behind, and only the last write of a key matters.
*/
module Records {

  datatype Option<+T> = None | Some(value: T) {
    function GetOr(default: T): T {
      match this
      case Some(v) => v
      case None => default
    }
  }

  type TableId = string

  datatype Key = Key(restaurant: string, table: TableId, slot: string)

  datatype Record = Record(
    restaurant: string, table: TableId, date: string, timeslot: string,
    customer: string, party: int, contact: string,
    createdAt: real, lamport: nat)

  type Store = map<Key, Record>

  datatype Op = Book | Cancel

  /** One write.  A booking stores `rec`; a cancellation removes the key and carries a copy
      of the cancelled record with the timestamp of the cancellation. */
  datatype Write = Write(op: Op, key: Key, rec: Record) {
    function Ts(): nat { rec.lamport }

    /** What the key holds right after this write. */
    function Effect(): Option<Record> {
      if op.Book? then Some(rec) else None
    }
  }

  // ---------- The slot part of a key ----------

  function Slot(date: string, timeslot: string): string {
    date + "_" + timeslot
  }

  /** One date is another followed by an underscore and anything. */
  predicate Extends(date: string, other: string) {
    other + "_" <= date
  }

  /** Different (date, timeslot) pairs with dates from `dates` have different slot strings. */
  ghost predicate SlotsDistinct(dates: iset<string>) {
    forall d1, t1, d2, t2 | d1 in dates && d2 in dates && Slot(d1, t1) == Slot(d2, t2) :: d1 == d2 && t1 == t2
  }

  /** Two pairs with the same slot string are the same pair, or one date extends the other. */
  lemma SameSlot(d1: string, t1: string, d2: string, t2: string)
    requires Slot(d1, t1) == Slot(d2, t2) && |d1| <= |d2|
    ensures (d1 == d2 && t1 == t2) || Extends(d2, d1)
  {
    var s1, s2 := Slot(d1, t1), Slot(d2, t2);
    assert s1[..|d1|] == d1 && s2[..|d2|] == d2;
    assert s1[|d1| + 1..] == t1 && s2[|d2| + 1..] == t2;
    if |d1| < |d2| {
      assert s2[..|d1| + 1] == d2[..|d1| + 1];
      assert s1[..|d1| + 1] == d1 + "_";
    }
  }

  /** A date that extends another collides with it. */
  lemma ExtensionCollides(d1: string, d2: string, t: string) returns (t1: string)
    requires Extends(d2, d1)
    ensures Slot(d1, t1) == Slot(d2, t)
  {
    t1 := d2[|d1| + 1..] + "_" + t;
    assert d2 == d1 + "_" + d2[|d1| + 1..];
  }

  /** The slot string identifies date and timeslot if and only if no date in use extends another. */
  lemma SlotsDistinctIff(dates: iset<string>)
    ensures SlotsDistinct(dates) <==> forall d1, d2 | d1 in dates && d2 in dates :: !Extends(d2, d1)
  {
    if d1, d2 :| d1 in dates && d2 in dates && Extends(d2, d1) {
      var t1 := ExtensionCollides(d1, d2, "");
    } else {
      forall d1, t1, d2, t2 | d1 in dates && d2 in dates && Slot(d1, t1) == Slot(d2, t2) ensures d1 == d2 && t1 == t2 {
        if |d1| <= |d2| {
          SameSlot(d1, t1, d2, t2);
        } else {
          SameSlot(d2, t2, d1, t1);
        }
      }
    }
  }

  /** Dates without an underscore, or all of one length, do not extend one another. */
  lemma SlotInjective(d1: string, t1: string, d2: string, t2: string)
    requires ('_' !in d1 && '_' !in d2) || |d1| == |d2|
    requires Slot(d1, t1) == Slot(d2, t2)
    ensures d1 == d2 && t1 == t2
  {
    var dates := iset{d1, d2};
    forall a, b | a in dates && b in dates && Extends(b, a) ensures a != b && '_' in b && |a| != |b| {
      assert b[|a|] == '_';
    }
    SlotsDistinctIff(dates);
  }

  /** Free-text dates can collide. */
  lemma SlotCollision()
    ensures exists d1, t1, d2, t2 :: (d1, t1) != (d2, t2) && Slot(d1, t1) == Slot(d2, t2)
  {
    assert "a" != "a_b";
    assert Slot("a", "b_c") == "a_b_c" == Slot("a_b", "c");
    assert ("a", "b_c") != ("a_b", "c");
  }

  // ---------- Replay ----------

  function Lookup(s: Store, k: Key): Option<Record> {
    if k in s then Some(s[k]) else None
  }

  function Apply(s: Store, w: Write): Store {
    if w.op.Book? then s[w.key := w.rec] else s - {w.key}
  }

  /** The dictionary left behind by executing the writes one after another, from empty. */
  function Replay(ws: seq<Write>): Store {
    if |ws| == 0 then map[] else Apply(Replay(ws[..|ws| - 1]), ws[|ws| - 1])
  }

  lemma ReplayAppend(ws: seq<Write>, w: Write)
    ensures Replay(ws + [w]) == Apply(Replay(ws), w)
  {
  }

  ghost predicate IsLastOn(ws: seq<Write>, k: Key, i: int) {
    && 0 <= i < |ws|
    && ws[i].key == k
    && forall j | i < j < |ws| :: ws[j].key != k
  }

  ghost predicate Untouched(ws: seq<Write>, k: Key) {
    forall j | 0 <= j < |ws| :: ws[j].key != k
  }

  /** The last write of a key decides what the key holds. */
  lemma {:induction false} LastWriteWins(ws: seq<Write>, k: Key, i: int)
    requires IsLastOn(ws, k, i)
    ensures Lookup(Replay(ws), k) == ws[i].Effect()
  {
    var n := |ws| - 1;
    if i < n {
      LastWriteWins(ws[..n], k, i);
    }
  }

  lemma {:induction false} NeverWritten(ws: seq<Write>, k: Key)
    requires Untouched(ws, k)
    ensures k !in Replay(ws)
  {
    if |ws| > 0 {
      NeverWritten(ws[..|ws| - 1], k);
    }
  }

  /** Every key is either untouched or has a last write. */
  lemma {:induction false} LastOrUntouched(ws: seq<Write>, k: Key) returns (i: int)
    ensures i < 0 ==> Untouched(ws, k)
    ensures 0 <= i ==> IsLastOn(ws, k, i)
  {
    i := |ws| - 1;
    while 0 <= i && ws[i].key != k
      invariant -1 <= i < |ws|
      invariant forall j | i < j < |ws| :: ws[j].key != k
    {
      i := i - 1;
    }
  }

  /** If a key flips between presence after a prefix and presence after a longer prefix,
      a write of the matching kind lies in between. */
  lemma {:induction false} FlipNeedsWrite(ws: seq<Write>, k: Key, x: int, y: int) returns (z: int)
    requires 0 <= x <= y <= |ws|
    requires (k in Replay(ws[..x])) != (k in Replay(ws[..y]))
    ensures x <= z < y && ws[z].key == k
    ensures ws[z].op.Book? <==> k in Replay(ws[..y])
  {
    assert x < y;
    assert ws[..y][..y - 1] == ws[..y - 1];
    if ws[y - 1].key == k {
      z := y - 1;
    } else {
      z := FlipNeedsWrite(ws, k, x, y - 1);
    }
  }

  // ---------- Timestamp order ----------

  ghost predicate SortedByTs(ws: seq<Write>) {
    forall i, j | 0 <= i < j < |ws| :: ws[i].Ts() <= ws[j].Ts()
  }

  function Insert(ws: seq<Write>, w: Write): (r: seq<Write>) {
    if |ws| == 0 || ws[|ws| - 1].Ts() <= w.Ts() then ws + [w]
    else Insert(ws[..|ws| - 1], w) + [ws[|ws| - 1]]
  }

  /** The writes in ascending timestamp order; equal timestamps keep their order. */
  function SortByTs(ws: seq<Write>): seq<Write> {
    if |ws| == 0 then [] else Insert(SortByTs(ws[..|ws| - 1]), ws[|ws| - 1])
  }

  lemma {:induction false} InsertSorts(ws: seq<Write>, w: Write)
    requires SortedByTs(ws)
    ensures SortedByTs(Insert(ws, w))
    ensures multiset(Insert(ws, w)) == multiset(ws) + multiset{w}
  {
    if |ws| == 0 || ws[|ws| - 1].Ts() <= w.Ts() {
    } else {
      var front, last := ws[..|ws| - 1], ws[|ws| - 1];
      InsertSorts(front, w);
      assert ws == front + [last];
      var r := Insert(front, w);
      forall i | 0 <= i < |r| ensures r[i].Ts() <= last.Ts() {
        assert r[i] in multiset(r);
        if r[i] != w {
          assert r[i] in front;
        }
      }
    }
  }

  lemma {:induction false} SortSorts(ws: seq<Write>)
    ensures SortedByTs(SortByTs(ws))
    ensures multiset(SortByTs(ws)) == multiset(ws)
  {
    if |ws| > 0 {
      SortSorts(ws[..|ws| - 1]);
      InsertSorts(SortByTs(ws[..|ws| - 1]), ws[|ws| - 1]);
      assert ws == ws[..|ws| - 1] + [ws[|ws| - 1]];
    }
  }

  /** In any timestamp-ordered arrangement of writes with distinct timestamps, the key holds
      the effect of its write with the largest timestamp. */
  lemma SortedReplayHoldsNewest(ws: seq<Write>, sorted: seq<Write>, k: Key, newest: Write)
    requires multiset(sorted) == multiset(ws) && SortedByTs(sorted)
    requires newest in ws && newest.key == k
    requires forall w | w in ws && w.key == k && w != newest :: w.Ts() < newest.Ts()
    ensures Lookup(Replay(sorted), k) == newest.Effect()
  {
    assert newest in multiset(sorted);
    var i := LastOrUntouched(sorted, k);
    assert 0 <= i;
    assert sorted[i] in multiset(sorted);
    assert sorted[i] in ws;
    var n :| 0 <= n < |sorted| && sorted[n] == newest;
    assert n <= i;
    LastWriteWins(sorted, k, i);
  }

  lemma SortedReplayUntouched(ws: seq<Write>, sorted: seq<Write>, k: Key)
    requires multiset(sorted) == multiset(ws)
    requires Untouched(ws, k)
    ensures k !in Replay(sorted)
  {
    forall j | 0 <= j < |sorted| ensures sorted[j].key != k {
      assert sorted[j] in multiset(sorted);
      assert sorted[j] in ws;
    }
    NeverWritten(sorted, k);
  }

  lemma SameLookupsSameStore(a: Store, b: Store)
    requires forall k :: Lookup(a, k) == Lookup(b, k)
    ensures a == b
  {
    forall k | k in a ensures k in b && a[k] == b[k] {
      assert Lookup(a, k) == Lookup(b, k);
    }
    forall k | k in b ensures k in a {
      assert Lookup(a, k) == Lookup(b, k);
    }
  }

  // ---------- Writes on different tables commute ----------

  /** The writes on one table, in order. */
  function OnTable(ws: seq<Write>, t: TableId): seq<Write> {
    if |ws| == 0 then []
    else
      var front := OnTable(ws[..|ws| - 1], t);
      if ws[|ws| - 1].key.table == t then front + [ws[|ws| - 1]] else front
  }

  lemma {:induction false} LookupNeedsOnlyItsTable(ws: seq<Write>, k: Key)
    ensures Lookup(Replay(ws), k) == Lookup(Replay(OnTable(ws, k.table)), k)
  {
    if |ws| > 0 {
      var front, last := ws[..|ws| - 1], ws[|ws| - 1];
      LookupNeedsOnlyItsTable(front, k);
      if last.key.table == k.table {
        ReplayAppend(OnTable(front, k.table), last);
      }
    }
  }

  /** Two interleavings with the same order on every table leave the same dictionary. */
  lemma TablesCommute(a: seq<Write>, b: seq<Write>)
    requires forall t :: OnTable(a, t) == OnTable(b, t)
    ensures Replay(a) == Replay(b)
  {
    forall k ensures Lookup(Replay(a), k) == Lookup(Replay(b), k) {
      LookupNeedsOnlyItsTable(a, k);
      LookupNeedsOnlyItsTable(b, k);
    }
    SameLookupsSameStore(Replay(a), Replay(b));
  }

  // ---------- Forgetting timestamps and creation times ----------

  function EraseRecord(r: Record): Record {
    r.(createdAt := 0.0, lamport := 0)
  }

  function EraseOption(r: Option<Record>): Option<Record> {
    if r.Some? then Some(EraseRecord(r.value)) else None
  }

  function EraseWrite(w: Write): Write {
    w.(rec := EraseRecord(w.rec))
  }

  function EraseStore(s: Store): Store {
    map k | k in s :: EraseRecord(s[k])
  }

  function EraseAll(ws: seq<Write>): seq<Write> {
    if |ws| == 0 then [] else EraseAll(ws[..|ws| - 1]) + [EraseWrite(ws[|ws| - 1])]
  }

  lemma {:induction false} ReplayErased(ws: seq<Write>)
    ensures Replay(EraseAll(ws)) == EraseStore(Replay(ws))
  {
    if |ws| > 0 {
      var front, last := ws[..|ws| - 1], ws[|ws| - 1];
      ReplayErased(front);
      ReplayAppend(EraseAll(front), EraseWrite(last));
    }
  }
}
