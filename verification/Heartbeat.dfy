/** The failure detector: pings from the primary, the watchdog on the backup.

    Time is real-valued seconds on one monotone clock; a watchdog tick costs nothing but its
    half-second sleep.
*/
module Heartbeat {
  import opened Records

  const HEARTBEAT_INTERVAL := 2.0
  const HEARTBEAT_TIMEOUT := 6.0
  const TICK := 0.5

  // ---------- The sender ----------

  /** One heartbeat exchange: how long it takes, and when within it the ping is recorded at the
      backup, if it gets there. */
  datatype Beat = Beat(duration: real, arrival: Option<real>)

  ghost predicate BeatsOk(beats: seq<Beat>, bound: real) {
    forall i | 0 <= i < |beats| ::
      && 0.0 <= beats[i].duration <= bound
      && (beats[i].arrival.Some? ==> 0.0 <= beats[i].arrival.value <= beats[i].duration)
  }

  /** Start of exchange `i` when the first starts at `start`. */
  function BeatStart(start: real, beats: seq<Beat>, i: nat): real
    requires i <= |beats|
  {
    if i == 0 then start
    else BeatStart(start, beats, i - 1) + beats[i - 1].duration + HEARTBEAT_INTERVAL
  }

  /** The pings the backup records, in order: those of the exchanges that got through. */
  function Recorded(start: real, beats: seq<Beat>): seq<real> {
    if |beats| == 0 then []
    else
      var n := |beats| - 1;
      var front := Recorded(start, beats[..n]);
      if beats[n].arrival.Some? then front + [BeatStart(start, beats, n) + beats[n].arrival.value] else front
  }

  class HeartbeatSender {
    const backupPort: Option<int>

    constructor (port: int, backupMap: map<int, int>)
      ensures backupPort == if port in backupMap then Some(backupMap[port]) else None
    {
      backupPort := if port in backupMap then Some(backupMap[port]) else None;
    }

    /** The sender loop until it is stopped after |beats| exchanges: the times at which the
        backup records a ping. */
    method Run(start: real, beats: seq<Beat>) returns (pings: seq<real>)
      ensures pings == if backupPort.None? then [] else Recorded(start, beats)
    {
      pings := [];
      var now := start;
      var i := 0;
      while i < |beats|
        invariant 0 <= i <= |beats|
        invariant now == BeatStart(start, beats, i)
        invariant pings == if backupPort.None? then [] else Recorded(start, beats[..i])
      {
        if backupPort.None? {
          break;
        }
        assert beats[..i + 1][..i] == beats[..i];
        BeatStartPrefix(start, beats, i + 1, i);
        if beats[i].arrival.Some? {  // otherwise an OSError is swallowed
          pings := pings + [now + beats[i].arrival.value];
        }
        now := now + beats[i].duration + HEARTBEAT_INTERVAL;
        i := i + 1;
      }
      assert beats[..|beats|] == beats;
    }
  }

  lemma {:induction false} BeatStartPrefix(start: real, beats: seq<Beat>, n: nat, i: nat)
    requires i <= n <= |beats|
    ensures BeatStart(start, beats[..n], i) == BeatStart(start, beats, i)
  {
    if i > 0 {
      BeatStartPrefix(start, beats, n, i - 1);
    }
  }

  /** The pings recorded are exactly those of the exchanges that got through. */
  lemma {:induction false} RecordedExactly(start: real, beats: seq<Beat>, t: real)
    ensures t in Recorded(start, beats) <==>
            exists i ::
              && 0 <= i < |beats| && beats[i].arrival.Some?
              && t == BeatStart(start, beats, i) + beats[i].arrival.value
  {
    if |beats| > 0 {
      var n := |beats| - 1;
      RecordedExactly(start, beats[..n], t);
      forall i | 0 <= i < n ensures BeatStart(start, beats[..n], i) == BeatStart(start, beats, i) {
        BeatStartPrefix(start, beats, n, i);
      }
      forall i | 0 <= i < n ensures beats[..n][i] == beats[i] {
      }
    }
  }

  /** When every exchange gets through, so does every ping. */
  lemma {:induction false} RecordedAll(start: real, beats: seq<Beat>)
    requires forall i | 0 <= i < |beats| :: beats[i].arrival.Some?
    ensures |Recorded(start, beats)| == |beats|
    ensures forall i | 0 <= i < |beats| ::
        Recorded(start, beats)[i] == BeatStart(start, beats, i) + beats[i].arrival.value
  {
    if |beats| > 0 {
      var n := |beats| - 1;
      RecordedAll(start, beats[..n]);
      forall i | 0 <= i < n ensures BeatStart(start, beats[..n], i) == BeatStart(start, beats, i) {
        BeatStartPrefix(start, beats, n, i);
      }
    }
  }

  // ---------- The monitor ----------

  class HeartbeatMonitor {
    const primaryPort: int
    var lastSeen: Option<real>
    var fired: bool

    constructor (primaryPort: int)
      ensures this.primaryPort == primaryPort && lastSeen == None && !fired
    {
      this.primaryPort := primaryPort;
      lastSeen, fired := None, false;
    }

    method RecordPing(now: real)
      modifies this`lastSeen
      ensures lastSeen == Some(now)
    {
      lastSeen := Some(now);
    }

    /** The watchdog loop over its first `ticks` iterations, at start, start + 0.5, ...  The
        pings are recorded by other threads, in between.  Returns the times of promotion:
        there is at most one, at the first tick that finds the primary overdue. */
    method WatchdogLoop(start: real, ticks: nat, pings: seq<real>) returns (promotions: seq<real>)
      requires Ascending(pings)
      requires lastSeen == None && !fired
      modifies this
      ensures forall i | FirstOverdue(start, ticks, pings, i) :: promotions == [TickTime(start, i)] && fired
      ensures (forall i | 0 <= i < ticks :: !Overdue(pings, TickTime(start, i))) ==> promotions == [] && !fired
    {
      promotions := [];
      var i, next := 0, 0;
      while i < ticks
        invariant 0 <= i <= ticks && 0 <= next <= |pings|
        invariant next > 0 ==> i > 0 && pings[next - 1] <= TickTime(start, i - 1)
        invariant lastSeen == if next == 0 then None else Some(pings[next - 1])
        invariant !fired ==> promotions == [] && forall j | 0 <= j < i :: !Overdue(pings, TickTime(start, j))
        invariant fired ==> exists j ::
            j < i && FirstOverdue(start, ticks, pings, j) && promotions == [TickTime(start, j)]
      {
        var now := TickTime(start, i);
        while next < |pings| && pings[next] <= now
          invariant 0 <= next <= |pings|
          invariant next > 0 ==> pings[next - 1] <= now
          invariant lastSeen == if next == 0 then None else Some(pings[next - 1])
          modifies this`lastSeen
        {
          RecordPing(pings[next]);
          next := next + 1;
        }
        OverdueByLast(pings, now, next);
        if fired || lastSeen.None? {
          i := i + 1;
          continue;
        }
        if now - lastSeen.value > HEARTBEAT_TIMEOUT {
          fired := true;
          promotions := promotions + [now];
          assert FirstOverdue(start, ticks, pings, i);
        }
        i := i + 1;
      }
      forall j | FirstOverdue(start, ticks, pings, j) ensures promotions == [TickTime(start, j)] && fired {
        if fired {
          var j' :| FirstOverdue(start, ticks, pings, j') && promotions == [TickTime(start, j')];
          FirstOverdueUnique(start, ticks, pings, j, j');
        }
      }
    }
  }

  ghost predicate Ascending(pings: seq<real>) {
    forall i, j | 0 <= i < j < |pings| :: pings[i] <= pings[j]
  }

  function TickTime(start: real, i: int): real {
    start + TICK * (i as real)
  }

  /** At time `now` a ping has arrived, and every one that has is more than the timeout old. */
  ghost predicate Overdue(pings: seq<real>, now: real) {
    && (exists t :: t in pings && t <= now)
    && (forall t | t in pings && t <= now :: now - t > HEARTBEAT_TIMEOUT)
  }

  ghost predicate FirstOverdue(start: real, ticks: nat, pings: seq<real>, i: int) {
    && 0 <= i < ticks
    && Overdue(pings, TickTime(start, i))
    && forall j | 0 <= j < i :: !Overdue(pings, TickTime(start, j))
  }

  lemma FirstOverdueUnique(start: real, ticks: nat, pings: seq<real>, i: int, j: int)
    requires FirstOverdue(start, ticks, pings, i) && FirstOverdue(start, ticks, pings, j)
    ensures i == j
  {
  }

  lemma OverdueByLast(pings: seq<real>, now: real, next: nat)
    requires Ascending(pings) && next <= |pings|
    requires next > 0 ==> pings[next - 1] <= now
    requires next < |pings| ==> now < pings[next]
    ensures Overdue(pings, now) <==> next > 0 && now - pings[next - 1] > HEARTBEAT_TIMEOUT
  {
    if next > 0 {
      assert pings[next - 1] in pings;
    }
    forall t | t in pings && t <= now ensures next > 0 && t <= pings[next - 1] {
      var i :| 0 <= i < |pings| && pings[i] == t;
      assert i < next;
    }
  }

  // ---------- Accuracy and latency ----------

  ghost predicate GapsWithin(pings: seq<real>, gap: real) {
    forall i | 0 <= i < |pings| - 1 :: pings[i + 1] - pings[i] <= gap
  }

  /** Consecutive pings at most a timeout apart: no tick up to a timeout after the last ping
      finds the primary overdue. */
  lemma {:induction false} NoFalseAlarm(pings: seq<real>, now: real)
    requires Ascending(pings) && GapsWithin(pings, HEARTBEAT_TIMEOUT)
    requires |pings| > 0 ==> now <= pings[|pings| - 1] + HEARTBEAT_TIMEOUT
    ensures !Overdue(pings, now)
  {
    if t :| t in pings && t <= now {
      var i :| 0 <= i < |pings| && pings[i] == t;
      while i + 1 < |pings| && pings[i + 1] <= now
        invariant 0 <= i < |pings| && pings[i] <= now
        decreases |pings| - i
      {
        i := i + 1;
      }
      assert pings[i] in pings;
    }
  }

  /** Pings that stop: the first overdue tick is more than 6 and at most 6.5 seconds after the last. */
  lemma DetectionLatency(start: real, ticks: nat, pings: seq<real>) returns (i: nat)
    requires |pings| > 0 && Ascending(pings) && GapsWithin(pings, 6.0)
    requires start <= pings[|pings| - 1] + 6.0                                      // watching in time
    requires ticks > 0 && start + 0.5 * (ticks - 1) as real > pings[|pings| - 1] + 6.0  // and long enough
    ensures FirstOverdue(start, ticks, pings, i) && TickTime(start, i) == start + 0.5 * i as real
    ensures 6.0 < start + 0.5 * i as real - pings[|pings| - 1] <= 6.5
  {
    var last := pings[|pings| - 1];
    i := 0;
    while TickTime(start, i) <= last + HEARTBEAT_TIMEOUT
      invariant 0 <= i < ticks
      invariant i > 0 ==> TickTime(start, i - 1) <= last + HEARTBEAT_TIMEOUT
      decreases ticks - i
    {
      assert i != ticks - 1;
      i := i + 1;
    }
    forall j | 0 <= j < i ensures !Overdue(pings, TickTime(start, j)) {
      assert TickTime(start, j) <= TickTime(start, i - 1);
      NoFalseAlarm(pings, TickTime(start, j));
    }
    assert last in pings;
    forall t | t in pings ensures t <= last {
      var j :| 0 <= j < |pings| && pings[j] == t;
    }
  }

  /** One of the exchanges from `i` to `j` gets its ping through. */
  ghost predicate ThroughIn(beats: seq<Beat>, i: int, j: int) {
    exists k :: 0 <= i <= k <= j < |beats| && beats[k].arrival.Some?
  }

  /** No more than `losses` exchanges in a row lose their ping. */
  ghost predicate LossesWithin(beats: seq<Beat>, losses: nat) {
    forall i, j | 0 <= i && j == i + losses && j < |beats| :: ThroughIn(beats, i, j)
  }

  lemma LossesInPrefix(beats: seq<Beat>, losses: nat, n: nat)
    requires LossesWithin(beats, losses) && n <= |beats|
    ensures LossesWithin(beats[..n], losses)
  {
    forall i, j | 0 <= i && j == i + losses && j < n ensures ThroughIn(beats[..n], i, j) {
      assert ThroughIn(beats, i, j);
      var k :| 0 <= i <= k <= j < |beats| && beats[k].arrival.Some?;
      assert beats[..n][k].arrival.Some?;
    }
  }

  /** The longest time between two pings when exchanges last up to `bound` and up to `losses` in a
      row lose their ping: from the beginning of one exchange to the end of the (losses + 1)-st after it. */
  function LongestGap(bound: real, losses: nat): real {
    (losses + 2) as real * bound + (losses + 1) as real * HEARTBEAT_INTERVAL
  }

  /** The last exchange that got its ping through, -1 if none did. */
  function LastThrough(beats: seq<Beat>): (p: int)
    ensures -1 <= p < |beats|
  {
    if |beats| == 0 then -1
    else if beats[|beats| - 1].arrival.Some? then |beats| - 1
    else LastThrough(beats[..|beats| - 1])
  }

  lemma {:induction false} LastThroughIsLast(beats: seq<Beat>)
    ensures forall j | LastThrough(beats) < j < |beats| :: beats[j].arrival.None?
    ensures forall i, j | LastThrough(beats) < i :: !ThroughIn(beats, i, j)
    ensures LastThrough(beats) >= 0 ==> beats[LastThrough(beats)].arrival.Some?
  {
    if |beats| > 0 && beats[|beats| - 1].arrival.None? {
      LastThroughIsLast(beats[..|beats| - 1]);
    }
  }

  /** The last ping recorded is that of the last exchange that got through. */
  lemma {:induction false} LastRecorded(start: real, beats: seq<Beat>)
    ensures |Recorded(start, beats)| == 0 <==> LastThrough(beats) == -1
    ensures var p, pings := LastThrough(beats), Recorded(start, beats);
            p >= 0 ==> beats[p].arrival.Some? && |pings| > 0
                       && pings[|pings| - 1] == BeatStart(start, beats, p) + beats[p].arrival.value
  {
    if |beats| > 0 {
      var n := |beats| - 1;
      LastRecorded(start, beats[..n]);
      if beats[n].arrival.None? && LastThrough(beats) >= 0 {
        BeatStartPrefix(start, beats, n, LastThrough(beats));
      }
    }
  }

  /** `k` periods of length `c`. */
  function Times(k: nat, c: real): real {
    if k == 0 then 0.0 else Times(k - 1, c) + c
  }

  lemma {:induction false} TimesIsProduct(k: nat, c: real)
    ensures Times(k, c) == k as real * c
  {
    if k > 0 {
      TimesIsProduct(k - 1, c);
      assert k as real * c == (k - 1) as real * c + c;
    }
  }

  lemma {:induction false} TimesMonotone(k: nat, n: nat, c: real)
    requires k <= n && c >= 0.0
    ensures Times(k, c) <= Times(n, c)
  {
    if k < n {
      TimesMonotone(k, n - 1, c);
    }
  }

  /** Each exchange starts at most `bound` and one interval after the one before. */
  lemma {:induction false} BeatStartBounds(start: real, beats: seq<Beat>, bound: real, i: nat, j: nat)
    requires BeatsOk(beats, bound) && i <= j <= |beats|
    ensures BeatStart(start, beats, i) <= BeatStart(start, beats, j)
    ensures BeatStart(start, beats, j) <= BeatStart(start, beats, i) + Times(j - i, bound + HEARTBEAT_INTERVAL)
    ensures i < j ==> BeatStart(start, beats, i) + beats[i].duration <= BeatStart(start, beats, j)
  {
    if i < j {
      BeatStartBounds(start, beats, bound, i, j - 1);
    }
  }

  /** The last exchange to get through is at most `losses` exchanges back. */
  lemma LastThroughIsRecent(beats: seq<Beat>, losses: nat)
    requires LossesWithin(beats, losses)
    ensures |beats| - 1 - LastThrough(beats) <= losses
  {
    LastThroughIsLast(beats);
    var p := LastThrough(beats);
    var through := ThroughIn(beats, p + 1, p + 1 + losses);
  }

  /** Until the sender is through with its last interval, the last ping is not much older. */
  lemma SinceLastPing(start: real, beats: seq<Beat>, bound: real, losses: nat)
    requires BeatsOk(beats, bound) && LossesWithin(beats, losses) && bound >= 0.0
    ensures var pings, end := Recorded(start, beats), BeatStart(start, beats, |beats|);
            |pings| > 0 ==> pings[|pings| - 1] <= end <= pings[|pings| - 1] + LongestGap(bound, losses) - bound
  {
    LastRecorded(start, beats);
    LastThroughIsRecent(beats, losses);
    var p := LastThrough(beats);
    if p >= 0 {
      BeatStartBounds(start, beats, bound, p, |beats|);
      TimesMonotone(|beats| - p, losses + 1, bound + HEARTBEAT_INTERVAL);
      GapInExchanges(bound, losses);
    }
  }

  lemma GapInExchanges(bound: real, losses: nat)
    ensures LongestGap(bound, losses) == Times(losses + 1, bound + HEARTBEAT_INTERVAL) + bound
  {
    TimesIsProduct(losses + 1, bound + HEARTBEAT_INTERVAL);
  }

  /** Recorded pings ascend and are at most the longest gap apart. */
  lemma {:induction false} RecordedGaps(start: real, beats: seq<Beat>, bound: real, losses: nat)
    requires BeatsOk(beats, bound) && LossesWithin(beats, losses) && bound >= 0.0
    ensures Ascending(Recorded(start, beats)) && GapsWithin(Recorded(start, beats), LongestGap(bound, losses))
  {
    if |beats| > 0 {
      var n := |beats| - 1;
      var front := beats[..n];
      LossesInPrefix(beats, losses, n);
      RecordedGaps(start, front, bound, losses);
      SinceLastPing(start, front, bound, losses);
      BeatStartPrefix(start, beats, n, n);
    }
  }

  /** Accuracy: if the longest gap is within the timeout, no moment of the sender's run finds the
      primary overdue, and none until a timeout after its last ping. */
  lemma LivePrimaryNeverOverdue(start: real, beats: seq<Beat>, bound: real, losses: nat, now: real)
    requires BeatsOk(beats, bound) && LossesWithin(beats, losses) && bound >= 0.0
    requires LongestGap(bound, losses) <= HEARTBEAT_TIMEOUT
    requires var pings := Recorded(start, beats);
             now <= BeatStart(start, beats, |beats|) || (|pings| > 0 && now <= pings[|pings| - 1] + HEARTBEAT_TIMEOUT)
    ensures !Overdue(Recorded(start, beats), now)
  {
    RecordedGaps(start, beats, bound, losses);
    SinceLastPing(start, beats, bound, losses);
    NoFalseAlarm(Recorded(start, beats), now);
  }

  /** A false alarm: the first overdue tick `i` of a watchdog that was there before the primary
      comes while the primary's sender is still running. */
  ghost predicate FalseAlarm(start: real, beats: seq<Beat>, watch: real, ticks: nat, i: int) {
    && watch <= start
    && FirstOverdue(watch, ticks, Recorded(start, beats), i)
    && TickTime(watch, i) <= BeatStart(start, beats, |beats|)
  }

  ghost predicate FalseAlarmWithin(bound: real, losses: nat) {
    exists start, beats, watch, ticks, i ::
      BeatsOk(beats, bound) && LossesWithin(beats, losses) && FalseAlarm(start, beats, watch, ticks, i)
  }

  /** The pings of the slowest schedule: one at the beginning of its exchange, the next lost, and
      one at the end of the exchange after those. */
  function SlowestBeats(bound: real, losses: nat): seq<Beat> {
    [Beat(bound, Some(0.0))] + seq(losses, i => Beat(bound, None)) + [Beat(bound, Some(bound))]
  }

  lemma SlowestPings(bound: real, losses: nat)
    requires bound >= 0.0
    ensures var beats := SlowestBeats(bound, losses);
            && Recorded(0.0, beats) == [0.0, LongestGap(bound, losses)]
            && LongestGap(bound, losses) <= BeatStart(0.0, beats, |beats|)
  {
    var beats := SlowestBeats(bound, losses);
    LosesItsPings(bound, losses);
    SteadyStart(beats, bound, losses + 1);
    GapInExchanges(bound, losses);
    assert beats[..losses + 1] == [Beat(bound, Some(0.0))] + seq(losses, i => Beat(bound, None));
    assert beats[losses + 1] == Beat(bound, Some(bound)) && |beats| == losses + 2;
    assert BeatStart(0.0, beats, losses + 1) + bound == LongestGap(bound, losses);
  }

  lemma SlowestBeatsOk(bound: real, losses: nat)
    requires bound >= 0.0
    ensures BeatsOk(SlowestBeats(bound, losses), bound) && LossesWithin(SlowestBeats(bound, losses), losses)
  {
    var beats := SlowestBeats(bound, losses);
    forall i, j | 0 <= i && j == i + losses && j < |beats| ensures ThroughIn(beats, i, j) {
      assert beats[if i == 0 then 0 else j].arrival.Some?;
    }
  }

  lemma {:induction false} LosesItsPings(bound: real, losses: nat)
    ensures Recorded(0.0, [Beat(bound, Some(0.0))] + seq(losses, i => Beat(bound, None))) == [0.0]
  {
    var beats := [Beat(bound, Some(0.0))] + seq(losses, i => Beat(bound, None));
    if losses > 0 {
      LosesItsPings(bound, losses - 1);
      assert beats[..losses] == [Beat(bound, Some(0.0))] + seq(losses - 1, i => Beat(bound, None));
    } else {
      assert beats[..0] == [];
    }
  }

  lemma {:induction false} SteadyStart(beats: seq<Beat>, bound: real, i: nat)
    requires i <= |beats| && forall j | 0 <= j < i :: beats[j].duration == bound
    ensures BeatStart(0.0, beats, i) == Times(i, bound + HEARTBEAT_INTERVAL)
  {
    if i > 0 {
      SteadyStart(beats, bound, i - 1);
    }
  }

  /** The exact condition: a live primary can be taken for dead if and only if the longest gap
      exceeds the timeout.  With no ping lost that takes an exchange of more than 2 seconds (the
      socket timeout allows 5); with two in a row lost, exchanges that take any time at all. */
  lemma FalseAlarmIff(bound: real, losses: nat)
    requires bound >= 0.0
    ensures FalseAlarmWithin(bound, losses) <==> (losses + 2) as real * bound + (losses + 1) as real * 2.0 > 6.0
  {
    if LongestGap(bound, losses) > HEARTBEAT_TIMEOUT {
      AlarmBetween(bound, losses);
    } else if start, beats, watch, ticks, i
        :| BeatsOk(beats, bound) && LossesWithin(beats, losses) && FalseAlarm(start, beats, watch, ticks, i) {
      LivePrimaryNeverOverdue(start, beats, bound, losses, TickTime(watch, i));
    }
  }

  /** A watchdog whose ticks fall right after the timeout. */
  lemma AlarmBetween(bound: real, losses: nat)
    requires bound >= 0.0 && LongestGap(bound, losses) > HEARTBEAT_TIMEOUT
    ensures FalseAlarmWithin(bound, losses)
  {
    SlowestPings(bound, losses);
    SlowestBeatsOk(bound, losses);
    var beats, gap := SlowestBeats(bound, losses), LongestGap(bound, losses);
    var pings := Recorded(0.0, beats);
    var late := if gap < HEARTBEAT_TIMEOUT + TICK then (gap - HEARTBEAT_TIMEOUT) / 2.0 else TICK / 2.0;
    var watch, i := late - TICK, 13;
    assert 0.0 in pings;
    assert TickTime(watch, i) == HEARTBEAT_TIMEOUT + late;
    forall j | 0 <= j < i ensures !Overdue(pings, TickTime(watch, j)) {
      assert TickTime(watch, j) <= HEARTBEAT_TIMEOUT;
    }
    assert FirstOverdue(watch, 14, pings, i);
    assert FalseAlarm(0.0, beats, watch, 14, i);
  }

  // ---------- Sender and watchdog together ----------

  /** The two ends of the detector, until the sender stops after its last exchange and the watchdog
      after `ticks` of its own: no promotion at any tick while the sender runs, and once
      it has stopped exactly one, more than 6 and at most 6.5 seconds after the last ping. */
  method Detect(sender: HeartbeatSender, monitor: HeartbeatMonitor, start: real, beats: seq<Beat>,
                watch: real, ticks: nat, ghost bound: real, ghost losses: nat)
    returns (pings: seq<real>, promotions: seq<real>, ghost i: nat)
    requires monitor.lastSeen == None && !monitor.fired
    requires BeatsOk(beats, bound) && LossesWithin(beats, losses) && bound >= 0.0
    requires (losses + 2) as real * bound + (losses + 1) as real * 2.0 <= 6.0
    modifies monitor
    ensures pings == if sender.backupPort.None? then [] else Recorded(start, beats)
    ensures pings == [] ==> promotions == []
    ensures ticks > 0 && watch + 0.5 * (ticks - 1) as real <= BeatStart(start, beats, |beats|) ==> promotions == []
    ensures pings != [] && watch <= start && ticks > 0
            && watch + 0.5 * (ticks - 1) as real > pings[|pings| - 1] + 6.0 ==>
              && |promotions| == 1 && promotions[0] == watch + 0.5 * i as real
              && 6.0 < promotions[0] - pings[|pings| - 1] <= 6.5
  {
    pings := sender.Run(start, beats);
    RecordedGaps(start, beats, bound, losses);
    i := 0;
    promotions := monitor.WatchdogLoop(watch, ticks, pings);
    if ticks > 0 && watch + 0.5 * (ticks - 1) as real <= BeatStart(start, beats, |beats|) {
      forall j | 0 <= j < ticks ensures !Overdue(pings, TickTime(watch, j)) {
        LivePrimaryNeverOverdue(start, beats, bound, losses, TickTime(watch, j));
      }
    }
    if pings != [] && watch <= start && ticks > 0
       && watch + 0.5 * (ticks - 1) as real > pings[|pings| - 1] + 6.0
    {
      FirstPingAfterStart(start, beats, bound);
      assert pings[|pings| - 1] in pings;
      i := DetectionLatency(watch, ticks, pings);
      assert promotions == [TickTime(watch, i)];
    }
  }

  lemma {:induction false} FirstPingAfterStart(start: real, beats: seq<Beat>, bound: real)
    requires BeatsOk(beats, bound)
    ensures forall t | t in Recorded(start, beats) :: start <= t
  {
    if |beats| > 0 {
      FirstPingAfterStart(start, beats[..|beats| - 1], bound);
      BeatStartBounds(start, beats, bound, 0, |beats| - 1);
    }
  }
}
