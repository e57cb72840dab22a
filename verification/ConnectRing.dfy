/** The connection history: a ring of 720 samples, claimed slot by slot by a ticker routine and filled
    in by probes that end in any order, and read by a status page as a window of `count` samples
    from `head`. Ticks are numbered; the probe of tick k writes to the slot that tick claimed. */
module ConnectRing {

  datatype Sample = Sample(stamp: nat, ms: int, ok: bool)

  /** How a probe ended. */
  datatype Probe = Probe(ms: int, ok: bool)

  const RING_SIZE: nat := 720

  /** The ring position of a running number. */
  function Slot(k: nat): (s: nat)
    ensures s < 720
  {
    k % 720
  }

  lemma SlotAdd(k: nat, j: nat)
    ensures Slot(Slot(k) + j) == Slot(k + j)
  {
    assert k == 720 * (k / 720) + Slot(k);
    assert k + j == 720 * (k / 720) + (Slot(k) + j);
  }

  lemma SlotApart(k: nat, j: nat)
    ensures 0 < j < 720 ==> Slot(k + j) != Slot(k)
  {
    assert k == 720 * (k / 720) + Slot(k);
    assert k + j == 720 * ((k + j) / 720) + Slot(k + j);
  }

  lemma SlotFacts(k: nat, j: nat)
    ensures Slot(Slot(k) + j) == Slot(k + j) && Slot(k + 720) == Slot(k)
    ensures 0 < j < 720 ==> Slot(k + j) != Slot(k)
    ensures Slot(k + 1) == if Slot(k) + 1 >= 720 then 0 else Slot(k) + 1
  {
    SlotAdd(k, j);
    SlotAdd(k, 1);
    SlotApart(k, j);
  }

  lemma SlotSmall(k: nat)
    ensures k < 720 ==> Slot(k) == k
    ensures k == 720 ==> Slot(k) == 0
  {
  }

  /** The first tick that the window still reaches back to. */
  function Low(ticks: nat): nat {
    if ticks < 720 then 0 else ticks - 719
  }

  /** The slot of the j-th sample shown. */
  function ShownSlot(head: nat, j: nat): (s: nat)
    ensures s < 720
  {
    Slot(head + j)
  }

  /** Count samples from head on, around the ring. */
  function View(ring: seq<Sample>, head: nat, count: nat): (v: seq<Sample>)
    requires |ring| == 720
    ensures |v| == count && forall j | 0 <= j < count :: v[j] == ring[ShownSlot(head, j)]
  {
    seq(count, j requires 0 <= j => ring[ShownSlot(head, j)])
  }

  /** No probe has ended before that of an earlier tick. */
  ghost predicate InOrder(results: map<nat, Probe>) {
    forall n: nat, m: nat | n < m && m in results :: n in results
  }

  function Below(n: nat): (s: set<nat>)
    ensures |s| == n && forall k: nat :: k in s <==> k < n
  {
    if n == 0 then {} else Below(n - 1) + {n - 1}
  }

  lemma {:induction false} SubsetSize<T>(a: set<T>, b: set<T>)
    requires a <= b
    ensures |a| <= |b| && (|a| == |b| ==> a == b)
  {
    if x :| x in a {
      SubsetSize(a - {x}, b - {x});
    }
  }

  /** Probes that end in order have ended up to some tick. */
  lemma InOrderIsBelow(results: map<nat, Probe>)
    ensures InOrder(results) <==> results.Keys == Below(|results|)
  {
    var n := |results|;
    assert |results.Keys| == n;
    if InOrder(results) {
      forall k | k in results.Keys ensures k < n {
        assert Below(k + 1) <= results.Keys;
        SubsetSize(Below(k + 1), results.Keys);
      }
      SubsetSize(results.Keys, Below(n));
    }
  }

  /** When the probes of all ticks before `low` have ended: among the ticks from there on, as many as
      probes have ended in all, some probe is unfinished exactly when one has ended out of order;
      and exactly then some probe has ended beyond them. */
  lemma OutOfOrderIff(results: map<nat, Probe>, low: nat)
    requires forall k | 0 <= k < low :: k in results
    ensures (exists k :: low <= k < |results| && k !in results) <==> !InOrder(results)
    ensures (exists k :: low <= k && |results| <= k && k in results) <==> !InOrder(results)
  {
    hide InOrder;
    InOrderIsBelow(results);
    var n := |results|;
    assert |results.Keys| == n;
    assert Below(low) <= results.Keys;
    SubsetSize(Below(low), results.Keys);
    if forall k | low <= k < n :: k in results {
      assert Below(n) <= results.Keys;
      SubsetSize(Below(n), results.Keys);
    }
    if forall k | low <= k && n <= k :: k !in results {
      assert results.Keys <= Below(n);
      SubsetSize(results.Keys, Below(n));
    }
  }

  /** The ring after some ticks: every slot not yet claimed again has the time of its tick, and what
      came of its probe if that has ended. */
  ghost predicate Holds(ring: seq<Sample>, stamps: seq<nat>, results: map<nat, Probe>) {
    && |ring| == 720
    && (forall k | k in results :: k < |stamps|)
    && (forall k | 0 <= k < |stamps| <= k + 720 :: ring[Slot(k)].stamp == stamps[k])
    && (forall k | k in results && |stamps| <= k + 720 ::
          ring[Slot(k)] == Sample(stamps[k], results[k].ms, results[k].ok))
  }

  lemma RingLength(ring: seq<Sample>, stamps: seq<nat>, results: map<nat, Probe>)
    requires Holds(ring, stamps, results)
    ensures |ring| == 720
  {
  }

  lemma SlotsApart(n: nat, m: nat)
    requires n != m && n < m + 720 && m < n + 720
    ensures Slot(n) != Slot(m)
  {
    if n < m {
      SlotApart(n, m - n);
    } else {
      SlotApart(m, n - m);
    }
  }

  lemma TickHolds(ring: seq<Sample>, stamps: seq<nat>, results: map<nat, Probe>, ts: nat)
    requires Holds(ring, stamps, results)
    ensures var s := Slot(|stamps|); Holds(ring[s := ring[s].(stamp := ts)], stamps + [ts], results)
  {
    hide Slot;
    var t := |stamps|;
    forall k | 0 <= k < t < k + 720 ensures Slot(k) != Slot(t) {
      SlotsApart(k, t);
    }
  }

  lemma EndHolds(ring: seq<Sample>, stamps: seq<nat>, results: map<nat, Probe>, k: nat, probe: Probe)
    requires Holds(ring, stamps, results) && k < |stamps| <= k + 720
    ensures ring[Slot(k)].stamp == stamps[k]
    ensures Holds(ring[Slot(k) := Sample(stamps[k], probe.ms, probe.ok)], stamps, results[k := probe])
  {
    hide Slot;
    forall n | 0 <= n < |stamps| <= n + 720 && n != k ensures Slot(n) != Slot(k) {
      SlotsApart(n, k);
    }
  }

  lemma EndedUpTo(results: map<nat, Probe>)
    requires InOrder(results)
    ensures forall k: nat :: k in results <==> k < |results|
  {
    InOrderIsBelow(results);
    forall k: nat ensures k in results <==> k < |results| {
      assert k in results <==> k in results.Keys;
    }
  }

  lemma AtMostTicks(results: map<nat, Probe>, ring: seq<Sample>, stamps: seq<nat>)
    requires Holds(ring, stamps, results)
    ensures |results| <= |stamps| && |ring| == 720 && forall k | k in results :: k < |stamps|
  {
    assert |results.Keys| == |results|;
    assert results.Keys <= Below(|stamps|);
    SubsetSize(results.Keys, Below(|stamps|));
  }

  lemma ShownTick(t: nat, head: nat, j: nat)
    requires head == (if t < 720 then 0 else Slot(t + 1)) && Low(t) + j < t
    ensures ShownSlot(head, j) == Slot(Low(t) + j) != Slot(t)
  {
    hide Slot;
    var k := Low(t) + j;
    SlotsApart(k, t);
    if t >= 720 {
      SlotFacts(t + 1, j);
      SlotFacts(k, 0);
      assert k + 720 == t + 1 + j;
    } else {
      SlotFacts(0, j);
    }
  }

  lemma FinishedSlot(ring: seq<Sample>, stamps: seq<nat>, results: map<nat, Probe>, k: nat)
    requires Holds(ring, stamps, results) && |stamps| <= k + 720
    ensures k in results ==> k < |stamps| && ring[Slot(k)] == Sample(stamps[k], results[k].ms, results[k].ok)
  {
    hide Slot;
  }

  class ConnData {
    var storage: array<Sample>
    var head: nat
    var count: int
    var i: nat         // the ticker routine's next slot
    var circled: bool
    ghost var stamps: seq<nat>             // the time of every tick so far
    ghost var results: map<nat, Probe>     // the probes that have ended

    ghost predicate Valid()
      reads this, storage
    {
      var t := |stamps|;
      && Holds(storage[..], stamps, results)
      && i == Slot(t)
      && (circled <==> t >= 720)
      && head == (if t < 720 then 0 else Slot(t + 1))
      && count == |results| - Low(t)
    }

    ghost function Finished(k: nat): Sample
      reads this
      requires k < |stamps| && k in results
    {
      Sample(stamps[k], results[k].ms, results[k].ok)
    }

    /** What connectHandler reads. */
    ghost function Window(): seq<Sample>
      reads this, storage
      requires storage.Length == 720
    {
      View(storage[..], head, if count > 0 then count else 0)
    }

    constructor ()
      ensures Valid() && stamps == [] && results == map[] && fresh(storage)
      ensures forall k | 0 <= k < storage.Length :: storage[k] == Sample(0, 0, true)
    {
      storage := new Sample[RING_SIZE](_ => Sample(0, 0, true));
      head, count, i, circled := 0, 0, 0, false;
      stamps, results := [], map[];
    }

    /** One tick, with the first statement of the probe it starts: claim a slot and, once the ring has
        gone round, drop the oldest sample. What the slot held besides the time stays. */
    method Tick(ts: nat)
      requires Valid()
      modifies this`i, this`circled, this`head, this`count, this`stamps, storage
      ensures Valid() && stamps == old(stamps) + [ts] && results == old(results)
      ensures storage[..] == old(storage[..])[Slot(|old(stamps)|) := old(storage[Slot(|stamps|)]).(stamp := ts)]
    {
      hide Slot, Holds;
      ghost var t := |stamps|;
      SlotFacts(t, 1);
      SlotFacts(t + 1, 1);
      SlotSmall(t + 1);
      TickHolds(storage[..], stamps, results, ts);
      RingLength(storage[..], stamps, results);
      var dest := i;
      i := i + 1;
      if i >= storage.Length {
        circled := true;
        i := 0;
      }
      if circled {
        head := Slot(i + 1);
        count := count - 1;
      }
      storage[dest] := storage[dest].(stamp := ts);
      stamps := stamps + [ts];
    }

    /** The probe of tick k ends, in whatever order, before its slot is claimed again. */
    method ProbeEnds(k: nat, probe: Probe)
      requires Valid() && k < |stamps| <= k + 720 && k !in results
      modifies this`count, this`results, storage
      ensures Valid() && results == old(results)[k := probe]
      ensures storage[..] == old(storage[..])[Slot(k) := Sample(stamps[k], probe.ms, probe.ok)]
    {
      hide Slot, Holds;
      RingLength(storage[..], stamps, results);
      EndHolds(storage[..], stamps, results, k, probe);
      var dest := Slot(k);
      storage[dest] := Sample(storage[dest].stamp, probe.ms, probe.ok);
      count := count + 1;
      assert results[k := probe].Keys == results.Keys + {k};
      assert |results[k := probe].Keys| == |results.Keys| + 1;
      results := results[k := probe];
    }

    /** The window holds the slots of as many ticks as probes have ended, from the first tick it
        reaches back to: finished samples for those that have ended, and never the slot that is
        claimed next. */
    lemma WindowTicks(j: nat)
      requires Valid() && j < count
      ensures Low(|stamps|) + j < |results| <= |stamps|
      ensures |Window()| == count
      ensures ShownSlot(head, j) == Slot(Low(|stamps|) + j) != Slot(|stamps|)
      ensures Low(|stamps|) + j in results ==> Window()[j] == Finished(Low(|stamps|) + j)
    {
      hide Slot, Holds, View, ShownSlot;
      var t := |stamps|;
      AtMostTicks(results, storage[..], stamps);
      ShownTick(t, head, j);
      FinishedSlot(storage[..], stamps, results, Low(t) + j);
    }

    lemma WindowPlaces()
      requires Valid()
      ensures storage.Length == 720 && |Window()| == if count > 0 then count else 0
      ensures forall k | 0 <= k < |Window()| :: Window()[k] == storage[ShownSlot(head, k)]
    {
      AtMostTicks(results, storage[..], stamps);
    }

    /** The window is exactly the finished samples from the first tick it reaches back to, oldest first. */
    ghost predicate ShowsFinished()
      reads this, storage
      requires Valid()
    {
      var low := Low(|stamps|);
      && (forall k | low <= k < |stamps| :: k in results <==> k < low + count)
      && forall j | 0 <= j < |Window()| :: FinishedAt(j)
    }

    /** Place j of the window is the finished sample of its tick. */
    ghost predicate FinishedAt(j: nat)
      reads this, storage
      requires Valid() && j < |Window()|
    {
      var k := Low(|stamps|) + j;
      k < |stamps| && k in results && Window()[j] == Finished(k)
    }

    /** While no probe ends before that of an earlier tick, the page shows exactly the finished samples
        of the last 719 ticks: all 719 when no probe is in flight, one less for each that is. */
    lemma WindowIsHistory()
      requires Valid() && InOrder(results)
      ensures ShowsFinished()
      ensures |stamps| >= 720 ==> count == 719 - (|stamps| - |results|)
    {
      hide InOrder, Holds, View, ShownSlot, Slot;
      var low := Low(|stamps|);
      EndedUpTo(results);
      AtMostTicks(results, storage[..], stamps);
      assert low + count == |results|;
      assert forall k | low <= k < |stamps| :: k in results <==> k < low + count;
      forall j | 0 <= j < |Window()|
        ensures FinishedAt(j)
      {
        WindowTicks(j);
      }
    }

    /** Once the probes that the window has left behind are over, an unfinished slot is shown exactly
        when some probe has ended before that of an earlier tick, and exactly then a finished sample
        is missing at the end. */
    lemma UnfinishedShownIff()
      requires Valid() && forall k | 0 <= k < Low(|stamps|) :: k in results
      ensures var low, end := Low(|stamps|), Low(|stamps|) + count;
        && ((exists k :: low <= k < end && k !in results) <==> !InOrder(results))
        && ((exists k :: low <= k && end <= k && k in results) <==> !InOrder(results))
    {
      OutOfOrderIff(results, Low(|stamps|));
    }
  }

  // ---------------------------------------------------------------- runs of the routine

  datatype Event = Ticked(ts: nat) | Ended(k: nat, probe: Probe)

  function Stamps(events: seq<Event>): seq<nat> {
    if events == [] then []
    else Stamps(events[..|events| - 1]) + match events[|events| - 1] case Ticked(ts) => [ts] case Ended(_, _) => []
  }

  function Results(events: seq<Event>): map<nat, Probe> {
    if events == [] then map[]
    else
      var before := Results(events[..|events| - 1]);
      match events[|events| - 1] case Ticked(_) => before case Ended(k, probe) => before[k := probe]
  }

  /** Each probe ends once, after its tick and before its slot is claimed again an hour later. */
  predicate Possible(events: seq<Event>) {
    events == [] ||
    var before, last := events[..|events| - 1], events[|events| - 1];
    Possible(before) &&
    (last.Ended? ==> last.k < |Stamps(before)| <= last.k + 720 && last.k !in Results(before))
  }

  lemma PossiblePrefix(events: seq<Event>, n: nat)
    requires Possible(events) && n <= |events|
    ensures Possible(events[..n])
  {
    if n < |events| {
      assert events[..|events| - 1][..n] == events[..n];
      PossiblePrefix(events[..|events| - 1], n);
    } else {
      assert events[..n] == events;
    }
  }

  /** Over any run of ticks and probes the ring is sound, so that the theorems about the window apply:
      with probes that end in order it is the finished samples from the first tick it reaches on. */
  method Run(events: seq<Event>) returns (c: ConnData)
    requires Possible(events)
    ensures fresh(c) && c.Valid() && c.stamps == Stamps(events) && c.results == Results(events)
    ensures InOrder(c.results) ==> c.ShowsFinished()
  {
    hide Holds, InOrder, View, Slot, ConnData.ShowsFinished;
    c := new ConnData();
    for n := 0 to |events|
      invariant fresh(c) && fresh(c.storage) && c.Valid()
      invariant c.stamps == Stamps(events[..n]) && c.results == Results(events[..n])
    {
      PossiblePrefix(events, n + 1);
      assert events[..n + 1][..n] == events[..n];
      match events[n]
      case Ticked(ts) => c.Tick(ts);
      case Ended(k, probe) => c.ProbeEnds(k, probe);
    }
    assert events[..|events|] == events;
    if InOrder(c.results) {
      c.WindowIsHistory();
    }
  }

  /** A probe that times out ends after the next tick. When the next one ends first, the page shows
      the slot still in flight, as a success of 0 ms, and not the sample that is there. */
  method InFlightShownAsSuccess(first: nat, second: nat, probe: Probe) returns (c: ConnData)
    ensures fresh(c) && c.Valid() && c.results == map[1 := probe]
    ensures c.Window() == [Sample(first, 0, true)]
  {
    c := new ConnData();
    c.Tick(first);
    c.Tick(second);
    c.ProbeEnds(1, probe);
  }

  // ---------------------------------------------------------------- the rows of the page

  /** A list item: a stretch of successes summed up, or one error. */
  datatype Row = Successes(group: seq<Sample>) | Failure(sample: Sample)

  function Flatten(rows: seq<Row>): seq<Sample> {
    if rows == [] then []
    else Flatten(rows[..|rows| - 1]) + match rows[|rows| - 1] case Successes(g) => g case Failure(s) => [s]
  }

  ghost predicate Grouped(rows: seq<Row>) {
    && (forall r | 0 <= r < |rows| :: match rows[r]
          case Successes(g) => g != [] && forall k | 0 <= k < |g| :: g[k].ok
          case Failure(s) => !s.ok)
    && forall r | 0 < r < |rows| :: !(rows[r - 1].Successes? && rows[r].Successes?)
  }

  lemma FlattenAppend(rows: seq<Row>, row: Row)
    ensures Flatten(rows + [row]) == Flatten(rows) + match row case Successes(g) => g case Failure(s) => [s]
  {
    assert (rows + [row])[..|rows|] == rows;
  }

  /** Rows so far with no open stretch of successes. */
  ghost predicate Settled(rows: seq<Row>) {
    Grouped(rows) && (rows != [] ==> rows[|rows| - 1].Failure?)
  }

  /** Write the open stretch, unless it is empty. */
  function Flush(rows: seq<Row>, consecutive: seq<Sample>): seq<Row> {
    if consecutive == [] then rows else rows + [Successes(consecutive)]
  }

  lemma Flushed(rows: seq<Row>, consecutive: seq<Sample>)
    requires Settled(rows) && forall m | 0 <= m < |consecutive| :: consecutive[m].ok
    ensures Grouped(Flush(rows, consecutive)) && Flatten(Flush(rows, consecutive)) == Flatten(rows) + consecutive
  {
    if consecutive != [] {
      FlattenAppend(rows, Successes(consecutive));
    }
  }

  lemma FailureAdded(rows: seq<Row>, s: Sample)
    requires Grouped(rows) && !s.ok
    ensures Settled(rows + [Failure(s)]) && Flatten(rows + [Failure(s)]) == Flatten(rows) + [s]
  {
    FlattenAppend(rows, Failure(s));
  }

  /** The page after some of the window: its rows, and the open stretch of successes. */
  ghost predicate Covers(rows: seq<Row>, consecutive: seq<Sample>, seen: seq<Sample>) {
    && Settled(rows)
    && (forall m | 0 <= m < |consecutive| :: consecutive[m].ok)
    && Flatten(rows) + consecutive == seen
  }

  lemma SuccessCovers(rows: seq<Row>, consecutive: seq<Sample>, seen: seq<Sample>, s: Sample)
    requires Covers(rows, consecutive, seen) && s.ok
    ensures Covers(rows, consecutive + [s], seen + [s])
  {
    hide Settled;
    assert Flatten(rows) + (consecutive + [s]) == Flatten(rows) + consecutive + [s];
  }

  lemma FailureCovers(rows: seq<Row>, consecutive: seq<Sample>, seen: seq<Sample>, s: Sample)
    requires Covers(rows, consecutive, seen) && !s.ok
    ensures Covers(Flush(rows, consecutive) + [Failure(s)], [], seen + [s])
  {
    Flushed(rows, consecutive);
    FailureAdded(Flush(rows, consecutive), s);
    hide Flatten, Settled, Flush;
    var flat := Flatten(Flush(rows, consecutive) + [Failure(s)]);
    assert flat + [] == flat;
  }

  lemma NothingCovered()
    ensures Covers([], [], [])
  {
  }

  /** The loop of connectHandler: the rows cut the window, in order and without loss, into its
      errors and the maximal stretches of successes between them. */
  method Page(c: ConnData) returns (rows: seq<Row>)
    requires c.Valid()
    ensures Grouped(rows) && Flatten(rows) == c.Window()
  {
    hide *;
    c.WindowPlaces();
    ghost var shown := c.Window();
    NothingCovered();
    rows := [];
    var consecutive: seq<Sample> := [];
    var k := 0;
    while k < c.count
      invariant 0 <= k <= |shown| && Covers(rows, consecutive, shown[..k])
    {
      var src := c.storage[ShownSlot(c.head, k)];
      assert shown[..k + 1] == shown[..k] + [src];
      if src.ok {
        SuccessCovers(rows, consecutive, shown[..k], src);
        consecutive := consecutive + [src];
      } else {
        FailureCovers(rows, consecutive, shown[..k], src);
        rows := Flush(rows, consecutive) + [Failure(src)];
        consecutive := [];
      }
      k := k + 1;
    }
    assert shown[..k] == shown;
    LastStretch(rows, consecutive, shown);
    rows := Flush(rows, consecutive);
  }

  lemma LastStretch(rows: seq<Row>, consecutive: seq<Sample>, seen: seq<Sample>)
    requires Covers(rows, consecutive, seen)
    ensures Grouped(Flush(rows, consecutive)) && Flatten(Flush(rows, consecutive)) == seen
  {
    Flushed(rows, consecutive);
  }
}
