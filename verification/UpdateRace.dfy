/** Restarts of an update and turns of the status loop in every interleaving of their reads and writes
    of the two globals: neither takes a lock. The flag that is to keep a second status loop from
    running is no lock either, so there may be several. */
module UpdateRace {
  import opened Common
  import opened UpdateProgress

  /** A turn of a status loop: between two turns, with the first global read for the comparison, with
      both, between the writes of an accepted poll, or between the reads of the last good pair. */
  datatype Poller = Idle | HasProgress(polled: Pair, progress: int) | Comparing(polled: Pair, last: Pair)
    | HalfWritten(polled: Pair) | HalfCopied(progress: int)

  /** StartUpdateEngine: before its first write, between the two, or past them. */
  datatype Restart = Zeroing | Settling | Over

  datatype State = State(progress: int, expected: int, pollers: seq<Poller>, restarts: seq<Restart>,
                         reports: seq<Pair>)

  /** The first status loop starts after the first restart. */
  const INIT := State(0, 1, [], [], [])

  datatype Step =
    | NewPoller | NewRestart
    | ReadProgress(k: nat, polled: Pair) | ReadExpected(k: nat)
    | WriteProgress(k: nat) | WriteExpected(k: nat)
    | CopyProgress(k: nat) | CopyExpected(k: nat)
    | Zero(r: nat) | Settle(r: nat)

  predicate Accepts(ratio: Pair -> real, polled: Pair, last: Pair) {
    Sane(polled) && ratio(last) < ratio(polled)
  }

  predicate Enabled(ratio: Pair -> real, s: State, step: Step) {
    match step
    case NewPoller => true
    case NewRestart => true
    case ReadProgress(k, _) => k < |s.pollers| && s.pollers[k].Idle?
    case ReadExpected(k) => k < |s.pollers| && s.pollers[k].HasProgress?
    case WriteProgress(k) => k < |s.pollers| && s.pollers[k].Comparing?
      && Accepts(ratio, s.pollers[k].polled, s.pollers[k].last)
    case WriteExpected(k) => k < |s.pollers| && s.pollers[k].HalfWritten?
    case CopyProgress(k) => k < |s.pollers| && s.pollers[k].Comparing?
      && !Accepts(ratio, s.pollers[k].polled, s.pollers[k].last)
    case CopyExpected(k) => k < |s.pollers| && s.pollers[k].HalfCopied?
    case Zero(r) => r < |s.restarts| && s.restarts[r] == Zeroing
    case Settle(r) => r < |s.restarts| && s.restarts[r] == Settling
  }

  function Next(ratio: Pair -> real, s: State, step: Step): State
    requires Enabled(ratio, s, step)
  {
    match step
    case NewPoller => s.(pollers := s.pollers + [Idle])
    case NewRestart => s.(restarts := s.restarts + [Zeroing])
    case ReadProgress(k, polled) => s.(pollers := s.pollers[k := HasProgress(polled, s.progress)])
    case ReadExpected(k) =>
      s.(pollers := s.pollers[k := Comparing(s.pollers[k].polled, Pair(s.pollers[k].progress, s.expected))])
    case WriteProgress(k) =>
      s.(progress := s.pollers[k].polled.progress, pollers := s.pollers[k := HalfWritten(s.pollers[k].polled)])
    case WriteExpected(k) =>
      s.(expected := s.pollers[k].polled.expected, pollers := s.pollers[k := Idle],
         reports := s.reports + [s.pollers[k].polled])
    case CopyProgress(k) => s.(pollers := s.pollers[k := HalfCopied(s.progress)])
    case CopyExpected(k) =>
      s.(pollers := s.pollers[k := Idle], reports := s.reports + [Pair(s.pollers[k].progress, s.expected)])
    case Zero(r) => s.(progress := 0, restarts := s.restarts[r := Settling])
    case Settle(r) => s.(expected := 1, restarts := s.restarts[r := Over])
  }

  predicate CanRun(ratio: Pair -> real, s: State, steps: seq<Step>)
    decreases |steps|
  {
    steps == [] || (Enabled(ratio, s, steps[0]) && CanRun(ratio, Next(ratio, s, steps[0]), steps[1..]))
  }

  function Run(ratio: Pair -> real, s: State, steps: seq<Step>): State
    requires CanRun(ratio, s, steps)
    decreases |steps|
  {
    if steps == [] then s else Run(ratio, Next(ratio, s, steps[0]), steps[1..])
  }

  ghost predicate AllValid(reports: seq<Pair>) {
    forall i | 0 <= i < |reports| :: ValidPair(reports[i])
  }

  // ---------------------------------------------------------------- writes that do not overlap

  predicate Half(p: Poller) {
    p.HalfWritten? || p.HalfCopied?
  }

  predicate NobodyHalf(s: State) {
    && (forall k | 0 <= k < |s.pollers| :: !Half(s.pollers[k]))
    && (forall r | 0 <= r < |s.restarts| :: s.restarts[r] != Settling)
  }

  /** Nobody begins to write or copy the two globals while somebody is half through that. */
  predicate Apart(s: State, step: Step) {
    step.WriteProgress? || step.CopyProgress? || step.Zero? ==> NobodyHalf(s)
  }

  predicate RunsApart(ratio: Pair -> real, s: State, steps: seq<Step>)
    requires CanRun(ratio, s, steps)
    decreases |steps|
  {
    steps == [] || (Apart(s, steps[0]) && RunsApart(ratio, Next(ratio, s, steps[0]), steps[1..]))
  }

  /** At most one is half through. */
  ghost predicate OneHalf(s: State) {
    && (forall k, j | 0 <= k < |s.pollers| && 0 <= j < |s.pollers| ::
          Half(s.pollers[k]) && Half(s.pollers[j]) ==> j == k)
    && (forall k, r | 0 <= k < |s.pollers| && 0 <= r < |s.restarts| :: !Half(s.pollers[k]) || s.restarts[r] != Settling)
    && (forall r, q | 0 <= r < |s.restarts| && 0 <= q < |s.restarts| ::
          s.restarts[r] == s.restarts[q] == Settling ==> r == q)
  }

  /** What the globals hold then. */
  ghost predicate GlobalsSound(s: State) {
    && AllValid(s.reports) && s.expected > 0 && s.progress >= 0
    && (forall k | 0 <= k < |s.pollers| && s.pollers[k].HalfWritten? ::
          Sane(s.pollers[k].polled) && s.progress == s.pollers[k].polled.progress)
    && (forall k | 0 <= k < |s.pollers| && s.pollers[k].HalfCopied? :: s.pollers[k].progress == s.progress)
    && ((forall k | 0 <= k < |s.pollers| :: !s.pollers[k].HalfWritten?) ==> s.progress <= s.expected)
    && (forall r | 0 <= r < |s.restarts| && s.restarts[r] == Settling :: s.progress == 0)
  }

  lemma OneHalfStep(ratio: Pair -> real, s: State, step: Step)
    requires OneHalf(s) && Enabled(ratio, s, step) && Apart(s, step)
    ensures OneHalf(Next(ratio, s, step))
  {
  }

  lemma GlobalsStep(ratio: Pair -> real, s: State, step: Step)
    requires OneHalf(s) && GlobalsSound(s) && Enabled(ratio, s, step) && Apart(s, step)
    ensures GlobalsSound(Next(ratio, s, step))
  {
    var s' := Next(ratio, s, step);
    if step.WriteExpected? || step.CopyExpected? {
      assert Half(s.pollers[step.k]);
      assert forall k | 0 <= k < |s.pollers| :: s.pollers[k].HalfWritten? ==> Half(s.pollers[k]);
    } else if step.WriteProgress? {
      assert s'.pollers[step.k].HalfWritten?;
    } else {
      assert forall k | 0 <= k < |s.pollers| :: s.pollers[k].HalfWritten? ==> s'.pollers[k].HalfWritten?;
      assert step.Zero? ==> forall k | 0 <= k < |s.pollers| :: !Half(s.pollers[k]);
    }
  }

  lemma {:induction false} ApartRun(ratio: Pair -> real, s: State, steps: seq<Step>)
    requires OneHalf(s) && GlobalsSound(s) && CanRun(ratio, s, steps) && RunsApart(ratio, s, steps)
    ensures GlobalsSound(Run(ratio, s, steps))
    decreases |steps|
  {
    if steps != [] {
      hide OneHalf, GlobalsSound, Next, Enabled, Apart;
      OneHalfStep(ratio, s, steps[0]);
      GlobalsStep(ratio, s, steps[0]);
      ApartRun(ratio, Next(ratio, s, steps[0]), steps[1..]);
    }
  }

  /** With writes and copies of the two globals kept apart, every report is valid. */
  lemma ValidApart(ratio: Pair -> real, steps: seq<Step>)
    requires CanRun(ratio, INIT, steps) && RunsApart(ratio, INIT, steps)
    ensures AllValid(Run(ratio, INIT, steps).reports)
  {
    ApartRun(ratio, INIT, steps);
  }

  // ---------------------------------------------------------------- every interleaving

  /** Only these pairs are polled. */
  ghost predicate Within(steps: seq<Step>, polls: set<Pair>) {
    forall k | 0 <= k < |steps| && steps[k].ReadProgress? :: steps[k].polled in polls
  }

  ghost predicate Reaches(ratio: Pair -> real, s: State, t: State, polls: set<Pair>) {
    exists steps :: CanRun(ratio, s, steps) && Run(ratio, s, steps) == t && Within(steps, polls)
  }

  ghost predicate MayReportInvalid(ratio: Pair -> real, polls: set<Pair>) {
    exists t :: Reaches(ratio, INIT, t, polls) && !AllValid(t.reports)
  }

  /** Nothing is as small as no progress at all. */
  ghost predicate SeesProgress(ratio: Pair -> real) {
    forall a: Pair :: Sane(a) ==> ratio(Pair(0, 1)) < ratio(a)
  }

  // If no poll gets past one unit, any mixture of the values is valid.

  ghost predicate UnitInv(s: State, polls: set<Pair>) {
    && AllValid(s.reports) && 0 <= s.progress <= 1 <= s.expected
    && (forall k | 0 <= k < |s.pollers| :: match s.pollers[k]
          case Idle => true
          case HasProgress(polled, _) => polled in polls
          case Comparing(polled, _) => polled in polls
          case HalfWritten(polled) => polled in polls && Sane(polled)
          case HalfCopied(p) => 0 <= p <= 1)
  }

  lemma UnitStep(ratio: Pair -> real, s: State, step: Step, polls: set<Pair>)
    requires forall a | a in polls && Sane(a) :: a.progress <= 1
    requires UnitInv(s, polls) && Enabled(ratio, s, step) && (step.ReadProgress? ==> step.polled in polls)
    ensures UnitInv(Next(ratio, s, step), polls)
  {
  }

  lemma {:induction false} UnitRun(ratio: Pair -> real, s: State, steps: seq<Step>, polls: set<Pair>)
    requires forall a | a in polls && Sane(a) :: a.progress <= 1
    requires UnitInv(s, polls) && CanRun(ratio, s, steps) && Within(steps, polls)
    ensures UnitInv(Run(ratio, s, steps), polls)
    decreases |steps|
  {
    if steps != [] {
      UnitStep(ratio, s, steps[0], polls);
      assert forall k | 0 <= k < |steps| - 1 :: steps[1..][k] == steps[k + 1];
      hide Next, Enabled, UnitInv;
      UnitRun(ratio, Next(ratio, s, steps[0]), steps[1..], polls);
    }
  }

  // Otherwise a poll between the two writes of a restart shows it.

  lemma Stays(ratio: Pair -> real, s: State, polls: set<Pair>)
    ensures Reaches(ratio, s, s, polls)
  {
    assert CanRun(ratio, s, []) && Run(ratio, s, []) == s && Within([], polls);
  }

  lemma {:induction false} OneMore(ratio: Pair -> real, s: State, steps: seq<Step>, step: Step)
    requires CanRun(ratio, s, steps) && Enabled(ratio, Run(ratio, s, steps), step)
    ensures CanRun(ratio, s, steps + [step])
    ensures Run(ratio, s, steps + [step]) == Next(ratio, Run(ratio, s, steps), step)
    decreases |steps|
  {
    hide Next, Enabled;
    if steps == [] {
      assert [] + [step] == [step] && [step][1..] == [];
    } else {
      assert (steps + [step])[1..] == steps[1..] + [step];
      OneMore(ratio, Next(ratio, s, steps[0]), steps[1..], step);
    }
  }

  lemma Goes(ratio: Pair -> real, s: State, t: State, step: Step, polls: set<Pair>)
    requires Reaches(ratio, s, t, polls) && Enabled(ratio, t, step) && (step.ReadProgress? ==> step.polled in polls)
    ensures Reaches(ratio, s, Next(ratio, t, step), polls)
  {
    hide Next, Enabled;
    var steps :| CanRun(ratio, s, steps) && Run(ratio, s, steps) == t && Within(steps, polls);
    OneMore(ratio, s, steps, step);
    assert Within(steps + [step], polls);
  }

  /** A turn of the only status loop that nothing gets in between: it reports, and leaves, the poll or
      the last pair. */
  lemma WholeTurn(ratio: Pair -> real, t: State, x: Pair, polls: set<Pair>)
    requires Reaches(ratio, INIT, t, polls) && t.pollers == [Idle] && x in polls
    ensures var last := Pair(t.progress, t.expected);
      var pair := if Accepts(ratio, x, last) then x else last;
      var t' := t.(progress := pair.progress, expected := pair.expected, reports := t.reports + [pair]);
      Reaches(ratio, INIT, t', polls)
  {
    hide Reaches;
    var last := Pair(t.progress, t.expected);
    var t1 := Next(ratio, t, ReadProgress(0, x));
    Goes(ratio, INIT, t, ReadProgress(0, x), polls);
    var t2 := Next(ratio, t1, ReadExpected(0));
    Goes(ratio, INIT, t1, ReadExpected(0), polls);
    assert t2.pollers == [Comparing(x, last)];
    if Accepts(ratio, x, last) {
      var t3 := Next(ratio, t2, WriteProgress(0));
      Goes(ratio, INIT, t2, WriteProgress(0), polls);
      Goes(ratio, INIT, t3, WriteExpected(0), polls);
      assert Next(ratio, t3, WriteExpected(0)).pollers == [Idle];
    } else {
      var t3 := Next(ratio, t2, CopyProgress(0));
      Goes(ratio, INIT, t2, CopyProgress(0), polls);
      Goes(ratio, INIT, t3, CopyExpected(0), polls);
      assert Next(ratio, t3, CopyExpected(0)).pollers == [Idle];
    }
  }

  lemma NotPast(ratio: Pair -> real, x: Pair, p: int)
    requires KeepsOrder(ratio) && p >= 1
    ensures !Accepts(ratio, x, Pair(p, 1))
  {
    if Sane(x) {
      assert x.progress <= p * x.expected;
      assert AtMost(x, Pair(p, 1));
    }
  }

  /** A poll between the two writes of a restart leaves its progress out of 1. */
  lemma PolledInBetween(ratio: Pair -> real, x: Pair, polls: set<Pair>)
    requires SeesProgress(ratio) && x in polls && Sane(x)
    ensures Reaches(ratio, INIT, State(x.progress, 1, [Idle], [Over], [x]), polls)
  {
    hide Reaches;
    Stays(ratio, INIT, polls);
    var t1 := State(0, 1, [Idle], [], []);
    Goes(ratio, INIT, INIT, NewPoller, polls);
    assert Next(ratio, INIT, NewPoller) == t1;
    var t2 := State(0, 1, [Idle], [Zeroing], []);
    Goes(ratio, INIT, t1, NewRestart, polls);
    assert Next(ratio, t1, NewRestart) == t2;
    var t3 := State(0, 1, [Idle], [Settling], []);
    Goes(ratio, INIT, t2, Zero(0), polls);
    assert Next(ratio, t2, Zero(0)) == t3;
    WholeTurn(ratio, t3, x, polls);
    var t4 := State(x.progress, x.expected, [Idle], [Settling], [x]);
    assert t3.reports + [x] == [x];
    Goes(ratio, INIT, t4, Settle(0), polls);
    assert Next(ratio, t4, Settle(0)) == State(x.progress, 1, [Idle], [Over], [x]);
  }

  /** Some interleaving, even with a single status loop, reports an invalid pair exactly when some sane
      poll has a progress of more than one unit. */
  lemma InvalidIffPastOne(ratio: Pair -> real, polls: set<Pair>)
    requires KeepsOrder(ratio) && SeesProgress(ratio)
    ensures MayReportInvalid(ratio, polls) <==> exists x :: x in polls && 1 < x.progress <= x.expected
  {
    if x :| x in polls && 1 < x.progress <= x.expected {
      hide Reaches;
      PolledInBetween(ratio, x, polls);
      var t := State(x.progress, 1, [Idle], [Over], [x]);
      NotPast(ratio, x, x.progress);
      WholeTurn(ratio, t, x, polls);
      var reports := [x] + [Pair(x.progress, 1)];
      assert !ValidPair(reports[1]);
    } else {
      forall steps | CanRun(ratio, INIT, steps) && Within(steps, polls)
        ensures AllValid(Run(ratio, INIT, steps).reports)
      {
        UnitRun(ratio, INIT, steps, polls);
      }
    }
  }

  // ---------------------------------------------------------------- and it stays

  ghost predicate Stuck(s: State, p: int) {
    && s.progress == p && s.expected == 1
    && (forall r | 0 <= r < |s.restarts| :: s.restarts[r] == Over)
    && forall k | 0 <= k < |s.pollers| :: match s.pollers[k]
         case Idle => true
         case HasProgress(_, q) => q == p
         case Comparing(_, last) => last == Pair(p, 1)
         case HalfWritten(_) => false
         case HalfCopied(q) => q == p
  }

  lemma StuckStep(ratio: Pair -> real, s: State, step: Step, p: int)
    requires KeepsOrder(ratio) && p >= 1 && Stuck(s, p) && Enabled(ratio, s, step) && !step.NewRestart?
    ensures Stuck(Next(ratio, s, step), p)
    ensures var reports := Next(ratio, s, step).reports; reports == s.reports || reports == s.reports + [Pair(p, 1)]
  {
    if step.WriteProgress? {
      NotPast(ratio, s.pollers[step.k].polled, p);
    }
  }

  /** Once there, no poll whatsoever replaces the pair: until the next restart all reports are it. */
  lemma {:induction false} ReportedUntilRestart(ratio: Pair -> real, s: State, steps: seq<Step>, p: int)
    requires KeepsOrder(ratio) && p >= 1 && Stuck(s, p) && CanRun(ratio, s, steps)
    requires forall k | 0 <= k < |steps| :: !steps[k].NewRestart?
    ensures var reports := Run(ratio, s, steps).reports;
      && s.reports <= reports
      && forall i | |s.reports| <= i < |reports| :: reports[i] == Pair(p, 1)
    decreases |steps|
  {
    if steps != [] {
      StuckStep(ratio, s, steps[0], p);
      hide Stuck, Next, Enabled, KeepsOrder;
      ReportedUntilRestart(ratio, Next(ratio, s, steps[0]), steps[1..], p);
    }
  }

  // ---------------------------------------------------------------- pairs that were never polled

  /** A pair worth reporting: a sane poll, or the 0/1 of a restart. */
  predicate Polled(p: Pair, polls: set<Pair>) {
    p == Pair(0, 1) || (p in polls && 0 < p.progress <= p.expected)
  }

  ghost predicate MayInvent(ratio: Pair -> real, polls: set<Pair>) {
    exists t, i :: Reaches(ratio, INIT, t, polls) && 0 <= i < |t.reports| && !Polled(t.reports[i], polls)
  }

  // If no poll expects more than one unit, the globals are 0/1 or 1/1.

  ghost predicate WholeInv(s: State, polls: set<Pair>) {
    && (forall i | 0 <= i < |s.reports| :: Polled(s.reports[i], polls))
    && s.expected == 1 && Polled(Pair(s.progress, 1), polls)
    && (forall k | 0 <= k < |s.pollers| :: match s.pollers[k]
          case Idle => true
          case HasProgress(polled, _) => polled in polls
          case Comparing(polled, _) => polled in polls
          case HalfWritten(polled) => polled == Pair(1, 1) && polled in polls
          case HalfCopied(p) => Polled(Pair(p, 1), polls))
  }

  lemma WholeStep(ratio: Pair -> real, s: State, step: Step, polls: set<Pair>)
    requires forall a | a in polls && Sane(a) :: a.expected <= 1
    requires WholeInv(s, polls) && Enabled(ratio, s, step) && (step.ReadProgress? ==> step.polled in polls)
    ensures WholeInv(Next(ratio, s, step), polls)
  {
    if step.WriteProgress? {
      var polled := s.pollers[step.k].polled;
      assert polled in polls && Sane(polled);
      assert polled == Pair(1, 1);
    }
  }

  lemma {:induction false} WholeRun(ratio: Pair -> real, s: State, steps: seq<Step>, polls: set<Pair>)
    requires forall a | a in polls && Sane(a) :: a.expected <= 1
    requires WholeInv(s, polls) && CanRun(ratio, s, steps) && Within(steps, polls)
    ensures WholeInv(Run(ratio, s, steps), polls)
    decreases |steps|
  {
    if steps != [] {
      WholeStep(ratio, s, steps[0], polls);
      assert forall k | 0 <= k < |steps| - 1 :: steps[1..][k] == steps[k + 1];
      hide Next, Enabled, WholeInv;
      WholeRun(ratio, Next(ratio, s, steps[0]), steps[1..], polls);
    }
  }

  /** A restart whose first write falls between the comparison and the copy of a turn: the turn reports
      no progress out of the old number. */
  lemma CopiedInBetween(ratio: Pair -> real, x: Pair, polls: set<Pair>)
    requires SeesProgress(ratio) && x in polls && Sane(x)
    ensures Reaches(ratio, INIT, State(0, x.expected, [Idle], [Settling], [x, Pair(0, x.expected)]), polls)
  {
    hide Reaches;
    var e := x.expected;
    Stays(ratio, INIT, polls);
    var t1 := State(0, 1, [Idle], [], []);
    Goes(ratio, INIT, INIT, NewPoller, polls);
    assert Next(ratio, INIT, NewPoller) == t1;
    WholeTurn(ratio, t1, x, polls);
    var t2 := State(x.progress, e, [Idle], [], [x]);
    assert t1.reports + [x] == [x];
    var t3 := State(x.progress, e, [HasProgress(x, x.progress)], [], [x]);
    Goes(ratio, INIT, t2, ReadProgress(0, x), polls);
    assert Next(ratio, t2, ReadProgress(0, x)) == t3;
    var t4 := State(x.progress, e, [Comparing(x, x)], [], [x]);
    Goes(ratio, INIT, t3, ReadExpected(0), polls);
    assert Next(ratio, t3, ReadExpected(0)) == t4;
    CopyAfterZero(ratio, t4, x, polls);
  }

  lemma CopyAfterZero(ratio: Pair -> real, t: State, x: Pair, polls: set<Pair>)
    requires Reaches(ratio, INIT, t, polls) && t == State(x.progress, x.expected, [Comparing(x, x)], [], [x])
    ensures Reaches(ratio, INIT, State(0, x.expected, [Idle], [Settling], [x, Pair(0, x.expected)]), polls)
  {
    hide Reaches;
    var e := x.expected;
    var t1 := State(x.progress, e, [Comparing(x, x)], [Zeroing], [x]);
    Goes(ratio, INIT, t, NewRestart, polls);
    assert Next(ratio, t, NewRestart) == t1;
    var t2 := State(0, e, [Comparing(x, x)], [Settling], [x]);
    Goes(ratio, INIT, t1, Zero(0), polls);
    assert Next(ratio, t1, Zero(0)) == t2;
    var t3 := State(0, e, [HalfCopied(0)], [Settling], [x]);
    Goes(ratio, INIT, t2, CopyProgress(0), polls);
    assert Next(ratio, t2, CopyProgress(0)) == t3;
    Goes(ratio, INIT, t3, CopyExpected(0), polls);
    assert Next(ratio, t3, CopyExpected(0)) == State(0, e, [Idle], [Settling], [x, Pair(0, e)]);
  }

  /** Some interleaving reports a pair that is neither a sane poll nor 0/1 exactly when some sane poll
      expects more than one unit. */
  lemma InventedIffMoreThanOne(ratio: Pair -> real, polls: set<Pair>)
    requires KeepsOrder(ratio) && SeesProgress(ratio)
    ensures MayInvent(ratio, polls) <==> exists x :: x in polls && 0 < x.progress <= x.expected && 1 < x.expected
  {
    if x :| x in polls && 0 < x.progress <= x.expected && 1 < x.expected {
      hide Reaches;
      CopiedInBetween(ratio, x, polls);
      var reports := [x, Pair(0, x.expected)];
      assert !Polled(reports[1], polls);
    } else {
      forall steps | CanRun(ratio, INIT, steps) && Within(steps, polls)
        ensures WholeInv(Run(ratio, INIT, steps), polls)
      {
        WholeRun(ratio, INIT, steps, polls);
      }
    }
  }

  /** With two status loops not even a restart is needed: one copies between the two writes of the
      other. */
  lemma TwoLoopsSuffice(ratio: Pair -> real, x: Pair, polls: set<Pair>)
    requires KeepsOrder(ratio) && SeesProgress(ratio) && x in polls && Sane(x)
    ensures Reaches(ratio, INIT, State(x.progress, x.expected, [Idle, Idle], [], [Pair(x.progress, 1), x]), polls)
  {
    hide Reaches;
    var p := x.progress;
    Stays(ratio, INIT, polls);
    var t1 := State(0, 1, [Idle], [], []);
    Goes(ratio, INIT, INIT, NewPoller, polls);
    assert Next(ratio, INIT, NewPoller) == t1;
    var t2 := State(0, 1, [Idle, Idle], [], []);
    Goes(ratio, INIT, t1, NewPoller, polls);
    assert Next(ratio, t1, NewPoller) == t2;
    var t3 := State(0, 1, [HasProgress(x, 0), Idle], [], []);
    Goes(ratio, INIT, t2, ReadProgress(0, x), polls);
    assert Next(ratio, t2, ReadProgress(0, x)) == t3;
    var t4 := State(0, 1, [Comparing(x, Pair(0, 1)), Idle], [], []);
    Goes(ratio, INIT, t3, ReadExpected(0), polls);
    assert Next(ratio, t3, ReadExpected(0)) == t4;
    var t5 := State(p, 1, [HalfWritten(x), Idle], [], []);
    Goes(ratio, INIT, t4, WriteProgress(0), polls);
    assert Next(ratio, t4, WriteProgress(0)) == t5;
    CopyBetweenWrites(ratio, t5, x, polls);
  }

  lemma CopyBetweenWrites(ratio: Pair -> real, t: State, x: Pair, polls: set<Pair>)
    requires KeepsOrder(ratio) && x in polls && Sane(x) && Reaches(ratio, INIT, t, polls)
    requires t == State(x.progress, 1, [HalfWritten(x), Idle], [], [])
    ensures Reaches(ratio, INIT, State(x.progress, x.expected, [Idle, Idle], [], [Pair(x.progress, 1), x]), polls)
  {
    hide Reaches;
    var p := x.progress;
    NotPast(ratio, x, p);
    var t1 := State(p, 1, [HalfWritten(x), HasProgress(x, p)], [], []);
    Goes(ratio, INIT, t, ReadProgress(1, x), polls);
    assert Next(ratio, t, ReadProgress(1, x)) == t1;
    var t2 := State(p, 1, [HalfWritten(x), Comparing(x, Pair(p, 1))], [], []);
    Goes(ratio, INIT, t1, ReadExpected(1), polls);
    assert Next(ratio, t1, ReadExpected(1)) == t2;
    var t3 := State(p, 1, [HalfWritten(x), HalfCopied(p)], [], []);
    Goes(ratio, INIT, t2, CopyProgress(1), polls);
    assert Next(ratio, t2, CopyProgress(1)) == t3;
    var t4 := State(p, 1, [HalfWritten(x), Idle], [], [Pair(p, 1)]);
    Goes(ratio, INIT, t3, CopyExpected(1), polls);
    assert Next(ratio, t3, CopyExpected(1)) == t4;
    Goes(ratio, INIT, t4, WriteExpected(0), polls);
    assert Next(ratio, t4, WriteExpected(0)) == State(p, x.expected, [Idle, Idle], [], [Pair(p, 1), x]);
  }

  /** No turn and no restart ever waits for anybody. */
  lemma NobodyWaits(ratio: Pair -> real, s: State, k: nat, polled: Pair)
    ensures k < |s.pollers| ==>
              Enabled(ratio, s, ReadProgress(k, polled)) || Enabled(ratio, s, ReadExpected(k))
              || Enabled(ratio, s, WriteProgress(k)) || Enabled(ratio, s, WriteExpected(k))
              || Enabled(ratio, s, CopyProgress(k)) || Enabled(ratio, s, CopyExpected(k))
    ensures k < |s.restarts| ==> s.restarts[k] == Over || Enabled(ratio, s, Zero(k)) || Enabled(ratio, s, Settle(k))
  {
  }

  // ---------------------------------------------------------------- what a turn reports

  /** The poll that the loop's last read brought. */
  function LastPoll(steps: seq<Step>, k: nat): Option<Pair> {
    if steps == [] then None
    else
      var last := steps[|steps| - 1];
      if last.ReadProgress? && last.k == k then Some(last.polled) else LastPoll(steps[..|steps| - 1], k)
  }

  lemma {:induction false} LastStep(ratio: Pair -> real, s: State, steps: seq<Step>)
    requires CanRun(ratio, s, steps) && steps != []
    ensures var before, step := steps[..|steps| - 1], steps[|steps| - 1];
      && CanRun(ratio, s, before) && Enabled(ratio, Run(ratio, s, before), step)
      && Run(ratio, s, steps) == Next(ratio, Run(ratio, s, before), step)
    decreases |steps|
  {
    hide Next, Enabled;
    if |steps| == 1 {
      assert steps[1..] == [] && steps[..0] == [];
    } else {
      LastStep(ratio, Next(ratio, s, steps[0]), steps[1..]);
      assert steps[1..][..|steps| - 2] == steps[..|steps| - 1][1..];
    }
  }

  /** In the middle of a turn the loop holds its own last poll. */
  lemma {:induction false} HoldsLastPoll(ratio: Pair -> real, steps: seq<Step>, k: nat)
    requires CanRun(ratio, INIT, steps) && k < |Run(ratio, INIT, steps).pollers|
    ensures match Run(ratio, INIT, steps).pollers[k]
      case Idle => true
      case HasProgress(polled, _) => LastPoll(steps, k) == Some(polled)
      case Comparing(polled, _) => LastPoll(steps, k) == Some(polled)
      case HalfWritten(polled) => LastPoll(steps, k) == Some(polled) && Sane(polled)
      case HalfCopied(_) => true
    decreases |steps|
  {
    if steps != [] {
      LastStep(ratio, INIT, steps);
      hide Run, CanRun;
      if k < |Run(ratio, INIT, steps[..|steps| - 1]).pollers| {
        HoldsLastPoll(ratio, steps[..|steps| - 1], k);
      }
    }
  }

  /** What a turn reports, in every interleaving: if it accepts, the pair that it polled itself, and that
      is a sane one, whatever others have written meanwhile. */
  lemma AcceptedIsOwnPoll(ratio: Pair -> real, steps: seq<Step>, k: nat)
    requires CanRun(ratio, INIT, steps) && Enabled(ratio, Run(ratio, INIT, steps), WriteExpected(k))
    ensures var s := Run(ratio, INIT, steps);
      && LastPoll(steps, k).Some? && 0 < LastPoll(steps, k).value.progress <= LastPoll(steps, k).value.expected
      && Next(ratio, s, WriteExpected(k)).reports == s.reports + [LastPoll(steps, k).value]
  {
    HoldsLastPoll(ratio, steps, k);
  }
}
