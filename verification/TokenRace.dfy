/** Token checks and list updates in every interleaving of their reads and writes: the list and the
    cached index are shared by the goroutines of the callers and the updater, without a lock. Only
    the length of the list matters here. */
module TokenRace {

  /** A check after the handshake: before the length test, before the indexed read, before the range
      loop, in the loop over the list it found (of m entries), before writing a new index, or over. */
  datatype Check = Testing | Indexing | Ranging | Scanning(m: nat) | Writing(i: nat) | Over

  /** ForceUpdate or DecodeTokenJdoc: the index is reset first, then the list of n entries is put in. */
  datatype Update = Resetting(n: nat) | Replacing(n: nat) | Settled

  datatype State = State(len: nat, index: nat, checks: seq<Check>, updates: seq<Update>, panicked: bool)

  function Init(len: nat): State {
    State(len, 0, [], [], false)
  }

  datatype Step =
    | NewCheck | NewUpdate(n: nat)
    | Test(c: nat)
    | Index(c: nat, matches: bool)     // the cached entry is read and compared
    | Range(c: nat)
    | Hit(c: nat, i: nat) | Miss(c: nat)
    | Write(c: nat)
    | Reset(u: nat) | Replace(u: nat)

  predicate At(s: State, c: nat, where: Check) {
    c < |s.checks| && s.checks[c] == where
  }

  predicate Enabled(s: State, step: Step) {
    !s.panicked &&
    match step
    case NewCheck => true
    case NewUpdate(_) => true
    case Test(c) => At(s, c, Testing)
    case Index(c, _) => At(s, c, Indexing)
    case Range(c) => At(s, c, Ranging)
    case Hit(c, i) => c < |s.checks| && s.checks[c].Scanning? && i < s.checks[c].m
    case Miss(c) => c < |s.checks| && s.checks[c].Scanning?
    case Write(c) => c < |s.checks| && s.checks[c].Writing?
    case Reset(u) => u < |s.updates| && s.updates[u].Resetting?
    case Replace(u) => u < |s.updates| && s.updates[u].Replacing?
  }

  function Next(s: State, step: Step): State
    requires Enabled(s, step)
  {
    match step
    case NewCheck => s.(checks := s.checks + [Testing])
    case NewUpdate(n) => s.(updates := s.updates + [Resetting(n)])
    case Test(c) => s.(checks := s.checks[c := if s.len == 0 then Over else Indexing])
    case Index(c, matches) =>
      if s.index >= s.len then s.(panicked := true)
      else s.(checks := s.checks[c := if matches then Over else Ranging])
    case Range(c) => s.(checks := s.checks[c := Scanning(s.len)])
    case Hit(c, i) => s.(checks := s.checks[c := Writing(i)])
    case Miss(c) => s.(checks := s.checks[c := Over])
    case Write(c) => s.(index := s.checks[c].i, checks := s.checks[c := Over])
    case Reset(u) => s.(index := 0, updates := s.updates[u := Replacing(s.updates[u].n)])
    case Replace(u) => s.(len := s.updates[u].n, updates := s.updates[u := Settled])
  }

  predicate CanRun(s: State, steps: seq<Step>)
    decreases |steps|
  {
    steps == [] || (Enabled(s, steps[0]) && CanRun(Next(s, steps[0]), steps[1..]))
  }

  function Run(s: State, steps: seq<Step>): State
    requires CanRun(s, steps)
    decreases |steps|
  {
    if steps == [] then s else Run(Next(s, steps[0]), steps[1..])
  }

  // ---------------------------------------------------------------- one at a time

  predicate Checking(c: Check) {
    !c.Testing? && !c.Over?
  }

  predicate NoneChecking(s: State) {
    forall c | 0 <= c < |s.checks| :: !Checking(s.checks[c])
  }

  predicate NoneReplacing(s: State) {
    forall u | 0 <= u < |s.updates| :: !s.updates[u].Replacing?
  }

  /** What a lock around each check and each update would allow. */
  predicate Apart(s: State, step: Step) {
    (step.Test? ==> NoneReplacing(s)) && (step.Reset? ==> NoneChecking(s))
  }

  predicate RunsApart(s: State, steps: seq<Step>)
    requires CanRun(s, steps)
    decreases |steps|
  {
    steps == [] || (Apart(s, steps[0]) && RunsApart(Next(s, steps[0]), steps[1..]))
  }

  predicate InRange(s: State) {
    s.index == 0 || s.index < s.len
  }

  ghost predicate CheckSound(s: State, c: Check) {
    match c
    case Indexing => s.len > 0
    case Scanning(m) => m == s.len
    case Writing(i) => i < s.len
    case _ => true
  }

  ghost predicate Inv(s: State) {
    && !s.panicked && InRange(s)
    && (forall c | 0 <= c < |s.checks| :: CheckSound(s, s.checks[c]))
    && (NoneReplacing(s) || (s.index == 0 && NoneChecking(s)))
  }

  lemma StepKeeps(s: State, step: Step)
    requires Inv(s) && Enabled(s, step) && Apart(s, step)
    ensures Inv(Next(s, step))
  {
    var s' := Next(s, step);
    if step.Replace? {
      assert s.updates[step.u].Replacing?;
    } else if step.Reset? {
      assert forall c | 0 <= c < |s.checks| :: !Checking(s.checks[c]);
    } else if NoneReplacing(s) {
      assert forall u | 0 <= u < |s'.updates| :: u == |s.updates| || s'.updates[u] == s.updates[u];
    }
  }

  /** With a check and an update never under way together, the index is in range in every state of
      every run, and no indexed read panics. */
  lemma {:induction false} SafeApart(s: State, steps: seq<Step>)
    requires Inv(s) && CanRun(s, steps) && RunsApart(s, steps)
    ensures Inv(Run(s, steps))
    decreases |steps|
  {
    if steps != [] {
      StepKeeps(s, steps[0]);
      SafeApart(Next(s, steps[0]), steps[1..]);
    }
  }

  // ---------------------------------------------------------------- in every interleaving

  /** Updates put in lists of these lengths only. */
  ghost predicate Within(steps: seq<Step>, lengths: set<nat>) {
    forall k | 0 <= k < |steps| && steps[k].NewUpdate? :: steps[k].n in lengths
  }

  ghost predicate Reaches(s: State, t: State, lengths: set<nat>) {
    exists steps :: CanRun(s, steps) && Run(s, steps) == t && Within(steps, lengths)
  }

  ghost predicate MayPanic(len: nat, lengths: set<nat>) {
    exists t :: Reaches(Init(len), t, lengths) && t.panicked
  }

  ghost predicate MayLeaveRange(len: nat, lengths: set<nat>) {
    exists t :: Reaches(Init(len), t, lengths) && !InRange(t)
  }

  /** Some list may be followed by a shorter one. */
  ghost predicate MayShrink(len: nat, lengths: set<nat>) {
    exists n, m :: n in lengths && m in lengths + {len} && n < m
  }

  /** And one that is not just a single entry. */
  ghost predicate MayShrinkLong(len: nat, lengths: set<nat>) {
    exists n, m :: n in lengths && m in lengths + {len} && n < m && 1 < m
  }

  // While no list shrinks, what a check has seen of the list stays true.

  ghost predicate GrowingSound(s: State, lengths: set<nat>) {
    && !s.panicked && InRange(s)
    && (forall n | n in lengths :: s.len <= n)
    && (forall n, m | n in lengths && m in lengths :: n == m)
    && (forall u | 0 <= u < |s.updates| && !s.updates[u].Settled? :: s.updates[u].n in lengths)
    && (forall c | 0 <= c < |s.checks| :: match s.checks[c]
          case Indexing => s.len > 0
          case Scanning(m) => m <= s.len
          case Writing(i) => i < s.len
          case _ => true)
  }

  lemma GrowingStart(len: nat, lengths: set<nat>)
    requires !MayShrink(len, lengths)
    ensures GrowingSound(Init(len), lengths)
  {
    forall n | n in lengths ensures len <= n {
      assert len in lengths + {len};
    }
    forall n, m | n in lengths && m in lengths ensures n == m {
      assert n in lengths + {len} && m in lengths + {len};
    }
  }

  lemma GrowingStep(s: State, step: Step, lengths: set<nat>)
    requires GrowingSound(s, lengths) && Enabled(s, step) && (step.NewUpdate? ==> step.n in lengths)
    ensures GrowingSound(Next(s, step), lengths)
  {
  }

  lemma {:induction false} GrowingRun(s: State, steps: seq<Step>, lengths: set<nat>)
    requires GrowingSound(s, lengths) && CanRun(s, steps) && Within(steps, lengths)
    ensures GrowingSound(Run(s, steps), lengths)
    decreases |steps|
  {
    if steps != [] {
      GrowingStep(s, steps[0], lengths);
      assert forall k | 0 <= k < |steps| - 1 :: steps[1..][k] == steps[k + 1];
      GrowingRun(Next(s, steps[0]), steps[1..], lengths);
    }
  }

  // While no list has a second entry, the index never leaves 0.

  ghost predicate ShortSound(s: State, lengths: set<nat>) {
    && s.index == 0 && s.len <= 1
    && (forall u | 0 <= u < |s.updates| && !s.updates[u].Settled? :: s.updates[u].n <= 1)
    && (forall c | 0 <= c < |s.checks| :: match s.checks[c]
          case Scanning(m) => m <= 1
          case Writing(i) => i == 0
          case _ => true)
  }

  lemma {:induction false} ShortRun(s: State, steps: seq<Step>, lengths: set<nat>)
    requires ShortSound(s, lengths) && CanRun(s, steps) && Within(steps, lengths)
    requires forall n | n in lengths :: n <= 1
    ensures ShortSound(Run(s, steps), lengths)
    decreases |steps|
  {
    if steps != [] {
      assert forall k | 0 <= k < |steps| - 1 :: steps[1..][k] == steps[k + 1];
      ShortRun(Next(s, steps[0]), steps[1..], lengths);
    }
  }

  // Otherwise these runs show it.

  lemma Stays(s: State, lengths: set<nat>)
    ensures Reaches(s, s, lengths)
  {
    assert CanRun(s, []) && Run(s, []) == s && Within([], lengths);
  }

  lemma {:induction false} OneMore(s: State, steps: seq<Step>, step: Step)
    requires CanRun(s, steps) && Enabled(Run(s, steps), step)
    ensures CanRun(s, steps + [step]) && Run(s, steps + [step]) == Next(Run(s, steps), step)
    decreases |steps|
  {
    hide Next, Enabled;
    if steps == [] {
      assert [] + [step] == [step] && [step][1..] == [];
    } else {
      assert (steps + [step])[1..] == steps[1..] + [step];
      OneMore(Next(s, steps[0]), steps[1..], step);
    }
  }

  lemma Goes(s: State, t: State, step: Step, lengths: set<nat>)
    requires Reaches(s, t, lengths) && Enabled(t, step) && (step.NewUpdate? ==> step.n in lengths)
    ensures Reaches(s, Next(t, step), lengths)
  {
    hide Next, Enabled;
    var steps :| CanRun(s, steps) && Run(s, steps) == t && Within(steps, lengths);
    OneMore(s, steps, step);
    assert Within(steps + [step], lengths);
  }

  /** The whole of one check that nothing gets in between, on a list with its index in range: it ends,
      and the index has moved only if the cached entry did not match and another did. */
  lemma WholeCheck(s: State, t: State, matches: bool, hit: int, lengths: set<nat>)
    requires Reaches(s, t, lengths) && !t.panicked && t.index < t.len && -1 <= hit < t.len
    ensures Reaches(s, t.(index := if !matches && hit >= 0 then hit else t.index, checks := t.checks + [Over]), lengths)
  {
    hide Reaches;
    var c := |t.checks|;
    var u := Next(t, NewCheck);
    Goes(s, t, NewCheck, lengths);
    var v := Next(u, Test(c));
    Goes(s, u, Test(c), lengths);
    var w := Next(v, Index(c, matches));
    Goes(s, v, Index(c, matches), lengths);
    if matches {
      assert w.checks == t.checks + [Over];
    } else {
      NotCached(s, t, w, hit, lengths);
    }
  }

  lemma NotCached(s: State, t: State, w: State, hit: int, lengths: set<nat>)
    requires Reaches(s, w, lengths) && !t.panicked && -1 <= hit < t.len
    requires w == t.(checks := t.checks + [Ranging])
    ensures Reaches(s, t.(index := if hit >= 0 then hit else t.index, checks := t.checks + [Over]), lengths)
  {
    hide Reaches;
    var c := |t.checks|;
    var x := Next(w, Range(c));
    Goes(s, w, Range(c), lengths);
    if hit >= 0 {
      var y := Next(x, Hit(c, hit));
      Goes(s, x, Hit(c, hit), lengths);
      Goes(s, y, Write(c), lengths);
      assert Next(y, Write(c)).checks == t.checks + [Over];
    } else {
      Goes(s, x, Miss(c), lengths);
      assert Next(x, Miss(c)).checks == t.checks + [Over];
    }
  }

  /** The whole of one update that nothing gets in between. */
  lemma Updated(s: State, t: State, n: nat, lengths: set<nat>)
    requires Reaches(s, t, lengths) && !t.panicked && n in lengths
    ensures Reaches(s, t.(len := n, index := 0, updates := t.updates + [Settled]), lengths)
  {
    hide Reaches;
    var u := |t.updates|;
    var t1 := Next(t, NewUpdate(n));
    Goes(s, t, NewUpdate(n), lengths);
    var t2 := Next(t1, Reset(u));
    Goes(s, t1, Reset(u), lengths);
    Goes(s, t2, Replace(u), lengths);
    assert Next(t2, Replace(u)).updates == t.updates + [Settled];
  }

  /** A check from its start up to the loop over the list, in which it finds entry i. */
  lemma Found(s: State, t: State, i: nat, lengths: set<nat>)
    requires Reaches(s, t, lengths) && !t.panicked && t.index == 0 && i < t.len
    ensures Reaches(s, t.(checks := t.checks + [Writing(i)]), lengths)
  {
    hide Reaches;
    var c := |t.checks|;
    var t1 := Next(t, NewCheck);
    Goes(s, t, NewCheck, lengths);
    var t2 := Next(t1, Test(c));
    Goes(s, t1, Test(c), lengths);
    var t3 := Next(t2, Index(c, false));
    Goes(s, t2, Index(c, false), lengths);
    var t4 := Next(t3, Range(c));
    Goes(s, t3, Range(c), lengths);
    Goes(s, t4, Hit(c, i), lengths);
    assert Next(t4, Hit(c, i)).checks == t.checks + [Writing(i)];
  }

  /** A list that is emptied between the length test and the indexed read: whatever its length was,
      the read panics. */
  lemma EmptiedInBetween(s: State, t: State, lengths: set<nat>)
    requires Reaches(s, t, lengths) && !t.panicked && t.len > 0 && 0 in lengths
    ensures exists p :: Reaches(s, p, lengths) && p.panicked
  {
    hide Reaches;
    var c := |t.checks|;
    var t1 := Next(t, NewCheck);
    Goes(s, t, NewCheck, lengths);
    var t2 := Next(t1, Test(c));
    Goes(s, t1, Test(c), lengths);
    Updated(s, t2, 0, lengths);
    var t3 := t2.(len := 0, index := 0, updates := t2.updates + [Settled]);
    Goes(s, t3, Index(c, true), lengths);
    assert Next(t3, Index(c, true)).panicked;
  }

  /** A check that has found its entry and writes the index after a shorter list was put in: nothing
      panics yet, but the index is out of range. */
  lemma StaleIndexWritten(s: State, t: State, n: nat, i: nat, lengths: set<nat>)
    requires Reaches(s, t, lengths) && !t.panicked && t.index == 0
    requires n in lengths && n <= i < t.len && 0 < i
    ensures exists p :: Reaches(s, p, lengths) && !p.panicked && !InRange(p) && p.len == n
  {
    hide Reaches;
    var c := |t.checks|;
    Found(s, t, i, lengths);
    var t1 := t.(checks := t.checks + [Writing(i)]);
    Updated(s, t1, n, lengths);
    var t2 := t1.(len := n, index := 0, updates := t1.updates + [Settled]);
    Goes(s, t2, Write(c), lengths);
    assert !InRange(Next(t2, Write(c)));
  }

  /** A whole check between the reset of an update and its replacement of the list does the same:
      keeping replacements out of the checks is not enough. */
  lemma ResetUndone(s: State, t: State, n: nat, i: nat, lengths: set<nat>)
    requires Reaches(s, t, lengths) && !t.panicked && t.index == 0
    requires n in lengths && n <= i < t.len && 0 < i
    ensures exists p :: Reaches(s, p, lengths) && !p.panicked && !InRange(p) && p.len == n
  {
    hide Reaches;
    var u, c := |t.updates|, |t.checks|;
    var t1 := Next(t, NewUpdate(n));
    Goes(s, t, NewUpdate(n), lengths);
    var t2 := Next(t1, Reset(u));
    Goes(s, t1, Reset(u), lengths);
    Found(s, t2, i, lengths);
    var t3 := t2.(checks := t2.checks + [Writing(i)]);
    var t4 := Next(t3, Write(c));
    Goes(s, t3, Write(c), lengths);
    Goes(s, t4, Replace(u), lengths);
    assert !InRange(Next(t4, Replace(u)));
  }

  /** From a state whose index is out of range the next check panics by itself, if it finds entries. */
  lemma OutOfRangeThenPanics(s: State, t: State, lengths: set<nat>)
    requires Reaches(s, t, lengths) && !t.panicked && !InRange(t) && t.len > 0
    ensures exists p :: Reaches(s, p, lengths) && p.panicked
  {
    hide Reaches;
    var c := |t.checks|;
    var t1 := Next(t, NewCheck);
    Goes(s, t, NewCheck, lengths);
    var t2 := Next(t1, Test(c));
    Goes(s, t1, Test(c), lengths);
    Goes(s, t2, Index(c, true), lengths);
    assert Next(t2, Index(c, true)).panicked;
  }

  /** A list of m entries, as it was or put in by one update. */
  lemma ListOf(len: nat, m: nat, lengths: set<nat>) returns (t: State)
    requires m in lengths + {len}
    ensures Reaches(Init(len), t, lengths) && !t.panicked && t.index == 0 && t.len == m
  {
    hide Reaches;
    t := Init(len);
    Stays(t, lengths);
    if m != len {
      Updated(Init(len), t, m, lengths);
      t := t.(len := m, index := 0, updates := t.updates + [Settled]);
    }
  }

  /** Without a lock, some interleaving of checks with updates to lists of the given lengths panics
      exactly when some list may be followed by a shorter one. */
  lemma PanicsIffMayShrink(len: nat, lengths: set<nat>)
    ensures MayPanic(len, lengths) <==> MayShrink(len, lengths)
  {
    if MayShrink(len, lengths) {
      hide Reaches;
      var n, m :| n in lengths && m in lengths + {len} && n < m;
      var t := ListOf(len, m, lengths);
      if n == 0 {
        EmptiedInBetween(Init(len), t, lengths);
      } else {
        StaleIndexWritten(Init(len), t, n, n, lengths);
        var p :| Reaches(Init(len), p, lengths) && !p.panicked && !InRange(p) && p.len == n;
        OutOfRangeThenPanics(Init(len), p, lengths);
      }
    } else {
      GrowingStart(len, lengths);
      forall steps | CanRun(Init(len), steps) && Within(steps, lengths) ensures !Run(Init(len), steps).panicked {
        GrowingRun(Init(len), steps, lengths);
      }
    }
  }

  /** And some interleaving leaves the index out of range exactly when a list of two entries or more
      may be followed by a shorter one. */
  lemma LeavesRangeIffMayShrinkLong(len: nat, lengths: set<nat>)
    ensures MayLeaveRange(len, lengths) <==> MayShrinkLong(len, lengths)
  {
    if MayShrinkLong(len, lengths) {
      hide Reaches;
      var n, m :| n in lengths && m in lengths + {len} && n < m && 1 < m;
      var t := ListOf(len, m, lengths);
      StaleIndexWritten(Init(len), t, n, if n == 0 then 1 else n, lengths);
    } else if MayShrink(len, lengths) {
      forall n | n in lengths + {len} ensures n <= 1 {
        var a, b :| a in lengths && b in lengths + {len} && a < b;
        assert a in lengths && n in lengths + {len};
      }
      forall steps | CanRun(Init(len), steps) && Within(steps, lengths) ensures InRange(Run(Init(len), steps)) {
        ShortRun(Init(len), steps, lengths);
      }
    } else {
      GrowingStart(len, lengths);
      forall steps | CanRun(Init(len), steps) && Within(steps, lengths) ensures InRange(Run(Init(len), steps)) {
        GrowingRun(Init(len), steps, lengths);
      }
    }
  }

  /** ForceUpdate puts in an empty list: with it among the updates a panic is possible exactly if
      there ever is a list with an entry. */
  lemma ForcedPanicsIffEverFilled(len: nat, lengths: set<nat>)
    requires 0 in lengths
    ensures MayPanic(len, lengths) <==> exists m :: m in lengths + {len} && m > 0
  {
    PanicsIffMayShrink(len, lengths);
    if m :| m in lengths + {len} && m > 0 {
      assert 0 in lengths && m in lengths + {len} && 0 < m;
    }
  }
}
