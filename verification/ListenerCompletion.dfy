/** When a dispatch can come to its end: not only must its own goroutines get through, its clean-up
    also waits until every other dispatch has let go of the read lock. */
module ListenerCompletion {
  import opened Common
  import opened ListenerTable
  import opened ListenerProtocol

  /** Listeners of a dispatch that have timed out so far, marked or still waiting to be. */
  function Late(dp: Dispatch): nat {
    Count(dp.slots, TimedOut) + Count(dp.slots, Marked)
  }

  predicate OwnStep(step: Step, d: nat) {
    match step
    case Send(d', _) => d == d'
    case HandOver(d', _) => d == d'
    case TimeOut(d', _) => d == d'
    case Mark(d', _) => d == d'
    case ReadUnlock(d') => d == d'
    case _ => false
  }

  /** Work left in the fan-out: it falls with every own step before the unlock. */
  function FanOutRank(dp: Dispatch): nat {
    2 * Count(dp.slots, Pending) + Count(dp.slots, TimedOut)
  }

  /** The goroutine that takes an own step goes from one slot value to the next. */
  lemma OwnStepSlot(s: State, step: Step, d: nat)
    requires Inv(s) && Enabled(s, step) && Reading(s, d) && OwnStep(step, d) && !step.ReadUnlock?
    ensures var dp, dp', i := s.dispatches[d], Next(s, step).dispatches[d], step.i;
      && i < |dp.slots| && dp.slots[i] == (if step.Mark? then TimedOut else Pending)
      && dp'.phase == Sending
      && dp'.slots == dp.slots[i := if step.Mark? then Marked else if step.TimeOut? then TimedOut else Sent]
  {
    hide Inv;
    if step.Send? || step.HandOver? {
      SendTarget(s, d, step.i);
    }
  }

  lemma OthersStep(s: State, step: Step, d: nat)
    requires Inv(s) && Enabled(s, step) && Reading(s, d) && !OwnStep(step, d)
    ensures d < |Next(s, step).dispatches| && Next(s, step).dispatches[d] == s.dispatches[d]
  {
    assert DispatchSound(s, s.dispatches[d]);
    hide Inv;
  }

  lemma FanOutStep(s: State, step: Step, d: nat)
    requires Inv(s) && Enabled(s, step) && Reading(s, d)
    ensures d < |Next(s, step).dispatches|
    ensures var dp, dp' := s.dispatches[d], Next(s, step).dispatches[d];
      && Late(dp) <= Late(dp')
      && (OwnStep(step, d) && !step.ReadUnlock? ==> FanOutRank(dp') < FanOutRank(dp) && dp'.phase == Sending)
      && (!OwnStep(step, d) ==> dp' == dp)
  {
    hide Inv, Count;
    if !OwnStep(step, d) {
      OthersStep(s, step, d);
    } else if !step.ReadUnlock? {
      OwnStepSlot(s, step, d);
      hide Next, Enabled;
      CountsAfter(s.dispatches[d].slots, step.i, Next(s, step).dispatches[d].slots[step.i]);
    }
  }

  /** The only way to get stuck: every goroutine has sent, timed out or marked, one that timed
      out still waits, and the mark channel is full. */
  lemma StuckOnlyWhenMarksFull(s: State, d: nat)
    requires Inv(s) && Reading(s, d)
    requires forall step | OwnStep(step, d) :: !Enabled(s, step)
    ensures Late(s.dispatches[d]) > 5
  {
    var dp := s.dispatches[d];
    assert DispatchSound(s, dp);
    assert OwnStep(ReadUnlock(d), d);
    var i :| 0 <= i < |dp.slots| && dp.slots[i] != Sent && dp.slots[i] != Marked;
    assert dp.list[i] in dp.list;
    assert OwnStep(TimeOut(d, i), d) && OwnStep(Mark(d, i), d);
  }

  lemma NotJoined(dp: Dispatch)
    requires |dp.slots| == |dp.list| && Late(dp) > 5 && Count(dp.slots, Marked) <= 5
    ensures !Joined(dp)
  {
    assert TimedOut in dp.slots;
  }

  /** While a dispatch reads, nobody writes: only its own unlock ends that. */
  lemma ReadingLasts(s: State, step: Step, d: nat)
    requires Enabled(s, step) && Reading(s, d) && s.writer == Free && step != ReadUnlock(d)
    ensures Reading(Next(s, step), d)
    ensures Next(s, step).table == s.table && |Next(s, step).chans| == |s.chans|
  {
    assert !CanWrite(s);
  }

  lemma TooManyLateStep(s: State, step: Step, d: nat)
    requires Inv(s) && Enabled(s, step) && Reading(s, d) && Late(s.dispatches[d]) > 5
    ensures Reading(Next(s, step), d)
    ensures Next(s, step).table == s.table && |Next(s, step).chans| == |s.chans|
  {
    hide Next, Late, Joined, Count;
    assert DispatchSound(s, s.dispatches[d]);
    NotJoined(s.dispatches[d]);
    assert step != ReadUnlock(d);
    ReadingLasts(s, step, d);
  }

  /** More than five late listeners: the dispatch never lets go of the read lock, in any
      continuation, so nobody can create, delete or clean up listeners any more. */
  lemma {:induction false} TooManyLateBlocksForever(s: State, steps: seq<Step>, d: nat)
    requires Inv(s) && CanRun(s, steps) && Reading(s, d) && Late(s.dispatches[d]) > 5
    ensures Reading(Run(s, steps), d)
    ensures Run(s, steps).table == s.table && |Run(s, steps).chans| == |s.chans|
    decreases |steps|
  {
    if steps != [] {
      var step, s' := steps[0], Next(s, steps[0]);
      TooManyLateStep(s, step, d);
      FanOutStep(s, step, d);
      StepKeeps(s, step);
      hide Inv, Late, Enabled, Next;
      TooManyLateBlocksForever(s', steps[1..], d);
    }
  }

  // ---------------------------------------------------------------- reachable states

  ghost predicate Reaches(s: State, t: State) {
    exists steps :: CanRun(s, steps) && Run(s, steps) == t
  }

  lemma Stays(s: State)
    ensures Reaches(s, s)
  {
    assert CanRun(s, []) && Run(s, []) == s;
  }

  lemma {:induction false} RunThen(s: State, a: seq<Step>, b: seq<Step>)
    requires CanRun(s, a) && CanRun(Run(s, a), b)
    ensures CanRun(s, a + b) && Run(s, a + b) == Run(Run(s, a), b)
    decreases |a|
  {
    hide Next, Enabled;
    if a == [] {
      assert a + b == b;
    } else {
      assert (a + b)[1..] == a[1..] + b;
      RunThen(Next(s, a[0]), a[1..], b);
    }
  }

  lemma ReachesThen(s: State, t: State, u: State)
    requires Reaches(s, t) && Reaches(t, u)
    ensures Reaches(s, u)
  {
    hide CanRun, Run;
    var a :| CanRun(s, a) && Run(s, a) == t;
    var b :| CanRun(t, b) && Run(t, b) == u;
    RunThen(s, a, b);
  }

  /** One more step of a run, which keeps the invariant. */
  lemma Takes(s: State, step: Step)
    requires Inv(s) && Enabled(s, step)
    ensures Reaches(s, Next(s, step)) && Inv(Next(s, step))
  {
    StepKeeps(s, step);
    hide Next, Enabled, Inv;
    assert [step][1..] == [];
    assert CanRun(s, [step]) && Run(s, [step]) == Next(s, step);
  }

  // ---------------------------------------------------------------- letting go of the read lock

  /** Two dispatch lists that differ at most in dispatch d. */
  predicate OnlyChanges(before: seq<Dispatch>, after: seq<Dispatch>, d: nat) {
    |after| == |before| && forall k | 0 <= k < |before| && k != d :: after[k] == before[k]
  }

  /** A goroutine that is still pending can be served: its channel is open, and if it is full one
      message can be taken out first. */
  lemma ServePending(s: State, d: nat, i: nat) returns (t: State)
    requires Inv(s) && AtSlot(s, d, i, Pending)
    ensures Reaches(s, t) && Inv(t)
    ensures t.writer == s.writer && t.dispatches == SetSlot(s, d, i, Sent)
  {
    SendTarget(s, d, i);
    var c := s.dispatches[d].list[i];
    if s.chans[c].buf == [] {
      t := Next(s, HandOver(d, i));
      Takes(s, HandOver(d, i));
    } else {
      var u := Next(s, Receive(c));
      Takes(s, Receive(c));
      t := Next(u, Send(d, i));
      Takes(u, Send(d, i));
      ReachesThen(s, u, t);
    }
  }

  /** A reading dispatch with at most five late listeners can release the read lock, whatever its
      goroutines are doing, and without more listeners becoming late. */
  lemma {:induction false} ReleaseReader(s: State, d: nat) returns (t: State)
    requires Inv(s) && Reading(s, d) && Late(s.dispatches[d]) <= 5
    ensures Reaches(s, t) && Inv(t) && t.writer == s.writer
    ensures OnlyChanges(s.dispatches, t.dispatches, d)
    ensures t.dispatches[d].phase == Released && Late(t.dispatches[d]) == Late(s.dispatches[d])
    decreases FanOutRank(s.dispatches[d])
  {
    hide Inv, Next, Reaches, Count;
    var dp := s.dispatches[d];
    SlotsAreListed(s, d);
    if Pending in dp.slots {
      var i := FindSlot(dp.slots, Pending);
      var u := ServePending(s, d, i);
      CountsAfter(dp.slots, i, Sent);
      t := ReleaseReader(u, d);
      ReachesThen(s, u, t);
    } else if TimedOut in dp.slots {
      var i := FindSlot(dp.slots, TimedOut);
      CountsAfter(dp.slots, i, Marked);
      var u := MarkSlot(s, d, i);
      t := ReleaseReader(u, d);
      ReachesThen(s, u, t);
    } else {
      t := Unlocked(s, d);
    }
  }

  lemma SlotsAreListed(s: State, d: nat)
    requires Inv(s) && Reading(s, d)
    ensures var dp := s.dispatches[d];
      && |dp.slots| == |dp.list| && |dp.marked| == Count(dp.slots, Marked)
      && forall i | 0 <= i < |dp.list| :: dp.list[i] < |s.chans|
    ensures !s.panicked && s.writer == Free
  {
    var dp := s.dispatches[d];
    assert DispatchSound(s, dp);
    assert forall i | 0 <= i < |dp.list| :: dp.list[i] in dp.list;
  }

  lemma FindSlot(slots: seq<Slot>, x: Slot) returns (i: nat)
    requires x in slots
    ensures i < |slots| && slots[i] == x
  {
    i :| 0 <= i < |slots| && slots[i] == x;
  }

  lemma CountsAfter(slots: seq<Slot>, i: nat, y: Slot)
    requires i < |slots|
    ensures forall x :: Count(slots[i := y], x)
                     == Count(slots, x) - (if slots[i] == x then 1 else 0) + (if y == x then 1 else 0)
    ensures Count(slots, slots[i]) > 0
  {
    forall x
      ensures Count(slots[i := y], x) == Count(slots, x) - (if slots[i] == x then 1 else 0) + (if y == x then 1 else 0)
    {
      CountUpdate(slots, i, y, x);
    }
    assert slots[i] in slots;
  }

  lemma MarkSlot(s: State, d: nat, i: nat) returns (t: State)
    requires Inv(s) && AtSlot(s, d, i, TimedOut) && Late(s.dispatches[d]) <= 5
    ensures Reaches(s, t) && Inv(t) && t.writer == s.writer
    ensures OnlyChanges(s.dispatches, t.dispatches, d) && t.dispatches[d].phase == Sending
    ensures t.dispatches[d].slots == s.dispatches[d].slots[i := Marked]
  {
    SlotsAreListed(s, d);
    assert TimedOut in s.dispatches[d].slots;
    t := Next(s, Mark(d, i));
    Takes(s, Mark(d, i));
  }

  lemma Unlocked(s: State, d: nat) returns (t: State)
    requires Inv(s) && Reading(s, d)
    requires Pending !in s.dispatches[d].slots && TimedOut !in s.dispatches[d].slots
    ensures Reaches(s, t) && Inv(t) && t.writer == s.writer
    ensures OnlyChanges(s.dispatches, t.dispatches, d)
    ensures t.dispatches[d] == s.dispatches[d].(phase := Released)
  {
    SlotsAreListed(s, d);
    forall i | 0 <= i < |s.dispatches[d].slots|
      ensures s.dispatches[d].slots[i] == Sent || s.dispatches[d].slots[i] == Marked
    {
      assert s.dispatches[d].slots[i] in s.dispatches[d].slots;
    }
    t := Next(s, ReadUnlock(d));
    Takes(s, ReadUnlock(d));
  }

  ghost predicate FewLate(s: State) {
    forall e | 0 <= e < |s.dispatches| && Reading(s, e) :: Late(s.dispatches[e]) <= 5
  }

  /** A dispatch before and after every reader has let go. */
  predicate AsBeforeOrReleased(before: Dispatch, after: Dispatch) {
    after == before || (before.phase == Sending && after.phase == Released && Late(after) == Late(before))
  }

  /** If no reader has more than five late listeners, all can let go, one after the other. */
  lemma {:induction false} ReleaseAll(s: State, k: nat) returns (t: State)
    requires Inv(s) && s.writer == Free && FewLate(s) && k <= |s.dispatches|
    requires forall e | 0 <= e < k :: !Reading(s, e)
    ensures Reaches(s, t) && Inv(t) && CanWrite(t)
    ensures |t.dispatches| == |s.dispatches|
    ensures forall e | 0 <= e < |s.dispatches| :: AsBeforeOrReleased(s.dispatches[e], t.dispatches[e])
    decreases |s.dispatches| - k
  {
    hide Inv, Next, Reaches, Late;
    if k == |s.dispatches| {
      t := s;
      Stays(s);
    } else if Reading(s, k) {
      var u := ReleaseReader(s, k);
      forall e | 0 <= e < |s.dispatches| ensures Reading(u, e) <==> e != k && Reading(s, e) {
        assert e != k ==> u.dispatches[e] == s.dispatches[e];
      }
      t := ReleaseAll(u, k + 1);
      ReachesThen(s, u, t);
    } else {
      t := ReleaseAll(s, k + 1);
    }
  }

  // ---------------------------------------------------------------- the clean-up

  /** A dispatch past the read lock has marks to clean up exactly if it had late listeners. */
  lemma MarksAreLate(s: State, d: nat)
    requires Inv(s) && d < |s.dispatches| && s.dispatches[d].phase == Released
    ensures s.dispatches[d].marked == [] <==> Late(s.dispatches[d]) == 0
  {
    var dp := s.dispatches[d];
    assert DispatchSound(s, dp);
    assert TimedOut !in dp.slots;
  }

  /** What is left to do under the write lock. */
  function CleanUpWork(w: Writer): nat
    requires w.Held?
  {
    2 * |w.todo| + if w.closing.Some? then 1 else 0
  }

  lemma {:induction false} FinishCleanUp(s: State, d: nat) returns (t: State)
    requires Inv(s) && s.writer.Held? && s.writer.dispatch == Some(d)
    ensures Reaches(s, t) && d < |t.dispatches| && t.dispatches[d].phase == Done
    decreases CleanUpWork(s.writer)
  {
    var w := s.writer;
    assert WriterSound(s);
    if w.closing.Some? {
      var u := Next(s, CloseNow);
      Takes(s, CloseNow);
      t := FinishCleanUp(u, d);
      ReachesThen(s, u, t);
    } else if w.todo != [] {
      assert w.todo[0] in w.todo;
      var u := Next(s, DeleteNext);
      Takes(s, DeleteNext);
      t := FinishCleanUp(u, d);
      ReachesThen(s, u, t);
    } else {
      t := Next(s, Unlock);
      Takes(s, Unlock);
    }
  }

  /** From the released read lock to the return of the call. */
  lemma Finish(s: State, d: nat) returns (t: State)
    requires Inv(s) && d < |s.dispatches| && s.dispatches[d].phase == Released
    requires Late(s.dispatches[d]) == 0 || CanWrite(s)
    ensures Reaches(s, t) && d < |t.dispatches| && t.dispatches[d].phase == Done
  {
    MarksAreLate(s, d);
    if s.dispatches[d].marked == [] {
      t := Next(s, SkipCleanup(d));
      Takes(s, SkipCleanup(d));
    } else {
      var u := Next(s, LockCleanup(d));
      Takes(s, LockCleanup(d));
      t := FinishCleanUp(u, d);
      ReachesThen(s, u, t);
    }
  }

  // ---------------------------------------------------------------- waiting for ever

  /** A dispatch that has, or will have, something to clean up. */
  predicate Waits(s: State, d: nat) {
    d < |s.dispatches|
    && ((s.dispatches[d].phase == Sending && Late(s.dispatches[d]) > 0)
        || (s.dispatches[d].phase == Released && s.dispatches[d].marked != []))
  }

  lemma WaitsToRelease(s: State, step: Step, d: nat)
    requires Inv(s) && Enabled(s, step) && Reading(s, d) && Late(s.dispatches[d]) > 0
    ensures Waits(Next(s, step), d)
  {
    SlotsAreListed(s, d);
    FanOutStep(s, step, d);
    hide Inv, Next, Enabled;
    if step == ReadUnlock(d) {
      UnlockWithLate(s, d);
    }
  }

  lemma UnlockWithLate(s: State, d: nat)
    requires Enabled(s, ReadUnlock(d)) && Late(s.dispatches[d]) > 0
    requires |s.dispatches[d].marked| == Count(s.dispatches[d].slots, Marked)
    ensures Waits(Next(s, ReadUnlock(d)), d)
  {
    assert TimedOut !in s.dispatches[d].slots;
  }

  lemma WaitsToLock(s: State, step: Step, d: nat, e: nat)
    requires Enabled(s, step) && Reading(s, e) && s.writer == Free
    requires d < |s.dispatches| && s.dispatches[d].phase == Released && s.dispatches[d].marked != []
    ensures Waits(Next(s, step), d)
  {
    hide Late, Remove, IndexOf;
    assert !CanWrite(s);
  }

  lemma WaitsStep(s: State, step: Step, d: nat, e: nat)
    requires Inv(s) && Enabled(s, step) && Waits(s, d) && Reading(s, e)
    ensures Waits(Next(s, step), d)
  {
    SlotsAreListed(s, e);
    if Reading(s, d) {
      WaitsToRelease(s, step, d);
    } else {
      WaitsToLock(s, step, d, e);
    }
  }

  /** While some dispatch reads with more than five late listeners, no dispatch that has a clean-up
      before it ever returns. */
  lemma {:induction false} NeverDone(s: State, steps: seq<Step>, d: nat, e: nat)
    requires Inv(s) && CanRun(s, steps) && Waits(s, d)
    requires Reading(s, e) && Late(s.dispatches[e]) > 5
    ensures Waits(Run(s, steps), d)
    decreases |steps|
  {
    if steps != [] {
      var step, s' := steps[0], Next(s, steps[0]);
      WaitsStep(s, step, d, e);
      TooManyLateStep(s, step, e);
      FanOutStep(s, step, e);
      StepKeeps(s, step);
      hide Inv, Late, Enabled, Next, Waits;
      NeverDone(s', steps[1..], d, e);
    }
  }

  ghost predicate CanComplete(s: State, d: nat) {
    exists t :: Reaches(s, t) && d < |t.dispatches| && t.dispatches[d].phase == Done
  }

  /** Wherever its goroutines are, a dispatch can still return, by some schedule of everything in the
      system, exactly when it has no late listener or no dispatch that holds the read lock, itself
      included, has more than five. */
  lemma CompletesIffFewLate(s: State, d: nat)
    requires Inv(s) && Reading(s, d)
    ensures CanComplete(s, d) <==> Late(s.dispatches[d]) == 0 || FewLate(s)
  {
    hide Inv, Next, Run, CanRun;
    SlotsAreListed(s, d);
    if Late(s.dispatches[d]) == 0 {
      var u := ReleaseReader(s, d);
      var t := Finish(u, d);
      ReachesThen(s, u, t);
    } else if FewLate(s) {
      var u := ReleaseAll(s, 0);
      assert AsBeforeOrReleased(s.dispatches[d], u.dispatches[d]);
      assert !Reading(u, d);
      var t := Finish(u, d);
      ReachesThen(s, u, t);
    } else {
      var e :| 0 <= e < |s.dispatches| && Reading(s, e) && Late(s.dispatches[e]) > 5;
      forall t | Reaches(s, t) ensures Waits(t, d) {
        var steps :| CanRun(s, steps) && Run(s, steps) == t;
        NeverDone(s, steps, d, e);
      }
    }
  }

  // ---------------------------------------------------------------- that this happens

  lemma {:induction false} CreateMany(s: State, tag: Tag, n: nat) returns (t: State)
    requires Inv(s) && CanWrite(s)
    ensures Reaches(s, t) && Inv(t) && CanWrite(t) && t.dispatches == s.dispatches
    ensures |Listeners(t.table, tag)| == |Listeners(s.table, tag)| + n
    ensures forall other | other != tag :: Listeners(t.table, other) == Listeners(s.table, other)
    decreases n
  {
    if n == 0 {
      t := s;
      Stays(s);
    } else {
      var u := Next(s, Create(tag, 0));
      Takes(s, Create(tag, 0));
      assert forall d | 0 <= d < |u.dispatches| :: !Reading(s, d) && Reading(u, d) == Reading(s, d);
      t := CreateMany(u, tag, n - 1);
      ReachesThen(s, u, t);
    }
  }

  lemma {:induction false} AllPending(n: nat)
    ensures Count(seq(n, _ => Pending), Pending) == n && Count(seq(n, _ => Pending), TimedOut) == 0
    ensures Count(seq(n, _ => Pending), Marked) == 0
  {
    if n > 0 {
      AllPending(n - 1);
      assert seq(n, _ => Pending)[..n - 1] == seq(n - 1, _ => Pending);
    }
  }

  /** A call that gets as far as the read lock. */
  lemma BeginAndLock(s: State, tag: Tag, msg: Message) returns (t: State)
    requires Inv(s) && s.writer == Free
    ensures Reaches(s, t) && Inv(t) && t.writer == Free && t.table == s.table
    ensures |t.dispatches| == |s.dispatches| + 1
    ensures forall k | 0 <= k < |s.dispatches| :: t.dispatches[k] == s.dispatches[k]
    ensures Reading(t, |s.dispatches|)
    ensures var dp := t.dispatches[|s.dispatches|];
      Count(dp.slots, Pending) == |Listeners(s.table, tag)| && Late(dp) == 0
  {
    var u := Next(s, Begin(tag, msg));
    Takes(s, Begin(tag, msg));
    t := Next(u, ReadLock(|s.dispatches|));
    Takes(u, ReadLock(|s.dispatches|));
    ReachesThen(s, u, t);
    AllPending(|Listeners(s.table, tag)|);
  }

  lemma TimeOutSlot(s: State, d: nat, i: nat) returns (t: State)
    requires Inv(s) && AtSlot(s, d, i, Pending)
    ensures Reaches(s, t) && Inv(t)
    ensures OnlyChanges(s.dispatches, t.dispatches, d) && Reading(t, d)
    ensures t.dispatches[d].slots == s.dispatches[d].slots[i := TimedOut]
  {
    SlotsAreListed(s, d);
    t := Next(s, TimeOut(d, i));
    Takes(s, TimeOut(d, i));
  }

  /** All pending goroutines of a dispatch time out. */
  lemma {:induction false} TimeOutAll(s: State, d: nat) returns (t: State)
    requires Inv(s) && Reading(s, d)
    ensures Reaches(s, t) && Inv(t) && OnlyChanges(s.dispatches, t.dispatches, d) && Reading(t, d)
    ensures Pending !in t.dispatches[d].slots
    ensures Late(t.dispatches[d]) == Late(s.dispatches[d]) + Count(s.dispatches[d].slots, Pending)
    decreases Count(s.dispatches[d].slots, Pending)
  {
    var slots := s.dispatches[d].slots;
    SlotsAreListed(s, d);
    hide Inv, Reaches, Count;
    if Pending in slots {
      var i := FindSlot(slots, Pending);
      CountsAfter(slots, i, TimedOut);
      var u := TimeOutSlot(s, d, i);
      t := TimeOutAll(u, d);
      ReachesThen(s, u, t);
    } else {
      t := s;
      Stays(s);
      NoneCounted(slots, Pending);
    }
  }

  lemma NoneCounted(slots: seq<Slot>, x: Slot)
    requires x !in slots
    ensures Count(slots, x) == 0
  {
  }

  lemma InitSound(tag: Tag)
    ensures Inv(INIT) && CanWrite(INIT) && INIT.dispatches == [] && Listeners(INIT.table, tag) == []
  {
  }

  /** It happens: six listeners of one message that are late block another message's dispatch, which
      has a single late listener, for ever. */
  lemma BlockedByAnother(msg: Message) returns (s: State)
    ensures Reaches(INIT, s) && Reading(s, 0) && Reading(s, 1)
    ensures Late(s.dispatches[0]) == 6 && Late(s.dispatches[1]) == 1
    ensures !CanComplete(s, 0) && !CanComplete(s, 1)
  {
    hide Inv, Reaches, Next, Enabled, Late, Count, CanComplete, Listeners;
    InitSound("a");
    InitSound("b");
    var s1 := CreateMany(INIT, "a", 6);
    var s2 := CreateMany(s1, "b", 1);
    var s3 := BeginAndLock(s2, "a", msg);
    var s4 := BeginAndLock(s3, "b", msg);
    var s5 := TimeOutAll(s4, 0);
    s := TimeOutAll(s5, 1);
    ReachesThen(INIT, s1, s2);
    ReachesThen(INIT, s2, s3);
    ReachesThen(INIT, s3, s4);
    ReachesThen(INIT, s4, s5);
    ReachesThen(INIT, s5, s);
    CompletesIffFewLate(s, 0);
    CompletesIffFewLate(s, 1);
  }
}
