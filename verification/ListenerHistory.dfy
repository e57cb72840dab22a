/** What whole runs of the registry come to, told from the steps that were taken and from the state
    before them: which channels and dispatches there are, what a critical section takes away, and
    that a delete callback and a delivery can be carried out. */
module ListenerHistory {
  import opened Common
  import opened ListenerTable
  import opened ListenerProtocol
  import opened ListenerCompletion

  // ---------------------------------------------------------------- channels and dispatches

  /** The channels a run creates, and the calls it begins, in order. */
  function Creations(steps: seq<Step>): seq<(Tag, nat)> {
    if steps == [] then []
    else (match steps[0] case Create(tag, cap) => [(tag, cap)] case _ => []) + Creations(steps[1..])
  }

  function Calls(steps: seq<Step>): seq<(Tag, Message)> {
    if steps == [] then []
    else (match steps[0] case Begin(tag, msg) => [(tag, msg)] case _ => []) + Calls(steps[1..])
  }

  function ChannelKinds(chans: seq<Channel>): (r: seq<(Tag, nat)>)
    ensures |r| == |chans|
  {
    seq(|chans|, i requires 0 <= i < |chans| => (chans[i].tag, chans[i].cap))
  }

  function DispatchKinds(dispatches: seq<Dispatch>): (r: seq<(Tag, Message)>)
    ensures |r| == |dispatches|
  {
    seq(|dispatches|, i requires 0 <= i < |dispatches| => (dispatches[i].tag, dispatches[i].msg))
  }

  lemma ChannelKindsStep(s: State, step: Step)
    requires Enabled(s, step)
    ensures ChannelKinds(Next(s, step).chans) == ChannelKinds(s.chans) + Creations([step])
  {
    hide Remove, RemoveAll, IndexOf, Listeners, CanWrite, SetSlot, SetPhase;
    assert [step][1..] == [];
  }

  lemma DispatchKindsStep(s: State, step: Step)
    requires Enabled(s, step)
    ensures DispatchKinds(Next(s, step).dispatches) == DispatchKinds(s.dispatches) + Calls([step])
  {
    hide Remove, RemoveAll, IndexOf, Listeners, CanWrite;
    assert [step][1..] == [];
  }

  lemma {:induction false} RunKinds(s: State, steps: seq<Step>)
    requires CanRun(s, steps)
    ensures ChannelKinds(Run(s, steps).chans) == ChannelKinds(s.chans) + Creations(steps)
    ensures DispatchKinds(Run(s, steps).dispatches) == DispatchKinds(s.dispatches) + Calls(steps)
    decreases |steps|
  {
    hide Next, Enabled, ChannelKinds, DispatchKinds;
    if steps != [] {
      ChannelKindsStep(s, steps[0]);
      DispatchKindsStep(s, steps[0]);
      RunKinds(Next(s, steps[0]), steps[1..]);
      FirstKinds(steps);
    }
  }

  lemma FirstKinds(steps: seq<Step>)
    requires steps != []
    ensures Creations(steps) == Creations([steps[0]]) + Creations(steps[1..])
    ensures Calls(steps) == Calls([steps[0]]) + Calls(steps[1..])
  {
    assert [steps[0]][1..] == [];
  }

  /** Nothing but a creation makes a channel and nothing but a call makes a dispatch, and each keeps
      the tag, the capacity and the message it was made with. */
  lemma AsCreated(steps: seq<Step>)
    requires CanRun(INIT, steps)
    ensures ChannelKinds(Run(INIT, steps).chans) == Creations(steps)
    ensures DispatchKinds(Run(INIT, steps).dispatches) == Calls(steps)
  {
    RunKinds(INIT, steps);
    assert INIT.chans == [] && INIT.dispatches == [];
  }

  // ---------------------------------------------------------------- critical sections

  /** The steps that take the write lock, and the channels they take it for. */
  predicate Locks(s: State, step: Step, tag: Tag, gone: seq<nat>) {
    match step
    case LockCallback(c) => c < |s.chans| && tag == s.chans[c].tag && gone == [c]
    case LockCleanup(d) => d < |s.dispatches| && tag == s.dispatches[d].tag && gone == s.dispatches[d].marked
    case _ => false
  }

  /** In the middle of the section that locked in state s. */
  ghost predicate Within(s: State, u: State, tag: Tag, gone: seq<nat>) {
    && u.writer.Held? && u.writer.tag == tag && u.writer.all == gone && u.writer.entry == s.table
    && |u.chans| == |s.chans|
    && (u.writer.closing.Some? ==> u.writer.closing.value in gone)
    && forall k | 0 <= k < |s.chans| ::
         u.chans[k].tag == s.chans[k].tag && (s.chans[k].closed ==> u.chans[k].closed)
         && (u.chans[k].closed ==> s.chans[k].closed || k in gone)
  }

  lemma WithinDelete(s: State, u: State, tag: Tag, gone: seq<nat>)
    requires Inv(u) && Within(s, u, tag, gone) && Enabled(u, DeleteNext)
    ensures Within(s, Next(u, DeleteNext), tag, gone)
  {
    assert WriterSound(u);
    assert u.writer.todo[0] in gone;
    hide Inv, WriterSound, Remove;
  }

  lemma WithinClose(s: State, u: State, tag: Tag, gone: seq<nat>)
    requires Within(s, u, tag, gone) && Enabled(u, CloseNow)
    ensures Within(s, Next(u, CloseNow), tag, gone)
  {
  }

  /** Steps of others neither lock, create nor close while the write lock is held. */
  lemma WithinOther(s: State, u: State, step: Step, tag: Tag, gone: seq<nat>)
    requires Within(s, u, tag, gone) && Enabled(u, step)
    requires step != Unlock && step != DeleteNext && step != CloseNow
    ensures Within(s, Next(u, step), tag, gone)
  {
    hide Remove, RemoveAll, IndexOf, Add, Listeners;
    assert !CanWrite(u);
    hide CanWrite;
  }

  lemma WithinStep(s: State, u: State, step: Step, tag: Tag, gone: seq<nat>)
    requires Inv(u) && Within(s, u, tag, gone) && Enabled(u, step) && step != Unlock
    ensures Within(s, Next(u, step), tag, gone)
  {
    hide *;
    if step == DeleteNext {
      WithinDelete(s, u, tag, gone);
    } else if step == CloseNow {
      WithinClose(s, u, tag, gone);
    } else {
      WithinOther(s, u, step, tag, gone);
    }
  }

  lemma {:induction false} WithinRun(s: State, u: State, steps: seq<Step>, tag: Tag, gone: seq<nat>)
    requires Inv(u) && Within(s, u, tag, gone) && CanRun(u, steps) && Unlock !in steps
    ensures Within(s, Run(u, steps), tag, gone) && Inv(Run(u, steps))
    decreases |steps|
  {
    if steps != [] {
      WithinStep(s, u, steps[0], tag, gone);
      StepKeeps(u, steps[0]);
      hide Within, Inv, Enabled, Next;
      WithinRun(s, Next(u, steps[0]), steps[1..], tag, gone);
    }
  }

  /** A whole critical section: the step that locks, any steps of anybody, the unlock. */
  ghost predicate Section(s: State, lock: Step, steps: seq<Step>) {
    Enabled(s, lock) && Unlock !in steps && CanRun(Next(s, lock), steps)
    && Enabled(Run(Next(s, lock), steps), Unlock)
  }

  function AfterSection(s: State, lock: Step, steps: seq<Step>): State
    requires Section(s, lock, steps)
  {
    Next(Run(Next(s, lock), steps), Unlock)
  }

  /** What a critical section takes away, whatever runs beside it, told from the state it locked: its
      channels are closed and out of their tag's list, and no other channel is closed or delisted. */
  ghost predicate TakesAway(s: State, t: State, tag: Tag, gone: seq<nat>) {
    && |t.chans| == |s.chans|
    && (forall c | 0 <= c < |s.chans| :: t.chans[c].closed <==> s.chans[c].closed || c in gone)
    && (forall c :: c in Listeners(t.table, tag) <==> c in Listeners(s.table, tag) && c !in gone)
    && (tag in t.table <==> exists c :: c in Listeners(s.table, tag) && c !in gone)
    && (forall other | other != tag :: Listeners(t.table, other) == Listeners(s.table, other))
  }

  lemma LockIsWithin(s: State, lock: Step, tag: Tag, gone: seq<nat>)
    requires Enabled(s, lock) && Locks(s, lock, tag, gone)
    ensures Within(s, Next(s, lock), tag, gone)
  {
    hide Remove, RemoveAll, IndexOf, Add, Listeners, CanWrite;
  }

  lemma ClosedAtUnlock(s: State, u: State, tag: Tag, gone: seq<nat>)
    requires WriterSound(u) && Within(s, u, tag, gone) && Enabled(u, Unlock)
    ensures forall c | 0 <= c < |s.chans| :: u.chans[c].closed <==> s.chans[c].closed || c in gone
    ensures u.table == RemoveAll(s.table, tag, gone) && Tidy(s.table)
  {
    hide RemoveAll;
    RemoveAllNone(u.table, tag);
  }

  lemma UnlockTakesAway(s: State, u: State, tag: Tag, gone: seq<nat>)
    requires Inv(u) && Within(s, u, tag, gone) && Enabled(u, Unlock)
    ensures TakesAway(s, Next(u, Unlock), tag, gone)
  {
    assert WriterSound(u);
    hide Inv, WriterSound, Remove, RemoveAll, IndexOf, Tidy, Listeners, SetPhase;
    ClosedAtUnlock(s, u, tag, gone);
    RemoveAllEffect(s.table, tag, gone);
  }

  lemma SectionEffect(s: State, lock: Step, steps: seq<Step>, tag: Tag, gone: seq<nat>)
    requires Inv(s) && Section(s, lock, steps) && Locks(s, lock, tag, gone)
    ensures TakesAway(s, AfterSection(s, lock, steps), tag, gone)
  {
    StepKeeps(s, lock);
    LockIsWithin(s, lock, tag, gone);
    hide Inv, Enabled, Next, Within, TakesAway;
    WithinRun(s, Next(s, lock), steps, tag, gone);
    UnlockTakesAway(s, Run(Next(s, lock), steps), tag, gone);
  }

  /** What a delete callback does, in every reachable state and every interleaving: it closes its
      channel, takes it out of its tag, and does nothing to any other channel or tag. */
  lemma CallbackEffect(before: seq<Step>, c: nat, steps: seq<Step>)
    requires CanRun(INIT, before) && Section(Run(INIT, before), LockCallback(c), steps)
    ensures var s := Run(INIT, before); var t := AfterSection(s, LockCallback(c), steps);
      && |t.chans| == |s.chans|
      && t.chans[c].closed
      && (forall k | 0 <= k < |s.chans| && k != c :: t.chans[k].closed == s.chans[k].closed)
      && (forall x :: x in Listeners(t.table, s.chans[c].tag) <==> x in Listeners(s.table, s.chans[c].tag) && x != c)
      && (s.chans[c].tag in t.table <==> exists x :: x in Listeners(s.table, s.chans[c].tag) && x != c)
      && (forall other | other != s.chans[c].tag :: Listeners(t.table, other) == Listeners(s.table, other))
  {
    RunKeeps(INIT, before);
    var s := Run(INIT, before);
    SectionEffect(s, LockCallback(c), steps, s.chans[c].tag, [c]);
    hide Inv;
  }

  /** The same for the clean-up of a dispatch: its marked listeners go, and nothing else does. */
  lemma CleanUpEffect(before: seq<Step>, d: nat, steps: seq<Step>)
    requires CanRun(INIT, before) && Section(Run(INIT, before), LockCleanup(d), steps)
    ensures var s := Run(INIT, before);
      TakesAway(s, AfterSection(s, LockCleanup(d), steps), s.dispatches[d].tag, s.dispatches[d].marked)
  {
    RunKeeps(INIT, before);
    var s := Run(INIT, before);
    SectionEffect(s, LockCleanup(d), steps, s.dispatches[d].tag, s.dispatches[d].marked);
  }

  // ---------------------------------------------------------------- a dispatch from its lock on

  lemma ListStep(s: State, step: Step, d: nat)
    requires Enabled(s, step) && d < |s.dispatches| && s.dispatches[d].phase != Waiting
    ensures d < |Next(s, step).dispatches| && Next(s, step).dispatches[d].phase != Waiting
    ensures Next(s, step).dispatches[d].list == s.dispatches[d].list
    ensures Next(s, step).dispatches[d].msg == s.dispatches[d].msg
  {
    hide Remove, IndexOf, Add, Listeners, CanWrite;
  }

  lemma {:induction false} ListRun(s: State, steps: seq<Step>, d: nat)
    requires CanRun(s, steps) && d < |s.dispatches| && s.dispatches[d].phase != Waiting
    ensures d < |Run(s, steps).dispatches|
    ensures Run(s, steps).dispatches[d].list == s.dispatches[d].list
    ensures Run(s, steps).dispatches[d].msg == s.dispatches[d].msg
    decreases |steps|
  {
    if steps != [] {
      ListStep(s, steps[0], d);
      ListRun(Next(s, steps[0]), steps[1..], d);
    }
  }

  /** What becomes of a message, whatever runs beside its dispatch: when the dispatch is done, each
      channel that was listed when it took the read lock has accepted exactly this message exactly
      once, or never and is closed and gone; no other channel ever gets it. */
  lemma DeliveredOnceOrClosed(before: seq<Step>, d: nat, steps: seq<Step>, x: nat)
    requires CanRun(INIT, before) && Enabled(Run(INIT, before), ReadLock(d))
    requires CanRun(Next(Run(INIT, before), ReadLock(d)), steps)
    requires var t := Run(Next(Run(INIT, before), ReadLock(d)), steps);
      d < |t.dispatches| && t.dispatches[d].phase == Done && x < |t.chans|
    ensures var s := Run(INIT, before); var t := Run(Next(s, ReadLock(d)), steps);
      && (forall e | e in t.chans[x].log && e.dispatch == d :: e.msg == s.dispatches[d].msg)
      && (x !in Listeners(s.table, s.dispatches[d].tag) ==> Times(t.chans[x].log, d) == 0)
      && (x in Listeners(s.table, s.dispatches[d].tag) ==>
            Times(t.chans[x].log, d) == 1
            || (Times(t.chans[x].log, d) == 0 && t.chans[x].closed && !Registered(t, x)))
  {
    var s := Run(INIT, before);
    var u := Next(s, ReadLock(d));
    var t := Run(u, steps);
    RunKeeps(INIT, before);
    StepKeeps(s, ReadLock(d));
    RunKeeps(u, steps);
    ListRun(u, steps, d);
    FromLock(s, u, t, d, x);
  }

  lemma FromLock(s: State, u: State, t: State, d: nat, x: nat)
    requires Enabled(s, ReadLock(d)) && u == Next(s, ReadLock(d)) && Inv(t)
    requires d < |t.dispatches| && t.dispatches[d].list == u.dispatches[d].list && t.dispatches[d].phase == Done
    requires x < |t.chans|
    ensures forall e | e in t.chans[x].log && e.dispatch == d :: e.msg == t.dispatches[d].msg
    ensures var l := Listeners(s.table, s.dispatches[d].tag);
      if x in l then
        Times(t.chans[x].log, d) == 1
        || (Times(t.chans[x].log, d) == 0 && t.chans[x].closed && !Registered(t, x))
      else Times(t.chans[x].log, d) == 0
  {
    var dp := t.dispatches[d];
    assert DispatchSound(t, dp);
    assert dp.list == Listeners(s.table, s.dispatches[d].tag);
    assert Times(t.chans[x].log, d) == SentTo(dp, x);
    if x in dp.list {
      var i := IndexOf(dp.list, x);
      assert dp.slots[i] == Sent || dp.slots[i] == Marked;
      assert dp.slots[i] == Marked ==> x in dp.marked;
    }
  }

  // ---------------------------------------------------------------- the consumer's end

  /** Whether a step gives channel c's consumer a message, from the buffer or handed over. */
  function Gives(s: State, step: Step, c: nat): nat
    requires Enabled(s, step)
  {
    match step
    case Receive(k) => if k == c then 1 else 0
    case HandOver(d, i) => if s.dispatches[d].list[i] == c then 1 else 0
    case _ => 0
  }

  function Given(s: State, steps: seq<Step>, c: nat): nat
    requires CanRun(s, steps)
    decreases |steps|
  {
    if steps == [] then 0 else Gives(s, steps[0], c) + Given(Next(s, steps[0]), steps[1..], c)
  }

  /** What has left a channel is what its consumer was given, n messages, plus at most the one that
      SafeClose discards. */
  predicate AtMostOneLost(s: State, c: nat, n: nat) {
    if c >= |s.chans| then n == 0
    else if s.chans[c].closed || BeingClosed(s, c) then n <= |s.chans[c].taken| <= n + 1
    else |s.chans[c].taken| == n
  }

  lemma LossOfDelete(s: State, c: nat, n: nat)
    requires Inv(s) && Enabled(s, DeleteNext) && AtMostOneLost(s, c, n)
    ensures AtMostOneLost(Next(s, DeleteNext), c, n)
  {
    assert WriterSound(s);
    assert s.writer.todo[0] in s.writer.todo;
    if s.writer.todo[0] == c {
      assert Registered(s, c) <==> c in Listeners(s.table, s.writer.tag);
    }
    hide Inv, WriterSound, Remove, Listeners;
  }

  lemma LossOfSend(s: State, step: Step, c: nat, n: nat)
    requires Inv(s) && Enabled(s, step) && AtMostOneLost(s, c, n) && (step.Send? || step.HandOver?)
    ensures AtMostOneLost(Next(s, step), c, n + Gives(s, step, c))
  {
    SendTarget(s, step.d, step.i);
    hide Inv;
  }

  lemma LossOfOther(s: State, step: Step, c: nat, n: nat)
    requires Enabled(s, step) && AtMostOneLost(s, c, n)
    requires !step.Send? && !step.HandOver? && step != DeleteNext
    ensures AtMostOneLost(Next(s, step), c, n + Gives(s, step, c))
  {
    hide Remove, IndexOf, Add, Listeners;
  }

  lemma LossStep(s: State, step: Step, c: nat, n: nat)
    requires Inv(s) && Enabled(s, step) && AtMostOneLost(s, c, n)
    ensures AtMostOneLost(Next(s, step), c, n + Gives(s, step, c))
  {
    hide *;
    if step == DeleteNext {
      LossOfDelete(s, c, n);
      NothingGiven(s, c);
    } else if step.Send? || step.HandOver? {
      LossOfSend(s, step, c, n);
    } else {
      LossOfOther(s, step, c, n);
    }
  }

  lemma NothingGiven(s: State, c: nat)
    requires Enabled(s, DeleteNext)
    ensures Gives(s, DeleteNext, c) == 0
  {
  }

  /** Nothing is lost on the way: over every run, what has left an open channel is exactly what its
      consumer was given; when it is deleted, at most one message is discarded. */
  lemma {:induction false} ConsumerGetsAll(s: State, steps: seq<Step>, c: nat, n: nat)
    requires Inv(s) && CanRun(s, steps) && AtMostOneLost(s, c, n)
    ensures AtMostOneLost(Run(s, steps), c, n + Given(s, steps, c))
    decreases |steps|
  {
    if steps != [] {
      var step := steps[0];
      LossStep(s, step, c, n);
      StepKeeps(s, step);
      hide Inv, Enabled, Next, AtMostOneLost, Gives;
      ConsumerGetsAll(Next(s, step), steps[1..], c, n + Gives(s, step, c));
    }
  }

  // ---------------------------------------------------------------- what can be done

  /** The holder of the write lock waits for nobody. */
  lemma SectionGoesOn(s: State) returns (step: Step)
    requires Inv(s) && s.writer.Held?
    ensures Enabled(s, step) && (step == DeleteNext || step == CloseNow || step == Unlock)
    ensures step != Unlock ==>
              Next(s, step).writer.Held? && CleanUpWork(Next(s, step).writer) < CleanUpWork(s.writer)
  {
    assert WriterSound(s);
    var w := s.writer;
    if w.closing.Some? {
      assert BeingClosed(s, w.closing.value);
    } else if w.todo != [] {
      assert w.todo[0] in w.todo;
    }
    hide Inv, WriterSound, Remove;
    step := if w.closing.Some? then CloseNow else if w.todo != [] then DeleteNext else Unlock;
  }

  /** So it can finish. */
  lemma {:induction false} FinishSection(s: State) returns (t: State, steps: seq<Step>)
    requires Inv(s) && s.writer.Held?
    ensures CanRun(s, steps) && t == Run(s, steps) && Unlock !in steps && Inv(t) && Enabled(t, Unlock)
    decreases CleanUpWork(s.writer)
  {
    hide Inv, Enabled, Next;
    var step := SectionGoesOn(s);
    if step == Unlock {
      t, steps := s, [];
    } else {
      StepKeeps(s, step);
      var rest;
      t, rest := FinishSection(Next(s, step));
      steps := [step] + rest;
      assert steps[1..] == rest;
    }
  }

  /** Some schedule carries out the callback of channel c, from its lock to its unlock. */
  ghost predicate CanDelete(s: State, c: nat) {
    exists t, steps :: Reaches(s, t) && Section(t, LockCallback(c), steps)
  }

  /** If no reader has too many late listeners, the write lock becomes free. */
  lemma FreeToWrite(s: State) returns (t: State)
    requires Inv(s) && FewLate(s)
    ensures Reaches(s, t) && Inv(t) && CanWrite(t) && |t.chans| >= |s.chans|
  {
    if s.writer.Held? {
      var u, steps := FinishSection(s);
      assert Reaches(s, u);
      t := Next(u, Unlock);
      Takes(u, Unlock);
      ReachesThen(s, u, t);
      NobodyReads(s, u);
    } else {
      t := ReleaseAll(s, 0);
    }
    ChannelsStay(s, t);
  }

  lemma NobodyReads(s: State, u: State)
    requires Inv(u) && Enabled(u, Unlock)
    ensures CanWrite(Next(u, Unlock))
  {
    var t := Next(u, Unlock);
    forall e | 0 <= e < |t.dispatches| ensures !Reading(t, e) {
      assert DispatchSound(u, u.dispatches[e]);
    }
  }

  lemma ChannelsStay(s: State, t: State)
    requires Reaches(s, t)
    ensures |t.chans| >= |s.chans|
  {
    var steps :| CanRun(s, steps) && Run(s, steps) == t;
    RunKinds(s, steps);
  }

  /** A delete callback, on whatever channel and from whatever reachable state, can be carried out if
      and only if no dispatch that holds the read lock has more than five late listeners. */
  lemma DeletableIffFewLate(s: State, c: nat)
    requires Inv(s) && c < |s.chans|
    ensures CanDelete(s, c) <==> FewLate(s)
  {
    hide Inv, Next, CanRun, Run, Reaches;
    if FewLate(s) {
      var t := FreeToWrite(s);
      CallbackRuns(t, c);
    } else {
      var e :| 0 <= e < |s.dispatches| && Reading(s, e) && Late(s.dispatches[e]) > 5;
      forall t | Reaches(s, t) ensures !Enabled(t, LockCallback(c)) {
        StillReads(s, t, e);
      }
    }
  }

  lemma CallbackRuns(t: State, c: nat)
    requires Inv(t) && CanWrite(t) && c < |t.chans|
    ensures exists steps :: Section(t, LockCallback(c), steps)
  {
    assert Enabled(t, LockCallback(c));
    StepKeeps(t, LockCallback(c));
    var u, steps := FinishSection(Next(t, LockCallback(c)));
    hide Inv, Enabled;
    assert Section(t, LockCallback(c), steps);
  }

  lemma StillReads(s: State, t: State, e: nat)
    requires Inv(s) && Reaches(s, t) && Reading(s, e) && Late(s.dispatches[e]) > 5
    ensures Reading(t, e) && !CanWrite(t)
  {
    hide Inv, Late;
    var steps :| CanRun(s, steps) && Run(s, steps) == t;
    TooManyLateBlocksForever(s, steps, e);
  }
}
