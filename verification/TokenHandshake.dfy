/** The token refresh handshake: any number of CheckToken and ForceUpdate callers, the
    listener goroutine and the updater goroutine, over unbuffered channels. A send and the
    receive it meets are one step. Whether a check triggers an update (time since the last
    one, rate limiter) is a free choice of the step. */
module TokenHandshake {

  /** A CheckToken call: sending on checkValid, receiving from notifyValid, looking up, returned. */
  datatype Caller = Asking | Waiting | Checking | Returned

  /** A ForceUpdate call and the receive on its own response channel. */
  datatype Force = Offering | Awaiting | Answered

  /** updateListener: at the receive, deciding, sending notifyValid on updateNowChan, or
      sending on notifyValid itself. */
  datatype Listener = Listening | Deciding | Forwarding | Notifying

  /** The response channel an update was requested with. */
  datatype Response = NotifyValid | Own(force: nat)

  /** StartUpdateListener's loop: at the select, inside UpdateTokens, or answering. */
  datatype Updater = Ready | Updating(to: Response) | Answering(to: Response)

  datatype UpdateEvent = Started | Ended

  datatype State = State(callers: seq<Caller>, forces: seq<Force>, listener: Listener, updater: Updater,
                         updates: seq<UpdateEvent>)

  const INIT := State([], [], Listening, Ready, [])

  datatype Step =
    | CallCheck | CallForce            // new callers arrive
    | Ask(c: nat)                      // checkValid: caller to listener
    | Decide(refresh: bool)
    | Forward                          // updateNowChan: listener to updater
    | Notify(c: nat)                   // notifyValid: listener to some waiting caller
    | Offer(f: nat)                    // updateNowChan: ForceUpdate caller to updater
    | FinishUpdate
    | AnswerCheck(c: nat)              // notifyValid: updater to some waiting caller
    | AnswerForce(f: nat)              // the caller's own response channel
    | FinishCheck(c: nat)

  predicate Arrival(step: Step) {
    step.CallCheck? || step.CallForce?
  }

  predicate Enabled(s: State, step: Step) {
    match step
    case CallCheck => true
    case CallForce => true
    case Ask(c) => c < |s.callers| && s.callers[c] == Asking && s.listener == Listening
    case Decide(_) => s.listener == Deciding
    case Forward => s.listener == Forwarding && s.updater == Ready
    case Notify(c) => c < |s.callers| && s.callers[c] == Waiting && s.listener == Notifying
    case Offer(f) => f < |s.forces| && s.forces[f] == Offering && s.updater == Ready
    case FinishUpdate => s.updater.Updating?
    case AnswerCheck(c) => c < |s.callers| && s.callers[c] == Waiting && s.updater == Answering(NotifyValid)
    case AnswerForce(f) => f < |s.forces| && s.forces[f] == Awaiting && s.updater == Answering(Own(f))
    case FinishCheck(c) => c < |s.callers| && s.callers[c] == Checking
  }

  function Next(s: State, step: Step): State
    requires Enabled(s, step)
  {
    match step
    case CallCheck => s.(callers := s.callers + [Asking])
    case CallForce => s.(forces := s.forces + [Offering])
    case Ask(c) => s.(callers := s.callers[c := Waiting], listener := Deciding)
    case Decide(refresh) => s.(listener := if refresh then Forwarding else Notifying)
    case Forward => s.(listener := Listening, updater := Updating(NotifyValid), updates := s.updates + [Started])
    case Notify(c) => s.(callers := s.callers[c := Checking], listener := Listening)
    case Offer(f) =>
      s.(forces := s.forces[f := Awaiting], updater := Updating(Own(f)), updates := s.updates + [Started])
    case FinishUpdate => s.(updater := Answering(s.updater.to), updates := s.updates + [Ended])
    case AnswerCheck(c) => s.(callers := s.callers[c := Checking], updater := Ready)
    case AnswerForce(f) => s.(forces := s.forces[f := Answered], updater := Ready)
    case FinishCheck(c) => s.(callers := s.callers[c := Returned])
  }

  // ---------------------------------------------------------------- conservation

  function WaitingCount(callers: seq<Caller>): nat {
    if callers == [] then 0
    else WaitingCount(callers[..|callers| - 1]) + if callers[|callers| - 1] == Waiting then 1 else 0
  }

  /** The notifications somebody still owes: the listener for the check it has accepted, the
      updater when it holds notifyValid. */
  function Owed(s: State): nat {
    (if s.listener == Listening then 0 else 1)
    + (if !s.updater.Ready? && s.updater.to == NotifyValid then 1 else 0)
  }

  ghost predicate Inv(s: State) {
    && WaitingCount(s.callers) == Owed(s)
    && (forall f | 0 <= f < |s.forces| :: s.forces[f] == Awaiting <==> !s.updater.Ready? && s.updater.to == Own(f))
    && (!s.updater.Ready? && s.updater.to.Own? ==> s.updater.to.force < |s.forces|)
    && (forall i | 0 <= i < |s.updates| :: s.updates[i] == Started <==> i % 2 == 0)
    && (s.updater.Updating? <==> |s.updates| % 2 == 1)
  }

  lemma WaitingUpdate(callers: seq<Caller>, c: nat, x: Caller)
    requires c < |callers|
    ensures WaitingCount(callers[c := x])
         == WaitingCount(callers) - (if callers[c] == Waiting then 1 else 0) + (if x == Waiting then 1 else 0)
  {
    var last := |callers| - 1;
    if c < last {
      assert callers[c := x][..last] == callers[..last][c := x];
      WaitingUpdate(callers[..last], c, x);
    } else {
      assert callers[c := x][..last] == callers[..last];
    }
  }

  lemma StepKeeps(s: State, step: Step)
    requires Inv(s) && Enabled(s, step)
    ensures Inv(Next(s, step))
  {
    match step
    case CallCheck => assert (s.callers + [Asking])[..|s.callers|] == s.callers;
    case Ask(c) => WaitingUpdate(s.callers, c, Waiting);
    case Notify(c) => WaitingUpdate(s.callers, c, Checking);
    case AnswerCheck(c) => WaitingUpdate(s.callers, c, Checking);
    case FinishCheck(c) => WaitingUpdate(s.callers, c, Returned);
    case _ =>
  }

  predicate CanRun(s: State, steps: seq<Step>)
    decreases |steps|
  {
    steps == [] || (Enabled(s, steps[0]) && CanRun(Next(s, steps[0]), steps[1..]))
  }

  function Run(s: State, steps: seq<Step>): State
    requires CanRun(s, steps)
    decreases |steps|
  {
    if steps == [] then s else Run(Next(s, steps[0]), steps[1..])
  }

  lemma {:induction false} RunKeeps(s: State, steps: seq<Step>)
    requires Inv(s) && CanRun(s, steps)
    ensures Inv(Run(s, steps))
    decreases |steps|
  {
    if steps != [] {
      StepKeeps(s, steps[0]);
      RunKeeps(Next(s, steps[0]), steps[1..]);
    }
  }

  /** Conservation over every run: the callers waiting on notifyValid are exactly as many as the
      notifications owed (so never more than two), and a ForceUpdate caller waits for its
      response exactly while the updater holds that caller's channel. */
  lemma NotificationsConserved(steps: seq<Step>)
    requires CanRun(INIT, steps)
    ensures var s := Run(INIT, steps);
      && WaitingCount(s.callers) == Owed(s) <= 2
      && forall f | 0 <= f < |s.forces| ::
           s.forces[f] == Awaiting <==> s.updater == Updating(Own(f)) || s.updater == Answering(Own(f))
  {
    RunKeeps(INIT, steps);
  }

  /** Updates never overlap: in every history starts and ends alternate, starting with a start. */
  lemma UpdatesNeverOverlap(steps: seq<Step>, i: nat)
    requires CanRun(INIT, steps) && i < |Run(INIT, steps).updates|
    ensures Run(INIT, steps).updates[i] == if i % 2 == 0 then Started else Ended
  {
    RunKeeps(INIT, steps);
  }

  // ---------------------------------------------------------------- progress and termination

  predicate Pending(s: State) {
    (exists c | 0 <= c < |s.callers| :: s.callers[c] != Returned)
    || (exists f | 0 <= f < |s.forces| :: s.forces[f] != Answered)
  }

  /** An internal step that can be taken now; the proof of deadlock freedom picks it. */
  lemma Progress(s: State) returns (step: Step)
    requires Inv(s) && Pending(s)
    ensures !Arrival(step) && Enabled(s, step)
  {
    if s.updater.Updating? {
      step := FinishUpdate;
    } else if s.updater.Answering? && s.updater.to.Own? {
      step := AnswerForce(s.updater.to.force);
    } else if s.updater.Answering? {
      var c := SomeWaiting(s.callers);
      step := AnswerCheck(c);
    } else if s.listener == Deciding {
      step := Decide(false);
    } else if s.listener == Forwarding {
      step := Forward;
    } else if s.listener == Notifying {
      var c := SomeWaiting(s.callers);
      step := Notify(c);
    } else if exists f | 0 <= f < |s.forces| :: s.forces[f] != Answered {
      var f :| 0 <= f < |s.forces| && s.forces[f] != Answered;
      step := Offer(f);
    } else {
      var c :| 0 <= c < |s.callers| && s.callers[c] != Returned;
      NoneWaiting(s.callers, c);
      step := if s.callers[c] == Asking then Ask(c) else FinishCheck(c);
    }
  }

  lemma SomeWaiting(callers: seq<Caller>) returns (c: nat)
    requires WaitingCount(callers) > 0
    ensures c < |callers| && callers[c] == Waiting
  {
    c := |callers| - 1;
    if callers[c] != Waiting {
      c := SomeWaiting(callers[..c]);
    }
  }

  lemma NoneWaiting(callers: seq<Caller>, c: nat)
    requires WaitingCount(callers) == 0 && c < |callers|
    ensures callers[c] != Waiting
  {
    if c < |callers| - 1 {
      NoneWaiting(callers[..|callers| - 1], c);
    }
  }

  function CallerWork(callers: seq<Caller>): nat {
    if callers == [] then 0
    else CallerWork(callers[..|callers| - 1]) + CallerWeight(callers[|callers| - 1])
  }

  function CallerWeight(c: Caller): nat {
    match c case Asking => 7 case Waiting => 2 case Checking => 1 case Returned => 0
  }

  function ForceWork(forces: seq<Force>): nat {
    if forces == [] then 0
    else ForceWork(forces[..|forces| - 1]) + ForceWeight(forces[|forces| - 1])
  }

  function ForceWeight(f: Force): nat {
    match f case Offering => 4 case Awaiting => 1 case Answered => 0
  }

  /** The ranking function: how many internal steps are left at most. */
  function Rank(s: State): nat {
    CallerWork(s.callers) + ForceWork(s.forces)
    + (match s.listener case Listening => 0 case Deciding => 4 case Forwarding => 3 case Notifying => 1)
    + (match s.updater case Ready => 0 case Updating(_) => 2 case Answering(_) => 1)
  }

  lemma CallerWorkUpdate(callers: seq<Caller>, c: nat, x: Caller)
    requires c < |callers|
    ensures CallerWork(callers[c := x]) == CallerWork(callers) - CallerWeight(callers[c]) + CallerWeight(x)
  {
    var last := |callers| - 1;
    if c < last {
      assert callers[c := x][..last] == callers[..last][c := x];
      CallerWorkUpdate(callers[..last], c, x);
    } else {
      assert callers[c := x][..last] == callers[..last];
    }
  }

  lemma ForceWorkUpdate(forces: seq<Force>, f: nat, x: Force)
    requires f < |forces|
    ensures ForceWork(forces[f := x]) == ForceWork(forces) - ForceWeight(forces[f]) + ForceWeight(x)
  {
    var last := |forces| - 1;
    if f < last {
      assert forces[f := x][..last] == forces[..last][f := x];
      ForceWorkUpdate(forces[..last], f, x);
    } else {
      assert forces[f := x][..last] == forces[..last];
    }
  }

  lemma RankFalls(s: State, step: Step)
    requires Inv(s) && Enabled(s, step) && !Arrival(step)
    ensures Rank(Next(s, step)) < Rank(s)
  {
    match step
    case Ask(c) => CallerWorkUpdate(s.callers, c, Waiting);
    case Notify(c) => CallerWorkUpdate(s.callers, c, Checking);
    case Offer(f) => ForceWorkUpdate(s.forces, f, Awaiting);
    case AnswerCheck(c) => CallerWorkUpdate(s.callers, c, Checking);
    case AnswerForce(f) => ForceWorkUpdate(s.forces, f, Answered);
    case FinishCheck(c) => CallerWorkUpdate(s.callers, c, Returned);
    case _ =>
  }

  /** Termination: without new arrivals no schedule takes more steps than the rank, and one
      that can take no further step has served every caller. */
  lemma {:induction false} EveryoneServed(s: State, steps: seq<Step>)
    requires Inv(s) && CanRun(s, steps)
    requires forall i | 0 <= i < |steps| :: !Arrival(steps[i])
    ensures |steps| <= Rank(s)
    ensures (forall step | !Arrival(step) :: !Enabled(Run(s, steps), step)) ==> !Pending(Run(s, steps))
    decreases |steps|
  {
    if steps == [] {
      if Pending(s) {
        var step := Progress(s);
      }
    } else {
      StepKeeps(s, steps[0]);
      RankFalls(s, steps[0]);
      EveryoneServed(Next(s, steps[0]), steps[1..]);
    }
  }

  /** Deadlock freedom from the start: as long as anyone is pending, some internal step is enabled. */
  lemma NeverDeadlocked(steps: seq<Step>)
    requires CanRun(INIT, steps) && Pending(Run(INIT, steps))
    ensures exists step :: !Arrival(step) && Enabled(Run(INIT, steps), step)
  {
    RunKeeps(INIT, steps);
    var step := Progress(Run(INIT, steps));
  }

  // ---------------------------------------------------------------- what triggers an update

  /** How often a run takes the steps that matter for updates. */
  datatype Tally = Tally(checks: nat, forces: nat, due: nat, notDue: nat, forwarded: nat, offered: nat, ended: nat,
                         notified: nat, answered: nat, forcesAnswered: nat, asked: nat)

  function TallyOf(step: Step): Tally {
    var t := Tally(0, 0, 0, 0, 0, 0, 0, 0, 0, 0, 0);
    match step
    case CallCheck => t.(checks := 1)
    case CallForce => t.(forces := 1)
    case Ask(_) => t.(asked := 1)
    case Decide(true) => t.(due := 1)
    case Decide(false) => t.(notDue := 1)
    case Forward => t.(forwarded := 1)
    case Notify(_) => t.(notified := 1)
    case Offer(_) => t.(offered := 1)
    case FinishUpdate => t.(ended := 1)
    case AnswerCheck(_) => t.(answered := 1)
    case AnswerForce(_) => t.(forcesAnswered := 1)
    case FinishCheck(_) => t
  }

  function Sum(a: Tally, b: Tally): Tally {
    Tally(a.checks + b.checks, a.forces + b.forces,
          a.due + b.due, a.notDue + b.notDue, a.forwarded + b.forwarded, a.offered + b.offered,
          a.ended + b.ended, a.notified + b.notified, a.answered + b.answered,
          a.forcesAnswered + b.forcesAnswered, a.asked + b.asked)
  }

  function Tallied(steps: seq<Step>): Tally {
    if steps == [] then Tally(0, 0, 0, 0, 0, 0, 0, 0, 0, 0, 0) else Sum(TallyOf(steps[0]), Tallied(steps[1..]))
  }

  function One(b: bool): nat {
    if b then 1 else 0
  }

  function LookedUp(callers: seq<Caller>): nat {
    if callers == [] then 0
    else LookedUp(callers[..|callers| - 1])
         + One(callers[|callers| - 1] == Checking || callers[|callers| - 1] == Returned)
  }

  lemma LookedUpUpdate(callers: seq<Caller>, c: nat, x: Caller)
    requires c < |callers|
    ensures LookedUp(callers[c := x]) + One(callers[c] == Checking || callers[c] == Returned)
         == LookedUp(callers) + One(x == Checking || x == Returned)
  {
    var last := |callers| - 1;
    if c < last {
      assert callers[c := x][..last] == callers[..last][c := x];
      LookedUpUpdate(callers[..last], c, x);
    } else {
      assert callers[c := x][..last] == callers[..last];
    }
  }

  predicate Holds(u: Updater, forced: bool) {
    !u.Ready? && u.to.Own? == forced
  }

  /** From s to t with these steps between, every account is settled up to what s and t still owe. */
  ghost predicate Settled(s: State, t: State, n: Tally) {
    && One(s.listener == Deciding) + n.asked == n.due + n.notDue + One(t.listener == Deciding)
    && One(s.listener == Forwarding) + n.due == n.forwarded + One(t.listener == Forwarding)
    && One(s.listener == Notifying) + n.notDue == n.notified + One(t.listener == Notifying)
    && One(Holds(s.updater, false)) + n.forwarded == n.answered + One(Holds(t.updater, false))
    && One(Holds(s.updater, true)) + n.offered == n.forcesAnswered + One(Holds(t.updater, true))
    && One(s.updater.Answering?) + n.ended == n.answered + n.forcesAnswered + One(t.updater.Answering?)
    && multiset(t.updates)[Started] == multiset(s.updates)[Started] + n.forwarded + n.offered
    && multiset(t.updates)[Ended] == multiset(s.updates)[Ended] + n.ended
    && LookedUp(t.callers) == LookedUp(s.callers) + n.notified + n.answered
    && |t.callers| == |s.callers| + n.checks && |t.forces| == |s.forces| + n.forces
  }

  lemma LookUps(s: State, step: Step)
    requires Enabled(s, step)
    ensures LookedUp(Next(s, step).callers) == LookedUp(s.callers) + One(step.Notify? || step.AnswerCheck?)
  {
    match step
    case CallCheck => assert (s.callers + [Asking])[..|s.callers|] == s.callers;
    case Ask(c) => LookedUpUpdate(s.callers, c, Waiting);
    case Notify(c) => LookedUpUpdate(s.callers, c, Checking);
    case AnswerCheck(c) => LookedUpUpdate(s.callers, c, Checking);
    case FinishCheck(c) => LookedUpUpdate(s.callers, c, Returned);
    case _ =>
  }

  lemma StepSettles(s: State, step: Step)
    requires Enabled(s, step)
    ensures Settled(s, Next(s, step), TallyOf(step))
  {
    LookUps(s, step);
    hide LookedUp;
  }

  lemma {:induction false} RunSettles(s: State, steps: seq<Step>)
    requires CanRun(s, steps)
    ensures Settled(s, Run(s, steps), Tallied(steps))
    decreases |steps|
  {
    if steps != [] {
      StepSettles(s, steps[0]);
      RunSettles(Next(s, steps[0]), steps[1..]);
      hide One, LookedUp, Next, Enabled, TallyOf, Holds;
    } else {
      hide One, LookedUp;
    }
  }

  /** Every account over every run, in the steps that were taken. Each check asked about is decided
      once. Updates are started for exactly the checks whose update was due and the forced ones, and
      each check that was not due is answered without. Who is answered from an update is answered
      after one that has ended. */
  lemma UpdatesAreAccounted(steps: seq<Step>)
    requires CanRun(INIT, steps)
    ensures var s, n := Run(INIT, steps), Tallied(steps);
      && |s.callers| == n.checks && |s.forces| == n.forces
      && n.asked == n.due + n.notDue + One(s.listener == Deciding)
      && n.due == n.forwarded + One(s.listener == Forwarding)
      && n.notDue == n.notified + One(s.listener == Notifying)
      && n.forwarded == n.answered + One(Holds(s.updater, false))
      && n.offered == n.forcesAnswered + One(Holds(s.updater, true))
      && multiset(s.updates)[Started] == n.forwarded + n.offered
      && multiset(s.updates)[Ended] == n.answered + n.forcesAnswered + One(s.updater.Answering?)
      && LookedUp(s.callers) == n.notified + n.answered
  {
    RunSettles(INIT, steps);
    assert LookedUp(INIT.callers) == 0 && !Holds(INIT.updater, false) && !Holds(INIT.updater, true);
    assert INIT.listener == Listening && INIT.updater == Ready && INIT.updates == [];
    assert One(false) == 0;
    hide One, LookedUp, Next, Enabled, TallyOf, Holds, Tallied, CanRun, Run;
  }

  // ---------------------------------------------------------------- whom an update serves

  /** An update both started and ended between s and t. */
  ghost predicate WholeUpdate(s: State, t: State) {
    exists k | |s.updates| <= k < |t.updates| :: UpdateAt(t, k)
  }

  predicate UpdateAt(t: State, k: nat) {
    k + 1 < |t.updates| && t.updates[k] == Started && t.updates[k + 1] == Ended
  }

  predicate NoAsk(steps: seq<Step>) {
    forall i | 0 <= i < |steps| :: !steps[i].Ask?
  }

  /** Some schedule lets caller c go on to its look-up before a whole update has passed; `others` says
      whether further checks may come in. */
  ghost predicate EarlyPossible(s: State, c: nat, others: bool) {
    exists steps :: EarlyRun(s, steps, c) && (others || NoAsk(steps))
  }

  ghost predicate EarlyRun(s: State, steps: seq<Step>, c: nat) {
    CanRun(s, steps) && !WholeUpdate(s, Run(s, steps))
    && c < |Run(s, steps).callers| && Run(s, steps).callers[c] != Waiting
  }

  /** How far the update that caller c alone waits for has come since s. */
  ghost predicate Served(s: State, u: State, c: nat) {
    || (c < |u.callers| && u.callers[c] == Waiting && |u.updates| >= |s.updates|
        && ((u.listener == Forwarding && WaitingCount(u.callers) == 1)
            || (u.listener == Listening && u.updater == Updating(NotifyValid)
                && |u.updates| > |s.updates| && u.updates[|u.updates| - 1] == Started)))
    || WholeUpdate(s, u)
  }

  lemma ServedStep(s: State, u: State, step: Step, c: nat)
    requires Inv(u) && Served(s, u, c) && Enabled(u, step) && !step.Ask?
    ensures Served(s, Next(u, step), c)
  {
    var t := Next(u, step);
    if WholeUpdate(s, u) {
      var k :| |s.updates| <= k < |u.updates| && UpdateAt(u, k);
      assert UpdateAt(t, k);
    } else if step == FinishUpdate && u.listener == Listening {
      assert UpdateAt(t, |u.updates| - 1);
    } else {
      WaitingAfter(u, step);
    }
  }

  /** Who waits after a step. */
  lemma WaitingAfter(u: State, step: Step)
    requires Enabled(u, step)
    ensures WaitingCount(Next(u, step).callers)
         == WaitingCount(u.callers) + One(step.Ask?) - One(step.Notify? || step.AnswerCheck?)
  {
    match step
    case CallCheck => assert (u.callers + [Asking])[..|u.callers|] == u.callers;
    case Ask(c) => WaitingUpdate(u.callers, c, Waiting);
    case Notify(c) => WaitingUpdate(u.callers, c, Checking);
    case AnswerCheck(c) => WaitingUpdate(u.callers, c, Checking);
    case FinishCheck(c) => WaitingUpdate(u.callers, c, Returned);
    case _ =>
  }

  lemma {:induction false} ServedRun(s: State, u: State, steps: seq<Step>, c: nat)
    requires Inv(u) && Served(s, u, c) && CanRun(u, steps) && NoAsk(steps)
    ensures Served(s, Run(u, steps), c)
    decreases |steps|
  {
    if steps != [] {
      ServedStep(s, u, steps[0], c);
      StepKeeps(u, steps[0]);
      hide Served, Inv, Enabled, Next;
      ServedRun(s, Next(u, steps[0]), steps[1..], c);
    }
  }

  /** The steps by which caller c gets ahead of the update it waits for: the notification of a
      further check, whose own update is not due, goes to c. */
  lemma Overtake(s: State, c: nat) returns (steps: seq<Step>)
    requires Inv(s) && s.listener == Forwarding && s.updater == Ready
    requires c < |s.callers| && s.callers[c] == Waiting
    ensures CanRun(s, steps) && c < |Run(s, steps).callers| && Run(s, steps).callers[c] == Checking
    ensures Run(s, steps).updates == s.updates + [Started]
  {
    var n := |s.callers|;
    var u := s.(callers := s.callers + [Asking], listener := Listening, updater := Updating(NotifyValid),
                updates := s.updates + [Started]);
    steps := [Forward, CallCheck];
    assert Next(Next(s, Forward), CallCheck) == u;
    TwoSteps(s, Forward, CallCheck);
    var v := u.(callers := u.callers[n := Waiting], listener := Notifying);
    assert Next(Next(u, Ask(n)), Decide(false)) == v;
    TwoSteps(u, Ask(n), Decide(false));
    OneStep(v, Notify(c));
    RunThen(u, [Ask(n), Decide(false)], [Notify(c)]);
    RunThen(s, steps, [Ask(n), Decide(false)] + [Notify(c)]);
    steps := steps + ([Ask(n), Decide(false)] + [Notify(c)]);
  }

  lemma OneStep(s: State, a: Step)
    requires Enabled(s, a)
    ensures CanRun(s, [a]) && Run(s, [a]) == Next(s, a)
  {
    assert [a][1..] == [];
  }

  lemma TwoSteps(s: State, a: Step, b: Step)
    requires Enabled(s, a) && Enabled(Next(s, a), b)
    ensures CanRun(s, [a, b]) && Run(s, [a, b]) == Next(Next(s, a), b)
  {
    OneStep(Next(s, a), b);
    assert [a, b][1..] == [b];
  }

  lemma {:induction false} RunThen(s: State, a: seq<Step>, b: seq<Step>)
    requires CanRun(s, a) && CanRun(Run(s, a), b)
    ensures CanRun(s, a + b) && Run(s, a + b) == Run(Run(s, a), b)
    decreases |a|
  {
    if a == [] {
      assert a + b == b;
    } else {
      assert (a + b)[1..] == a[1..] + b;
      RunThen(Next(s, a[0]), a[1..], b);
    }
  }

  /** Wherever the updater is, there is such a schedule. */
  lemma OvertakeSomehow(s: State, c: nat)
    requires Inv(s) && s.listener == Forwarding && c < |s.callers| && s.callers[c] == Waiting
    ensures EarlyPossible(s, c, true)
  {
    match s.updater
    case Ready =>
      Stay(s);
      OvertakeAfter(s, [], c);
    case Answering(Own(f)) =>
      StepKeeps(s, AnswerForce(f));
      OneStep(s, AnswerForce(f));
      OvertakeAfter(s, [AnswerForce(f)], c);
    case Updating(Own(f)) =>
      StepKeeps(s, FinishUpdate);
      StepKeeps(Next(s, FinishUpdate), AnswerForce(f));
      TwoSteps(s, FinishUpdate, AnswerForce(f));
      OvertakeAfter(s, [FinishUpdate, AnswerForce(f)], c);
    case _ =>
      EarlyWithTwo(s, c);
  }

  lemma Stay(s: State)
    ensures CanRun(s, []) && Run(s, []) == s
  {
  }

  lemma OvertakeAfter(s: State, lead: seq<Step>, c: nat)
    requires CanRun(s, lead)
    requires var u := Run(s, lead);
      Inv(u) && u.listener == Forwarding && u.updater == Ready && c < |u.callers| && u.callers[c] == Waiting
      && (u.updates == s.updates || u.updates == s.updates + [Ended])
    ensures EarlyPossible(s, c, true)
  {
    var steps := Overtake(Run(s, lead), c);
    RunThen(s, lead, steps);
    hide CanRun, Run, Inv;
    assert EarlyRun(s, lead + steps, c);
  }

  /** With two checks waiting, the answer to the one before may go to c. */
  lemma EarlyWithTwo(s: State, c: nat)
    requires c < |s.callers| && s.callers[c] == Waiting
    requires s.updater == Updating(NotifyValid) || s.updater == Answering(NotifyValid)
    ensures EarlyPossible(s, c, false) && EarlyPossible(s, c, true)
  {
    var steps := if s.updater.Answering? then [AnswerCheck(c)] else [FinishUpdate, AnswerCheck(c)];
    if s.updater.Answering? {
      OneStep(s, AnswerCheck(c));
    } else {
      TwoSteps(s, FinishUpdate, AnswerCheck(c));
    }
    assert EarlyRun(s, steps, c) && NoAsk(steps);
  }

  /** A check whose update is due is not bound to wait for it: notifications are anonymous, so it may
      get that of another check and go on to its look-up with the list of before. That can happen if
      and only if another check waits already or further checks may come in. */
  lemma LookUpCanOvertakeIff(steps: seq<Step>, c: nat, others: bool)
    requires CanRun(INIT, steps)
    requires var s := Run(INIT, steps); s.listener == Forwarding && c < |s.callers| && s.callers[c] == Waiting
    ensures var s := Run(INIT, steps);
      EarlyPossible(s, c, others) <==> others || WaitingCount(s.callers) > 1
  {
    var s := Run(INIT, steps);
    RunKeeps(INIT, steps);
    hide CanRun, Run, EarlyPossible;
    if others {
      OvertakeSomehow(s, c);
    } else if WaitingCount(s.callers) > 1 {
      EarlyWithTwo(s, c);
    } else {
      OnlyAfterUpdate(s, c);
    }
  }

  lemma OnlyAfterUpdate(s: State, c: nat)
    requires Inv(s) && s.listener == Forwarding && c < |s.callers| && s.callers[c] == Waiting
    requires WaitingCount(s.callers) <= 1
    ensures !EarlyPossible(s, c, false)
  {
    assert Served(s, s, c);
    hide Inv;
    forall more | NoAsk(more) ensures !EarlyRun(s, more, c) {
      if CanRun(s, more) {
        ServedRun(s, s, more, c);
      }
    }
  }

  /** A check on its own can go either way, and what happens to it is decided there: if its update is
      due one whole update passes before its look-up, and otherwise none. */
  lemma ServedEitherWay(s: State, c: nat, due: bool)
    requires c < |s.callers| && s.callers[c] == Asking && s.listener == Listening && s.updater == Ready
    ensures var steps := if due then [Ask(c), Decide(true), Forward, FinishUpdate, AnswerCheck(c)]
                         else [Ask(c), Decide(false), Notify(c)];
      CanRun(s, steps)
      && Run(s, steps) == s.(callers := s.callers[c := Checking],
                             updates := s.updates + if due then [Started, Ended] else [])
  {
    hide Run, CanRun;
    var u := Next(Next(s, Ask(c)), Decide(due));
    TwoSteps(s, Ask(c), Decide(due));
    if due {
      var v := Next(Next(u, Forward), FinishUpdate);
      TwoSteps(u, Forward, FinishUpdate);
      OneStep(v, AnswerCheck(c));
      RunThen(u, [Forward, FinishUpdate], [AnswerCheck(c)]);
      RunThen(s, [Ask(c), Decide(due)], [Forward, FinishUpdate] + [AnswerCheck(c)]);
      assert [Ask(c), Decide(due)] + ([Forward, FinishUpdate] + [AnswerCheck(c)])
          == [Ask(c), Decide(true), Forward, FinishUpdate, AnswerCheck(c)];
      assert s.updates + [Started] + [Ended] == s.updates + [Started, Ended];
    } else {
      OneStep(u, Notify(c));
      RunThen(s, [Ask(c), Decide(due)], [Notify(c)]);
      assert [Ask(c), Decide(due)] + [Notify(c)] == [Ask(c), Decide(false), Notify(c)];
      assert s.updates + [] == s.updates;
    }
    assert s.callers[c := Waiting][c := Checking] == s.callers[c := Checking];
  }
}
