/** A connection's reader goroutine, its consumers and its Close callers, in every interleaving.
    The read channel is unbuffered: a delivery is one step of the reader and a consumer. */
module BaseConn {

  type Message(==)

  /** In conn.Read, in the select with a message to hand on, or gone (wg.Done). */
  datatype Reader = Reading | Offering(msg: Message) | Exited

  /** Where a Close call is: before the kill, before conn.Close, waiting for the reader, about to
      close the read channel, returned. */
  datatype Closer = Called | Killed | Waiting | Closing | Returned

  /** `received` is every non-empty message read from the socket, `delivered` every message a
      consumer got; `sawNil` is set once some consumer was answered nil. */
  datatype State = State(reader: Reader, killed: bool, connClosed: bool, readClosed: bool,
                         closers: seq<Closer>, received: seq<Message>, delivered: seq<Message>,
                         sawNil: bool, panicked: bool)

  function Init(closers: nat): State {
    State(Reading, false, false, false, seq(closers, _ => Called), [], [], false, false)
  }

  datatype Step =
    | Arrive(msg: Message)    // conn.Read returns a non-empty message
    | ReadFails               // the peer or a timeout fails conn.Read: kill, and the reader leaves
    | ReadClosed              // conn.Read fails because conn.Close was called
    | Deliver                 // the reader's send meets a consumer's receive
    | Drop                    // the reader's select takes the kill instead
    | SendOnClosed            // the reader's send on a closed channel
    | NilRead                 // a consumer takes the kill, or receives from the closed channel
    | Kill(c: nat)
    | CloseConn(c: nat)
    | WaitEnds(c: nat)
    | CloseRead(c: nat)

  predicate At(s: State, c: nat, where: Closer) {
    c < |s.closers| && s.closers[c] == where
  }

  predicate Enabled(s: State, step: Step) {
    !s.panicked &&
    match step
    case Arrive(_) => s.reader == Reading && !s.connClosed
    case ReadFails => s.reader == Reading
    case ReadClosed => s.reader == Reading && s.connClosed
    case Deliver => s.reader.Offering? && !s.readClosed
    case Drop => s.reader.Offering? && s.killed
    case SendOnClosed => s.reader.Offering? && s.readClosed
    case NilRead => s.killed || s.readClosed
    case Kill(c) => At(s, c, Called)
    case CloseConn(c) => At(s, c, Killed)
    case WaitEnds(c) => At(s, c, Waiting) && s.reader == Exited
    case CloseRead(c) => At(s, c, Closing)
  }

  function Next(s: State, step: Step): State
    requires Enabled(s, step)
  {
    match step
    case Arrive(m) => s.(reader := Offering(m), received := s.received + [m])
    case ReadFails => s.(reader := Exited, killed := true)
    case ReadClosed => s.(reader := Exited, killed := true)
    case Deliver => s.(reader := Reading, delivered := s.delivered + [s.reader.msg])
    case Drop => s.(reader := Reading)
    case SendOnClosed => s.(panicked := true)
    case NilRead => s.(sawNil := true)
    case Kill(c) => s.(killed := true, closers := s.closers[c := Killed])
    case CloseConn(c) => s.(connClosed := true, closers := s.closers[c := Waiting])
    case WaitEnds(c) => s.(closers := s.closers[c := Closing])
    case CloseRead(c) =>
      if s.readClosed then s.(panicked := true)
      else s.(readClosed := true, closers := s.closers[c := Returned])
  }

  // ---------------------------------------------------------------- the invariant

  /** a can be had from b by leaving out messages. */
  ghost predicate Subsequence<T>(a: seq<T>, b: seq<T>)
    decreases |b|
  {
    a == [] ||
    (b != [] && (Subsequence(a, b[..|b| - 1])
                 || (a[|a| - 1] == b[|b| - 1] && Subsequence(a[..|a| - 1], b[..|b| - 1]))))
  }

  lemma SubsequenceGrows<T>(a: seq<T>, b: seq<T>, x: T)
    requires Subsequence(a, b)
    ensures Subsequence(a, b + [x]) && Subsequence(a + [x], b + [x])
  {
    assert (b + [x])[..|b|] == b && (a + [x])[..|a|] == a;
  }

  /** The messages read before the one on offer. */
  function HandedOn(s: State): seq<Message>
    requires s.reader.Offering? ==> s.received != []
  {
    if s.reader.Offering? then s.received[..|s.received| - 1] else s.received
  }

  /** The messages: in order, and without a gap until the kill. */
  ghost predicate MessagesSound(s: State) {
    && (s.reader.Offering? ==> s.received != [] && s.received[|s.received| - 1] == s.reader.msg)
    && Subsequence(s.delivered, HandedOn(s))
    && (!s.killed ==> s.delivered == HandedOn(s))
  }

  /** What the progress of each Close call implies. */
  ghost predicate ClosersSound(s: State) {
    && (s.sawNil ==> s.killed)
    && (s.reader == Exited ==> s.killed)
    && (forall c | 0 <= c < |s.closers| ::
          && (s.closers[c] != Called ==> s.killed)
          && (s.closers[c] == Waiting || s.closers[c] == Closing || s.closers[c] == Returned ==> s.connClosed)
          && (s.closers[c] == Closing || s.closers[c] == Returned ==> s.reader == Exited))
    && (s.readClosed <==> exists c :: 0 <= c < |s.closers| && s.closers[c] == Returned)
  }

  ghost predicate Inv(s: State) {
    MessagesSound(s) && ClosersSound(s)
  }

  lemma QuietStep(s: State, step: Step)
    requires Enabled(s, step) && !step.Arrive? && !step.Deliver? && !step.Drop?
    ensures var s' := Next(s, step);
      && s'.received == s.received && s'.delivered == s.delivered && (s.killed ==> s'.killed)
      && if s.reader.Offering? then s'.reader == s.reader else !s'.reader.Offering?
  {
  }

  lemma StepKeepsMessages(s: State, step: Step)
    requires MessagesSound(s) && Enabled(s, step)
    ensures MessagesSound(Next(s, step))
  {
    hide Subsequence;
    var s' := Next(s, step);
    if step.Arrive? {
      assert HandedOn(s') == s.received == HandedOn(s);
    } else if step.Deliver? || step.Drop? {
      assert s.received == HandedOn(s) + [s.reader.msg];
      SubsequenceGrows(s.delivered, HandedOn(s), s.reader.msg);
    } else {
      hide Next, Enabled;
      QuietStep(s, step);
      assert HandedOn(s') == HandedOn(s);
    }
  }

  lemma StepKeepsClosers(s: State, step: Step)
    requires ClosersSound(s) && Enabled(s, step)
    requires step.CloseRead? ==> !s.readClosed
    ensures ClosersSound(Next(s, step)) && !Next(s, step).panicked
  {
    var s' := Next(s, step);
    if step.CloseRead? {
      assert s'.closers[step.c] == Returned;
    } else if s.readClosed {
      var c :| 0 <= c < |s.closers| && s.closers[c] == Returned;
      assert s'.closers[c] == Returned;
    }
  }

  lemma StepKeeps(s: State, step: Step)
    requires Inv(s) && Enabled(s, step)
    requires step.CloseRead? ==> !s.readClosed
    ensures Inv(Next(s, step)) && !Next(s, step).panicked
  {
    hide MessagesSound, ClosersSound, Next, Enabled;
    StepKeepsMessages(s, step);
    StepKeepsClosers(s, step);
  }

  predicate CanRun(s: State, steps: seq<Step>)
    decreases |steps|
  {
    steps == [] || (Enabled(s, steps[0]) && CanRun(Next(s, steps[0]), steps[1..]))
  }

  function Run(s: State, steps: seq<Step>): State
    requires CanRun(s, steps)
    decreases |steps|
  {
    if steps == [] then s else Run(Next(s, steps[0]), steps[1..])
  }

  lemma OneCloser(s: State, step: Step)
    requires ClosersSound(s) && Enabled(s, step) && |s.closers| <= 1
    ensures step.CloseRead? ==> !s.readClosed
    ensures |Next(s, step).closers| == |s.closers|
  {
  }

  /** With at most one Close call the channel is never closed twice. */
  lemma {:induction false} OneCloserRun(s: State, steps: seq<Step>)
    requires Inv(s) && !s.panicked && |s.closers| <= 1 && CanRun(s, steps)
    ensures Inv(Run(s, steps)) && !Run(s, steps).panicked
    decreases |steps|
  {
    if steps != [] {
      hide MessagesSound, ClosersSound, Next, Enabled;
      OneCloser(s, steps[0]);
      StepKeeps(s, steps[0]);
      OneCloserRun(Next(s, steps[0]), steps[1..]);
    }
  }

  lemma InitInv(closers: nat)
    ensures Inv(Init(closers))
  {
    assert HandedOn(Init(closers)) == [];
  }

  /** Safety of every interleaving with at most one Close: no send on, and no second close of,
      the read channel; a nil answer only after the kill; messages in order, and before the kill
      without a gap. */
  lemma ConnectionSafety(closers: nat, steps: seq<Step>)
    requires closers <= 1 && CanRun(Init(closers), steps)
    ensures var s := Run(Init(closers), steps);
      && !s.panicked
      && (s.readClosed ==> !s.reader.Offering?)
      && (s.sawNil ==> s.killed)
      && Subsequence(s.delivered, s.received)
      && (!s.killed ==> s.delivered <= s.received && |s.received| <= |s.delivered| + 1)
  {
    InitInv(closers);
    OneCloserRun(Init(closers), steps);
    var s := Run(Init(closers), steps);
    if s.reader.Offering? {
      assert s.received == HandedOn(s) + [s.reader.msg];
      SubsequenceGrows(s.delivered, HandedOn(s), s.reader.msg);
    }
  }

  /** The bound on Close calls is exact: some interleaving panics iff there are two of them. */
  lemma PanicIffTwoCloses(closers: nat)
    ensures (exists steps :: CanRun(Init(closers), steps) && Run(Init(closers), steps).panicked) <==> closers >= 2
  {
    if closers >= 2 {
      var steps := DoubleClose(closers);
    } else {
      forall steps | CanRun(Init(closers), steps) ensures !Run(Init(closers), steps).panicked {
        ConnectionSafety(closers, steps);
      }
    }
  }

  lemma RunThen(s: State, a: seq<Step>, b: seq<Step>)
    requires CanRun(s, a) && CanRun(Run(s, a), b)
    ensures CanRun(s, a + b) && Run(s, a + b) == Run(Run(s, a), b)
    decreases |a|
  {
    if a == [] {
      assert a + b == b;
    } else {
      assert (a + b)[1..] == a[1..] + b;
      RunThen(Next(s, a[0]), a[1..], b);
    }
  }

  lemma OneStep(s: State, step: Step)
    requires Enabled(s, step)
    ensures CanRun(s, [step]) && Run(s, [step]) == Next(s, step)
  {
    assert [step][1..] == [];
    assert Run(Next(s, step), []) == Next(s, step);
  }

  /** A Close call on a connection whose reader has gone, up to its last statement. */
  lemma UpToClosing(s: State, c: nat) returns (steps: seq<Step>)
    requires At(s, c, Called) && s.reader == Exited && !s.panicked
    ensures CanRun(s, steps)
    ensures Run(s, steps) == s.(killed := true, connClosed := true, closers := s.closers[c := Closing])
  {
    hide Run, CanRun;
    var s1 := Next(s, Kill(c));
    var s2 := Next(s1, CloseConn(c));
    OneStep(s, Kill(c));
    OneStep(s1, CloseConn(c));
    OneStep(s2, WaitEnds(c));
    RunThen(s, [Kill(c)], [CloseConn(c)]);
    RunThen(s, [Kill(c)] + [CloseConn(c)], [WaitEnds(c)]);
    steps := [Kill(c)] + [CloseConn(c)] + [WaitEnds(c)];
    assert Next(s2, WaitEnds(c)).closers == s.closers[c := Closing];
  }

  /** Two Close calls, one after the other, and the second close panics. */
  lemma DoubleClose(closers: nat) returns (steps: seq<Step>)
    requires closers >= 2
    ensures CanRun(Init(closers), steps) && Run(Init(closers), steps).panicked
  {
    hide Run, CanRun;
    var s := Init(closers);
    OneStep(s, ReadFails);
    steps := [ReadFails];
    for c := 0 to 2
      invariant CanRun(s, steps)
      invariant var r := Run(s, steps);
        if c == 2 then r.panicked
        else At(r, c, Called) && At(r, 1, Called) && r.reader == Exited && !r.panicked && r.readClosed == (c == 1)
    {
      var before := Run(s, steps);
      var more := UpToClosing(before, c);
      var closing := Run(before, more);
      OneStep(closing, CloseRead(c));
      RunThen(s, steps, more);
      RunThen(s, steps + more, [CloseRead(c)]);
      steps := steps + more + [CloseRead(c)];
    }
  }

  // ---------------------------------------------------------------- Close returns

  /** The steps that need neither the peer nor a consumer. */
  predicate OnItsOwn(step: Step) {
    !step.Arrive? && !step.ReadFails? && !step.Deliver? && !step.NilRead?
  }

  function CloserWork(c: Closer): nat {
    match c case Called => 4 case Killed => 3 case Waiting => 2 case Closing => 1 case Returned => 0
  }

  function Work(s: State): nat
    requires |s.closers| == 1
  {
    CloserWork(s.closers[0]) + match s.reader case Offering(_) => 2 case Reading => 1 case Exited => 0
  }

  /** While Close has not returned, a step that needs nobody else is enabled: it is conn.Close that
      gets the reader out of its read. */
  lemma CloseProgress(s: State) returns (step: Step)
    requires Inv(s) && !s.panicked && |s.closers| == 1 && s.closers[0] != Returned
    ensures OnItsOwn(step) && Enabled(s, step)
  {
    if s.closers[0] == Called {
      step := Kill(0);
    } else if s.closers[0] == Killed {
      step := CloseConn(0);
    } else if s.closers[0] == Closing {
      step := CloseRead(0);
    } else if s.reader == Exited {
      step := WaitEnds(0);
    } else {
      step := if s.reader == Reading then ReadClosed else Drop;
    }
  }

  /** Close always returns: no schedule of such steps is longer than the work left, and one that
      can take no further step has let Close return. */
  lemma {:induction false} CloseReturns(s: State, steps: seq<Step>)
    requires Inv(s) && !s.panicked && |s.closers| == 1 && CanRun(s, steps)
    requires forall i | 0 <= i < |steps| :: OnItsOwn(steps[i])
    ensures |steps| <= Work(s)
    ensures (forall step | OnItsOwn(step) :: !Enabled(Run(s, steps), step)) ==> Run(s, steps).closers == [Returned]
    decreases |steps|
  {
    hide MessagesSound;
    if steps == [] {
      if s.closers[0] != Returned {
        var step := CloseProgress(s);
      }
    } else {
      StepKeeps(s, steps[0]);
      CloseReturns(Next(s, steps[0]), steps[1..]);
    }
  }

  // ---------------------------------------------------------------- messages get through

  /** In every interleaving before a kill, the message on offer can be delivered, and with it everything
      that was read has been. */
  lemma OfferedCanBeDelivered(closers: nat, steps: seq<Step>)
    requires CanRun(Init(closers), steps)
    requires var s := Run(Init(closers), steps); s.reader.Offering? && !s.killed
    ensures var s := Run(Init(closers), steps);
      Enabled(s, Deliver) && Next(s, Deliver).delivered == s.received && Next(s, Deliver).reader == Reading
  {
    hide Next, Enabled, MessagesSound, ClosersSound;
    InitInv(closers);
    NotKilledRun(Init(closers), steps);
    LastIsOffered(Run(Init(closers), steps));
  }

  lemma LastIsOffered(s: State)
    requires Inv(s) && !s.panicked && s.reader.Offering? && !s.killed
    ensures Enabled(s, Deliver) && Next(s, Deliver).delivered == s.received && Next(s, Deliver).reader == Reading
  {
    assert s.received == HandedOn(s) + [s.reader.msg];
  }

  /** A state before any kill was reached without a panic. */
  lemma {:induction false} NotKilledRun(s: State, steps: seq<Step>)
    requires Inv(s) && !s.panicked && CanRun(s, steps) && !Run(s, steps).killed
    ensures Inv(Run(s, steps)) && !Run(s, steps).panicked
    decreases |steps|
  {
    if steps != [] {
      hide MessagesSound, ClosersSound, Next, Enabled;
      StaysKilled(Next(s, steps[0]), steps[1..]);
      KilledByStep(s, steps[0]);
      StepKeeps(s, steps[0]);
      NotKilledRun(Next(s, steps[0]), steps[1..]);
    }
  }

  lemma {:induction false} StaysKilled(s: State, steps: seq<Step>)
    requires CanRun(s, steps)
    ensures s.killed ==> Run(s, steps).killed
    decreases |steps|
  {
    if steps != [] {
      StaysKilled(Next(s, steps[0]), steps[1..]);
    }
  }

  lemma KilledByStep(s: State, step: Step)
    requires ClosersSound(s) && Enabled(s, step) && !Next(s, step).killed
    ensures !step.CloseRead?
  {
  }

  /** Whatever messages the peer sends, some run reads and delivers them all, in order. */
  lemma {:induction false} AllCanBeDelivered(closers: nat, msgs: seq<Message>) returns (steps: seq<Step>)
    ensures CanRun(Init(closers), steps)
    ensures Run(Init(closers), steps) == Init(closers).(received := msgs, delivered := msgs)
  {
    var s := Init(closers);
    if msgs == [] {
      steps := [];
    } else {
      var n := |msgs| - 1;
      steps := AllCanBeDelivered(closers, msgs[..n]);
      var before := Run(s, steps);
      var offered := Next(before, Arrive(msgs[n]));
      OneStep(before, Arrive(msgs[n]));
      OneStep(offered, Deliver);
      hide Run, CanRun;
      RunThen(s, steps, [Arrive(msgs[n])]);
      RunThen(s, steps + [Arrive(msgs[n])], [Deliver]);
      steps := steps + [Arrive(msgs[n])] + [Deliver];
      assert msgs[..n] + [msgs[n]] == msgs;
    }
  }

  // ---------------------------------------------------------------- told from the history

  /** A step after which the kill channel is closed. */
  predicate Kills(step: Step) {
    step.ReadFails? || step.ReadClosed? || step.Kill?
  }

  predicate WasKilled(steps: seq<Step>) {
    exists i | 0 <= i < |steps| :: Kills(steps[i])
  }

  predicate SocketClosed(steps: seq<Step>) {
    exists i | 0 <= i < |steps| :: steps[i].CloseConn?
  }

  lemma {:induction false} FlagsAreHistory(s: State, steps: seq<Step>)
    requires CanRun(s, steps)
    ensures Run(s, steps).killed <==> s.killed || WasKilled(steps)
    ensures Run(s, steps).connClosed <==> s.connClosed || SocketClosed(steps)
    decreases |steps|
  {
    if steps != [] {
      FlagsAreHistory(Next(s, steps[0]), steps[1..]);
      assert forall i | 0 < i < |steps| :: steps[i] == steps[1..][i - 1];
      assert WasKilled(steps) <==> Kills(steps[0]) || WasKilled(steps[1..]);
      assert SocketClosed(steps) <==> steps[0].CloseConn? || SocketClosed(steps[1..]);
    }
  }

  /** What can happen next, told from the history of any interleaving with at most one Close: a reader
      in its read gets messages until the socket is closed; with a message in hand it can always pass
      it on, and can drop it once the connection is killed, to go on reading if the socket is still
      open; a consumer can be answered nil from the kill on, and never before. */
  lemma NextFromHistory(closers: nat, steps: seq<Step>, m: Message)
    requires closers <= 1 && CanRun(Init(closers), steps)
    ensures var s := Run(Init(closers), steps);
      && (Enabled(s, Arrive(m)) <==> s.reader == Reading && !SocketClosed(steps))
      && (Enabled(s, Deliver) <==> s.reader.Offering?)
      && (Enabled(s, Drop) <==> s.reader.Offering? && WasKilled(steps))
      && (Enabled(s, Drop) && !SocketClosed(steps) ==> Enabled(Next(s, Drop), Arrive(m)))
      && (Enabled(s, NilRead) <==> WasKilled(steps))
  {
    InitInv(closers);
    OneCloserRun(Init(closers), steps);
    FlagsAreHistory(Init(closers), steps);
    hide Run, CanRun, MessagesSound, WasKilled, SocketClosed;
  }
}
