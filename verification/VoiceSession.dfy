/** The event loop of the voice process: one variable `strm` for the current stream, results
    of any stream arriving at any time. Streams are numbered in creation order. */
module VoiceSession {
  import opened Common

  type Result(==)    // an intent result
  type Samples(==)

  datatype Mode = Normal | Blackjack | KnowledgeGraph | OtherMode(n: nat)

  datatype ErrorType = Server | Timeout | Json | InvalidConfig | Connecting | NewStream | Token | TLS | Connectivity

  datatype Code = Available | NoConnectivity | Tls | Auth | Bandwidth

  datatype ConnectionResult = ConnectionResult(code: Code, status: string, numPackets: nat, expectedPackets: nat)

  /** A stream answers on the channels it was created with. */
  datatype Kind = Intent | ConnectionCheck

  /** What the select of the loop can receive. `localeOk` is the verdict of getLanguage. */
  datatype Event =
    | Hotword(mode: Mode, localeOk: bool, isTest: bool)
    | DebugFile | AudioDone | Audio(samples: Samples) | CheckRequest | OtherMessage
    | GotIntent(from: nat, result: Result)
    | GotError(from: nat, kind: ErrorType, text: string)
    | GotOpen(from: nat, session: string)
    | GotCheckError(from: nat, kind: ErrorType, text: string)
    | GotCheckOpen
    | GotConnection(from: nat, connection: ConnectionResult)

  /** Everything the loop does to the microphone, the AI and the streams, in order. */
  datatype Output =
    | MicTestStarted | MicStopSignal
    | MicConnection(stream: nat, connection: ConnectionResult)
    | AiResult(stream: nat, result: Result)
    | AiError(stream: nat, kind: ErrorType, text: string)
    | AiOpen(stream: nat, session: string)
    | AiConfigError | AiDebugFile
    | Created(stream: nat, streamKind: Kind)
    | Fed(stream: nat, samples: Samples)
    | SendClosed(stream: nat)
    | Closed(stream: nat)

  datatype State = State(strm: Option<nat>, kinds: seq<Kind>, log: seq<Output>)

  const INIT := State(None, [], [])

  const DEFAULT_AUDIO_LEN_MS := 6000
  const DEFAULT_CHUNK_MS := 120

  /** Results arrive only from streams that exist, on the channels of their kind. */
  predicate Possible(s: State, ev: Event) {
    match ev
    case GotIntent(from, _) => from < |s.kinds| && s.kinds[from] == Intent
    case GotError(from, _, _) => from < |s.kinds| && s.kinds[from] == Intent
    case GotOpen(from, _) => from < |s.kinds| && s.kinds[from] == Intent
    case GotCheckError(from, _, _) => from < |s.kinds| && s.kinds[from] == ConnectionCheck
    case GotConnection(from, _) => from < |s.kinds| && s.kinds[from] == ConnectionCheck
    case _ => true
  }

  predicate GoodHotword(mode: Mode, localeOk: bool) {
    !mode.OtherMode? && localeOk
  }

  /** The reply to a failed connection check. */
  function FailedCheck(kind: ErrorType, text: string): ConnectionResult {
    var code := match kind
      case TLS => Tls
      case Connectivity => NoConnectivity
      case Timeout => Bandwidth
      case _ => Auth;
    ConnectionResult(code, text, 0, DEFAULT_AUDIO_LEN_MS / DEFAULT_CHUNK_MS)
  }

  function CloseCurrent(strm: Option<nat>): seq<Output> {
    if strm.Some? then [Closed(strm.value)] else []
  }

  /** The outputs of one turn of the loop, given the current stream and the next stream number. */
  function Effects(strm: Option<nat>, next: nat, ev: Event): seq<Output> {
    match ev
    case Hotword(mode, localeOk, isTest) =>
      CloseCurrent(strm) + (if isTest then [MicTestStarted] else [])
      + [if GoodHotword(mode, localeOk) then Created(next, Intent) else AiConfigError]
    case DebugFile => [AiDebugFile]
    case AudioDone => if strm.Some? then [SendClosed(strm.value)] else []
    case Audio(samples) => if strm.Some? then [Fed(strm.value, samples)] else []
    case CheckRequest => CloseCurrent(strm) + [Created(next, ConnectionCheck)]
    case OtherMessage => []
    case GotIntent(from, result) =>
      if strm == Some(from) then [MicStopSignal, AiResult(from, result), Closed(from)] else []
    case GotError(from, kind, text) =>
      if strm == Some(from) then [MicStopSignal, AiError(from, kind, text), Closed(from)] else []
    case GotOpen(from, session) =>
      if strm == Some(from) then [AiOpen(from, session)] else []
    case GotCheckError(from, kind, text) =>
      if strm == Some(from) then [MicConnection(from, FailedCheck(kind, text)), Closed(from)] else []
    case GotCheckOpen => []
    case GotConnection(from, connection) =>
      if strm == Some(from) then [MicConnection(from, connection), Closed(from)] else []
  }

  function NewKind(ev: Event): seq<Kind> {
    match ev
    case Hotword(mode, localeOk, _) => if GoodHotword(mode, localeOk) then [Intent] else []
    case CheckRequest => [ConnectionCheck]
    case _ => []
  }

  function NextStrm(strm: Option<nat>, next: nat, ev: Event): Option<nat> {
    if NewKind(ev) != [] then Some(next)
    else if (ev.GotIntent? || ev.GotError? || ev.GotCheckError? || ev.GotConnection?) && strm == Some(ev.from) then None
    else strm
  }

  function Step(s: State, ev: Event): State {
    State(NextStrm(s.strm, |s.kinds|, ev), s.kinds + NewKind(ev), s.log + Effects(s.strm, |s.kinds|, ev))
  }

  predicate CanRun(s: State, evs: seq<Event>)
    decreases |evs|
  {
    evs == [] || (Possible(s, evs[0]) && CanRun(Step(s, evs[0]), evs[1..]))
  }

  function Run(s: State, evs: seq<Event>): State
    decreases |evs|
  {
    if evs == [] then s else Run(Step(s, evs[0]), evs[1..])
  }

  // ---------------------------------------------------------------- reading the log

  /** A reply to a stream: a stream-open note or a terminal reply. */
  predicate Reply(o: Output) {
    o.AiOpen? || Terminal(o)
  }

  predicate Terminal(o: Output) {
    o.AiResult? || o.AiError? || o.MicConnection?
  }

  predicate Answered(log: seq<Output>, stream: nat) {
    exists i | 0 <= i < |log| :: Terminal(log[i]) && log[i].stream == stream
  }

  function CreatedCount(log: seq<Output>): nat {
    if log == [] then 0
    else CreatedCount(log[..|log| - 1]) + if log[|log| - 1].Created? then 1 else 0
  }

  /** Each reply goes to the stream created last before it. */
  ghost predicate RepliesToNewest(log: seq<Output>) {
    forall i | 0 <= i < |log| && Reply(log[i]) :: CreatedCount(log[..i]) == log[i].stream + 1
  }

  /** After a terminal reply nothing more is said to that stream or an older one. */
  ghost predicate TerminalIsLast(log: seq<Output>) {
    forall i, j | 0 <= i < j < |log| && Reply(log[i]) && Reply(log[j]) ::
      if Terminal(log[i]) then log[i].stream < log[j].stream else log[i].stream <= log[j].stream
  }

  /** Results and errors reach the AI right after the microphone was told to stop, and the
      stream is closed right after any terminal reply. */
  ghost predicate Bracketed(log: seq<Output>) {
    forall i | 0 <= i < |log| :: BracketedAt(log, i)
  }

  predicate BracketedAt(log: seq<Output>, i: nat)
    requires i < |log|
  {
    Terminal(log[i]) ==>
      && (log[i].MicConnection? || (i > 0 && log[i - 1] == MicStopSignal))
      && i + 1 < |log| && log[i + 1] == Closed(log[i].stream)
  }

  ghost predicate Inv(s: State) {
    && CreatedCount(s.log) == |s.kinds|
    && s.strm == (if s.kinds == [] || Answered(s.log, |s.kinds| - 1) then None else Some(|s.kinds| - 1))
    && (forall k | 0 <= k < |s.kinds| :: Closed(k) in s.log || s.strm == Some(k))
    && (forall i | 0 <= i < |s.log| && Reply(s.log[i]) :: s.log[i].stream < |s.kinds|)
    && RepliesToNewest(s.log) && TerminalIsLast(s.log) && Bracketed(s.log)
  }

  lemma CreatedCountAppend(a: seq<Output>, b: seq<Output>)
    ensures CreatedCount(a + b) == CreatedCount(a) + CreatedCount(b)
  {
    if b == [] {
      assert a + b == a;
    } else {
      assert (a + b)[..|a + b| - 1] == a + b[..|b| - 1];
      CreatedCountAppend(a, b[..|b| - 1]);
    }
  }

  /** What a turn may add: nothing said to a stream, or one reply to the newest one. */
  ghost predicate OneReplyAtMost(e: seq<Output>, n: nat) {
    && (forall i | 0 <= i < |e| && Reply(e[i]) :: e[i].stream + 1 == n && forall k | 0 <= k < |e| :: !e[k].Created?)
    && (forall i, j | 0 <= i < j < |e| :: !Reply(e[i]) || !Reply(e[j]))
  }

  lemma {:induction false} NoneCreated(e: seq<Output>)
    requires forall k | 0 <= k < |e| :: !e[k].Created?
    ensures CreatedCount(e) == 0
  {
    if e != [] {
      NoneCreated(e[..|e| - 1]);
    }
  }

  lemma AppendOrder(log: seq<Output>, e: seq<Output>, n: nat)
    requires n == CreatedCount(log) && OneReplyAtMost(e, n)
    requires RepliesToNewest(log) && TerminalIsLast(log)
    requires forall i | 0 <= i < |log| && Reply(log[i]) :: log[i].stream < n
    requires (exists i :: 0 <= i < |e| && Reply(e[i])) ==> n > 0 && !Answered(log, n - 1)
    ensures RepliesToNewest(log + e) && TerminalIsLast(log + e)
  {
    var l := log + e;
    forall i | 0 <= i < |l| && Reply(l[i]) ensures CreatedCount(l[..i]) == l[i].stream + 1 {
      if i < |log| {
        assert l[..i] == log[..i];
      } else {
        var k := i - |log|;
        assert Reply(e[k]);
        assert l[..i] == log + e[..k];
        CreatedCountAppend(log, e[..k]);
        NoneCreated(e[..k]);
      }
    }
    forall i, j | |log| <= i < j < |l| ensures !Reply(l[i]) || !Reply(l[j]) {
      assert l[i] == e[i - |log|] && l[j] == e[j - |log|];
    }
    forall i, j | 0 <= i < j < |l| && i < |log| && Reply(l[i]) && Reply(l[j])
      ensures if Terminal(l[i]) then l[i].stream < l[j].stream else l[i].stream <= l[j].stream
    {
      if j >= |log| {
        assert Reply(e[j - |log|]);
      }
    }
  }

  lemma AppendBrackets(log: seq<Output>, e: seq<Output>)
    requires Bracketed(log) && Bracketed(e)
    ensures Bracketed(log + e)
  {
    var l := log + e;
    forall i | 0 <= i < |l| ensures BracketedAt(l, i) {
      if i < |log| {
        assert BracketedAt(log, i);
      } else {
        assert BracketedAt(e, i - |log|);
      }
    }
  }

  lemma AnsweredAppend(log: seq<Output>, e: seq<Output>, stream: nat)
    ensures Answered(log + e, stream) <==> Answered(log, stream) || Answered(e, stream)
  {
    if Answered(log, stream) {
      var i :| 0 <= i < |log| && Terminal(log[i]) && log[i].stream == stream;
      assert (log + e)[i] == log[i];
    }
    if Answered(e, stream) {
      var i :| 0 <= i < |e| && Terminal(e[i]) && e[i].stream == stream;
      assert (log + e)[|log| + i] == e[i];
    }
  }

  predicate Quiet(e: seq<Output>) {
    forall i | 0 <= i < |e| :: !Reply(e[i])
  }

  lemma HotwordQuiet(strm: Option<nat>, next: nat, mode: Mode, localeOk: bool, isTest: bool)
    ensures Quiet(Effects(strm, next, Hotword(mode, localeOk, isTest)))
  {
    assert Quiet(CloseCurrent(strm));
    assert Quiet(CloseCurrent(strm) + (if isTest then [MicTestStarted] else []));
  }

  lemma OneReply(e: seq<Output>, r: nat, n: nat)
    requires r < |e| && Reply(e[r]) && e[r].stream + 1 == n
    requires forall i | 0 <= i < |e| && i != r :: !Reply(e[i]) && !e[i].Created?
    requires BracketedAt(e, r)
    ensures OneReplyAtMost(e, n) && Bracketed(e)
  {
  }

  /** A turn replies only to the current stream, once, properly bracketed. */
  lemma TurnReplies(strm: Option<nat>, next: nat, ev: Event)
    requires strm.Some? ==> strm.value + 1 == next
    ensures var e := Effects(strm, next, ev);
      && OneReplyAtMost(e, next) && Bracketed(e)
      && (forall i | 0 <= i < |e| && Reply(e[i]) :: strm == Some(e[i].stream))
  {
    var e := Effects(strm, next, ev);
    match ev
    case GotIntent(from, _) => if strm == Some(from) { OneReply(e, 1, next); }
    case GotError(from, _, _) => if strm == Some(from) { OneReply(e, 1, next); }
    case GotOpen(from, _) => if strm == Some(from) { OneReply(e, 0, next); }
    case GotCheckError(from, _, _) => if strm == Some(from) { OneReply(e, 0, next); }
    case GotConnection(from, _) => if strm == Some(from) { OneReply(e, 0, next); }
    case Hotword(mode, localeOk, isTest) => HotwordQuiet(strm, next, mode, localeOk, isTest);
    case _ => assert Quiet(e);
  }

  /** A turn that opens a stream ends with that, after closing the current one. */
  lemma OpeningTurn(strm: Option<nat>, next: nat, ev: Event) returns (before: seq<Output>)
    requires NewKind(ev) != []
    ensures Effects(strm, next, ev) == before + [Created(next, NewKind(ev)[0])]
    ensures forall k | 0 <= k < |before| :: !before[k].Created?
    ensures strm.Some? ==> before != [] && before[0] == Closed(strm.value)
  {
    before := CloseCurrent(strm) + if ev.Hotword? && ev.isTest then [MicTestStarted] else [];
  }

  lemma QuietTurn(strm: Option<nat>, next: nat, ev: Event)
    requires NewKind(ev) == []
    ensures var e := Effects(strm, next, ev); forall k | 0 <= k < |e| :: !e[k].Created?
  {
  }

  lemma TurnCreates(strm: Option<nat>, next: nat, ev: Event)
    ensures var e := Effects(strm, next, ev);
      && CreatedCount(e) == |NewKind(ev)|
      && (NewKind(ev) != [] && strm.Some? ==> Closed(strm.value) in e)
  {
    hide Effects;
    var e := Effects(strm, next, ev);
    if NewKind(ev) == [] {
      QuietTurn(strm, next, ev);
      NoneCreated(e);
    } else {
      var before := OpeningTurn(strm, next, ev);
      NoneCreated(before);
      CreatedCountAppend(before, [Created(next, NewKind(ev)[0])]);
      if strm.Some? {
        assert e[0] == Closed(strm.value);
      }
    }
  }

  /** The current stream is dropped exactly in the turn that answers it, and is closed then. */
  lemma TurnAnswers(strm: Option<nat>, next: nat, ev: Event)
    requires strm.Some? && NewKind(ev) == []
    ensures var e := Effects(strm, next, ev);
      && (Answered(e, strm.value) <==> NextStrm(strm, next, ev) == None)
      && (Answered(e, strm.value) ==> Closed(strm.value) in e)
  {
    var e := Effects(strm, next, ev);
    if NextStrm(strm, next, ev) == None {
      assert Terminal(e[|e| - 2]) && e[|e| - 1] == Closed(strm.value);
    } else {
      assert forall i | 0 <= i < |e| :: !Terminal(e[i]);
    }
  }

  /** Inv, one conjunct at a time. First the log alone. */
  lemma StepKeepsLog(s: State, ev: Event)
    requires Inv(s)
    ensures var s' := Step(s, ev);
      RepliesToNewest(s'.log) && TerminalIsLast(s'.log) && Bracketed(s'.log)
      && CreatedCount(s'.log) == |s'.kinds|
      && forall i | 0 <= i < |s'.log| && Reply(s'.log[i]) :: s'.log[i].stream < |s'.kinds|
  {
    hide Effects, NextStrm, NewKind, CreatedCount, Bracketed, RepliesToNewest, TerminalIsLast;
    var e := Effects(s.strm, |s.kinds|, ev);
    TurnReplies(s.strm, |s.kinds|, ev);
    TurnCreates(s.strm, |s.kinds|, ev);
    CreatedCountAppend(s.log, e);
    AppendOrder(s.log, e, |s.kinds|);
    AppendBrackets(s.log, e);
  }

  /** Then the variable: it names the newest stream until that has its terminal reply. */
  lemma StepKeepsStrm(s: State, ev: Event)
    requires Inv(s)
    ensures var s' := Step(s, ev);
      s'.strm == (if s'.kinds == [] || Answered(s'.log, |s'.kinds| - 1) then None else Some(|s'.kinds| - 1))
  {
    hide CreatedCount, Bracketed, RepliesToNewest, TerminalIsLast, OneReplyAtMost, Effects;
    var n, e := |s.kinds|, Effects(s.strm, |s.kinds|, ev);
    TurnReplies(s.strm, n, ev);
    if NewKind(ev) != [] {
      AnsweredAppend(s.log, e, n);
      assert !Answered(s.log, n);
    } else if n > 0 {
      AnsweredAppend(s.log, e, n - 1);
      if s.strm.Some? {
        TurnAnswers(s.strm, n, ev);
      }
    }
  }

  lemma StepKeeps(s: State, ev: Event)
    requires Inv(s)
    ensures Inv(Step(s, ev))
  {
    hide Effects, CreatedCount, Bracketed, RepliesToNewest, TerminalIsLast;
    var s', e := Step(s, ev), Effects(s.strm, |s.kinds|, ev);
    StepKeepsLog(s, ev);
    StepKeepsStrm(s, ev);
    forall k | 0 <= k < |s'.kinds| ensures Closed(k) in s'.log || s'.strm == Some(k) {
      TurnCreates(s.strm, |s.kinds|, ev);
      if NewKind(ev) == [] && s.strm.Some? {
        TurnAnswers(s.strm, |s.kinds|, ev);
      }
    }
  }

  lemma {:induction false} RunKeeps(s: State, evs: seq<Event>)
    requires Inv(s) && CanRun(s, evs)
    ensures Inv(Run(s, evs))
    decreases |evs|
  {
    if evs != [] {
      StepKeeps(s, evs[0]);
      RunKeeps(Step(s, evs[0]), evs[1..]);
    }
  }

  lemma InitInv()
    ensures Inv(INIT)
  {
  }

  // ---------------------------------------------------------------- what holds over whole runs

  /** Safety of every run: replies go to the newest stream only, at most one terminal reply per
      stream and nothing said to it afterwards, every stream other than the current one has been
      closed, and each answer stops the microphone first and closes its stream next. */
  lemma SessionSafety(evs: seq<Event>)
    requires CanRun(INIT, evs)
    ensures var s := Run(INIT, evs);
      && RepliesToNewest(s.log) && TerminalIsLast(s.log) && Bracketed(s.log)
      && (forall i, j | 0 <= i < j < |s.log| && Terminal(s.log[i]) && Terminal(s.log[j]) ::
            s.log[i].stream != s.log[j].stream)
      && (forall k | 0 <= k < |s.kinds| && Closed(k) !in s.log :: s.strm == Some(k) && k == |s.kinds| - 1)
  {
    hide Run, CanRun, CreatedCount, Bracketed, RepliesToNewest;
    InitInv();
    RunKeeps(INIT, evs);
  }

  predicate FromStream(ev: Event) {
    ev.GotIntent? || ev.GotError? || ev.GotOpen? || ev.GotCheckError? || ev.GotConnection?
  }

  /** The stale check decides as the history would: an event is acted on exactly when its
      stream is the newest one ever created and has had no terminal reply. */
  lemma ActedOnIffNewestUnanswered(evs: seq<Event>, ev: Event)
    requires CanRun(INIT, evs) && FromStream(ev) && Possible(Run(INIT, evs), ev)
    ensures var s := Run(INIT, evs);
      Step(s, ev).log != s.log <==> ev.from == |s.kinds| - 1 && !Answered(s.log, ev.from)
  {
    hide Effects, Step, Run, CanRun, Answered, CreatedCount, Bracketed, RepliesToNewest, TerminalIsLast;
    InitInv();
    RunKeeps(INIT, evs);
    ActedOnIffCurrent(Run(INIT, evs), ev);
  }

  lemma ActedOnIffCurrent(s: State, ev: Event)
    requires FromStream(ev)
    ensures Step(s, ev).log != s.log <==> s.strm == Some(ev.from)
  {
    var e := Effects(s.strm, |s.kinds|, ev);
    if s.strm == Some(ev.from) {
      assert |Step(s, ev).log| == |s.log| + |e| > |s.log|;
    } else {
      assert e == [];
    }
  }

  lemma RunMore(s: State, ev: Event, more: seq<Event>)
    requires Possible(s, ev) && CanRun(Step(s, ev), more)
    ensures CanRun(s, [ev] + more) && Run(s, [ev] + more) == Run(Step(s, ev), more)
  {
    assert ([ev] + more)[1..] == more;
  }

  lemma HotwordSteps(s: State, localeOk: bool)
    ensures Step(s, Hotword(Normal, localeOk, false)) ==
              if localeOk then
                State(Some(|s.kinds|), s.kinds + [Intent], s.log + CloseCurrent(s.strm) + [Created(|s.kinds|, Intent)])
              else s.(log := s.log + CloseCurrent(s.strm) + [AiConfigError])
  {
  }

  /** A bad hotword leaves `strm` on a stream it has closed, and that stream is still answered:
      safety cannot rest on the current stream being open. */
  lemma ClosedStreamStillAnswered(result: Result)
    ensures var evs := [Hotword(Normal, true, false), Hotword(Normal, false, false), GotIntent(0, result)];
      CanRun(INIT, evs)
      && Closed(0) in Run(INIT, evs[..2]).log && Run(INIT, evs[..2]).strm == Some(0)
      && AiResult(0, result) in Run(INIT, evs).log
  {
    var good, bad, got := Hotword(Normal, true, false), Hotword(Normal, false, false), GotIntent(0, result);
    var s1 := Step(INIT, good);
    var s2 := Step(s1, bad);
    var s3 := Step(s2, got);
    HotwordSteps(INIT, true);
    HotwordSteps(s1, false);
    assert s2.strm == Some(0) && s2.kinds == [Intent] && s2.log[1] == Closed(0);
    assert s3.log[|s2.log| + 1] == AiResult(0, result);
    assert Run(s2, []) == s2 && Run(s3, []) == s3 && CanRun(s2, []) && CanRun(s3, []);
    hide Step, Effects, Run, CanRun;
    RunMore(s1, bad, []);
    RunMore(INIT, good, [bad] + []);
    RunMore(s2, got, []);
    RunMore(s1, bad, [got] + []);
    RunMore(INIT, good, [bad] + ([got] + []));
    assert [good, bad, got] == [good] + ([bad] + ([got] + []));
    assert [good, bad, got][..2] == [good] + ([bad] + []);
  }

  // ---------------------------------------------------------------- the loop itself

  class Process {
    var strm: Option<nat>
    var kinds: seq<Kind>
    var log: seq<Output>

    ghost function Value(): State
      reads this
    {
      State(strm, kinds, log)
    }

    constructor ()
      ensures Value() == INIT
    {
      strm, kinds, log := None, [], [];
    }

    method Emit(o: Output)
      modifies this`log
      ensures log == old(log) + [o]
    {
      log := log + [o];
    }

    method CloseIfStreaming()
      modifies this`log
      ensures log == old(log) + CloseCurrent(strm)
    {
      if strm.Some? {
        Emit(Closed(strm.value));
      }
    }

    method OpenStream(kind: Kind)
      modifies this
      ensures strm == Some(|old(kinds)|) && kinds == old(kinds) + [kind]
      ensures log == old(log) + [Created(|old(kinds)|, kind)]
    {
      strm := Some(|kinds|);
      Emit(Created(|kinds|, kind));
      kinds := kinds + [kind];
    }

    method OnHotword(mode: Mode, localeOk: bool, isTest: bool)
      modifies this
      ensures Value() == Step(old(Value()), Hotword(mode, localeOk, isTest))
    {
      CloseIfStreaming();
      if isTest {
        Emit(MicTestStarted);
      }
      if mode.OtherMode? {
        Emit(AiConfigError);
      } else if !localeOk {
        Emit(AiConfigError);
      } else {
        OpenStream(Intent);
      }
      assert log == old(log) + Effects(old(strm), |old(kinds)|, Hotword(mode, localeOk, isTest));
    }

    method OnMessage(ev: Event)
      requires ev.DebugFile? || ev.AudioDone? || ev.Audio? || ev.CheckRequest? || ev.OtherMessage?
      modifies this
      ensures Value() == Step(old(Value()), ev)
    {
      match ev
      case DebugFile => Emit(AiDebugFile);
      case AudioDone => if strm.Some? { Emit(SendClosed(strm.value)); }
      case Audio(samples) => if strm.Some? { Emit(Fed(strm.value, samples)); }
      case CheckRequest =>
        CloseIfStreaming();
        OpenStream(ConnectionCheck);
      case OtherMessage =>
    }

    /** A stale answer changes nothing; a current one is passed on and ends the stream. */
    method Answer(from: nat, stopMic: bool, reply: Output)
      modifies this`log, this`strm
      ensures if old(strm) != Some(from) then strm == old(strm) && log == old(log)
              else strm == None && log == old(log) + (if stopMic then [MicStopSignal] else []) + [reply, Closed(from)]
    {
      if strm != Some(from) {
        return;
      }
      if stopMic {
        Emit(MicStopSignal);
      }
      Emit(reply);
      Emit(Closed(from));
      strm := None;
    }

    method OnStreamEvent(ev: Event)
      requires FromStream(ev) || ev.GotCheckOpen?
      modifies this
      ensures Value() == Step(old(Value()), ev)
    {
      match ev
      case GotIntent(from, result) => Answer(from, true, AiResult(from, result));
      case GotError(from, kind, text) => Answer(from, true, AiError(from, kind, text));
      case GotOpen(from, session) => if strm == Some(from) { Emit(AiOpen(from, session)); }
      case GotCheckError(from, kind, text) => Answer(from, false, MicConnection(from, FailedCheck(kind, text)));
      case GotCheckOpen =>
      case GotConnection(from, connection) => Answer(from, false, MicConnection(from, connection));
    }

    /** The loop, until the context is done after the given events. */
    method Loop(evs: seq<Event>)
      modifies this
      ensures Value() == Run(old(Value()), evs)
    {
      for i := 0 to |evs|
        invariant Run(Value(), evs[i..]) == Run(old(Value()), evs)
      {
        assert evs[i..][0] == evs[i] && evs[i..][1..] == evs[i + 1..];
        if evs[i].Hotword? {
          OnHotword(evs[i].mode, evs[i].localeOk, evs[i].isTest);
        } else if FromStream(evs[i]) || evs[i].GotCheckOpen? {
          OnStreamEvent(evs[i]);
        } else {
          OnMessage(evs[i]);
        }
      }
    }
  }
}
