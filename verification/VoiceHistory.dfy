/** What the voice process has done after any run, told from the events it received alone: which
    streams were opened, which of them was the current one at each moment, and what each event did. */
module VoiceHistory {
  import opened Common
  import opened VoiceSession

  // ---------------------------------------------------------------- reading the events

  predicate OpensIntent(ev: Event) {
    ev.Hotword? && ev.localeOk && (ev.mode == Normal || ev.mode == Blackjack || ev.mode == KnowledgeGraph)
  }

  /** The streams opened so far, in order. */
  function Openings(evs: seq<Event>): seq<Kind> {
    if evs == [] then []
    else
      var before, ev := Openings(evs[..|evs| - 1]), evs[|evs| - 1];
      if OpensIntent(ev) then before + [Intent]
      else if ev == CheckRequest then before + [ConnectionCheck]
      else before
  }

  /** An event after which its stream has nothing more to say. */
  predicate Final(ev: Event) {
    ev.GotIntent? || ev.GotError? || ev.GotCheckError? || ev.GotConnection?
  }

  /** The newest stream, as long as it has not had its final event. */
  function Current(evs: seq<Event>): Option<nat> {
    var n := |Openings(evs)|;
    if n > 0 && forall i | 0 <= i < |evs| && Final(evs[i]) :: evs[i].from != n - 1 then Some(n - 1) else None
  }

  /** What a story tells of a run: for each event what it makes of it, given the current stream and
      the number of the next one. */
  function Told(evs: seq<Event>, tell: (Option<nat>, nat, Event) -> seq<Output>): seq<Output> {
    if evs == [] then []
    else
      var before := evs[..|evs| - 1];
      Told(before, tell) + tell(Current(before), |Openings(before)|, evs[|evs| - 1])
  }

  function Select(log: seq<Output>, wanted: Output -> bool): seq<Output> {
    if log == [] then []
    else Select(log[..|log| - 1], wanted) + if wanted(log[|log| - 1]) then [log[|log| - 1]] else []
  }

  lemma SelectAppend(a: seq<Output>, b: seq<Output>, wanted: Output -> bool)
    ensures Select(a + b, wanted) == Select(a, wanted) + Select(b, wanted)
  {
    if b == [] {
      assert a + b == a;
    } else {
      assert (a + b)[..|a + b| - 1] == a + b[..|b| - 1];
      SelectAppend(a, b[..|b| - 1], wanted);
    }
  }

  // ---------------------------------------------------------------- the loop follows the history

  lemma {:induction false} LastTurn(s: State, evs: seq<Event>)
    requires CanRun(s, evs) && evs != []
    ensures var before, ev := evs[..|evs| - 1], evs[|evs| - 1];
      CanRun(s, before) && Possible(Run(s, before), ev) && Run(s, evs) == Step(Run(s, before), ev)
    decreases |evs|
  {
    hide Step, Possible;
    if |evs| == 1 {
      assert evs[1..] == [] && evs[..0] == [];
    } else {
      LastTurn(Step(s, evs[0]), evs[1..]);
      assert evs[1..][..|evs| - 2] == evs[..|evs| - 1][1..];
    }
  }

  lemma OpeningStep(evs: seq<Event>)
    requires evs != []
    ensures Openings(evs) == Openings(evs[..|evs| - 1]) + NewKind(evs[|evs| - 1])
  {
    var before, ev := Openings(evs[..|evs| - 1]), evs[|evs| - 1];
    assert before + [] == before;
    OpenedKind(ev);
    hide NewKind, OpensIntent;
  }

  lemma OpenedKind(ev: Event)
    ensures NewKind(ev) == if OpensIntent(ev) then [Intent] else if ev == CheckRequest then [ConnectionCheck] else []
  {
  }

  ghost predicate FinalsKnown(evs: seq<Event>, n: nat) {
    forall i | 0 <= i < |evs| && Final(evs[i]) :: evs[i].from < n
  }

  lemma CurrentStep(evs: seq<Event>)
    requires evs != []
    requires FinalsKnown(evs, |Openings(evs[..|evs| - 1])|)
    ensures var before, ev := evs[..|evs| - 1], evs[|evs| - 1];
      Current(evs) == NextStrm(Current(before), |Openings(before)|, ev)
  {
    var before, ev := evs[..|evs| - 1], evs[|evs| - 1];
    var n := |Openings(before)|;
    OpeningStep(evs);
    hide Openings, OpensIntent, GoodHotword;
    assert forall i | 0 <= i < |before| :: before[i] == evs[i];
    if Final(ev) && n > 0 && ev.from == n - 1 {
      assert Current(evs) == None;
    }
  }

  lemma FinalsStep(s: State, evs: seq<Event>)
    requires evs != [] && Possible(s, evs[|evs| - 1])
    requires FinalsKnown(evs[..|evs| - 1], |s.kinds|)
    ensures FinalsKnown(evs, |s.kinds|) && FinalsKnown(evs, |s.kinds + NewKind(evs[|evs| - 1])|)
  {
    assert forall i | 0 <= i < |evs| - 1 :: evs[..|evs| - 1][i] == evs[i];
  }

  /** The loop's variable is the current stream of the history. */
  lemma {:induction false} StrmIsCurrent(evs: seq<Event>)
    requires CanRun(INIT, evs)
    ensures Run(INIT, evs).strm == Current(evs) && Run(INIT, evs).kinds == Openings(evs)
    ensures FinalsKnown(evs, |Openings(evs)|)
    decreases |evs|
  {
    if evs != [] {
      LastTurn(INIT, evs);
      StrmIsCurrent(evs[..|evs| - 1]);
      OpeningStep(evs);
      FinalsStep(Run(INIT, evs[..|evs| - 1]), evs);
      CurrentStep(evs);
      hide Effects, Run, CanRun, Openings, Current, NewKind, NextStrm, Possible, FinalsKnown;
    }
  }

  /** What can come next, told from the history: of the streams that were opened, an intent stream can
      bring an intent, an error or a stream-open note, and a connection stream an error or a report. */
  lemma ComesNextIff(evs: seq<Event>, ev: Event)
    requires CanRun(INIT, evs)
    ensures CanRun(INIT, evs + [ev]) <==>
              if ev.GotIntent? || ev.GotError? || ev.GotOpen? then
                ev.from < |Openings(evs)| && Openings(evs)[ev.from] == Intent
              else if ev.GotCheckError? || ev.GotConnection? then
                ev.from < |Openings(evs)| && Openings(evs)[ev.from] == ConnectionCheck
              else true
  {
    StrmIsCurrent(evs);
    OneMoreEvent(INIT, evs, ev);
    hide Run, CanRun, Openings;
  }

  lemma {:induction false} OneMoreEvent(s: State, evs: seq<Event>, ev: Event)
    requires CanRun(s, evs)
    ensures CanRun(s, evs + [ev]) <==> Possible(Run(s, evs), ev)
    decreases |evs|
  {
    hide Step, Possible;
    if evs == [] {
      assert [] + [ev] == [ev] && [ev][1..] == [];
    } else {
      assert (evs + [ev])[1..] == evs[1..] + [ev];
      OneMoreEvent(Step(s, evs[0]), evs[1..], ev);
    }
  }

  /** If a story tells of every turn what the loop adds of one sort of output, it tells the log. */
  lemma {:induction false} LogIsTold(evs: seq<Event>, wanted: Output -> bool,
                                     tell: (Option<nat>, nat, Event) -> seq<Output>)
    requires CanRun(INIT, evs)
    requires forall strm, next, ev :: Select(Effects(strm, next, ev), wanted) == tell(strm, next, ev)
    ensures Select(Run(INIT, evs).log, wanted) == Told(evs, tell)
    decreases |evs|
  {
    hide Effects, NextStrm, NewKind, Possible;
    if evs != [] {
      var before, ev := evs[..|evs| - 1], evs[|evs| - 1];
      LastTurn(INIT, evs);
      LogIsTold(before, wanted, tell);
      StrmIsCurrent(before);
      var s := Run(INIT, before);
      SelectAppend(s.log, Effects(s.strm, |s.kinds|, ev), wanted);
    }
  }

  // ---------------------------------------------------------------- audio

  predicate Sound(o: Output) {
    o.Fed? || o.SendClosed?
  }

  /** Audio, and the news that there will be no more, are for the current stream, if there is one. */
  function TellSound(current: Option<nat>, next: nat, ev: Event): seq<Output> {
    if current == None then []
    else
      match ev
      case Audio(samples) => [Fed(current.value, samples)]
      case AudioDone => [SendClosed(current.value)]
      case _ => []
  }

  lemma SoundTurn(strm: Option<nat>, next: nat, ev: Event)
    ensures Select(Effects(strm, next, ev), Sound) == TellSound(strm, next, ev)
  {
    PickTurn(strm, next, ev, Sound);
    hide Select;
  }

  /** Over every run: what streams were fed is, in order, exactly the audio that came while some
      stream was the newest and unanswered, each piece fed to that stream; likewise the ends of
      audio. Audio at any other time reaches no stream. */
  lemma AudioReachesCurrent(evs: seq<Event>)
    requires CanRun(INIT, evs)
    ensures Select(Run(INIT, evs).log, Sound) == Told(evs, TellSound)
  {
    forall strm, next, ev ensures Select(Effects(strm, next, ev), Sound) == TellSound(strm, next, ev) {
      SoundTurn(strm, next, ev);
    }
    LogIsTold(evs, Sound, TellSound);
  }

  // ---------------------------------------------------------------- streams

  predicate Stream(o: Output) {
    o.Created? || o.Closed?
  }

  /** A hotword of any mode and a connection check close the current stream; a good hotword opens an
      intent stream, a check a connection stream; a final event closes its stream if it is current. */
  function TellStreams(current: Option<nat>, next: nat, ev: Event): seq<Output> {
    var closed := if current == None then [] else [Closed(current.value)];
    if OpensIntent(ev) then closed + [Created(next, Intent)]
    else if ev == CheckRequest then closed + [Created(next, ConnectionCheck)]
    else if ev.Hotword? then closed
    else if Final(ev) && current == Some(ev.from) then [Closed(ev.from)]
    else []
  }

  lemma StreamTurn(strm: Option<nat>, next: nat, ev: Event)
    ensures Select(Effects(strm, next, ev), Stream) == TellStreams(strm, next, ev)
  {
    PickTurn(strm, next, ev, Stream);
    hide Select;
  }

  /** Over every run: which streams were opened, of which kind, and when each was closed. */
  lemma StreamsOpenAndClose(evs: seq<Event>)
    requires CanRun(INIT, evs)
    ensures Select(Run(INIT, evs).log, Stream) == Told(evs, TellStreams)
    ensures Run(INIT, evs).kinds == Openings(evs) && Run(INIT, evs).strm == Current(evs)
  {
    forall strm, next, ev ensures Select(Effects(strm, next, ev), Stream) == TellStreams(strm, next, ev) {
      StreamTurn(strm, next, ev);
    }
    LogIsTold(evs, Stream, TellStreams);
    StrmIsCurrent(evs);
  }

  // ---------------------------------------------------------------- replies

  /** What the intent writers and the microphone are told, with all it says. */
  function TellReplies(current: Option<nat>, next: nat, ev: Event): seq<Output> {
    match ev
    case GotIntent(from, result) => if current == Some(from) then [AiResult(from, result)] else []
    case GotError(from, kind, text) => if current == Some(from) then [AiError(from, kind, text)] else []
    case GotOpen(from, session) => if current == Some(from) then [AiOpen(from, session)] else []
    case GotConnection(from, connection) => if current == Some(from) then [MicConnection(from, connection)] else []
    case GotCheckError(from, kind, text) =>
      if current != Some(from) then []
      else if kind == TLS then [MicConnection(from, ConnectionResult(Tls, text, 0, 50))]
      else if kind == Connectivity then [MicConnection(from, ConnectionResult(NoConnectivity, text, 0, 50))]
      else if kind == Timeout then [MicConnection(from, ConnectionResult(Bandwidth, text, 0, 50))]
      else [MicConnection(from, ConnectionResult(Auth, text, 0, 50))]
    case _ => []
  }

  lemma ReplyTurn(strm: Option<nat>, next: nat, ev: Event)
    ensures Select(Effects(strm, next, ev), Reply) == TellReplies(strm, next, ev)
  {
    PickTurn(strm, next, ev, Reply);
    hide Select;
  }

  /** Over every run: the replies are, in order, those to the events of the stream that was current
      when they came, each with the result, error, session or connection report of its event. */
  lemma RepliesAreThoseOfCurrent(evs: seq<Event>)
    requires CanRun(INIT, evs)
    ensures Select(Run(INIT, evs).log, Reply) == Told(evs, TellReplies)
  {
    forall strm, next, ev ensures Select(Effects(strm, next, ev), Reply) == TellReplies(strm, next, ev) {
      ReplyTurn(strm, next, ev);
    }
    LogIsTold(evs, Reply, TellReplies);
  }

  // ---------------------------------------------------------------- notices

  predicate Notice(o: Output) {
    o.MicTestStarted? || o.MicStopSignal? || o.AiConfigError? || o.AiDebugFile?
  }

  /** The microphone hears of a test hotword and of a current answer; the intent writers of a bad
      hotword and of a debug file. */
  function TellNotices(current: Option<nat>, next: nat, ev: Event): seq<Output> {
    match ev
    case Hotword(_, _, isTest) =>
      (if isTest then [MicTestStarted] else []) + (if OpensIntent(ev) then [] else [AiConfigError])
    case DebugFile => [AiDebugFile]
    case GotIntent(from, _) => if current == Some(from) then [MicStopSignal] else []
    case GotError(from, _, _) => if current == Some(from) then [MicStopSignal] else []
    case _ => []
  }

  lemma NoticeTurn(strm: Option<nat>, next: nat, ev: Event)
    ensures Select(Effects(strm, next, ev), Notice) == TellNotices(strm, next, ev)
  {
    PickTurn(strm, next, ev, Notice);
    hide Select;
  }

  lemma NoticesOfRun(evs: seq<Event>)
    requires CanRun(INIT, evs)
    ensures Select(Run(INIT, evs).log, Notice) == Told(evs, TellNotices)
  {
    forall strm, next, ev ensures Select(Effects(strm, next, ev), Notice) == TellNotices(strm, next, ev) {
      NoticeTurn(strm, next, ev);
    }
    LogIsTold(evs, Notice, TellNotices);
  }

  /** The outputs of a turn, picked one by one: there are three at most. */
  function Pick(o: Output, wanted: Output -> bool): seq<Output> {
    if wanted(o) then [o] else []
  }

  lemma PickTurn(strm: Option<nat>, next: nat, ev: Event, wanted: Output -> bool)
    ensures var e := Effects(strm, next, ev);
      && |e| <= 3
      && Select(e, wanted) == (if |e| > 0 then Pick(e[0], wanted) else [])
                            + (if |e| > 1 then Pick(e[1], wanted) else [])
                            + (if |e| > 2 then Pick(e[2], wanted) else [])
  {
    var e := Effects(strm, next, ev);
    assert |e| <= 3 by {
      hide Select;
    }
    hide Effects;
    if |e| > 0 {
      assert e[..1][..0] == [];
      assert Select(e[..1], wanted) == Pick(e[0], wanted);
      if |e| > 1 {
        assert e[..2][..1] == e[..1];
        assert Select(e[..2], wanted) == Pick(e[0], wanted) + Pick(e[1], wanted);
        if |e| > 2 {
          assert e[..3][..2] == e[..2] && e[..3] == e;
        } else {
          assert e[..2] == e;
        }
      } else {
        assert e[..1] == e;
      }
    }
  }
}
