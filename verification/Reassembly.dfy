/** Reassembly of camera images and audio groups from chunks. The two unpackers are the same
    code over different fields; here a chunk carries the size of the buffer its chunk 0 makes. */
module Reassembly {

  import opened Common

  /** The largest message the socket reader hands on. */
  const MAX_MESSAGE := BUFFER_SIZE

  type Payload = s: seq<byte> | |s| <= MAX_MESSAGE witness []

  datatype Chunk = Chunk(id: uint32, chunkId: uint32, count: uint32, bufferSize: uint32, data: Payload)

  /** Go's conversion and int32 arithmetic: reduce to 32 bits, two's complement. */
  function Wrap32(x: int): int32 {
    (x + TWO_31) % TWO_32 - TWO_31
  }

  function CameraChunk(imageId: uint32, chunkId: uint32, count: uint32, width: uint32, height: uint32,
                       data: Payload): Chunk
  {
    Chunk(imageId, chunkId, count, (width * height * 3) % TWO_32, data)
  }

  const AUDIO_SAMPLES := 1600

  function AudioChunk(groupId: uint32, chunkId: uint32, count: uint32, data: Payload): Chunk {
    Chunk(groupId, chunkId, count, AUDIO_SAMPLES * 2, data)
  }

  datatype Cache = Cache(data: seq<byte>, id: int32, invalid: bool, size: int32, lastChunkId: int32)

  datatype Outcome = Ready | NotReady | Crash   // Crash: slice bounds out of range

  const EMPTY := Cache([], -1, false, 0, -1)

  function Zeros(n: nat): seq<byte> {
    seq(n, _ => 0)
  }

  /** The unpacker on values. */
  function Unpack(cache: Cache, x: Chunk): (Outcome, Cache) {
    var id, chunkId := Wrap32(x.id), Wrap32(x.chunkId);
    var c := if cache.id != -1 && chunkId == 0 then cache.(id := -1) else cache;
    if c.id == -1 && chunkId != 0 then (NotReady, c.(invalid := true))
    else Append(if c.id == -1 then Cache(Zeros(x.bufferSize), id, false, 0, -1) else c, x)
  }

  function Append(c: Cache, x: Chunk): (Outcome, Cache) {
    var id, chunkId := Wrap32(x.id), Wrap32(x.chunkId);
    if chunkId != Wrap32(c.lastChunkId + 1) || id != c.id then (NotReady, EMPTY.(invalid := true))
    else
      var end := Wrap32(c.size + |x.data|);
      if !(0 <= c.size <= end <= |c.data|) then (Crash, c)
      else
        (if chunkId == Wrap32((x.count - 1) % TWO_32) then Ready else NotReady,
         c.(data := c.data[..c.size] + x.data + c.data[end..], size := end, lastChunkId := chunkId))
  }

  /** A frame passed on to the client. */
  datatype Frame = Frame(id: uint32, data: seq<byte>)

  datatype Feed = Live(cache: Cache, frames: seq<Frame>) | Crashed(frames: seq<Frame>)

  /** One turn of the feed loop: unpack, and on Ready pass the data on and reset. */
  function Turn(f: Feed, x: Chunk): Feed {
    match f
    case Crashed(_) => f
    case Live(cache, frames) =>
      var (o, c) := Unpack(cache, x);
      match o
      case Crash => Crashed(frames)
      case NotReady => Live(c, frames)
      case Ready =>
        if 0 <= c.size <= |c.data| then Live(EMPTY, frames + [Frame(c.id % TWO_32, c.data[..c.size])])
        else Crashed(frames)
  }

  function Turns(f: Feed, xs: seq<Chunk>): Feed {
    if xs == [] then f else Turn(Turns(f, xs[..|xs| - 1]), xs[|xs| - 1])
  }

  // ---------------------------------------------------------------- reference definition

  function Concat(run: seq<Chunk>): seq<byte> {
    if run == [] then [] else Concat(run[..|run| - 1]) + run[|run| - 1].data
  }

  /** The id that the cache uses as "no image": 0xFFFFFFFF becomes -1 as an int32. */
  predicate Sentinel(id: uint32) {
    id == TWO_32 - 1
  }

  /** Contiguous chunks 0, 1, 2, ... of one id. */
  ghost predicate IsRun(run: seq<Chunk>) {
    && 1 <= |run| <= TWO_32
    && (forall i | 0 <= i < |run| :: run[i].chunkId == i && run[i].id == run[0].id)
    && (|run| > 1 ==> !Sentinel(run[0].id))
  }

  /** The last chunk declares as many chunks as the run has (mod 2^32). */
  predicate Complete(run: seq<Chunk>)
    requires run != []
  {
    run[|run| - 1].count == |run| % TWO_32
  }

  predicate Fits(run: seq<Chunk>)
    requires run != []
  {
    |Concat(run)| <= run[0].bufferSize && |Concat(run)| < TWO_31
  }

  /** A run no earlier part of which was complete. */
  ghost predicate FirstAttempt(run: seq<Chunk>) {
    IsRun(run) && forall j | 1 <= j < |run| :: !Complete(run[..j])
  }

  /** A suffix of the input that makes a frame: a run that fits, complete at its end only. */
  ghost predicate Image(run: seq<Chunk>) {
    FirstAttempt(run) && Complete(run) && Fits(run)
  }

  /** A suffix that brings the feed down: it does not fit the buffer chunk 0 asked for. */
  ghost predicate Overflow(run: seq<Chunk>) {
    FirstAttempt(run) && !Fits(run)
  }

  /** The partial run in the cache, from the history alone. */
  function Extend(run: seq<Chunk>, x: Chunk): seq<Chunk> {
    if x.chunkId == 0 then [x]
    else if run != [] && !Sentinel(run[0].id) && x.id == run[0].id && x.chunkId == |run| then run + [x]
    else []
  }

  /** What the cache holds for a partial run. */
  ghost predicate Holds(c: Cache, run: seq<Chunk>) {
    if run == [] then c.id == -1
    else
      && IsRun(run)
      && c.id == Wrap32(run[0].id)
      && c.lastChunkId == Wrap32(|run| - 1)
      && |c.data| == run[0].bufferSize
      && 0 <= c.size <= |c.data| && c.size == |Concat(run)|
      && c.data[..c.size] == Concat(run)
  }

  lemma WrapFacts(x: int)
    requires 0 <= x < TWO_32
    ensures Wrap32(x) == if x < TWO_31 then x else x - TWO_32
    ensures Wrap32(x) == 0 <==> x == 0
    ensures Wrap32(x) == -1 <==> x == TWO_32 - 1
    ensures Wrap32(Wrap32(x) + 1) == Wrap32((x + 1) % TWO_32)
    ensures Wrap32(x) % TWO_32 == x
  {
  }

  lemma WrapInjective(x: int, y: int)
    requires 0 <= x < TWO_32 && 0 <= y < TWO_32 && Wrap32(x) == Wrap32(y)
    ensures x == y
  {
  }

  /** The cache in the middle of a run, which may still be empty. */
  ghost predicate Filled(c: Cache, run: seq<Chunk>, x: Chunk) {
    var first := if run == [] then x else run[0];
    && c.id == Wrap32(first.id)
    && c.lastChunkId == Wrap32(|run| - 1)
    && |c.data| == first.bufferSize
    && 0 <= c.size <= |c.data| && c.data[..c.size] == Concat(run)
  }

  lemma NextNumber(n: nat)
    requires n < TWO_32
    ensures Wrap32(Wrap32(n - 1) + 1) == Wrap32(n)
  {
  }

  lemma EndOffset(size: int32, n: nat)
    requires 0 <= size && n <= MAX_MESSAGE
    ensures Wrap32(size + n) == if size + n < TWO_31 then size + n else size + n - TWO_32
  {
  }

  lemma LastIffComplete(run: seq<Chunk>)
    requires IsRun(run)
    ensures var x := run[|run| - 1]; Wrap32(x.chunkId) == Wrap32((x.count - 1) % TWO_32) <==> Complete(run)
  {
    var x := run[|run| - 1];
    var declared := (x.count - 1) % TWO_32;
    if Wrap32(x.chunkId) == Wrap32(declared) {
      WrapInjective(x.chunkId, declared);
    }
  }

  lemma AppendFollows(c: Cache, run: seq<Chunk>, x: Chunk)
    requires Filled(c, run, x) && |run| < TWO_32
    requires x.chunkId == |run| && IsRun(run + [x])
    ensures var run' := run + [x]; var (o, c') := Append(c, x);
      && (o == Crash <==> !Fits(run'))
      && (o != Crash ==> Holds(c', run') && (o == Ready <==> Complete(run')))
  {
    hide Wrap32;
    var run' := run + [x];
    assert run'[..|run|] == run;
    assert Concat(run') == Concat(run) + x.data;
    assert run'[0].id == x.id;
    NextNumber(|run|);
    EndOffset(c.size, |x.data|);
    LastIffComplete(run');
    if Fits(run') {
      var total := c.size + |x.data|;
      assert (c.data[..c.size] + x.data + c.data[total..])[..total] == Concat(run');
    }
  }

  lemma RunExtends(run: seq<Chunk>, x: Chunk)
    requires run == [] || IsRun(run)
    requires Extend(run, x) != []
    ensures IsRun(Extend(run, x))
  {
  }

  /** A chunk that does not continue the run in the cache breaks it. */
  lemma BrokenRun(c: Cache, run: seq<Chunk>, x: Chunk)
    requires Holds(c, run) && Extend(run, x) == []
    ensures Unpack(c, x).0 == NotReady && Unpack(c, x).1.id == -1
  {
    hide Wrap32;
    WrapFacts(x.chunkId);
    if run != [] {
      WrapFacts(run[0].id);
      WrapFacts(|run| - 1);
      if Wrap32(x.id) == c.id {
        WrapInjective(x.id, run[0].id);
      }
      if Wrap32(x.chunkId) == Wrap32(|run| % TWO_32) {
        WrapInjective(x.chunkId, |run| % TWO_32);
      }
    }
  }

  /** One unpack follows Extend, and its outcome is that of the run: crash iff it no longer
      fits, ready iff it is complete. */
  lemma UnpackFollows(c: Cache, run: seq<Chunk>, x: Chunk)
    requires Holds(c, run)
    ensures var run' := Extend(run, x); var (o, c') := Unpack(c, x);
      && (run' == [] ==> o == NotReady && Holds(c', []))
      && (run' != [] ==>
            && IsRun(run')
            && (o == Crash <==> !Fits(run'))
            && (o != Crash ==> Holds(c', run') && (o == Ready <==> Complete(run'))))
  {
    hide Wrap32, Append, Concat;
    WrapFacts(x.chunkId);
    if Extend(run, x) == [] {
      BrokenRun(c, run, x);
    } else if x.chunkId == 0 {
      RunExtends(run, x);
      var blank := Cache(Zeros(x.bufferSize), Wrap32(x.id), false, 0, -1);
      assert [] + [x] == [x];
      WrapMinusOne();
      ConcatNone();
      assert blank.data[..0] == [];
      AppendFollows(blank, [], x);
      assert Unpack(c, x) == Append(blank, x);
    } else {
      RunExtends(run, x);
      WrapFacts(run[0].id);
      AppendFollows(c, run, x);
    }
  }

  lemma ConcatNone()
    ensures Concat([]) == []
  {
  }

  lemma WrapMinusOne()
    ensures Wrap32(-1) == -1
  {
  }

  // ---------------------------------------------------------------- the feed against the reference

  datatype Ref = Going(run: seq<Chunk>, frames: seq<Frame>) | Stopped(frames: seq<Frame>)

  function RefTurn(r: Ref, x: Chunk): Ref {
    match r
    case Stopped(_) => r
    case Going(run, frames) =>
      var run' := Extend(run, x);
      if run' == [] then Going([], frames)
      else if !Fits(run') then Stopped(frames)
      else if Complete(run') then Going([], frames + [Frame(x.id, Concat(run'))])
      else Going(run', frames)
  }

  function RefTurns(xs: seq<Chunk>): Ref {
    if xs == [] then Going([], []) else RefTurn(RefTurns(xs[..|xs| - 1]), xs[|xs| - 1])
  }

  ghost predicate Same(f: Feed, r: Ref) {
    f.frames == r.frames && (f.Live? <==> r.Going?) && (f.Live? ==> Holds(f.cache, r.run))
  }

  lemma TurnFollows(f: Feed, r: Ref, x: Chunk)
    requires Same(f, r)
    ensures Same(Turn(f, x), RefTurn(r, x))
  {
    if f.Live? {
      hide Unpack, Wrap32, Concat;
      UnpackFollows(f.cache, r.run, x);
      var run' := Extend(r.run, x);
      if run' != [] {
        assert run'[|run'| - 1] == x;
        WrapFacts(run'[0].id);
        WrapMinusOne();
      }
    }
  }

  /** The state in which CameraFeed and AudioFeed start; LastChunkId is left at its zero value. */
  const START := Live(Cache([], -1, false, 0, 0), [])

  /** The feed over the mutable cache emits exactly the frames of the reference. */
  lemma {:induction false} FeedRefinesReference(xs: seq<Chunk>)
    ensures Same(Turns(START, xs), RefTurns(xs))
  {
    if xs != [] {
      FeedRefinesReference(xs[..|xs| - 1]);
      TurnFollows(Turns(START, xs[..|xs| - 1]), RefTurns(xs[..|xs| - 1]), xs[|xs| - 1]);
    }
  }

  // ---------------------------------------------------------------- which suffixes make a frame

  function Suffix(xs: seq<Chunk>, k: nat): seq<Chunk>
    requires k <= |xs|
  {
    xs[|xs| - k..]
  }

  ghost predicate Unfinished(run: seq<Chunk>) {
    forall j | 1 <= j <= |run| :: !Complete(run[..j])
  }

  lemma ExtendedSuffix(xs: seq<Chunk>, held: seq<Chunk>, x: Chunk)
    requires |held| <= |xs| && held == Suffix(xs, |held|) && Extend(held, x) != []
    ensures var run' := Extend(held, x);
      && |run'| <= |xs| + 1 && run' == Suffix(xs + [x], |run'|)
      && |run'| <= |held| + 1 && run'[|run'| - 1] == x
      && forall j | 1 <= j < |run'| :: run'[..j] == held[..j]
  {
  }

  ghost predicate HeldSuffix(xs: seq<Chunk>, run: seq<Chunk>) {
    |run| <= |xs| && run == Suffix(xs, |run|) && Unfinished(run) && (run != [] ==> IsRun(run))
  }

  lemma HeldStep(xs: seq<Chunk>, r: Ref, x: Chunk)
    requires r.Going? && HeldSuffix(xs, r.run) && RefTurn(r, x).Going?
    ensures HeldSuffix(xs + [x], RefTurn(r, x).run)
  {
    hide Concat, Fits, Extend, IsRun, Complete;
    var run := RefTurn(r, x).run;
    if run != [] {
      RunExtends(r.run, x);
      ExtendedSuffix(xs, r.run, x);
      forall j | 1 <= j <= |run| ensures !Complete(run[..j]) {
        if j == |run| {
          assert run[..j] == run;
        } else {
          assert run[..j] == r.run[..j];
        }
      }
    }
  }

  lemma LastTurn(xs: seq<Chunk>, x: Chunk)
    ensures RefTurns(xs + [x]) == RefTurn(RefTurns(xs), x)
  {
    assert (xs + [x])[..|xs|] == xs;
  }

  /** What the reference holds: a suffix of the input that is a run without a complete prefix. */
  lemma {:induction false} HeldIsSuffix(xs: seq<Chunk>)
    requires RefTurns(xs).Going?
    ensures HeldSuffix(xs, RefTurns(xs).run)
  {
    if xs != [] {
      hide RefTurns;
      var before, x := xs[..|xs| - 1], xs[|xs| - 1];
      assert xs == before + [x];
      LastTurn(before, x);
      HeldIsSuffix(before);
      HeldStep(before, RefTurns(before), x);
    }
  }

  /** Conversely, every such suffix is what the reference holds. */
  lemma {:induction false} SuffixIsHeld(xs: seq<Chunk>, k: nat)
    requires RefTurns(xs).Going? && 1 <= k <= |xs|
    requires IsRun(Suffix(xs, k)) && Unfinished(Suffix(xs, k))
    ensures RefTurns(xs).run == Suffix(xs, k)
    decreases k
  {
    hide RefTurns, Concat, Fits;
    var before, x, s := xs[..|xs| - 1], xs[|xs| - 1], Suffix(xs, k);
    assert xs == before + [x];
    LastTurn(before, x);
    assert x == s[k - 1] && s[..k] == s;
    if k > 1 {
      var s' := Suffix(before, k - 1);
      assert s' == s[..k - 1];
      assert IsRun(s');
      assert forall j | 1 <= j <= k - 1 :: s'[..j] == s[..j];
      SuffixIsHeld(before, k - 1);
      assert Extend(s', x) == s;
    } else {
      assert s == [x];
    }
  }

  /** Soundness and completeness of reassembly, chunk by chunk. After any input, the next chunk
      makes the feed emit a frame exactly when some suffix ending in it is an image: chunks
      0..k-1 of one id, k declared by the last and by none before it at its own place, fitting
      the buffer. The frame then is the concatenation of exactly those payloads. */
  lemma FrameIffImage(xs: seq<Chunk>, x: Chunk)
    requires Turns(START, xs).Live?
    ensures var f, f', all := Turns(START, xs), Turns(START, xs + [x]), xs + [x];
      && (f'.frames != f.frames <==> exists k :: 1 <= k <= |all| && Image(Suffix(all, k)))
      && (forall k | 1 <= k <= |all| && Image(Suffix(all, k)) ::
            f'.frames == f.frames + [Frame(x.id, Concat(Suffix(all, k)))])
  {
    hide Extend, IsRun, Concat, Fits, Turn, RefTurns;
    var all := xs + [x];
    FeedRefinesReference(xs);
    FeedRefinesReference(all);
    LastTurn(xs, x);
    HeldIsSuffix(xs);
    var held, run' := RefTurns(xs).run, Extend(RefTurns(xs).run, x);
    if run' != [] {
      RunExtends(held, x);
      ExtendedSuffix(xs, held, x);
      if Complete(run') && Fits(run') {
        assert Image(Suffix(all, |run'|));
      }
    }
    forall k | 1 <= k <= |all| && Image(Suffix(all, k)) ensures run' == Suffix(all, k) {
      AttemptIsHeld(xs, x, k);
    }
  }

  /** The feed goes down on exactly the chunks that overflow the buffer of their run. */
  lemma CrashIffOverflow(xs: seq<Chunk>, x: Chunk)
    requires Turns(START, xs).Live?
    ensures var all := xs + [x];
      Turns(START, all).Crashed? <==> exists k :: 1 <= k <= |all| && Overflow(Suffix(all, k))
  {
    hide Extend, IsRun, Concat, Fits, Turn, RefTurns;
    var all := xs + [x];
    FeedRefinesReference(xs);
    FeedRefinesReference(all);
    LastTurn(xs, x);
    HeldIsSuffix(xs);
    var held, run' := RefTurns(xs).run, Extend(RefTurns(xs).run, x);
    if run' != [] {
      RunExtends(held, x);
      ExtendedSuffix(xs, held, x);
      if !Fits(run') {
        assert Overflow(Suffix(all, |run'|));
      }
    }
    forall k | 1 <= k <= |all| && Overflow(Suffix(all, k)) ensures run' == Suffix(all, k) {
      AttemptIsHeld(xs, x, k);
    }
  }

  lemma AttemptIsHeld(xs: seq<Chunk>, x: Chunk, k: nat)
    requires RefTurns(xs).Going? && 1 <= k <= |xs| + 1 && FirstAttempt(Suffix(xs + [x], k))
    ensures Extend(RefTurns(xs).run, x) == Suffix(xs + [x], k)
  {
    hide Concat, Fits, RefTurns;
    var s := Suffix(xs + [x], k);
    assert s[k - 1] == x;
    if k > 1 {
      var s' := Suffix(xs, k - 1);
      assert s' == s[..k - 1];
      assert IsRun(s');
      assert forall j | 1 <= j <= k - 1 :: s'[..j] == s[..j];
      SuffixIsHeld(xs, k - 1);
    }
  }

  // ---------------------------------------------------------------- resynchronisation

  /** All chunks of one image or group, in order, each declaring the full count. */
  ghost predicate FullSequence(xs: seq<Chunk>) {
    xs != [] && forall i | 0 <= i < |xs| :: xs[i].chunkId == i && xs[i].count == |xs| && xs[i].id == xs[0].id
  }

  lemma ConcatPrefix(xs: seq<Chunk>, j: nat)
    requires j <= |xs|
    ensures |Concat(xs[..j])| <= |Concat(xs)|
  {
    if j < |xs| {
      assert xs[..|xs| - 1][..j] == xs[..j];
      ConcatPrefix(xs[..|xs| - 1], j);
    } else {
      assert xs[..j] == xs;
    }
  }

  /** Chunk 0 wipes whatever the cache held. */
  lemma ChunkZeroRestarts(cache: Cache, frames: seq<Frame>, x: Chunk)
    requires x.chunkId == 0
    ensures Turn(Live(cache, frames), x) == Turn(Live(EMPTY, frames), x)
  {
  }

  /** From any state of the cache, the first j chunks of a full sequence that fits. */
  lemma {:induction false} PartialSequence(f: Feed, xs: seq<Chunk>, j: nat)
    requires f.Live? && FullSequence(xs) && Fits(xs) && 1 <= j < |xs|
    ensures Same(Turns(f, xs[..j]), Going(if j > 1 && Sentinel(xs[0].id) then [] else xs[..j], f.frames))
  {
    hide Concat, Turn;
    var x, before := xs[j - 1], xs[..j - 1];
    assert xs[..j][..j - 1] == before && xs[..j] == before + [x];
    ConcatPrefix(xs, j);
    if j == 1 {
      ChunkZeroRestarts(f.cache, f.frames, x);
      assert Same(Live(EMPTY, f.frames), Going([], f.frames));
      TurnFollows(Live(EMPTY, f.frames), Going([], f.frames), x);
      assert Turns(f, before) == f;
    } else {
      PartialSequence(f, xs, j - 1);
      var run := if j - 1 > 1 && Sentinel(xs[0].id) then [] else before;
      TurnFollows(Turns(f, before), Going(run, f.frames), x);
    }
  }

  lemma EmptyHoldsNothing(frames: seq<Frame>)
    ensures Same(Live(EMPTY, frames), Going([], frames))
  {
  }

  lemma LastOfSequence(f: Feed, xs: seq<Chunk>)
    requires f.Live? && FullSequence(xs) && Fits(xs)
    ensures Turns(f, xs).Live?
    ensures Turns(f, xs).frames ==
              if |xs| > 1 && Sentinel(xs[0].id) then f.frames else f.frames + [Frame(xs[0].id, Concat(xs))]
  {
    hide Concat, Turn, Holds;
    var n, x := |xs|, xs[|xs| - 1];
    assert xs == xs[..n - 1] + [x];
    if n == 1 {
      ChunkZeroRestarts(f.cache, f.frames, x);
      EmptyHoldsNothing(f.frames);
      TurnFollows(Live(EMPTY, f.frames), Going([], f.frames), x);
      assert xs == [x] && Turns(f, xs[..0]) == f;
    } else {
      PartialSequence(f, xs, n - 1);
      var run := if n - 1 > 1 && Sentinel(xs[0].id) then [] else xs[..n - 1];
      TurnFollows(Turns(f, xs[..n - 1]), Going(run, f.frames), x);
    }
  }

  /** Resynchronisation: whatever came before, a full sequence that fits its buffer emits nothing
      until its last chunk, and there one frame with the whole payload, unless it has several
      chunks and carries the id the cache takes for "no image". */
  lemma FullSequenceResynchronises(f: Feed, xs: seq<Chunk>)
    requires f.Live? && FullSequence(xs) && Fits(xs)
    ensures forall j | 0 <= j < |xs| :: Turns(f, xs[..j]).Live? && Turns(f, xs[..j]).frames == f.frames
    ensures Turns(f, xs).Live?
    ensures Turns(f, xs).frames ==
              if |xs| > 1 && Sentinel(xs[0].id) then f.frames else f.frames + [Frame(xs[0].id, Concat(xs))]
  {
    hide Concat, Turn;
    forall j | 0 <= j < |xs| ensures Turns(f, xs[..j]).Live? && Turns(f, xs[..j]).frames == f.frames {
      if j > 0 {
        PartialSequence(f, xs, j);
      }
    }
    LastOfSequence(f, xs);
  }

  // ---------------------------------------------------------------- whole images and audio groups

  function Join(parts: seq<Payload>): seq<byte> {
    if parts == [] then [] else Join(parts[..|parts| - 1]) + parts[|parts| - 1]
  }

  lemma {:induction false} ConcatJoins(xs: seq<Chunk>, parts: seq<Payload>)
    requires |xs| == |parts| && forall i | 0 <= i < |xs| :: xs[i].data == parts[i]
    ensures Concat(xs) == Join(parts)
  {
    if xs != [] {
      ConcatJoins(xs[..|xs| - 1], parts[..|parts| - 1]);
    }
  }

  function CameraImage(imageId: uint32, width: uint32, height: uint32, parts: seq<Payload>): seq<Chunk>
    requires |parts| < TWO_32
  {
    seq(|parts|, i requires 0 <= i < |parts| => CameraChunk(imageId, i, |parts|, width, height, parts[i]))
  }

  function AudioGroup(groupId: uint32, parts: seq<Payload>): seq<Chunk>
    requires |parts| < TWO_32
  {
    seq(|parts|, i requires 0 <= i < |parts| => AudioChunk(groupId, i, |parts|, parts[i]))
  }

  /** An image sent as three bytes per pixel or fewer arrives whole from any state of the feed; the
      room for it is the product as a uint32, so it wraps around. */
  lemma CameraImageArrives(f: Feed, imageId: uint32, width: uint32, height: uint32, parts: seq<Payload>)
    requires f.Live? && 1 <= |parts| < TWO_32 && (|parts| > 1 ==> !Sentinel(imageId))
    requires |Join(parts)| <= (width * height * 3) % TWO_32 && |Join(parts)| < TWO_31
    ensures var f' := Turns(f, CameraImage(imageId, width, height, parts));
      f'.Live? && f'.frames == f.frames + [Frame(imageId, Join(parts))]
  {
    hide Turns, Concat, Join;
    var xs := CameraImage(imageId, width, height, parts);
    ConcatJoins(xs, parts);
    FullSequenceResynchronises(f, xs);
  }

  /** An audio group arrives whole if it has at most 1600 samples of two bytes. */
  lemma AudioGroupArrives(f: Feed, groupId: uint32, parts: seq<Payload>)
    requires f.Live? && 1 <= |parts| < TWO_32 && (|parts| > 1 ==> !Sentinel(groupId))
    requires |Join(parts)| <= 3200
    ensures var f' := Turns(f, AudioGroup(groupId, parts));
      f'.Live? && f'.frames == f.frames + [Frame(groupId, Join(parts))]
  {
    hide Turns, Concat, Join;
    var xs := AudioGroup(groupId, parts);
    ConcatJoins(xs, parts);
    FullSequenceResynchronises(f, xs);
  }

  /** The first chunk alone brings a fresh feed down exactly when it is chunk 0 with more data than the
      buffer it asks for; an image of no pixels with any data at all is one. */
  lemma FirstChunkCrashesIff(x: Chunk)
    ensures Turns(START, [x]).Crashed? <==> x.chunkId == 0 && |x.data| > x.bufferSize
  {
    hide Fits;
    assert [x][..0] == [] && Turns(START, []) == START;
    CrashIffOverflow([], x);
    assert [] + [x] == [x] && Suffix([x], 1) == [x];
    assert Concat([x]) == x.data by {
      ConcatNone();
      assert [] + x.data == x.data;
    }
    OneChunkFits(x);
    assert FirstAttempt([x]) <==> x.chunkId == 0;
    forall k | 1 <= k <= 1 ensures Overflow(Suffix([x], k)) <==> Overflow([x]) {
      assert k == 1;
    }
  }

  lemma OneChunkFits(x: Chunk)
    requires Concat([x]) == x.data
    ensures Fits([x]) <==> |x.data| <= x.bufferSize
  {
  }

  /** An audio chunk has room for 1600 samples of two bytes, whatever else it says. */
  lemma AudioChunkCrashesIff(groupId: uint32, count: uint32, data: Payload)
    ensures Turns(START, [AudioChunk(groupId, 0, count, data)]).Crashed? <==> |data| > 3200
  {
    FirstChunkCrashesIff(AudioChunk(groupId, 0, count, data));
  }

  lemma ImageWithoutPixelsCrashes(imageId: uint32, count: uint32, height: uint32, data: Payload)
    requires data != []
    ensures Turns(START, [CameraChunk(imageId, 0, count, 0, height, data)]).Crashed?
  {
    FirstChunkCrashesIff(CameraChunk(imageId, 0, count, 0, height, data));
  }
}
