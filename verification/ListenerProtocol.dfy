/** Every interleaving of channel creation, delete callbacks, dispatches and consumers.
    One step is one atomic action of one goroutine. The read/write lock is explicit: a
    dispatch reads while its phase is Sending, and `writer` says who holds the write lock. */
module ListenerProtocol {
  import opened Common
  import opened ListenerTable

  type Tag = string
  type Message(==, !new)

  /** A message in a channel, labelled with the dispatch that sent it. */
  datatype Envelope = Envelope(dispatch: nat, msg: Message)

  /** A buffered channel. `log` is everything ever sent on it, `taken` what has left its
      buffer, either to the consumer or discarded by SafeClose. */
  datatype Channel = Channel(tag: Tag, cap: nat, buf: seq<Envelope>, closed: bool,
                             log: seq<Envelope>, taken: seq<Envelope>)

  /** The goroutine started for one listener of a dispatch. */
  datatype Slot = Pending | Sent | TimedOut | Marked

  datatype Phase = Waiting | Sending | Released | Cleaning | Done

  /** One call of SendToListeners: `list` is the listener list read under the lock,
      `marked` the contents of the markedForDelete channel. */
  datatype Dispatch = Dispatch(phase: Phase, tag: Tag, msg: Message,
                               list: seq<nat>, slots: seq<Slot>, marked: seq<nat>)

  /** The holder of the write lock: a clean-up (`dispatch` is Some) or a delete callback.
      `todo` is what it still has to delete, `closing` a channel already taken out of the
      table that SafeClose is about to close, `entry` the table when the lock was taken. */
  datatype Writer = Free
    | Held(dispatch: Option<nat>, tag: Tag, all: seq<nat>, todo: seq<nat>, closing: Option<nat>,
           entry: Table<Tag, nat>)

  datatype State = State(table: Table<Tag, nat>, chans: seq<Channel>, dispatches: seq<Dispatch>,
                         writer: Writer, panicked: bool)

  datatype Step =
    | Create(tag: Tag, cap: nat)       // CreateChannel, one critical section
    | Begin(tag: Tag, msg: Message)    // SendToListeners is called
    | ReadLock(d: nat)
    | Send(d: nat, i: nat)             // goroutine i puts the message into the buffer
    | HandOver(d: nat, i: nat)         // goroutine i meets a receiver waiting on an empty channel
    | TimeOut(d: nat, i: nat)
    | Mark(d: nat, i: nat)             // goroutine i gets its listener into markedForDelete
    | ReadUnlock(d: nat)
    | SkipCleanup(d: nat)
    | LockCleanup(d: nat)
    | LockCallback(c: nat)             // the callback of channel c runs, for the first time or again
    | DeleteNext                       // search, swap-remove and SafeClose's select
    | CloseNow                         // SafeClose's close
    | Unlock
    | Receive(c: nat)                  // a consumer takes a buffered message

  const INIT := State(map[], [], [], Free, false)

  predicate Reading(s: State, d: nat) {
    d < |s.dispatches| && s.dispatches[d].phase == Sending
  }

  predicate CanWrite(s: State) {
    s.writer == Free && forall d | 0 <= d < |s.dispatches| :: !Reading(s, d)
  }

  predicate AtSlot(s: State, d: nat, i: nat, slot: Slot) {
    Reading(s, d) && i < |s.dispatches[d].slots| == |s.dispatches[d].list|
    && s.dispatches[d].slots[i] == slot && s.dispatches[d].list[i] < |s.chans|
  }

  /** The goroutines are all finished, so `wg.Wait` returns. */
  predicate Joined(dp: Dispatch) {
    forall i | 0 <= i < |dp.slots| :: dp.slots[i] == Sent || dp.slots[i] == Marked
  }

  predicate Enabled(s: State, step: Step) {
    !s.panicked &&
    match step
    case Create(_, _) => CanWrite(s)
    case Begin(_, _) => true
    case ReadLock(d) => d < |s.dispatches| && s.dispatches[d].phase == Waiting && s.writer == Free
    case Send(d, i) => AtSlot(s, d, i, Pending)
      && var c := s.chans[s.dispatches[d].list[i]]; c.closed || |c.buf| < c.cap
    case HandOver(d, i) => AtSlot(s, d, i, Pending)
      && var c := s.chans[s.dispatches[d].list[i]]; c.closed || c.buf == []
    case TimeOut(d, i) => AtSlot(s, d, i, Pending)
    case Mark(d, i) => AtSlot(s, d, i, TimedOut) && |s.dispatches[d].marked| < MARK_CAPACITY
    case ReadUnlock(d) => Reading(s, d) && Joined(s.dispatches[d])
    case SkipCleanup(d) => d < |s.dispatches| && s.dispatches[d].phase == Released && s.dispatches[d].marked == []
    case LockCleanup(d) => d < |s.dispatches| && s.dispatches[d].phase == Released
      && s.dispatches[d].marked != [] && CanWrite(s)
    case LockCallback(c) => c < |s.chans| && CanWrite(s)
    case DeleteNext => s.writer.Held? && s.writer.closing == None && s.writer.todo != []
      && s.writer.todo[0] < |s.chans|
    case CloseNow => s.writer.Held? && s.writer.closing.Some? && s.writer.closing.value < |s.chans|
    case Unlock => s.writer.Held? && s.writer.closing == None && s.writer.todo == []
      && (s.writer.dispatch.Some? ==> s.writer.dispatch.value < |s.dispatches|)
    case Receive(c) => c < |s.chans| && s.chans[c].buf != []
  }

  function Accept(c: Channel, e: Envelope): Channel {
    c.(buf := c.buf + [e], log := c.log + [e])
  }

  function Pass(c: Channel, e: Envelope): Channel
    requires c.buf == []
  {
    c.(log := c.log + [e], taken := c.taken + [e])
  }

  function TakeFirst(c: Channel): Channel
    requires c.buf != []
  {
    c.(buf := c.buf[1..], taken := c.taken + [c.buf[0]])
  }

  /** The receive in SafeClose's select: it discards a buffered message, and only finds the
      channel closed when there is none. */
  function SelectReceive(c: Channel): Channel {
    if c.buf == [] then c else TakeFirst(c)
  }

  /** SafeClose goes on to close the channel unless the receive reports "closed and drained". */
  predicate WillClose(c: Channel) {
    !(c.closed && c.buf == [])
  }

  function SetSlot(s: State, d: nat, i: nat, slot: Slot): seq<Dispatch>
    requires d < |s.dispatches| && i < |s.dispatches[d].slots|
  {
    s.dispatches[d := s.dispatches[d].(slots := s.dispatches[d].slots[i := slot])]
  }

  function SetPhase(s: State, d: nat, phase: Phase): seq<Dispatch>
    requires d < |s.dispatches|
  {
    s.dispatches[d := s.dispatches[d].(phase := phase)]
  }

  function Next(s: State, step: Step): State
    requires Enabled(s, step)
  {
    match step
    case Create(tag, cap) =>
      s.(table := Add(s.table, tag, |s.chans|), chans := s.chans + [Channel(tag, cap, [], false, [], [])])
    case Begin(tag, msg) =>
      s.(dispatches := s.dispatches + [Dispatch(Waiting, tag, msg, [], [], [])])
    case ReadLock(d) =>
      var dp := s.dispatches[d];
      var l := Listeners(s.table, dp.tag);
      s.(dispatches := s.dispatches[d := dp.(phase := Sending, list := l, slots := seq(|l|, _ => Pending))])
    case Send(d, i) =>
      var c := s.dispatches[d].list[i];
      if s.chans[c].closed then s.(panicked := true)
      else s.(chans := s.chans[c := Accept(s.chans[c], Envelope(d, s.dispatches[d].msg))],
              dispatches := SetSlot(s, d, i, Sent))
    case HandOver(d, i) =>
      var c := s.dispatches[d].list[i];
      if s.chans[c].closed then s.(panicked := true)
      else s.(chans := s.chans[c := Pass(s.chans[c], Envelope(d, s.dispatches[d].msg))],
              dispatches := SetSlot(s, d, i, Sent))
    case TimeOut(d, i) => s.(dispatches := SetSlot(s, d, i, TimedOut))
    case Mark(d, i) =>
      var dp := s.dispatches[d];
      s.(dispatches := s.dispatches[d := dp.(slots := dp.slots[i := Marked], marked := dp.marked + [dp.list[i]])])
    case ReadUnlock(d) => s.(dispatches := SetPhase(s, d, Released))
    case SkipCleanup(d) => s.(dispatches := SetPhase(s, d, Done))
    case LockCleanup(d) =>
      var dp := s.dispatches[d];
      s.(dispatches := SetPhase(s, d, Cleaning),
         writer := Held(Some(d), dp.tag, dp.marked, dp.marked, None, s.table))
    case LockCallback(c) =>
      s.(writer := Held(None, s.chans[c].tag, [c], [c], None, s.table))
    case DeleteNext =>
      var w, c := s.writer, s.writer.todo[0];
      if c !in Listeners(s.table, w.tag) then
        s.(table := Remove(s.table, w.tag, c), writer := w.(todo := w.todo[1..]))
      else
        s.(table := Remove(s.table, w.tag, c),
           chans := s.chans[c := SelectReceive(s.chans[c])],
           writer := w.(todo := w.todo[1..], closing := if WillClose(s.chans[c]) then Some(c) else None))
    case CloseNow =>
      var c := s.writer.closing.value;
      if s.chans[c].closed then s.(panicked := true)
      else s.(chans := s.chans[c := s.chans[c].(closed := true)], writer := s.writer.(closing := None))
    case Unlock =>
      s.(writer := Free,
         dispatches := if s.writer.dispatch.Some? then SetPhase(s, s.writer.dispatch.value, Done) else s.dispatches)
    case Receive(c) => s.(chans := s.chans[c := TakeFirst(s.chans[c])])
  }

  // ---------------------------------------------------------------- the invariant

  predicate Registered(s: State, c: nat)
    requires c < |s.chans|
  {
    c in Listeners(s.table, s.chans[c].tag)
  }

  predicate BeingClosed(s: State, c: nat) {
    s.writer.Held? && s.writer.closing == Some(c)
  }

  /** Every listed channel exists and is listed under its own tag; lists are tidy. */
  ghost predicate TableSound(s: State) {
    Tidy(s.table)
    && forall tag, c {:trigger c in s.table[tag]} | tag in s.table && c in s.table[tag] ::
         c < |s.chans| && s.chans[c].tag == tag
  }

  /** Registered iff open, up to the one channel between its removal and its close. */
  ghost predicate RegisteredIffOpen(s: State) {
    forall c | 0 <= c < |s.chans| ::
      (Registered(s, c) <==> !s.chans[c].closed && !BeingClosed(s, c))
      && (BeingClosed(s, c) ==> !s.chans[c].closed)
  }

  ghost predicate ChannelSound(c: Channel) {
    c.log == c.taken + c.buf && |c.buf| <= c.cap
  }

  /** The slots agree with the marks; a dispatch that has released the lock has no open slot. */
  ghost predicate DispatchSound(s: State, dp: Dispatch) {
    && |dp.slots| == |dp.list|
    && Distinct(dp.list)
    && (forall c | c in dp.list :: c < |s.chans| && s.chans[c].tag == dp.tag)
    && (dp.phase == Waiting ==> dp.list == [])
    && (dp.phase == Sending ==> s.writer == Free && dp.list == Listeners(s.table, dp.tag))
    && (dp.phase != Sending ==> Joined(dp))
    && (forall c :: c in dp.marked <==> exists i :: 0 <= i < |dp.slots| && dp.slots[i] == Marked && dp.list[i] == c)
    && |dp.marked| == Count(dp.slots, Marked) <= MARK_CAPACITY
    && (dp.phase == Done ==> forall c | c in dp.marked :: c < |s.chans| && s.chans[c].closed)
  }

  ghost predicate WriterSound(s: State) {
    s.writer.Held? ==>
      var w := s.writer;
      && (forall c | c in w.all :: c < |s.chans| && s.chans[c].tag == w.tag)
      && (forall c | c in w.todo :: c in w.all)
      && (forall c | c in w.all && c !in w.todo :: s.chans[c].closed || w.closing == Some(c))
      && (w.closing.Some? ==> w.closing.value < |s.chans|)
      && Tidy(w.entry)
      && RemoveAll(s.table, w.tag, w.todo) == RemoveAll(w.entry, w.tag, w.all)
      && (w.dispatch.Some? ==>
            var d := w.dispatch.value;
            d < |s.dispatches| && s.dispatches[d].phase == Cleaning
            && w.tag == s.dispatches[d].tag && w.all == s.dispatches[d].marked)
  }

  function Count(slots: seq<Slot>, x: Slot): (n: nat)
    ensures n <= |slots|
    ensures n == 0 <==> x !in slots
  {
    if slots == [] then 0
    else Count(slots[..|slots| - 1], x) + if slots[|slots| - 1] == x then 1 else 0
  }

  /** How often dispatch d was accepted by a channel, over the channel's whole life. */
  function Times(log: seq<Envelope>, d: nat): nat {
    if log == [] then 0
    else Times(log[..|log| - 1], d) + if log[|log| - 1].dispatch == d then 1 else 0
  }

  function SentTo(dp: Dispatch, c: nat): nat
    requires |dp.slots| == |dp.list|
  {
    var i := IndexOf(dp.list, c);
    if i < |dp.list| && dp.slots[i] == Sent then 1 else 0
  }

  /** Exactly-once: a channel holds a dispatch's message once if its slot says Sent, else never. */
  ghost predicate ExactlyOnce(s: State) {
    && (forall d | 0 <= d < |s.dispatches| :: |s.dispatches[d].slots| == |s.dispatches[d].list|)
    && (forall c, d {:trigger Times(s.chans[c].log, d)} | 0 <= c < |s.chans| && 0 <= d < |s.dispatches| ::
          Times(s.chans[c].log, d) == SentTo(s.dispatches[d], c))
    && (forall c, e | 0 <= c < |s.chans| && e in s.chans[c].log ::
          e.dispatch < |s.dispatches| && e.msg == s.dispatches[e.dispatch].msg)
  }

  ghost predicate Inv(s: State) {
    && !s.panicked
    && TableSound(s)
    && RegisteredIffOpen(s)
    && (forall c | 0 <= c < |s.chans| :: ChannelSound(s.chans[c]))
    && (forall d | 0 <= d < |s.dispatches| :: DispatchSound(s, s.dispatches[d]))
    && WriterSound(s)
    && ExactlyOnce(s)
  }

  // ---------------------------------------------------------------- every step keeps it

  lemma CountUpdate(slots: seq<Slot>, i: nat, y: Slot, x: Slot)
    requires i < |slots|
    ensures Count(slots[i := y], x)
         == Count(slots, x) - (if slots[i] == x then 1 else 0) + (if y == x then 1 else 0)
  {
    var last := |slots| - 1;
    if i < last {
      assert slots[i := y][..last] == slots[..last][i := y];
      CountUpdate(slots[..last], i, y, x);
    } else {
      assert slots[i := y][..last] == slots[..last];
    }
  }

  lemma TimesAppend(log: seq<Envelope>, e: Envelope, d: nat)
    ensures Times(log + [e], d) == Times(log, d) + if e.dispatch == d then 1 else 0
  {
    assert (log + [e])[..|log|] == log;
  }

  lemma {:induction false} TimesBound(log: seq<Envelope>, d: nat)
    requires forall e | e in log :: e.dispatch < d
    ensures Times(log, d) == 0
  {
    if log != [] {
      TimesBound(log[..|log| - 1], d);
    }
  }

  lemma CreateKeepsTable(s: State, tag: Tag, cap: nat)
    requires Inv(s) && Enabled(s, Create(tag, cap))
    ensures TableSound(Next(s, Create(tag, cap)))
    ensures RegisteredIffOpen(Next(s, Create(tag, cap)))
  {
    var s' := Next(s, Create(tag, cap));
    var l := Listeners(s.table, tag);
    assert |s.chans| !in l;
    assert forall c :: c in Listeners(s'.table, tag) <==> c in l || c == |s.chans|;
    assert forall other | other != tag :: Listeners(s'.table, other) == Listeners(s.table, other);
  }

  lemma CreateKeeps(s: State, tag: Tag, cap: nat)
    requires Inv(s) && Enabled(s, Create(tag, cap))
    ensures Inv(Next(s, Create(tag, cap)))
  {
    var s' := Next(s, Create(tag, cap));
    CreateKeepsTable(s, tag, cap);
    forall d | 0 <= d < |s.dispatches|
      ensures DispatchSound(s', s.dispatches[d])
      ensures SentTo(s.dispatches[d], |s.chans|) == 0
    {
      assert DispatchSound(s, s.dispatches[d]);
      assert !Reading(s, d);
      assert |s.chans| !in s.dispatches[d].list;
    }
  }

  lemma BeginKeepsOnce(s: State, tag: Tag, msg: Message)
    requires Inv(s) && Enabled(s, Begin(tag, msg))
    ensures ExactlyOnce(Next(s, Begin(tag, msg)))
  {
    var s' := Next(s, Begin(tag, msg));
    forall c, d {:trigger Times(s'.chans[c].log, d)} | 0 <= c < |s'.chans| && 0 <= d < |s'.dispatches|
      ensures Times(s'.chans[c].log, d) == SentTo(s'.dispatches[d], c)
    {
      if d < |s.dispatches| {
        assert Times(s.chans[c].log, d) == SentTo(s.dispatches[d], c);
      } else {
        TimesBound(s.chans[c].log, d);
      }
    }
  }

  lemma BeginKeeps(s: State, tag: Tag, msg: Message)
    requires Inv(s) && Enabled(s, Begin(tag, msg))
    ensures Inv(Next(s, Begin(tag, msg)))
  {
    var s' := Next(s, Begin(tag, msg));
    BeginKeepsOnce(s, tag, msg);
    forall d | 0 <= d < |s'.dispatches| ensures DispatchSound(s', s'.dispatches[d]) {
      if d < |s.dispatches| {
        assert DispatchSound(s, s.dispatches[d]);
      }
    }
  }

  lemma IndexOfDistinct<T>(s: seq<T>, i: nat)
    requires Distinct(s) && i < |s|
    ensures IndexOf(s, s[i]) == i
  {
    assert s[i] in s[..i + 1];
  }

  lemma SlotKeepsDispatches(s: State, s': State, d: nat, i: nat, slot: Slot)
    requires Inv(s) && AtSlot(s, d, i, Pending) && (slot == Sent || slot == TimedOut)
    requires s'.table == s.table && s'.writer == s.writer
    requires |s'.chans| == |s.chans|
    requires forall c | 0 <= c < |s.chans| ::
               s'.chans[c].tag == s.chans[c].tag && s'.chans[c].closed == s.chans[c].closed
    requires s'.dispatches == SetSlot(s, d, i, slot)
    ensures forall k | 0 <= k < |s'.dispatches| :: DispatchSound(s', s'.dispatches[k])
  {
    var dp := s.dispatches[d];
    forall k | 0 <= k < |s'.dispatches| ensures DispatchSound(s', s'.dispatches[k]) {
      assert DispatchSound(s, s.dispatches[k]);
      if k == d {
        CountUpdate(dp.slots, i, slot, Marked);
        assert forall j | 0 <= j < |dp.slots| :: dp.slots[j] == Marked <==> s'.dispatches[d].slots[j] == Marked;
      }
    }
  }

  lemma SentToAfterSend(dp: Dispatch, i: nat, k: nat)
    requires |dp.slots| == |dp.list| && Distinct(dp.list) && i < |dp.slots| && dp.slots[i] == Pending
    ensures SentTo(dp.(slots := dp.slots[i := Sent]), k) == SentTo(dp, k) + if k == dp.list[i] then 1 else 0
  {
    IndexOfDistinct(dp.list, i);
  }

  /** The effect of a successful send on the counts, buffered or handed over. */
  lemma SendKeepsOnce(s: State, s': State, d: nat, i: nat)
    requires Inv(s) && AtSlot(s, d, i, Pending)
    requires s'.dispatches == SetSlot(s, d, i, Sent)
    requires |s'.chans| == |s.chans|
    requires var e, c := Envelope(d, s.dispatches[d].msg), s.dispatches[d].list[i];
             forall k | 0 <= k < |s.chans| ::
               s'.chans[k].log == if k == c then s.chans[k].log + [e] else s.chans[k].log
    ensures ExactlyOnce(s')
  {
    var dp, c := s.dispatches[d], s.dispatches[d].list[i];
    var e := Envelope(d, dp.msg);
    assert DispatchSound(s, dp);
    hide Times, SentTo, IndexOf, Count, TableSound, RegisteredIffOpen, WriterSound;
    forall k, m {:trigger Times(s'.chans[k].log, m)} | 0 <= k < |s'.chans| && 0 <= m < |s'.dispatches|
      ensures Times(s'.chans[k].log, m) == SentTo(s'.dispatches[m], k)
    {
      var before := Times(s.chans[k].log, m);
      SentToAfterSend(dp, i, k);
      TimesAppend(s.chans[k].log, e, m);
    }
    forall k, x | 0 <= k < |s'.chans| && x in s'.chans[k].log
      ensures x.dispatch < |s'.dispatches| && x.msg == s'.dispatches[x.dispatch].msg
    {
      assert x in s.chans[k].log || x == e;
    }
  }

  /** Nothing is sent: exactly-once carries over. */
  lemma OnceKeeps(s: State, s': State)
    requires ExactlyOnce(s)
    requires |s'.chans| == |s.chans| && |s'.dispatches| == |s.dispatches|
    requires forall c | 0 <= c < |s.chans| :: s'.chans[c].log == s.chans[c].log
    requires forall d | 0 <= d < |s.dispatches| :: SameSends(s.dispatches[d], s'.dispatches[d])
    ensures ExactlyOnce(s')
  {
    assert forall d | 0 <= d < |s.dispatches| :: |s'.dispatches[d].slots| == |s'.dispatches[d].list| by {
      forall d | 0 <= d < |s.dispatches| ensures |s'.dispatches[d].slots| == |s'.dispatches[d].list| {
        assert SameSends(s.dispatches[d], s'.dispatches[d]);
      }
    }
    forall c, d {:trigger Times(s'.chans[c].log, d)} | 0 <= c < |s'.chans| && 0 <= d < |s'.dispatches|
      ensures Times(s'.chans[c].log, d) == SentTo(s'.dispatches[d], c)
    {
      assert SameSends(s.dispatches[d], s'.dispatches[d]);
      assert Times(s.chans[c].log, d) == SentTo(s.dispatches[d], c);
    }
  }

  /** Nothing is sent, closed or (un)registered: three parts of the invariant carry over. */
  lemma QuietKeeps(s: State, s': State)
    requires Inv(s)
    requires s'.table == s.table && !s'.panicked
    requires |s'.chans| == |s.chans| && |s'.dispatches| == |s.dispatches|
    requires forall c | 0 <= c < |s.chans| ::
               s'.chans[c].log == s.chans[c].log && s'.chans[c].tag == s.chans[c].tag
               && s'.chans[c].closed == s.chans[c].closed
    requires forall d | 0 <= d < |s.dispatches| :: SameSends(s.dispatches[d], s'.dispatches[d])
    requires forall c | 0 <= c < |s.chans| :: BeingClosed(s, c) == BeingClosed(s', c)
    ensures TableSound(s') && RegisteredIffOpen(s') && ExactlyOnce(s')
  {
    OnceKeeps(s, s');
  }

  ghost predicate SameSends(a: Dispatch, b: Dispatch) {
    a.msg == b.msg && |a.slots| == |a.list| && |b.slots| == |b.list|
    && forall c: nat :: SentTo(a, c) == SentTo(b, c)
  }

  /** The other dispatches need no attention when a step touches one of them only. */
  lemma OthersSendTheSame(s: State, s': State, d: nat)
    requires forall k | 0 <= k < |s.dispatches| :: DispatchSound(s, s.dispatches[k])
    requires d < |s.dispatches| == |s'.dispatches|
    requires s'.dispatches == s.dispatches[d := s'.dispatches[d]]
    requires SameSends(s.dispatches[d], s'.dispatches[d])
    ensures forall k | 0 <= k < |s.dispatches| :: SameSends(s.dispatches[k], s'.dispatches[k])
  {
  }

  lemma ReadLockKeeps(s: State, d: nat)
    requires Inv(s) && Enabled(s, ReadLock(d))
    ensures Inv(Next(s, ReadLock(d)))
  {
    var s', dp := Next(s, ReadLock(d)), s.dispatches[d];
    assert DispatchSound(s, dp);
    OthersSendTheSame(s, s', d);
    QuietKeeps(s, s');
    var l := Listeners(s.table, dp.tag);
    assert forall c | c in l :: c < |s.chans| && s.chans[c].tag == dp.tag;
    assert Distinct(l);
    NoSlot(|l|);
    forall k | 0 <= k < |s'.dispatches| ensures DispatchSound(s', s'.dispatches[k]) {
      assert DispatchSound(s, s.dispatches[k]);
    }
  }

  lemma NoSlot(n: nat)
    ensures Count(seq(n, _ => Pending), Marked) == 0
  {
  }

  lemma SendTarget(s: State, d: nat, i: nat)
    requires Inv(s) && AtSlot(s, d, i, Pending)
    ensures var c := s.dispatches[d].list[i]; !s.chans[c].closed && ChannelSound(s.chans[c])
  {
    var dp, c := s.dispatches[d], s.dispatches[d].list[i];
    assert DispatchSound(s, dp);
    assert c in dp.list;
    assert Registered(s, c);
  }

  lemma AcceptedKeeps(s: State, s': State, d: nat, i: nat, ch: Channel)
    requires Inv(s) && AtSlot(s, d, i, Pending)
    requires var c := s.dispatches[d].list[i];
      && s' == s.(chans := s.chans[c := ch], dispatches := SetSlot(s, d, i, Sent))
      && ch.tag == s.chans[c].tag && ch.closed == s.chans[c].closed && ChannelSound(ch)
      && ch.log == s.chans[c].log + [Envelope(d, s.dispatches[d].msg)]
    ensures Inv(s')
  {
    SlotKeepsDispatches(s, s', d, i, Sent);
    SendKeepsOnce(s, s', d, i);
  }

  lemma SendKeeps(s: State, step: Step)
    requires Inv(s) && Enabled(s, step) && (step.Send? || step.HandOver?)
    ensures Inv(Next(s, step))
  {
    var d, i := step.d, step.i;
    var c, e := s.dispatches[d].list[i], Envelope(d, s.dispatches[d].msg);
    SendTarget(s, d, i);
    if step.Send? {
      AcceptedKeeps(s, Next(s, step), d, i, Accept(s.chans[c], e));
    } else {
      AcceptedKeeps(s, Next(s, step), d, i, Pass(s.chans[c], e));
    }
  }

  lemma TimeOutKeeps(s: State, d: nat, i: nat)
    requires Inv(s) && Enabled(s, TimeOut(d, i))
    ensures Inv(Next(s, TimeOut(d, i)))
  {
    var s' := Next(s, TimeOut(d, i));
    SlotKeepsDispatches(s, s', d, i, TimedOut);
    OthersSendTheSame(s, s', d);
    QuietKeeps(s, s');
  }

  lemma MarkKeeps(s: State, d: nat, i: nat)
    requires Inv(s) && Enabled(s, Mark(d, i))
    ensures Inv(Next(s, Mark(d, i)))
  {
    var s' := Next(s, Mark(d, i));
    MarkedSound(s, d, i);
    OthersSendTheSame(s, s', d);
    QuietKeeps(s, s');
    hide Count, Times, SentTo, IndexOf, ExactlyOnce, TableSound, RegisteredIffOpen;
    forall k | 0 <= k < |s'.dispatches| ensures DispatchSound(s', s'.dispatches[k]) {
      assert DispatchSound(s, s.dispatches[k]);
    }
  }

  lemma MarkedSound(s: State, d: nat, i: nat)
    requires Inv(s) && Enabled(s, Mark(d, i))
    ensures var s' := Next(s, Mark(d, i)); DispatchSound(s', s'.dispatches[d])
    ensures SameSends(s.dispatches[d], Next(s, Mark(d, i)).dispatches[d])
  {
    var s', dp := Next(s, Mark(d, i)), s.dispatches[d];
    hide Count, Times, ExactlyOnce, TableSound, RegisteredIffOpen;
    assert DispatchSound(s, dp);
    CountUpdate(dp.slots, i, Marked, Marked);
    var slots' := s'.dispatches[d].slots;
    forall c
      ensures c in s'.dispatches[d].marked <==>
              exists j :: 0 <= j < |slots'| && slots'[j] == Marked && dp.list[j] == c
    {
      if c == dp.list[i] {
        assert slots'[i] == Marked;
      } else if c in dp.marked {
        var j :| 0 <= j < |dp.slots| && dp.slots[j] == Marked && dp.list[j] == c;
        assert slots'[j] == Marked;
      }
    }
  }

  lemma ReadUnlockKeeps(s: State, d: nat)
    requires Inv(s) && Enabled(s, ReadUnlock(d))
    ensures Inv(Next(s, ReadUnlock(d)))
  {
    var s' := Next(s, ReadUnlock(d));
    OthersSendTheSame(s, s', d);
    QuietKeeps(s, s');
    hide Count, Times, SentTo, IndexOf, Remove, RemoveAll, ExactlyOnce, TableSound, RegisteredIffOpen;
    forall k | 0 <= k < |s'.dispatches| ensures DispatchSound(s', s'.dispatches[k]) {
      assert DispatchSound(s, s.dispatches[k]);
    }
  }

  lemma SkipCleanupKeeps(s: State, d: nat)
    requires Inv(s) && Enabled(s, SkipCleanup(d))
    ensures Inv(Next(s, SkipCleanup(d)))
  {
    var s' := Next(s, SkipCleanup(d));
    OthersSendTheSame(s, s', d);
    QuietKeeps(s, s');
    hide Count, Times, SentTo, IndexOf, Remove, RemoveAll, ExactlyOnce, TableSound, RegisteredIffOpen;
    forall k | 0 <= k < |s'.dispatches| ensures DispatchSound(s', s'.dispatches[k]) {
      assert DispatchSound(s, s.dispatches[k]);
    }
  }

  lemma LockCleanupKeeps(s: State, d: nat)
    requires Inv(s) && Enabled(s, LockCleanup(d))
    ensures Inv(Next(s, LockCleanup(d)))
  {
    hide Count, Times, IndexOf, Remove, RemoveAll;
    var s', dp := Next(s, LockCleanup(d)), s.dispatches[d];
    assert DispatchSound(s, dp);
    assert forall c | c in dp.marked :: c in dp.list;
    OthersSendTheSame(s, s', d);
    QuietKeeps(s, s');
    LockKeepsDispatches(s, s');
  }

  lemma LockCallbackKeeps(s: State, c: nat)
    requires Inv(s) && Enabled(s, LockCallback(c))
    ensures Inv(Next(s, LockCallback(c)))
  {
    hide Count, Times, IndexOf, Remove, RemoveAll, DispatchSound;
    var s' := Next(s, LockCallback(c));
    QuietKeeps(s, s');
    LockKeepsDispatches(s, s');
  }

  /** No dispatch is reading when the write lock is taken, and one may go on to its clean-up. */
  lemma LockKeepsDispatches(s: State, s': State)
    requires Inv(s) && CanWrite(s) && s'.table == s.table && s'.chans == s.chans
    requires |s'.dispatches| == |s.dispatches|
    requires forall k | 0 <= k < |s.dispatches| :: s'.dispatches[k] == s.dispatches[k]
               || (s.dispatches[k].phase == Released && s'.dispatches[k] == s.dispatches[k].(phase := Cleaning))
    ensures forall k | 0 <= k < |s'.dispatches| :: DispatchSound(s', s'.dispatches[k])
  {
    forall k | 0 <= k < |s'.dispatches| ensures DispatchSound(s', s'.dispatches[k]) {
      assert DispatchSound(s, s.dispatches[k]);
      assert !Reading(s, k);
    }
  }

  lemma TakeFirstSound(c: Channel)
    requires ChannelSound(c) && c.buf != []
    ensures ChannelSound(TakeFirst(c))
  {
    assert c.buf == [c.buf[0]] + c.buf[1..];
  }

  lemma ReceiveKeeps(s: State, c: nat)
    requires Inv(s) && Enabled(s, Receive(c))
    ensures Inv(Next(s, Receive(c)))
  {
    var s' := Next(s, Receive(c));
    TakeFirstSound(s.chans[c]);
    QuietKeeps(s, s');
    forall k | 0 <= k < |s'.dispatches| ensures DispatchSound(s', s'.dispatches[k]) {
      assert DispatchSound(s, s.dispatches[k]);
    }
  }

  lemma RemoveKeepsTableSound(s: State, tag: Tag, c: nat)
    requires TableSound(s)
    ensures TableSound(s.(table := Remove(s.table, tag, c)))
  {
    var t := Remove(s.table, tag, c);
    RemoveEffect(s.table, tag, c);
    forall other, k {:trigger k in t[other]} | other in t && k in t[other]
      ensures k < |s.chans| && s.chans[k].tag == other
    {
      assert k in Listeners(t, other);
      assert k in Listeners(s.table, other);
    }
  }

  /** Deleting a listener: it leaves the table, and SafeClose is bound to close it, because a
      registered channel is still open. A listener already gone is left alone. */
  lemma DeleteNextKeepsTable(s: State)
    requires Inv(s) && Enabled(s, DeleteNext)
    ensures TableSound(Next(s, DeleteNext)) && RegisteredIffOpen(Next(s, DeleteNext))
    ensures Next(s, DeleteNext).writer.closing
         == if s.writer.todo[0] in Listeners(s.table, s.writer.tag) then Some(s.writer.todo[0]) else None
  {
    hide Count, Times, SentTo, IndexOf, Remove, RemoveAll, ExactlyOnce, DispatchSound;
    var s', w, c := Next(s, DeleteNext), s.writer, s.writer.todo[0];
    assert s.chans[c].tag == w.tag;
    RemoveEffect(s.table, w.tag, c);
    RemoveKeepsTableSound(s, w.tag, c);
    assert Registered(s, c) ==> WillClose(s.chans[c]);
    forall k | 0 <= k < |s'.chans|
      ensures Registered(s', k) <==> !s'.chans[k].closed && !BeingClosed(s', k)
    {
      assert Registered(s', k) <==> Registered(s, k) && k != c;
    }
  }

  /** Under the write lock no dispatch is reading, so the table may change beneath them. */
  lemma WriterKeepsDispatches(s: State, s': State)
    requires Inv(s) && s.writer.Held?
    requires s'.dispatches == s.dispatches && |s'.chans| == |s.chans|
    requires forall c | 0 <= c < |s.chans| ::
               s'.chans[c].tag == s.chans[c].tag && (s.chans[c].closed ==> s'.chans[c].closed)
    ensures forall k | 0 <= k < |s'.dispatches| ::
              DispatchSound(s', s'.dispatches[k]) && SameSends(s.dispatches[k], s'.dispatches[k])
  {
    forall k | 0 <= k < |s.dispatches| ensures DispatchSound(s', s.dispatches[k]) {
      assert DispatchSound(s, s.dispatches[k]);
    }
  }

  lemma DeleteNextKeepsWriter(s: State)
    requires Inv(s) && Enabled(s, DeleteNext)
    ensures WriterSound(Next(s, DeleteNext))
  {
    var s', w, c := Next(s, DeleteNext), s.writer, s.writer.todo[0];
    var w' := s'.writer;
    DeleteNextKeepsTable(s);
    assert c in w.all && s.chans[c].tag == w.tag;
    assert Registered(s, c) <==> !s.chans[c].closed;
    forall k | k in w.all && k !in w'.todo
      ensures s'.chans[k].closed || w'.closing == Some(k)
    {
      assert k == c || k !in w.todo;
    }
    assert w'.all == w.all && w'.entry == w.entry && w'.tag == w.tag && w'.dispatch == w.dispatch;
    assert s'.table == Remove(s.table, w.tag, c);
  }

  lemma DeleteNextKeeps(s: State)
    requires Inv(s) && Enabled(s, DeleteNext)
    ensures Inv(Next(s, DeleteNext))
  {
    var s', c := Next(s, DeleteNext), s.writer.todo[0];
    DeleteNextKeepsTable(s);
    DeleteNextKeepsWriter(s);
    if s.chans[c].buf != [] {
      TakeFirstSound(s.chans[c]);
    }
    assert ChannelSound(SelectReceive(s.chans[c]));
    WriterKeepsDispatches(s, s');
    OnceKeeps(s, s');
  }

  lemma CloseNowKeeps(s: State)
    requires Inv(s) && Enabled(s, CloseNow)
    ensures Inv(Next(s, CloseNow))
  {
    hide Count, Times, SentTo, IndexOf, Remove;
    var s', c := Next(s, CloseNow), s.writer.closing.value;
    assert BeingClosed(s, c);
    WriterKeepsDispatches(s, s');
    OnceKeeps(s, s');
  }

  lemma UnlockedSound(s: State)
    requires Inv(s) && Enabled(s, Unlock)
    ensures var s' := Next(s, Unlock); forall k | 0 <= k < |s'.dispatches| :: DispatchSound(s', s'.dispatches[k])
  {
    hide Count, Times, SentTo, IndexOf, Remove, RemoveAll, ExactlyOnce, TableSound, RegisteredIffOpen;
    var s' := Next(s, Unlock);
    forall k | 0 <= k < |s'.dispatches| ensures DispatchSound(s', s'.dispatches[k]) {
      assert DispatchSound(s, s.dispatches[k]);
    }
  }

  lemma UnlockKeeps(s: State)
    requires Inv(s) && Enabled(s, Unlock)
    ensures Inv(Next(s, Unlock))
  {
    UnlockedSound(s);
    QuietKeeps(s, Next(s, Unlock));
  }

  lemma StepKeeps(s: State, step: Step)
    requires Inv(s) && Enabled(s, step)
    ensures Inv(Next(s, step))
  {
    match step
    case Create(tag, cap) => CreateKeeps(s, tag, cap);
    case Begin(tag, msg) => BeginKeeps(s, tag, msg);
    case ReadLock(d) => ReadLockKeeps(s, d);
    case Send(_, _) => SendKeeps(s, step);
    case HandOver(_, _) => SendKeeps(s, step);
    case TimeOut(d, i) => TimeOutKeeps(s, d, i);
    case Mark(d, i) => MarkKeeps(s, d, i);
    case ReadUnlock(d) => ReadUnlockKeeps(s, d);
    case SkipCleanup(d) => SkipCleanupKeeps(s, d);
    case LockCleanup(d) => LockCleanupKeeps(s, d);
    case LockCallback(c) => LockCallbackKeeps(s, c);
    case DeleteNext => DeleteNextKeeps(s);
    case CloseNow => CloseNowKeeps(s);
    case Unlock => UnlockKeeps(s);
    case Receive(c) => ReceiveKeeps(s, c);
  }

  // ---------------------------------------------------------------- whole runs

  predicate CanRun(s: State, steps: seq<Step>)
    decreases |steps|
  {
    steps == [] || (Enabled(s, steps[0]) && CanRun(Next(s, steps[0]), steps[1..]))
  }

  function Run(s: State, steps: seq<Step>): State
    requires CanRun(s, steps)
    decreases |steps|
  {
    if steps == [] then s else Run(Next(s, steps[0]), steps[1..])
  }

  lemma {:induction false} RunKeeps(s: State, steps: seq<Step>)
    requires Inv(s) && CanRun(s, steps)
    ensures Inv(Run(s, steps))
    decreases |steps|
  {
    if steps != [] {
      StepKeeps(s, steps[0]);
      RunKeeps(Next(s, steps[0]), steps[1..]);
    }
  }

  /** Channel safety over every run: no close of a closed channel and no send on one, while
      SafeClose by itself would go on to close a closed channel that still holds messages. */
  lemma NoPanic(steps: seq<Step>)
    requires CanRun(INIT, steps)
    ensures !Run(INIT, steps).panicked
  {
    RunKeeps(INIT, steps);
  }

  /** A position of a channel in the table. */
  ghost predicate At(s: State, c: nat, tag: Tag, i: nat) {
    tag in s.table && i < |s.table[tag]| && s.table[tag][i] == c
  }

  /** In every reachable state a channel sits in the table at exactly one tag and position
      while it is open (and not the one being closed right now), and nowhere after that. */
  lemma OneHomeWhileOpen(steps: seq<Step>, c: nat)
    requires CanRun(INIT, steps) && c < |Run(INIT, steps).chans|
    ensures var s := Run(INIT, steps);
      if s.chans[c].closed || BeingClosed(s, c) then
        forall tag, i :: !At(s, c, tag, i)
      else exists i ::
        At(s, c, s.chans[c].tag, i)
        && forall tag, j :: At(s, c, tag, j) ==> tag == s.chans[c].tag && j == i
  {
    var s := Run(INIT, steps);
    RunKeeps(INIT, steps);
    forall tag, i | At(s, c, tag, i) ensures tag == s.chans[c].tag && Registered(s, c) {
      assert c in s.table[tag];
    }
    if Registered(s, c) {
      var tag := s.chans[c].tag;
      var i := IndexOf(s.table[tag], c);
      assert At(s, c, tag, i);
      forall j | At(s, c, tag, j) ensures j == i {
        IndexOfDistinct(s.table[tag], j);
      }
    }
  }

  /** What a dispatch does to its listeners, whatever runs beside it. Once it has let go of the
      read lock, every listener of the list it read has either accepted the message exactly
      once, or never accepted it and is marked; no other channel ever accepted it. When it is
      done, the marked ones are closed and in no list. */
  lemma DispatchEffect(steps: seq<Step>, d: nat)
    requires CanRun(INIT, steps) && d < |Run(INIT, steps).dispatches|
    ensures var s := Run(INIT, steps); var dp := s.dispatches[d];
      && |dp.slots| == |dp.list|
      && (forall i | 0 <= i < |dp.list| :: dp.list[i] < |s.chans|)
      && (dp.phase != Sending ==> forall i | 0 <= i < |dp.list| ::
            if Times(s.chans[dp.list[i]].log, d) == 1 then dp.list[i] !in dp.marked
            else Times(s.chans[dp.list[i]].log, d) == 0 && dp.list[i] in dp.marked)
      && (forall c | 0 <= c < |s.chans| && c !in dp.list :: Times(s.chans[c].log, d) == 0)
      && (dp.phase == Done ==> forall c | c in dp.marked :: c < |s.chans| && s.chans[c].closed && !Registered(s, c))
  {
    var s := Run(INIT, steps);
    var dp := s.dispatches[d];
    RunKeeps(INIT, steps);
    assert DispatchSound(s, dp);
    assert forall i | 0 <= i < |dp.list| :: dp.list[i] in dp.list;
    forall i | 0 <= i < |dp.list|
      ensures Times(s.chans[dp.list[i]].log, d) == if dp.slots[i] == Sent then 1 else 0
      ensures dp.list[i] in dp.marked <==> dp.slots[i] == Marked
    {
      IndexOfDistinct(dp.list, i);
      assert forall j | 0 <= j < |dp.list| && dp.list[j] == dp.list[i] :: j == i;
    }
  }

  /** What a critical section leaves in the table. When a clean-up (or a callback) unlocks, the
      table is the one it found with exactly its channels gone; other tags are untouched, the
      tag keeps a key iff some listener survives, and all its channels are closed. */
  lemma CriticalSectionEffect(steps: seq<Step>)
    requires CanRun(INIT, steps) && Enabled(Run(INIT, steps), Unlock)
    ensures var s := Run(INIT, steps); var w := s.writer;
      && s.table == RemoveAll(w.entry, w.tag, w.all)
      && (forall c :: c in Listeners(s.table, w.tag) <==> c in Listeners(w.entry, w.tag) && c !in w.all)
      && (w.tag in s.table <==> exists c :: c in Listeners(w.entry, w.tag) && c !in w.all)
      && (forall other | other != w.tag :: Listeners(s.table, other) == Listeners(w.entry, other))
      && (forall c | c in w.all :: c < |s.chans| && s.chans[c].closed)
  {
    var s := Run(INIT, steps);
    RunKeeps(INIT, steps);
    RemoveAllEffect(s.writer.entry, s.writer.tag, s.writer.all);
  }

  // ---------------------------------------------------------------- SafeClose on its own

  /** SafeClose run alone on one channel: None is a panic. */
  function SafeClose(c: Channel): Option<Channel> {
    if !WillClose(c) then Some(SelectReceive(c))
    else if c.closed then None
    else Some(SelectReceive(c).(closed := true))
  }

  /** Closing twice is harmless for a drained channel and fatal for one that still holds
      messages: safety of the registry cannot come from SafeClose. */
  lemma SafeCloseTwice(c: Channel)
    requires !c.closed
    ensures SafeClose(c).Some?
    ensures SafeClose(SafeClose(c).value).None? <==> |c.buf| >= 2
  {
  }
}
