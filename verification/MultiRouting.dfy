/** Routing between named clients: messages carry a name, a NUL and the payload, and each of the two
    connections on the way cuts off what its read buffer cannot hold. */
module MultiRouting {

  import opened Common

  const NUL: byte := 0

  /** getBufferForMessage */
  function Frame(name: Bytes, payload: Bytes): Bytes {
    name + [NUL] + payload
  }

  /** strings.Index(buf, NUL), -1 if there is none. */
  function IndexOfNul(buf: Bytes): (i: int)
    ensures -1 <= i < |buf|
    ensures i == -1 <==> NUL !in buf
    ensures i >= 0 ==> buf[i] == NUL && NUL !in buf[..i]
  {
    if buf == [] then -1
    else if buf[0] == NUL then 0
    else
      var i := IndexOfNul(buf[1..]);
      assert buf == [buf[0]] + buf[1..];
      assert i >= 0 ==> buf[..i + 1] == [buf[0]] + buf[1..][..i];
      if i < 0 then -1 else i + 1
  }

  datatype Received = Nothing | NoIdentifier | Message(from: Bytes, payload: Bytes)

  /** receiveInternal, on what the connection gave (nil and empty alike give nothing). */
  function Receive(buf: Bytes): Received {
    if |buf| == 0 then Nothing
    else
      var i := IndexOfNul(buf);
      if i <= 0 then NoIdentifier else Message(buf[..i], buf[i + 1..])
  }

  /** endpointListener's split of a non-empty buffer; a missing NUL is treated as index 0. */
  function Destination(buf: Bytes): (Bytes, Bytes)
    requires buf != []
  {
    var i := if IndexOfNul(buf) < 0 then 0 else IndexOfNul(buf);
    (buf[..i], buf[i + 1..])
  }

  /** What Send reports when the connection wrote n bytes of the frame. */
  function Reported(dest: Bytes, payload: Bytes, n: int): int {
    var extra := |Frame(dest, payload)| - |payload|;
    if n >= extra then n - extra else n
  }

  lemma FrameIndex(name: Bytes, payload: Bytes)
    ensures NUL !in name ==> IndexOfNul(Frame(name, payload)) == |name|
    ensures NUL in name ==> IndexOfNul(Frame(name, payload)) < |name|
  {
    var buf := Frame(name, payload);
    var i := IndexOfNul(buf);
    NulAtOrAfter(buf, |name|);
    if NUL in name {
      var k :| 0 <= k < |name| && name[k] == NUL;
      assert buf[k] == NUL;
      NulAtOrAfter(buf, k);
    } else {
      forall k | 0 <= k < |name| ensures buf[k] != NUL {
        assert name[k] in name;
      }
    }
  }

  lemma NulAtOrAfter(buf: Bytes, k: nat)
    requires k < |buf| && buf[k] == NUL
    ensures 0 <= IndexOfNul(buf) <= k
  {
  }

  /** A framed message comes back as sent exactly when the name is non-empty and has no NUL; the
      payload may hold anything, NULs included. */
  lemma ReceiveRoundTrip(from: Bytes, payload: Bytes)
    ensures Receive(from + [0] + payload) == Message(from, payload) <==> from != [] && 0 !in from
  {
    FrameIndex(from, payload);
    var buf := Frame(from, payload);
    assert buf[..|from|] == from && buf[|from| + 1..] == payload;
    if NUL in from {
      assert |buf[..IndexOfNul(buf)]| < |from|;
    }
  }

  lemma DestinationRoundTrip(dest: Bytes, payload: Bytes)
    ensures Destination(dest + [0] + payload) == (dest, payload) <==> 0 !in dest
  {
    FrameIndex(dest, payload);
    var buf := Frame(dest, payload);
    assert buf[..|dest|] == dest && buf[|dest| + 1..] == payload;
    if NUL in dest {
      assert |buf[..IndexOfNul(buf)]| < |dest|;
    }
  }

  /** Send reports the payload length if the whole frame was written, and besides that only when
      a write no longer than the header happens to be as long as the payload. */
  lemma ReportedIsPayloadLength(dest: Bytes, payload: Bytes, n: nat)
    requires n <= |Frame(dest, payload)|
    ensures Reported(dest, payload, n) == |payload| <==>
              n == |Frame(dest, payload)| || (n == |payload| && n < |dest| + 1)
  {
  }

  // ---------------------------------------------------------------- through the connections

  /** As much of a buffer as there is room for. */
  function Head(buf: Bytes, room: int): Bytes {
    if room <= 0 then [] else if |buf| <= room then buf else buf[..room]
  }

  /** The name under which the server looks for the receiver: a name that leaves no room for its
      NUL is lost. */
  function GoesTo(dest: Bytes): Bytes {
    if |dest| < BUFFER_SIZE then dest else []
  }

  /** The bytes the server passes on. */
  function PassedOn(dest: Bytes, payload: Bytes): Bytes {
    if |dest| < BUFFER_SIZE then Head(payload, BUFFER_SIZE - 1 - |dest|) else dest[1..BUFFER_SIZE]
  }

  /** What the receiving client makes of bytes passed on to it. */
  function Arrival(from: Bytes, buf: Bytes): Received {
    if |from| < BUFFER_SIZE then Message(from, Head(buf, BUFFER_SIZE - 1 - |from|)) else NoIdentifier
  }

  lemma CutFrame(name: Bytes, payload: Bytes)
    requires NUL !in name
    ensures var buf := Cut(Frame(name, payload));
      if |name| < BUFFER_SIZE then
        buf == Frame(name, Head(payload, BUFFER_SIZE - 1 - |name|)) && IndexOfNul(buf) == |name|
      else
        buf == name[..BUFFER_SIZE] && IndexOfNul(buf) == -1
  {
    var buf := Cut(Frame(name, payload));
    if |name| < BUFFER_SIZE {
      var kept := Head(payload, BUFFER_SIZE - 1 - |name|);
      assert buf == Frame(name, kept);
      FrameIndex(name, kept);
    } else {
      assert buf == name[..BUFFER_SIZE];
    }
  }

  /** One message with well-formed names, of any length: where the server sends it, what it passes
      on, and what the receiver makes of that. */
  lemma OneMessage(from: Bytes, dest: Bytes, payload: Bytes)
    requires from != [] && NUL !in from && NUL !in dest
    ensures Cut(Frame(dest, payload)) != []
    ensures Destination(Cut(Frame(dest, payload))) == (GoesTo(dest), PassedOn(dest, payload))
    ensures Receive(Cut(Frame(from, payload))) == Arrival(from, payload)
  {
    SplitOfCut(dest, payload);
    CutFrame(from, payload);
    if |from| < BUFFER_SIZE {
      ReceiveRoundTrip(from, Head(payload, BUFFER_SIZE - 1 - |from|));
    }
  }

  lemma SplitOfCut(dest: Bytes, payload: Bytes)
    requires NUL !in dest
    ensures Cut(Frame(dest, payload)) != []
    ensures Destination(Cut(Frame(dest, payload))) == (GoesTo(dest), PassedOn(dest, payload))
  {
    CutFrame(dest, payload);
    if |dest| < BUFFER_SIZE {
      DestinationRoundTrip(dest, Head(payload, BUFFER_SIZE - 1 - |dest|));
    } else {
      assert dest[..BUFFER_SIZE][1..] == dest[1..BUFFER_SIZE];
    }
  }

  /** A message reaches the client it was meant for as it was sent exactly when it fits the read
      buffers on both legs, with the receiver's name and with the sender's. */
  lemma IntactIffBothFit(from: Bytes, dest: Bytes, payload: Bytes)
    ensures GoesTo(dest) == dest && Arrival(from, PassedOn(dest, payload)) == Message(from, payload)
       <==> |Frame(dest, payload)| <= 32768 && |Frame(from, payload)| <= 32768
  {
  }

  /** A payload that fills a read buffer by itself always loses its end. */
  lemma FullBufferIsCut(from: Bytes, dest: Bytes, payload: Bytes)
    requires |from| == |dest| == 1 && from[0] != NUL && dest[0] != NUL && |payload| == 32768
    ensures var (to, buf) := Destination(Cut(Frame(dest, payload)));
      to == dest && Receive(Cut(Frame(from, buf))) == Message(from, payload[..32766])
  {
    hide Cut, Frame, Destination, Receive;
    SplitOfCut(dest, payload);
    OneMessage(from, dest, PassedOn(dest, payload));
    assert PassedOn(dest, payload) == payload[..32766];
  }

  // ---------------------------------------------------------------- the server

  /** Connections are numbered; `names` gives what each said in its handshake. */
  datatype Event =
    | Register(conn: nat)                            // messageRoutine adds the client to its map
    | Sent(conn: nat, dest: Bytes, payload: Bytes)   // a client's Send reaches messageRoutine

  predicate Known(names: seq<Bytes>, events: seq<Event>) {
    forall i | 0 <= i < |events| :: events[i].conn < |names|
  }

  /** The connection that owns a name after some events: the last one registered under it. */
  function Owner(names: seq<Bytes>, events: seq<Event>, name: Bytes): (c: int)
    requires Known(names, events)
    ensures -1 <= c < |names|
  {
    if events == [] then -1
    else
      var ev := events[|events| - 1];
      if ev.Register? && names[ev.conn] == name then ev.conn
      else Owner(names, events[..|events| - 1], name)
  }

  /** Read from the history: the owner of a name is the connection that registered under it and after
      which no connection did; without any there is none. */
  lemma {:induction false} OwnerIsLastRegistered(names: seq<Bytes>, events: seq<Event>, name: Bytes, i: nat)
    requires Known(names, events) && i <= |events|
    requires forall j | i < j < |events| :: !RegistersAs(names, events, j, name)
    ensures i < |events| && RegistersAs(names, events, i, name) ==> Owner(names, events, name) == events[i].conn
    ensures i == 0 && (events == [] || !RegistersAs(names, events, 0, name)) ==> Owner(names, events, name) == -1
  {
    if events != [] {
      var before := events[..|events| - 1];
      assert forall j | 0 <= j < |before| ::
          RegistersAs(names, before, j, name) == RegistersAs(names, events, j, name);
      if i < |events| - 1 {
        assert !RegistersAs(names, events, |events| - 1, name);
        OwnerIsLastRegistered(names, before, name, i);
      } else if |events| == 1 {
        assert before == [];
      }
    }
  }

  predicate RegistersAs(names: seq<Bytes>, events: seq<Event>, i: nat, name: Bytes)
    requires Known(names, events) && i < |events|
  {
    events[i].Register? && names[events[i].conn] == name
  }

  /** The buffers written to connection c: each incoming frame is split as it was read, and
      forwarded to the owner of the part before its first NUL under the sender's name. */
  function Routed(names: seq<Bytes>, events: seq<Event>, c: nat): seq<Bytes>
    requires Known(names, events)
  {
    if events == [] then []
    else
      var before, ev := events[..|events| - 1], events[|events| - 1];
      Routed(names, before, c) +
      if ev.Register? then []
      else
        var (dest, buf) := Destination(Cut(Frame(ev.dest, ev.payload)));
        if Owner(names, before, dest) == c then [Frame(names[ev.conn], buf)] else []
  }

  /** What connection c receives, event by event. */
  function Addressed(names: seq<Bytes>, events: seq<Event>, c: nat): seq<Received>
    requires Known(names, events)
  {
    if events == [] then []
    else
      var before, ev := events[..|events| - 1], events[|events| - 1];
      Addressed(names, before, c) +
      if ev.Sent? && Owner(names, before, GoesTo(ev.dest)) == c
      then [Arrival(names[ev.conn], PassedOn(ev.dest, ev.payload))] else []
  }

  /** What connection c was meant to receive: every message sent to a name it owned at that moment,
      with the name of its sender, in order. */
  function Intended(names: seq<Bytes>, events: seq<Event>, c: nat): seq<Received>
    requires Known(names, events)
  {
    if events == [] then []
    else
      var before, ev := events[..|events| - 1], events[|events| - 1];
      Intended(names, before, c) +
      if ev.Sent? && Owner(names, before, ev.dest) == c then [Message(names[ev.conn], ev.payload)] else []
  }

  /** Every message meant for c fits the read buffers on both legs. */
  predicate AllFit(names: seq<Bytes>, events: seq<Event>, c: nat)
    requires Known(names, events)
  {
    events == [] ||
    var before, ev := events[..|events| - 1], events[|events| - 1];
    && AllFit(names, before, c)
    && (ev.Sent? && Owner(names, before, ev.dest) == c ==>
          |Frame(ev.dest, ev.payload)| <= 32768 && |Frame(names[ev.conn], ev.payload)| <= 32768)
  }

  function ReceiveAll(bufs: seq<Bytes>): seq<Received> {
    if bufs == [] then [] else ReceiveAll(bufs[..|bufs| - 1]) + [Receive(Cut(bufs[|bufs| - 1]))]
  }

  /** Senders are named and no name contains a NUL. */
  predicate WellNamed(names: seq<Bytes>, events: seq<Event>)
    requires Known(names, events)
  {
    forall i | 0 <= i < |events| && events[i].Sent? ::
      names[events[i].conn] != [] && NUL !in names[events[i].conn] && NUL !in events[i].dest
  }

  lemma ReceiveAllAppend(bufs: seq<Bytes>, buf: Bytes)
    ensures ReceiveAll(bufs + [buf]) == ReceiveAll(bufs) + [Receive(Cut(buf))]
  {
    assert (bufs + [buf])[..|bufs|] == bufs;
  }

  /** What the handshake lets through: names that are not empty and fit a read buffer. */
  predicate Registrable(names: seq<Bytes>) {
    forall c | 0 <= c < |names| :: names[c] != [] && |names[c]| <= 32768
  }

  lemma {:induction false} NobodyIsNameless(names: seq<Bytes>, events: seq<Event>)
    requires Known(names, events) && Registrable(names)
    ensures Owner(names, events, []) == -1
  {
    if events != [] {
      NobodyIsNameless(names, events[..|events| - 1]);
    }
  }

  /** End to end, over any run of the server and payloads of any length: with well-formed names
      every client receives exactly what the read buffers leave of each message, in order. */
  lemma {:induction false} EndToEnd(names: seq<Bytes>, events: seq<Event>, c: nat)
    requires Known(names, events) && WellNamed(names, events)
    ensures ReceiveAll(Routed(names, events, c)) == Addressed(names, events, c)
  {
    hide Frame, Destination, Receive, Owner, ReceiveAll, Cut, GoesTo, PassedOn, Arrival;
    if events == [] {
      NothingReceived();
    } else {
      var before, ev := events[..|events| - 1], events[|events| - 1];
      EndToEnd(names, before, c);
      var bufs, got := Routed(names, before, c), Addressed(names, before, c);
      assert bufs + [] == bufs && got + [] == got;
      if ev.Sent? {
        SplitOfCut(ev.dest, ev.payload);
        var passed := PassedOn(ev.dest, ev.payload);
        OneMessage(names[ev.conn], ev.dest, passed);
        ReceiveAllAppend(bufs, Frame(names[ev.conn], passed));
      }
    }
  }

  /** What is received is what was intended exactly when every message meant for the client fits. */
  lemma {:induction false} IntactIffAllFit(names: seq<Bytes>, events: seq<Event>, c: nat)
    requires Known(names, events) && Registrable(names)
    ensures |Addressed(names, events, c)| <= |Intended(names, events, c)|
    ensures Addressed(names, events, c) == Intended(names, events, c) <==> AllFit(names, events, c)
  {
    hide Frame, Owner, PassedOn, Arrival;
    if events != [] {
      var before, ev := events[..|events| - 1], events[|events| - 1];
      IntactIffAllFit(names, before, c);
      NobodyIsNameless(names, before);
      var got, meant := Addressed(names, before, c), Intended(names, before, c);
      assert got + [] == got && meant + [] == meant;
      if ev.Sent? {
        var from := names[ev.conn];
        IntactIffBothFit(from, ev.dest, ev.payload);
        SameEnd(got, meant, Arrival(from, PassedOn(ev.dest, ev.payload)), Message(from, ev.payload));
      }
    }
  }

  lemma SameEnd(a: seq<Received>, b: seq<Received>, x: Received, y: Received)
    ensures a + [x] == b + [y] <==> a == b && x == y
  {
    if a + [x] == b + [y] {
      assert |a + [x]| == |b + [y]|;
      assert a == (a + [x])[..|a|] && b == (b + [y])[..|b|];
      assert x == (a + [x])[|a|] && y == (b + [y])[|b|];
    }
  }

  lemma NothingReceived()
    ensures ReceiveAll([]) == []
  {
  }

  class Server {
    const names: seq<Bytes>
    var clients: map<Bytes, nat>
    var written: seq<seq<Bytes>>     // per connection, the buffers written to it

    ghost predicate Valid(events: seq<Event>)
      reads this
    {
      && Known(names, events)
      && (forall name :: name in clients <==> Owner(names, events, name) >= 0)
      && (forall name | name in clients :: clients[name] == Owner(names, events, name))
      && |written| == |names|
      && (forall c | 0 <= c < |names| :: written[c] == Routed(names, events, c))
    }

    constructor (names: seq<Bytes>)
      ensures this.names == names && Valid([])
    {
      this.names := names;
      clients := map[];
      written := seq(|names|, _ => []);
    }

    /** messageRoutine on a message that a connection's listener has split. */
    method Forward(conn: nat, dest: Bytes, payload: Bytes, ghost events: seq<Event>)
      requires Valid(events) && conn < |names|
      modifies this`written
      ensures Valid(events + [Sent(conn, dest, payload)])
    {
      hide Frame, Destination, Owner, Cut;
      ghost var all := events + [Sent(conn, dest, payload)];
      assert all[..|events|] == events;
      OwnerAfter(names, events, all[|events|]);
      var incoming := Cut(Frame(dest, payload));
      FrameNonEmpty(dest, payload);
      var (name, buf) := Destination(incoming);
      if name in clients {
        var c := clients[name];
        written := written[c := written[c] + [Frame(names[conn], buf)]];
      }
    }

    /** messageRoutine on a new client. */
    method AddClient(conn: nat, ghost events: seq<Event>)
      requires Valid(events) && conn < |names|
      modifies this`clients
      ensures Valid(events + [Register(conn)])
    {
      hide Owner;
      ghost var all := events + [Register(conn)];
      assert all[..|events|] == events;
      OwnerAfter(names, events, all[|events|]);
      clients := clients[names[conn] := conn];
    }
  }

  lemma FrameNonEmpty(name: Bytes, payload: Bytes)
    ensures Cut(Frame(name, payload)) != []
  {
  }

  lemma OwnerAfter(names: seq<Bytes>, events: seq<Event>, ev: Event)
    requires Known(names, events) && ev.conn < |names|
    ensures Known(names, events + [ev])
    ensures forall name :: Owner(names, events + [ev], name) ==
              if ev.Register? && names[ev.conn] == name then ev.conn else Owner(names, events, name)
  {
    assert (events + [ev])[..|events|] == events;
  }

  /** The routing loop over any run: every connection is written what Routed says, which
      EndToEnd turns into what its client receives: the intended messages iff they all fit. */
  method MessageRoutine(names: seq<Bytes>, events: seq<Event>) returns (server: Server)
    requires Known(names, events)
    ensures fresh(server) && server.Valid(events) && server.names == names
    ensures WellNamed(names, events) ==>
              forall c | 0 <= c < |names| :: ReceiveAll(server.written[c]) == Addressed(names, events, c)
    ensures WellNamed(names, events) && Registrable(names) ==>
              forall c | 0 <= c < |names| ::
                ReceiveAll(server.written[c]) == Intended(names, events, c) <==> AllFit(names, events, c)
  {
    server := new Server(names);
    for i := 0 to |events|
      invariant fresh(server) && server.names == names && server.Valid(events[..i])
    {
      assert events[..i + 1] == events[..i] + [events[i]];
      match events[i]
      case Register(conn) => server.AddClient(conn, events[..i]);
      case Sent(conn, dest, payload) => server.Forward(conn, dest, payload, events[..i]);
    }
    assert events[..|events|] == events;
    if WellNamed(names, events) {
      forall c | 0 <= c < |names|
        ensures ReceiveAll(server.written[c]) == Addressed(names, events, c)
        ensures Registrable(names) ==>
                  (ReceiveAll(server.written[c]) == Intended(names, events, c) <==> AllFit(names, events, c))
      {
        EndToEnd(names, events, c);
        if Registrable(names) {
          IntactIffAllFit(names, events, c);
        }
      }
    }
  }
}
