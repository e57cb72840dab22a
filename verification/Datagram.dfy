/** The datagram server: one socket, one reused read buffer, one inbox per remote address. */
module Datagram {
  import opened Common

  type Addr(==, !new)   // address.String()

  /** A datagram as it arrives; a read keeps at most the first 32768 bytes of it. */
  datatype Packet = Packet(from: Addr, data: seq<byte>)

  /** "ANKICONN" */
  const CONN: seq<byte> := [65, 78, 75, 73, 67, 79, 78, 78]

  function Read(p: Packet): seq<byte> {
    Cut(p.data)
  }

  // ---------------------------------------------------------------- what each client should get

  /** Everything read from one address, in order. */
  function ReadFrom(ps: seq<Packet>, a: Addr): seq<seq<byte>> {
    if ps == [] then []
    else ReadFrom(ps[..|ps| - 1], a) + if ps[|ps| - 1].from == a then [Read(ps[|ps| - 1])] else []
  }

  /** What follows the first connection packet. */
  function AfterConn(ds: seq<seq<byte>>): seq<seq<byte>> {
    if ds == [] then [] else if ds[0] == CONN then ds[1..] else AfterConn(ds[1..])
  }

  function WithoutConn(ds: seq<seq<byte>>): seq<seq<byte>> {
    if ds == [] then []
    else WithoutConn(ds[..|ds| - 1]) + if ds[|ds| - 1] == CONN then [] else [ds[|ds| - 1]]
  }

  /** The filter: an address's packets after its first connection packet, repeated ones removed. */
  function Inbox(ps: seq<Packet>, a: Addr): seq<seq<byte>> {
    WithoutConn(AfterConn(ReadFrom(ps, a)))
  }

  predicate Connected(ps: seq<Packet>, a: Addr) {
    CONN in ReadFrom(ps, a)
  }

  /** The addresses in the order of their first connection packet. */
  function Connections(ps: seq<Packet>): seq<Addr> {
    if ps == [] then []
    else
      var before, p := ps[..|ps| - 1], ps[|ps| - 1];
      Connections(before) + if Read(p) == CONN && !Connected(before, p.from) then [p.from] else []
  }

  lemma {:induction false} AfterConnAppend(ds: seq<seq<byte>>, d: seq<byte>)
    ensures AfterConn(ds + [d]) == if CONN in ds then AfterConn(ds) + [d] else []
  {
    if ds == [] {
      assert AfterConn([d][1..]) == [];
    } else {
      assert (ds + [d])[1..] == ds[1..] + [d];
      assert ds == [ds[0]] + ds[1..];
      AfterConnAppend(ds[1..], d);
    }
  }

  /** What one more packet adds to an inbox. */
  lemma InboxAppend(ps: seq<Packet>, p: Packet, a: Addr)
    ensures Inbox(ps + [p], a) ==
              Inbox(ps, a) + if p.from == a && Connected(ps, a) && Read(p) != CONN then [Read(p)] else []
    ensures Connected(ps + [p], a) <==> Connected(ps, a) || (p.from == a && Read(p) == CONN)
    ensures !Connected(ps, a) ==> Inbox(ps, a) == []
  {
    assert (ps + [p])[..|ps|] == ps;
    var ds, d := ReadFrom(ps, a), Read(p);
    AfterConnAppend(ds, d);
    NoConnNothingAfter(ds);
    if p.from != a {
      assert ReadFrom(ps + [p], a) == ds;
    } else if CONN in ds {
      var rest := AfterConn(ds);
      assert (rest + [d])[..|rest|] == rest;
    }
  }

  lemma {:induction false} NoConnNothingAfter(ds: seq<seq<byte>>)
    ensures CONN !in ds ==> AfterConn(ds) == []
  {
    if ds != [] {
      NoConnNothingAfter(ds[1..]);
    }
  }

  /** The eight letters that connect an address: from a packet with exactly these on, and not before,
      the address is given what it sends. */
  lemma ConnectsWithAnkiconn(a: Addr, first: seq<byte>, next: seq<byte>)
    requires |first| <= 32768 && |next| <= 32768 && next != [65, 78, 75, 73, 67, 79, 78, 78]
    ensures Inbox([Packet(a, first), Packet(a, next)], a)
         == if first == [65, 78, 75, 73, 67, 79, 78, 78] then [next] else []
  {
    var one := [Packet(a, first)];
    InboxAppend([], Packet(a, first), a);
    InboxAppend(one, Packet(a, next), a);
    assert [] + one == one && one + [Packet(a, next)] == [Packet(a, first), Packet(a, next)];
  }

  // ---------------------------------------------------------------- the server

  class PacketListener {
    const buf: array<byte>
    var clients: map<Addr, seq<array<byte>>>   // per client, the copies handed to it
    var newClients: seq<Addr>                  // in the order they were offered to Accept
    ghost var copies: set<array<byte>>
    ghost var seen: seq<Packet>

    ghost predicate Valid()
      reads this, buf, copies
    {
      && buf.Length == BUFFER_SIZE && buf !in copies
      && (forall a, i | a in clients && 0 <= i < |clients[a]| :: clients[a][i] in copies)
      && (forall a :: a in clients <==> Connected(seen, a))
      && (forall a | a in clients :: |clients[a]| == |Inbox(seen, a)|)
      && (forall a, i | a in clients && 0 <= i < |clients[a]| :: clients[a][i][..] == Inbox(seen, a)[i])
      && newClients == Connections(seen)
    }

    constructor ()
      ensures Valid() && seen == [] && fresh(buf) && copies == {}
    {
      buf := new byte[BUFFER_SIZE](_ => 0);
      clients, newClients, copies, seen := map[], [], {}, [];
    }

    /** conn.ReadFrom: overwrite the front of the buffer. */
    method Fill(p: Packet) returns (n: nat)
      requires buf.Length == BUFFER_SIZE
      modifies buf
      ensures n <= buf.Length && buf[..n] == Read(p)
    {
      var data := p.data;
      n := if |data| <= buf.Length then |data| else buf.Length;
      for i := 0 to n
        invariant buf[..i] == data[..i]
      {
        buf[i] := data[i];
        assert buf[..i + 1] == buf[..i] + [data[i]];
      }
    }

    /** make and copy: a fresh array with the bytes just read. */
    method CopyOut(n: nat) returns (sendbuf: array<byte>)
      requires n <= buf.Length
      ensures fresh(sendbuf) && sendbuf[..] == buf[..n]
    {
      sendbuf := new byte[n];
      for i := 0 to n
        invariant sendbuf[..i] == buf[..i]
      {
        sendbuf[i] := buf[i];
        assert sendbuf[..i + 1] == sendbuf[..i] + [buf[i]];
      }
      assert sendbuf[..] == sendbuf[..n];
    }

    /** One turn of the server loop that gets through its select. Copies handed out earlier keep
        their contents though the buffer they came from is overwritten. */
    method Handle(p: Packet)
      requires Valid()
      modifies this, buf
      ensures Valid() && seen == old(seen) + [p]
      ensures old(copies) <= copies && fresh(copies - old(copies))
      ensures forall b | b in old(copies) :: b[..] == old(b[..])
      ensures forall a | a in old(clients) :: a in clients && old(clients)[a] <= clients[a]
    {
      hide Inbox, Connected, Connections, Read, CONN;
      ghost var was := seen;
      NextConnections(was, p);
      forall a ensures NextOf(was, p, a) {
        InboxAppend(was, p, a);
      }
      var n := Fill(p);
      var isConnPacket := n == |CONN| && buf[..n] == CONN;
      assert isConnPacket <==> Read(p) == CONN;
      var addr := p.from;
      if addr in clients {
        if !isConnPacket {
          var sendbuf := CopyOut(n);
          clients := clients[addr := clients[addr] + [sendbuf]];
          copies := copies + {sendbuf};
        }
      } else if isConnPacket {
        clients := clients[addr := []];
        newClients := newClients + [addr];
      }
      seen := seen + [p];
      forall a
        ensures a in clients <==> Connected(seen, a)
        ensures a in clients ==> |clients[a]| == |Inbox(seen, a)|
        ensures forall i | a in clients && 0 <= i < |clients[a]| :: clients[a][i][..] == Inbox(seen, a)[i]
      {
        assert NextOf(was, p, a);
      }
    }

    /** The last turn, if its select never hands anything over: the reader or Accept does not come,
        or the kill comes first. The copy is lost, and a new client is in the map but was offered
        to nobody. */
    method CutShort(p: Packet)
      requires Valid()
      modifies this`clients, buf
      ensures clients == if p.from !in old(clients) && Read(p) == CONN then old(clients)[p.from := []] else old(clients)
      ensures forall b | b in copies :: b[..] == old(b[..])
    {
      hide Inbox, Connected, Connections, Read, CONN;
      var n := Fill(p);
      var isConnPacket := n == |CONN| && buf[..n] == CONN;
      if p.from in clients {
        if !isConnPacket {
          var sendbuf := CopyOut(n);
        }
      } else if isConnPacket {
        clients := clients[p.from := []];
      }
    }
  }

  /** InboxAppend as a fact to carry around. */
  ghost predicate NextOf(ps: seq<Packet>, p: Packet, a: Addr) {
    && Inbox(ps + [p], a) ==
         Inbox(ps, a) + (if p.from == a && Connected(ps, a) && Read(p) != CONN then [Read(p)] else [])
    && (Connected(ps + [p], a) <==> Connected(ps, a) || (p.from == a && Read(p) == CONN))
    && (!Connected(ps, a) ==> Inbox(ps, a) == [])
  }

  lemma NextConnections(ps: seq<Packet>, p: Packet)
    ensures Connections(ps + [p]) ==
              Connections(ps) + if Read(p) == CONN && !Connected(ps, p.from) then [p.from] else []
  {
    assert (ps + [p])[..|ps|] == ps;
  }

  /** One client per address: the addresses offered to Accept are distinct, and they are exactly
      those that have sent a connection packet. */
  lemma {:induction false} OneClientPerAddress(ps: seq<Packet>)
    ensures forall i, j | 0 <= i < j < |Connections(ps)| :: Connections(ps)[i] != Connections(ps)[j]
    ensures forall a :: a in Connections(ps) <==> Connected(ps, a)
  {
    if ps != [] {
      var before, p := ps[..|ps| - 1], ps[|ps| - 1];
      OneClientPerAddress(before);
      assert ps == before + [p];
      forall a ensures Connected(ps, a) <==> Connected(before, a) || (p.from == a && Read(p) == CONN) {
        InboxAppend(before, p, a);
      }
    }
  }

  ghost predicate IsPrefix<T>(a: seq<T>, b: seq<T>) {
    |a| <= |b| && a == b[..|a|]
  }

  lemma {:induction false} InboxGrows(ps: seq<Packet>, k: nat, a: Addr)
    requires k <= |ps|
    ensures IsPrefix(Inbox(ps[..k], a), Inbox(ps, a))
  {
    if k < |ps| {
      var before, p := ps[..|ps| - 1], ps[|ps| - 1];
      assert ps == before + [p] && before[..k] == ps[..k];
      InboxGrows(before, k, a);
      InboxAppend(before, p, a);
    } else {
      assert ps[..k] == ps;
    }
  }

  /** The server loop, in all the ways it can end: after any number of packets, between two turns
      or in the middle of one (`cut`). Each client has been handed a prefix of its filtered packets,
      as separate copies; the clients offered to Accept are those of the full turns, and the map
      holds one more client only if the cut turn was to offer it. */
  method Serve(packets: seq<Packet>, turns: nat, cut: bool) returns (server: PacketListener)
    requires turns <= |packets| && (cut ==> turns < |packets|)
    ensures fresh(server)
    ensures server.newClients == Connections(packets[..turns])
    ensures forall a :: a in server.clients <==>
              a in server.newClients || (cut && packets[turns].from == a && Read(packets[turns]) == CONN)
    ensures forall a | a in server.clients :: |server.clients[a]| == |Inbox(packets[..turns], a)| <= |Inbox(packets, a)|
    ensures forall a, i | a in server.clients && 0 <= i < |server.clients[a]| ::
              server.clients[a][i][..] == Inbox(packets, a)[i]
  {
    hide Inbox, Connected, Connections, Read, CONN;
    server := new PacketListener();
    for n := 0 to turns
      invariant fresh(server) && fresh(server.buf) && server.Valid() && server.seen == packets[..n]
    {
      server.Handle(packets[n]);
      assert packets[..n + 1] == packets[..n] + [packets[n]];
    }
    OneClientPerAddress(packets[..turns]);
    forall a ensures IsPrefix(Inbox(packets[..turns], a), Inbox(packets, a))
                  && (!Connected(packets[..turns], a) ==> Inbox(packets[..turns], a) == []) {
      InboxGrows(packets, turns, a);
      if !Connected(packets[..turns], a) {
        NothingBeforeConn(packets[..turns], a);
      }
    }
    if cut {
      server.CutShort(packets[turns]);
    }
  }

  lemma NothingBeforeConn(ps: seq<Packet>, a: Addr)
    requires !Connected(ps, a)
    ensures Inbox(ps, a) == []
  {
    NoConnNothingAfter(ReadFrom(ps, a));
  }
}
