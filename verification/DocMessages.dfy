/** The nested document messages, method by method as they are generated, each proved to do what
    the wire format of its schema says. */
module DocMessages {
  import opened CladCodec
  import opened CladSchemas
  import opened CladBuffer
  import opened Common
  import opened WireLayout

  datatype Doc = Doc(docVersion: uint64, fmtVersion: uint64, metadata: Bytes, jsonDoc: Bytes) {
    function Value(): (v: Val)
      ensures Fits(DOC, v)
    {
      Powers();
      var strings := Both(Text(metadata), Both(Text(jsonDoc), End));
      var all := Both(Num(docVersion), Both(Num(fmtVersion), strings));
      FieldFits(DOC.rest.rest.rest, strings.tail);
      FieldFits(DOC.rest.rest, strings);
      FieldFits(DOC.rest, all.tail);
      all
    }
  }

  datatype ResponseDoc = ResponseDoc(status: uint8, doc: Doc) {
    function Value(): (v: Val)
      ensures Fits(RESPONSE_DOC, v)
    {
      Powers();
      FieldFits(RESPONSE_DOC.rest, Both(doc.Value(), End));
      Both(Num(status), Both(doc.Value(), End))
    }
  }

  lemma NoBools()
    ensures BoolFree(DOC) && BoolFree(READ_RESPONSE)
  {
    assert BoolFree(RESPONSE_DOC);
  }

  /** The bytes that a document is read from are those it is written to. */
  lemma DocRead(bs: Bytes, d: Doc, rest: Bytes)
    requires Unpack(DOC, bs) == Done(d.Value(), rest)
    ensures |d.metadata| < 0x100
    ensures bs == DocBytes(d.docVersion, d.fmtVersion, d.metadata, d.jsonDoc) + rest
  {
    DocLayout(d.docVersion, d.fmtVersion, d.metadata, d.jsonDoc);
    NoBools();
    hide Unpack, Pack, Fits, BoolFree, Clean, DocBytes;
    BoolFreeClean(DOC, bs);
    CanonicalWithSize(DOC, bs);
  }

  /** And those bytes, whatever follows them, are read as that document, if its JSON is below 4 GiB. */
  lemma DocBytesUnpack(d: Doc, more: Bytes)
    requires |d.metadata| < 0x100 && |d.jsonDoc| < TWO_32
    ensures Unpack(DOC, DocBytes(d.docVersion, d.fmtVersion, d.metadata, d.jsonDoc) + more) == Done(d.Value(), more)
  {
    DocLayout(d.docVersion, d.fmtVersion, d.metadata, d.jsonDoc);
    DocInRange(d);
    hide Unpack, Pack, Fits, InRange, DocBytes;
    UnpackPacked(DOC, d.Value(), more);
  }

  lemma DocInRange(d: Doc)
    requires |d.metadata| < 0x100
    ensures InRange(DOC, d.Value()) <==> |d.jsonDoc| < TWO_32
  {
    Powers();
    var strings := d.Value().tail.tail;
    assert Fits(DOC.rest, d.Value().tail) && Fits(DOC.rest.rest, strings);
    assert Fits(DOC.rest.rest.rest, strings.tail);
    assert InRange(DOC.rest.rest.rest, strings.tail) <==> |d.jsonDoc| < TWO_32;
    assert InRange(DOC.rest.rest, strings) <==> |d.jsonDoc| < TWO_32;
    assert InRange(DOC, d.Value()) <==> InRange(DOC.rest, d.Value().tail);
  }

  method PackDoc(d: Doc, buf: Buffer) returns (ok: bool)
    modifies buf
    ensures Packed(old(buf.unread), Pack(DOC, d.Value()), ok, buf.unread)
    ensures ok <==> |d.metadata| < 0x100
    ensures ok ==>
              buf.unread == old(buf.unread)
                            + (Le64(d.docVersion) + Le64(d.fmtVersion)
                               + ([|d.metadata|] + d.metadata) + (Le32(|d.jsonDoc|) + d.jsonDoc))
  {
    DocLayout(d.docVersion, d.fmtVersion, d.metadata, d.jsonDoc);
    hide Pack, Fits, Le64, Le32;
    Powers();
    ghost var v := d.Value();
    PackField(buf.unread, DOC, v);
    buf.WriteUInt(d.docVersion, 8);
    PackField(buf.unread, DOC.rest, v.tail);
    buf.WriteUInt(d.fmtVersion, 8);
    PackField(buf.unread, DOC.rest.rest, v.tail.tail);
    ok := buf.WriteText(d.metadata, 1);
    if !ok {
      return;
    }
    PackField(buf.unread, DOC.rest.rest.rest, v.tail.tail.tail);
    ok := buf.WriteText(d.jsonDoc, 4);
    PackEnd(buf.unread);
  }

  method UnpackDoc(buf: Buffer) returns (o: Outcome, d: Doc)
    requires |buf.unread| < TWO_31
    modifies buf
    ensures Unpacked(Unpack(DOC, old(buf.unread)), o == Good, d.Value(), buf.unread)
    ensures o == Good ==>
              old(buf.unread) == DocBytes(d.docVersion, d.fmtVersion, d.metadata, d.jsonDoc) + buf.unread
    ensures o == Crashed <==> Crashes(DOC, old(buf.unread))
    ensures |buf.unread| <= |old(buf.unread)|
  {
    hide Unpack, Fits, Crashes;
    Powers();
    d := Doc(0, 0, [], []);
    o := Failed;
    var ok;
    var docVersion, fmtVersion, metadata, jsonDoc;
    UnpackField(DOC, buf.unread);
    CrashField(DOC, buf.unread);
    ok, docVersion := buf.ReadUInt(8);
    if !ok {
      return;
    }
    UnpackField(DOC.rest, buf.unread);
    CrashField(DOC.rest, buf.unread);
    ok, fmtVersion := buf.ReadUInt(8);
    if !ok {
      return;
    }
    UnpackField(DOC.rest.rest, buf.unread);
    CrashField(DOC.rest.rest, buf.unread);
    ok, metadata := buf.ReadText(1);
    if !ok {
      return;
    }
    UnpackField(DOC.rest.rest.rest, buf.unread);
    CrashField(DOC.rest.rest.rest, buf.unread);
    o, jsonDoc := buf.ReadLongText();
    if o != Good {
      return;
    }
    UnpackEnd(buf.unread);
    d := Doc(docVersion, fmtVersion, metadata, jsonDoc);
    DocRead(old(buf.unread), d, buf.unread);
  }

  method SizeOfDoc(d: Doc) returns (result: uint32)
    ensures result == Size(DOC, d.Value())
  {
    hide Size, Fits, Wrap;
    ghost var v := d.Value();
    Powers();
    result := 0;
    SizeStart(DOC, v);
    SizeField(result, DOC, v);
    SizeNumber(8, d.docVersion);
    result := Wrap(result + 8);
    SizeField(result, DOC.rest, v.tail);
    SizeNumber(8, d.fmtVersion);
    result := Wrap(result + 8);
    SizeField(result, DOC.rest.rest, v.tail.tail);
    result := AddText(result, 1, d.metadata);
    SizeField(result, DOC.rest.rest.rest, v.tail.tail.tail);
    result := AddText(result, 4, d.jsonDoc);
    SizeEnd(result);
  }

  /** A status and a document. */
  function ItemBytes(r: ResponseDoc): Bytes {
    [r.status] + DocBytes(r.doc.docVersion, r.doc.fmtVersion, r.doc.metadata, r.doc.jsonDoc)
  }

  predicate ShortItem(r: ResponseDoc) {
    |r.doc.metadata| < 0x100
  }

  lemma ItemLayout(r: ResponseDoc)
    ensures Pack(RESPONSE_DOC, r.Value()) == if ShortItem(r) then Some(ItemBytes(r)) else None
  {
    hide Pack, Fits, DocBytes;
    var doc := Both(r.doc.Value(), End);
    NumberLayout(r.status);
    DocLayout(r.doc.docVersion, r.doc.fmtVersion, r.doc.metadata, r.doc.jsonDoc);
    EmptyLayout();
    FieldLayout(RESPONSE_DOC.rest, doc);
    FieldLayout(RESPONSE_DOC, Both(Num(r.status), doc));
    Join2([r.status], DocBytes(r.doc.docVersion, r.doc.fmtVersion, r.doc.metadata, r.doc.jsonDoc));
  }

  method PackResponseDoc(r: ResponseDoc, buf: Buffer) returns (ok: bool)
    modifies buf
    ensures Packed(old(buf.unread), Pack(RESPONSE_DOC, r.Value()), ok, buf.unread)
    ensures ok <==> |r.doc.metadata| < 0x100
    ensures ok ==>
              buf.unread == old(buf.unread)
                            + ([r.status] + DocBytes(r.doc.docVersion, r.doc.fmtVersion, r.doc.metadata, r.doc.jsonDoc))
  {
    ItemLayout(r);
    hide Pack, Fits, DocBytes;
    Powers();
    ghost var v := r.Value();
    PackField(buf.unread, RESPONSE_DOC, v);
    buf.WriteUInt(r.status, 1);
    PackField(buf.unread, RESPONSE_DOC.rest, v.tail);
    ok := PackDoc(r.doc, buf);
    PackEnd(buf.unread);
  }

  method UnpackResponseDoc(buf: Buffer) returns (o: Outcome, r: ResponseDoc)
    requires |buf.unread| < TWO_31
    modifies buf
    ensures Unpacked(Unpack(RESPONSE_DOC, old(buf.unread)), o == Good, r.Value(), buf.unread)
    ensures o == Crashed <==> Crashes(RESPONSE_DOC, old(buf.unread))
    ensures |buf.unread| <= |old(buf.unread)|
  {
    hide Unpack, Fits, Crashes;
    Powers();
    r := ResponseDoc(0, Doc(0, 0, [], []));
    var status, doc;
    UnpackField(RESPONSE_DOC, buf.unread);
    CrashField(RESPONSE_DOC, buf.unread);
    var ok;
    ok, status := buf.ReadUInt(1);
    if !ok {
      return Failed, r;
    }
    UnpackField(RESPONSE_DOC.rest, buf.unread);
    CrashField(RESPONSE_DOC.rest, buf.unread);
    o, doc := UnpackDoc(buf);
    UnpackEnd(buf.unread);
    if o == Good {
      r := ResponseDoc(status, doc);
    }
  }

  method SizeOfResponseDoc(r: ResponseDoc) returns (result: uint32)
    ensures result == Size(RESPONSE_DOC, r.Value())
  {
    hide Size, Fits, Wrap;
    ghost var v := r.Value();
    Powers();
    result := 0;
    SizeStart(RESPONSE_DOC, v);
    SizeField(result, RESPONSE_DOC, v);
    SizeNumber(1, r.status);
    result := Wrap(result + 1);
    SizeField(result, RESPONSE_DOC.rest, v.tail);
    var nested := SizeOfDoc(r.doc);
    result := Wrap(result + nested);
    SizeEnd(result);
  }

  // ---------------------------------------------------------------- ReadResponse

  function Values(items: seq<ResponseDoc>): (vs: seq<Val>)
    ensures |vs| == |items| && forall i :: 0 <= i < |vs| ==> vs[i] == items[i].Value()
  {
    seq(|items|, i requires 0 <= i < |items| => items[i].Value())
  }

  function ItemsValue(items: seq<ResponseDoc>): (v: Val)
    ensures Fits(READ_RESPONSE, v)
  {
    ChainFits(RESPONSE_DOC, Values(items), 0);
    Both(Chain(Values(items), 0), End)
  }

  /** A two byte count and the items one after the other; too many items or metadata too long for
      its length byte make Pack fail. */
  lemma ItemsLayout(items: seq<ResponseDoc>)
    ensures Pack(READ_RESPONSE, ItemsValue(items))
         == if |items| < 0x1_0000 && forall i | 0 <= i < |items| :: ShortItem(items[i])
            then Some(Le16(|items|) + Flat(items, ItemBytes)) else None
  {
    hide Pack, Fits, Chain, ItemBytes, ShortItem, Le16;
    var vs := Values(items);
    forall i | 0 <= i < |items|
      ensures Fits(RESPONSE_DOC, vs[i])
      ensures Pack(RESPONSE_DOC, vs[i]) == if ShortItem(items[i]) then Some(ItemBytes(items[i])) else None
    {
      ItemLayout(items[i]);
    }
    ListLayout(RESPONSE_DOC, vs, items, ItemBytes, ShortItem);
    EmptyLayout();
    FieldLayout(READ_RESPONSE, ItemsValue(items));
    var all := Le16(|items|) + Flat(items, ItemBytes);
    assert all + [] == all;
  }

  /** What the items are read from is what they are written to. */
  lemma ItemsRead(bs: Bytes, items: seq<ResponseDoc>, rest: Bytes)
    requires Unpack(READ_RESPONSE, bs) == Done(ItemsValue(items), rest)
    ensures bs == Le16(|items|) + Flat(items, ItemBytes) + rest
  {
    ItemsLayout(items);
    NoBools();
    hide Unpack, Pack, Fits, BoolFree, Clean, Flat, Le16;
    BoolFreeClean(READ_RESPONSE, bs);
    CanonicalWithSize(READ_RESPONSE, bs);
  }

  class ReadResponse {
    var items: seq<ResponseDoc>

    constructor (items: seq<ResponseDoc>)
      ensures this.items == items
    {
      this.items := items;
    }

    ghost function Value(): (v: Val)
      reads this
      ensures Fits(READ_RESPONSE, v)
    {
      ItemsValue(items)
    }

    method Pack(buf: Buffer) returns (ok: bool)
      modifies buf
      ensures Packed(old(buf.unread), CladCodec.Pack(READ_RESPONSE, Value()), ok, buf.unread)
      ensures ok <==> |items| < 0x1_0000 && forall i | 0 <= i < |items| :: |items[i].doc.metadata| < 0x100
      ensures ok ==> buf.unread == old(buf.unread) + (Le16(|items|) + Flat(items, ItemBytes))
    {
      ItemsLayout(items);
      hide CladCodec.Pack, PackAll, Fits, FitsAll, Chain, Flat, ItemBytes, Le16;
      ghost var v, vs := Value(), Values(items);
      PackField(buf.unread, READ_RESPONSE, v);
      PackList(buf.unread, 2, RESPONSE_DOC, vs);
      ok := buf.WriteLength(|items|, 2);
      if !ok {
        return;
      }
      ghost var start := buf.unread;
      var idx := 0;
      while idx < |items|
        invariant 0 <= idx <= |items| && start <= buf.unread
        invariant forall i :: 0 <= i <= |vs| ==> FitsAll(RESPONSE_DOC, Chain(vs, i))
        invariant Then(Some(start), PackAll(RESPONSE_DOC, Chain(vs, 0)))
               == Then(Some(buf.unread), PackAll(RESPONSE_DOC, Chain(vs, idx)))
      {
        PackElement(buf.unread, RESPONSE_DOC, vs, idx);
        ok := PackResponseDoc(items[idx], buf);
        if !ok {
          return;
        }
        idx := idx + 1;
      }
      PackListEnd(buf.unread, RESPONSE_DOC, vs);
      PackEnd(buf.unread);
    }

    method Unpack(buf: Buffer) returns (o: Outcome)
      requires buf as object != this
      requires |buf.unread| < TWO_31
      modifies this, buf
      ensures Unpacked(CladCodec.Unpack(READ_RESPONSE, old(buf.unread)), o == Good, Value(), buf.unread)
      ensures o == Crashed <==> Crashes(READ_RESPONSE, old(buf.unread))
      ensures o == Good ==> old(buf.unread) == Le16(|items|) + Flat(items, ItemBytes) + buf.unread
    {
      hide Le16, Flat, ItemBytes;
      hide CladCodec.Unpack, Fits, FitsAll, UnpackAll, Chain, Prepend, Crashes, CrashesAll;
      Powers();
      UnpackField(READ_RESPONSE, buf.unread);
      CrashField(READ_RESPONSE, buf.unread);
      UnpackList(2, RESPONSE_DOC, buf.unread);
      CrashList(2, RESPONSE_DOC, buf.unread);
      var ok, length := buf.ReadUInt(2);
      if !ok {
        return Failed;
      }
      ghost var crash := CrashesAll(RESPONSE_DOC, length, buf.unread);
      items := seq(length, _ => ResponseDoc(0, Doc(0, 0, [], [])));
      ghost var all := UnpackAll(RESPONSE_DOC, length, buf.unread);
      UnpackListStart(Values(items), all);
      var idx := 0;
      while idx < length
        invariant 0 <= idx <= length == |items|
        invariant |buf.unread| < TWO_31
        invariant all == Prepend(Values(items), idx, UnpackAll(RESPONSE_DOC, length - idx, buf.unread))
        invariant crash == CrashesAll(RESPONSE_DOC, length - idx, buf.unread)
      {
        ghost var vs, bs := Values(items), buf.unread;
        CrashElement(RESPONSE_DOC, length - idx, bs);
        var item;
        o, item := UnpackResponseDoc(buf);
        UnpackElement(RESPONSE_DOC, vs, idx, bs, o == Good, item.Value(), buf.unread);
        if o != Good {
          return;
        }
        items := items[idx := item];
        assert Values(items) == vs[idx := item.Value()];
        idx := idx + 1;
      }
      UnpackListEnd(RESPONSE_DOC, Values(items), buf.unread);
      CrashListEnd(RESPONSE_DOC, buf.unread);
      UnpackEnd(buf.unread);
      o := Good;
      ItemsRead(old(buf.unread), items, buf.unread);
    }

    method Size() returns (result: uint32)
      ensures result == CladCodec.Size(READ_RESPONSE, Value())
    {
      hide CladCodec.Size, Fits, FitsAll, SizeAll, Wrap, Chain;
      ghost var v, vs := Value(), Values(items);
      result := 0;
      SizeStart(READ_RESPONSE, v);
      SizeField(result, READ_RESPONSE, v);
      SizeList(result, 2, RESPONSE_DOC, vs);
      result := Wrap(result + 2);
      var idx := 0;
      while idx < |items|
        invariant 0 <= idx <= |items|
        invariant forall i :: 0 <= i <= |vs| ==> FitsAll(RESPONSE_DOC, Chain(vs, i))
        invariant Wrap(result + SizeAll(RESPONSE_DOC, Chain(vs, idx)))
               == Wrap(0 + CladCodec.Size(READ_RESPONSE.first, v.head))
      {
        SizeElement(result, RESPONSE_DOC, vs, idx);
        var nested := SizeOfResponseDoc(items[idx]);
        result := Wrap(result + nested);
        idx := idx + 1;
      }
      SizeListEnd(result, RESPONSE_DOC, vs);
      SizeEnd(result);
    }
  }

  // ---------------------------------------------------------------- what panics with a 32 bit int

  /** A document panics exactly when its bytes reach as far as the length of JsonDoc, and that is 2^31
      or more. */
  lemma DocCrashesIff(bs: Bytes)
    ensures Crashes(DOC, bs) <==>
              && |bs| >= 17 && |bs| - 21 >= bs[16]
              && DecNat(bs[17 + bs[16]..][..4]) >= 0x8000_0000
  {
    hide Unpack, Crashes, DecNat;
    CrashField(DOC, bs);
    NumberIs(bs, 8);
    if |bs| >= 8 {
      CrashField(DOC.rest, bs[8..]);
      NumberIs(bs[8..], 8);
      if |bs| >= 16 {
        assert bs[8..][8..] == bs[16..];
        JsonCrashesIff(bs[16..]);
      }
    }
  }

  /** The same from the strings on. */
  lemma JsonCrashesIff(bs: Bytes)
    ensures Crashes(DOC.rest.rest, bs) <==>
              |bs| >= 1 && |bs| - 5 >= bs[0] && DecNat(bs[1 + bs[0]..][..4]) >= TWO_31
  {
    hide Unpack, Crashes, DecNat;
    CrashField(DOC.rest.rest, bs);
    ShortTextIs(bs);
    if |bs| >= 1 && |bs| - 1 >= bs[0] {
      var rest := bs[1 + bs[0]..];
      CrashField(DOC.rest.rest.rest, rest);
      LongTextCrashesIff(rest);
      UnpackEndNeverCrashes();
    }
  }

  lemma NumberIs(bs: Bytes, width: nat)
    ensures !Crashes(UInt(width), bs)
    ensures if |bs| < width then Unpack(UInt(width), bs).Fail?
            else Unpack(UInt(width), bs).Done? && Unpack(UInt(width), bs).rest == bs[width..]
  {
  }

  lemma ShortTextIs(bs: Bytes)
    ensures !Crashes(Str(1), bs)
    ensures var d := Unpack(Str(1), bs);
      if |bs| >= 1 && |bs| - 1 >= bs[0] then d.Done? && d.rest == bs[1 + bs[0]..] else d.Fail?
  {
    CheckedNeverCrashes(Str(1), bs);
    hide Pow256, Crashes, DecNat, Checked;
    if |bs| >= 1 {
      OneByteLength(bs);
      if |bs| - 1 >= bs[0] {
        assert bs[1..][bs[0]..] == bs[1 + bs[0]..];
      }
    }
  }

  lemma OneByteLength(bs: Bytes)
    requires |bs| >= 1
    ensures DecNat(bs[..1]) == bs[0]
  {
    assert bs[..1] == [bs[0]];
  }

  lemma LongTextCrashesIff(bs: Bytes)
    ensures Crashes(Str(4), bs) <==> |bs| >= 4 && DecNat(bs[..4]) >= TWO_31
  {
  }

  lemma UnpackEndNeverCrashes()
    ensures forall bs :: !Crashes(Unit, bs)
  {
  }

  /** Twenty-one bytes that panic: no versions, no metadata, and a length of 2^31. */
  lemma DocThatCrashes(zeros: Bytes)
    requires |zeros| == 17 && forall k | 0 <= k < 17 :: zeros[k] == 0
    ensures Crashes(DOC, zeros + [0, 0, 0, 128])
    ensures Crashes(READ_RESPONSE, [1, 0, 0] + (zeros + [0, 0, 0, 128]))
  {
    var doc := zeros + [0, 0, 0, 128];
    assert doc[17..][..4] == [0, 0, 0, 128];
    assert DecNat([128]) == 128 && DecNat([0, 128]) == 128 * 0x100 && DecNat([0, 0, 128]) == 128 * 0x1_0000;
    DocCrashesIff(doc);
    OneItemCrashes(doc);
  }

  lemma OneItemCrashes(doc: Bytes)
    requires Crashes(DOC, doc)
    ensures Crashes(READ_RESPONSE, [1, 0, 0] + doc)
  {
    var bs := [1, 0, 0] + doc;
    assert bs[..2] == [1, 0] && bs[2..] == [0] + doc && bs[2..][1..] == doc;
    assert DecNat([0]) == 0 && DecNat([1, 0]) == 1;
    hide Unpack, Crashes, CrashesAll, DecNat;
    CrashField(RESPONSE_DOC, bs[2..]);
    NumberIs(bs[2..], 1);
    CrashField(RESPONSE_DOC.rest, doc);
    CrashElement(RESPONSE_DOC, 1, bs[2..]);
    CrashList(2, RESPONSE_DOC, bs);
    CountIs(bs);
    CrashField(READ_RESPONSE, bs);
  }

  lemma CountIs(bs: Bytes)
    requires |bs| >= 2 && DecNat(bs[..2]) == 1
    ensures Unpack(UInt(2), bs) == Done(Num(1), bs[2..])
  {
  }

  // ---------------------------------------------------------------- round trip

  lemma SameItems(a: seq<ResponseDoc>, b: seq<ResponseDoc>)
    requires Chain(Values(a), 0) == Chain(Values(b), 0)
    ensures a == b
  {
    hide Chain;
    ChainInjective(Values(a), Values(b), 0);
    assert Values(a)[0..] == Values(a) && Values(b)[0..] == Values(b);
    forall i | 0 <= i < |a|
      ensures a[i] == b[i]
    {
      assert Values(a)[i] == a[i].Value() && Values(b)[i] == b[i].Value();
    }
  }

  ghost predicate JsonFits(items: seq<ResponseDoc>, first: nat) {
    forall i :: first <= i < |items| ==> |items[i].doc.jsonDoc| < TWO_32
  }

  lemma ItemInRange(r: ResponseDoc)
    requires Pack(RESPONSE_DOC, r.Value()).Some?
    ensures InRange(RESPONSE_DOC, r.Value()) <==> |r.doc.jsonDoc| < TWO_32
  {
    hide EncNat, Pow256;
    Powers();
    var strings := r.doc.Value().tail.tail;
    assert Pack(DOC, r.doc.Value()).Some? && Pack(DOC.rest, r.doc.Value().tail).Some?;
    assert Pack(DOC.rest.rest, strings).Some? && Pack(Str(1), strings.head).Some?;
    assert InRange(DOC.rest.rest.rest, strings.tail) <==> |r.doc.jsonDoc| < TWO_32;
    assert InRange(DOC.rest.rest, strings) <==> |r.doc.jsonDoc| < TWO_32;
    assert InRange(DOC, r.doc.Value()) <==> InRange(DOC.rest, r.doc.Value().tail);
  }

  lemma {:induction false} ItemsInRange(items: seq<ResponseDoc>, i: nat)
    requires i <= |items| && FitsAll(RESPONSE_DOC, Chain(Values(items), i))
    requires PackAll(RESPONSE_DOC, Chain(Values(items), i)).Some?
    ensures InRangeAll(RESPONSE_DOC, Chain(Values(items), i)) <==> JsonFits(items, i)
    decreases |items| - i
  {
    hide Pack, Fits, InRange;
    if i < |items| {
      assert Values(items)[i] == items[i].Value();
      ItemInRange(items[i]);
      ItemsInRange(items, i + 1);
    }
  }

  lemma PackedItems(items: seq<ResponseDoc>)
    requires Pack(READ_RESPONSE, ItemsValue(items)).Some?
    ensures var v := Chain(Values(items), 0);
      && |items| < 0x1_0000 && Length(v) == |items|
      && FitsAll(RESPONSE_DOC, v) && PackAll(RESPONSE_DOC, v).Some?
  {
    hide EncNat, Pow256;
    Powers();
    ChainFits(RESPONSE_DOC, Values(items), 0);
    assert Pack(READ_RESPONSE.first, Chain(Values(items), 0)).Some?;
  }

  /** A packed response comes back, whatever follows it, exactly when every document's JSON is
      shorter than 4 GiB: its length prefix is the only one that Pack does not check. */
  lemma ReadResponseRoundTrip(
      items: seq<ResponseDoc>, received: seq<ResponseDoc>, ok: bool, more: Bytes, rest: Bytes)
    requires Pack(READ_RESPONSE, ItemsValue(items)).Some?
    requires Unpacked(Unpack(READ_RESPONSE, Pack(READ_RESPONSE, ItemsValue(items)).value + more),
                      ok, ItemsValue(received), rest)
    ensures ok && received == items && rest == more <==> JsonFits(items, 0)
  {
    hide Pack, Unpack, Fits, Chain, PackAll, FitsAll, InRangeAll, JsonFits, Length;
    Powers();
    RoundTripIffInRange(READ_RESPONSE, ItemsValue(items), more);
    PackedItems(items);
    ItemsInRange(items, 0);
    assert InRange(READ_RESPONSE, ItemsValue(items)) <==> JsonFits(items, 0);
    if ok && ItemsValue(received) == ItemsValue(items) {
      SameItems(received, items);
    }
  }
}
