/** The vision messages: a list of strings, and booleans, which are read from any byte. */
module VisionMessages {
  import opened CladCodec
  import opened CladSchemas
  import opened CladBuffer
  import opened Common
  import opened WireLayout

  class OffboardImageReady {
    var timestamp: uint32
    var numRows: uint32
    var numCols: uint32
    var numChannels: uint32
    var isCompressed: bool
    var isEncrypted: bool
    var procTypes: seq<Bytes>
    var filename: Bytes

    constructor (timestamp: uint32, numRows: uint32, numCols: uint32, numChannels: uint32,
                 isCompressed: bool, isEncrypted: bool, procTypes: seq<Bytes>, filename: Bytes)
      ensures Value() == ImageValue(timestamp, numRows, numCols, numChannels,
                                    isCompressed, isEncrypted, procTypes, filename)
    {
      this.timestamp, this.numRows, this.numCols, this.numChannels := timestamp, numRows, numCols, numChannels;
      this.isCompressed, this.isEncrypted := isCompressed, isEncrypted;
      this.procTypes, this.filename := procTypes, filename;
    }

    ghost function Value(): (v: Val)
      reads this
      ensures Fits(OFFBOARD_IMAGE_READY, v)
    {
      ImageValue(timestamp, numRows, numCols, numChannels, isCompressed, isEncrypted, procTypes, filename)
    }

    method Pack(buf: Buffer) returns (ok: bool)
      modifies buf
      ensures Packed(old(buf.unread), CladCodec.Pack(OFFBOARD_IMAGE_READY, Value()), ok, buf.unread)
      ensures ok <==> ShortLists(procTypes, filename)
      ensures ok ==>
                buf.unread == old(buf.unread)
                              + ImageBytes(timestamp, numRows, numCols, numChannels,
                                           if isCompressed then 1 else 0, if isEncrypted then 1 else 0,
                                           procTypes, filename)
    {
      hide ImageBytes, ShortLists;
      ImageLayout(timestamp, numRows, numCols, numChannels, isCompressed, isEncrypted, procTypes, filename);
      hide CladCodec.Pack, PackAll, Fits, FitsAll, Chain;
      Powers();
      ghost var v, ty := Value(), OFFBOARD_IMAGE_READY;
      PackField(buf.unread, ty, v);
      buf.WriteUInt(timestamp, 4);
      PackField(buf.unread, ty.rest, v.tail);
      buf.WriteUInt(numRows, 4);
      PackField(buf.unread, ty.rest.rest, v.tail.tail);
      buf.WriteUInt(numCols, 4);
      ty, v := ty.rest.rest.rest, v.tail.tail.tail;
      PackField(buf.unread, ty, v);
      buf.WriteUInt(numChannels, 4);
      PackField(buf.unread, ty.rest, v.tail);
      buf.WriteBool(isCompressed);
      PackField(buf.unread, ty.rest.rest, v.tail.tail);
      buf.WriteBool(isEncrypted);
      ty, v := ty.rest.rest.rest, v.tail.tail.tail;
      PackField(buf.unread, ty, v);
      ok := PackTexts(procTypes, buf);
      if !ok {
        return;
      }
      PackField(buf.unread, ty.rest, v.tail);
      ok := buf.WriteText(filename, 1);
      PackEnd(buf.unread);
    }

    method Unpack(buf: Buffer) returns (ok: bool)
      requires buf as object != this
      modifies this, buf
      ensures Unpacked(CladCodec.Unpack(OFFBOARD_IMAGE_READY, old(buf.unread)), ok, Value(), buf.unread)
    {
      hide CladCodec.Unpack, UnpackAll, Fits, FitsAll, Chain;
      ghost var ty := OFFBOARD_IMAGE_READY;
      UnpackField(ty, buf.unread);
      ok, timestamp := buf.ReadUInt32();
      if !ok {
        return;
      }
      UnpackField(ty.rest, buf.unread);
      ok, numRows := buf.ReadUInt32();
      if !ok {
        return;
      }
      UnpackField(ty.rest.rest, buf.unread);
      ok, numCols := buf.ReadUInt32();
      if !ok {
        return;
      }
      ty := ty.rest.rest.rest;
      UnpackField(ty, buf.unread);
      ok, numChannels := buf.ReadUInt32();
      if !ok {
        return;
      }
      UnpackField(ty.rest, buf.unread);
      ok, isCompressed := buf.ReadBool();
      if !ok {
        return;
      }
      UnpackField(ty.rest.rest, buf.unread);
      ok, isEncrypted := buf.ReadBool();
      if !ok {
        return;
      }
      ty := ty.rest.rest.rest;
      UnpackField(ty, buf.unread);
      ok, procTypes := UnpackTexts(buf);
      if !ok {
        return;
      }
      UnpackField(ty.rest, buf.unread);
      ok, filename := buf.ReadText(1);
      UnpackEnd(buf.unread);
    }

    method Size() returns (result: uint32)
      ensures result == CladCodec.Size(OFFBOARD_IMAGE_READY, Value())
    {
      hide CladCodec.Size, SizeAll, Fits, FitsAll, Chain, Wrap;
      Powers();
      ghost var v, ty := Value(), OFFBOARD_IMAGE_READY;
      result := 0;
      SizeStart(ty, v);
      SizeField(result, ty, v);
      SizeNumber(4, timestamp);
      result := Wrap(result + 4);
      SizeField(result, ty.rest, v.tail);
      SizeNumber(4, numRows);
      result := Wrap(result + 4);
      SizeField(result, ty.rest.rest, v.tail.tail);
      SizeNumber(4, numCols);
      result := Wrap(result + 4);
      ty, v := ty.rest.rest.rest, v.tail.tail.tail;
      SizeField(result, ty, v);
      SizeNumber(4, numChannels);
      result := Wrap(result + 4);
      SizeField(result, ty.rest, v.tail);
      SizeFlag(isCompressed);
      result := Wrap(result + 1);
      SizeField(result, ty.rest.rest, v.tail.tail);
      SizeFlag(isEncrypted);
      result := Wrap(result + 1);
      ty, v := ty.rest.rest.rest, v.tail.tail.tail;
      SizeField(result, ty, v);
      result := AddTexts(result, procTypes);
      SizeField(result, ty.rest, v.tail);
      result := AddText(result, 1, filename);
      SizeEnd(result);
    }
  }

  function ImageValue(timestamp: uint32, numRows: uint32, numCols: uint32, numChannels: uint32,
                      isCompressed: bool, isEncrypted: bool, procTypes: seq<Bytes>, filename: Bytes): (v: Val)
    ensures Fits(OFFBOARD_IMAGE_READY, v)
  {
    Powers();
    ChainFits(Str(1), Texts(procTypes), 0);
    var lists := Both(Chain(Texts(procTypes), 0), Both(Text(filename), End));
    var flags := Both(Flag(isCompressed), Both(Flag(isEncrypted), lists));
    var numbers := Both(Num(timestamp), Both(Num(numRows), Both(Num(numCols), Both(Num(numChannels), flags))));
    var inner := OFFBOARD_IMAGE_READY.rest.rest.rest;
    FieldFits(inner.rest.rest.rest.rest, lists.tail);
    FieldFits(inner.rest.rest.rest, lists);
    FieldFits(inner.rest.rest, flags.tail);
    FieldFits(inner.rest, flags);
    FieldFits(inner, numbers.tail.tail.tail);
    FieldFits(OFFBOARD_IMAGE_READY.rest.rest, numbers.tail.tail);
    FieldFits(OFFBOARD_IMAGE_READY.rest, numbers.tail);
    numbers
  }

  predicate ShortText(s: Bytes) {
    |s| < 0x100
  }

  predicate ShortLists(procTypes: seq<Bytes>, filename: Bytes) {
    |procTypes| < 0x100 && (forall i | 0 <= i < |procTypes| :: ShortText(procTypes[i])) && ShortText(filename)
  }

  /** The counted list of strings and the name. */
  function ListsBytes(procTypes: seq<Bytes>, filename: Bytes): Bytes {
    ([|procTypes| % 0x100] + Flat(procTypes, Text8)) + Text8(filename)
  }

  /** The message on the wire: four numbers, two bytes for the booleans, the list and the name. */
  function ImageBytes(timestamp: uint32, numRows: uint32, numCols: uint32, numChannels: uint32,
                      isCompressed: byte, isEncrypted: byte, procTypes: seq<Bytes>, filename: Bytes): Bytes {
    (Le32(timestamp) + Le32(numRows) + Le32(numCols) + Le32(numChannels))
    + ([isCompressed, isEncrypted] + ListsBytes(procTypes, filename))
  }

  lemma ListsLayout(procTypes: seq<Bytes>, filename: Bytes)
    ensures var ty := OFFBOARD_IMAGE_READY.rest.rest.rest.rest.rest.rest;
      var v := Both(Chain(Texts(procTypes), 0), Both(Text(filename), End));
      Fits(ty, v)
      && Pack(ty, v) == if ShortLists(procTypes, filename) then Some(ListsBytes(procTypes, filename)) else None
  {
    hide Pack, Fits, Chain, Text8, Flat;
    var ty := OFFBOARD_IMAGE_READY.rest.rest.rest.rest.rest.rest;
    var v := Both(Chain(Texts(procTypes), 0), Both(Text(filename), End));
    forall i | 0 <= i < |procTypes|
      ensures Fits(Str(1), Texts(procTypes)[i])
      ensures Pack(Str(1), Texts(procTypes)[i])
           == if ShortText(procTypes[i]) then Some(Text8(procTypes[i])) else None
    {
      TextLayout(procTypes[i]);
    }
    ListLayout(Str(1), Texts(procTypes), procTypes, Text8, ShortText);
    TextLayout(filename);
    EmptyLayout();
    FieldLayout(ty.rest, v.tail);
    FieldLayout(ty, v);
    Join2([|procTypes| % 0x100] + Flat(procTypes, Text8), Text8(filename));
  }

  lemma FlagsLayout(a: bool, b: bool, v: Val)
    requires var ty := OFFBOARD_IMAGE_READY.rest.rest.rest.rest; Fits(ty.rest.rest, v)
    ensures var ty := OFFBOARD_IMAGE_READY.rest.rest.rest.rest;
      var flags := Both(Flag(a), Both(Flag(b), v));
      Fits(ty, flags)
      && Pack(ty, flags) == Then(Some([if a then 1 else 0, if b then 1 else 0]), Pack(ty.rest.rest, v))
  {
    var ty := OFFBOARD_IMAGE_READY.rest.rest.rest.rest;
    assert Fits(ty.rest, Both(Flag(b), v));
    assert Pack(ty.rest, Both(Flag(b), v)) == Then(Some([if b then 1 else 0]), Pack(ty.rest.rest, v));
    hide Fits;
    var first, second: Bytes := [if a then 1 else 0], [if b then 1 else 0];
    ThenAssociates(Some(first), Some(second), Pack(ty.rest.rest, v));
    assert first + second == [if a then 1 else 0, if b then 1 else 0];
  }

  lemma ImageLayout(timestamp: uint32, numRows: uint32, numCols: uint32, numChannels: uint32,
                    isCompressed: bool, isEncrypted: bool, procTypes: seq<Bytes>, filename: Bytes)
    ensures Pack(OFFBOARD_IMAGE_READY, ImageValue(timestamp, numRows, numCols, numChannels,
                                                  isCompressed, isEncrypted, procTypes, filename))
         == if ShortLists(procTypes, filename)
            then Some(ImageBytes(timestamp, numRows, numCols, numChannels, if isCompressed then 1 else 0,
                                 if isEncrypted then 1 else 0, procTypes, filename))
            else None
  {
    hide Pack, Fits, Chain, Le32, ListsBytes, ShortLists;
    var ty := OFFBOARD_IMAGE_READY;
    var v := ImageValue(timestamp, numRows, numCols, numChannels, isCompressed, isEncrypted, procTypes, filename);
    ListsLayout(procTypes, filename);
    FlagsLayout(isCompressed, isEncrypted, v.tail.tail.tail.tail.tail.tail);
    NumberLayout(timestamp);
    NumberLayout(numRows);
    NumberLayout(numCols);
    NumberLayout(numChannels);
    FieldLayout(ty.rest.rest.rest, v.tail.tail.tail);
    FieldLayout(ty.rest.rest, v.tail.tail);
    FieldLayout(ty.rest, v.tail);
    FieldLayout(ty, v);
    var flags: Bytes := [if isCompressed then 1 else 0, if isEncrypted then 1 else 0];
    JoinBefore(Le32(timestamp), Le32(numRows), Le32(numCols), Le32(numChannels),
               flags + ListsBytes(procTypes, filename));
  }

  lemma NumberFirst(n: uint32, more: Bytes)
    ensures Unpack(UInt(4), Le32(n) + more) == Done(Num(n), more)
  {
    NumberLayout(n);
    assert InRange(UInt(4), Num(n));
    hide Pack, Unpack, Fits, Le32, InRange;
    UnpackPacked(UInt(4), Num(n), more);
  }

  lemma FlagFirst(b: byte, more: Bytes)
    ensures Unpack(Bool, [b] + more) == Done(Flag(b != 0), more)
  {
    assert ([b] + more)[1..] == more;
  }

  lemma ListsFirst(procTypes: seq<Bytes>, filename: Bytes, more: Bytes)
    requires ShortLists(procTypes, filename)
    ensures Unpack(OFFBOARD_IMAGE_READY.rest.rest.rest.rest.rest.rest, ListsBytes(procTypes, filename) + more)
         == Done(Both(Chain(Texts(procTypes), 0), Both(Text(filename), End)), more)
  {
    ListsLayout(procTypes, filename);
    hide Pack, Unpack, Fits, ListsBytes, Chain;
    CheckedRoundTrip(OFFBOARD_IMAGE_READY.rest.rest.rest.rest.rest.rest,
                     Both(Chain(Texts(procTypes), 0), Both(Text(filename), End)), more);
  }

  lemma FlagsFirst(a: byte, b: byte, procTypes: seq<Bytes>, filename: Bytes, more: Bytes)
    requires ShortLists(procTypes, filename)
    ensures Unpack(OFFBOARD_IMAGE_READY.rest.rest.rest.rest, [a, b] + ListsBytes(procTypes, filename) + more)
         == Done(Both(Flag(a != 0), Both(Flag(b != 0),
                 Both(Chain(Texts(procTypes), 0), Both(Text(filename), End)))), more)
  {
    hide Unpack, ListsBytes, Chain, ShortLists;
    var ty := OFFBOARD_IMAGE_READY.rest.rest.rest.rest;
    var lists := ListsBytes(procTypes, filename) + more;
    assert [a, b] + ListsBytes(procTypes, filename) + more == [a] + ([b] + lists);
    UnpackField(ty, [a] + ([b] + lists));
    FlagFirst(a, [b] + lists);
    UnpackField(ty.rest, [b] + lists);
    FlagFirst(b, lists);
    ListsFirst(procTypes, filename, more);
  }

  /** The message's bytes, whatever follows them, are read as the message; a boolean is true for every
      byte but 0. */
  lemma ImageRead(timestamp: uint32, numRows: uint32, numCols: uint32, numChannels: uint32,
                  isCompressed: byte, isEncrypted: byte, procTypes: seq<Bytes>, filename: Bytes, more: Bytes)
    requires ShortLists(procTypes, filename)
    ensures Unpack(OFFBOARD_IMAGE_READY, ImageBytes(timestamp, numRows, numCols, numChannels,
                                                    isCompressed, isEncrypted, procTypes, filename) + more)
         == Done(ImageValue(timestamp, numRows, numCols, numChannels,
                            isCompressed != 0, isEncrypted != 0, procTypes, filename), more)
  {
    hide Unpack, Fits, ListsBytes, Chain, ShortLists, Le32;
    var ty := OFFBOARD_IMAGE_READY;
    var last := [isCompressed, isEncrypted] + ListsBytes(procTypes, filename) + more;
    var fourth := Le32(numChannels) + last;
    var third := Le32(numCols) + fourth;
    var second := Le32(numRows) + third;
    JoinBefore(Le32(timestamp), Le32(numRows), Le32(numCols), Le32(numChannels), last);
    assert ImageBytes(timestamp, numRows, numCols, numChannels, isCompressed, isEncrypted, procTypes, filename) + more
        == Le32(timestamp) + second;
    UnpackField(ty, Le32(timestamp) + second);
    NumberFirst(timestamp, second);
    UnpackField(ty.rest, second);
    NumberFirst(numRows, third);
    UnpackField(ty.rest.rest, third);
    NumberFirst(numCols, fourth);
    UnpackField(ty.rest.rest.rest, fourth);
    NumberFirst(numChannels, last);
    FlagsFirst(isCompressed, isEncrypted, procTypes, filename, more);
  }

  method PackTexts(strings: seq<Bytes>, buf: Buffer) returns (ok: bool)
    modifies buf
    ensures Fits(List(1, Str(1)), Chain(Texts(strings), 0))
    ensures Packed(old(buf.unread), Pack(List(1, Str(1)), Chain(Texts(strings), 0)), ok, buf.unread)
  {
    hide Pack, PackAll, FitsAll, Chain;
    ghost var vs := Texts(strings);
    PackList(buf.unread, 1, Str(1), vs);
    ok := buf.WriteLength(|strings|, 1);
    if !ok {
      return;
    }
    ghost var start := buf.unread;
    var idx := 0;
    while idx < |strings|
      invariant 0 <= idx <= |strings| && start <= buf.unread
      invariant Then(Some(start), PackAll(Str(1), Chain(vs, 0)))
             == Then(Some(buf.unread), PackAll(Str(1), Chain(vs, idx)))
    {
      PackElement(buf.unread, Str(1), vs, idx);
      ok := buf.WriteText(strings[idx], 1);
      if !ok {
        return;
      }
      idx := idx + 1;
    }
    PackListEnd(buf.unread, Str(1), vs);
  }

  method UnpackTexts(buf: Buffer) returns (ok: bool, strings: seq<Bytes>)
    modifies buf
    ensures Unpacked(Unpack(List(1, Str(1)), old(buf.unread)), ok, Chain(Texts(strings), 0), buf.unread)
  {
    hide Unpack, UnpackAll, Chain, Prepend;
    UnpackList(1, Str(1), buf.unread);
    var length;
    strings := [];
    ok, length := buf.ReadUInt(1);
    if !ok {
      return;
    }
    strings := seq(length, _ => []);
    ghost var all := UnpackAll(Str(1), length, buf.unread);
    UnpackListStart(Texts(strings), all);
    var idx := 0;
    while idx < length
      invariant 0 <= idx <= length == |strings|
      invariant all == Prepend(Texts(strings), idx, UnpackAll(Str(1), length - idx, buf.unread))
    {
      ghost var vs, bs := Texts(strings), buf.unread;
      var s;
      ok, s := buf.ReadText(1);
      UnpackElement(Str(1), vs, idx, bs, ok, Text(s), buf.unread);
      strings := strings[idx := s];
      if !ok {
        return;
      }
      assert Texts(strings) == vs[idx := Text(s)];
      idx := idx + 1;
    }
    UnpackListEnd(Str(1), Texts(strings), buf.unread);
  }

  method AddTexts(sum: uint32, strings: seq<Bytes>) returns (result: uint32)
    ensures Fits(List(1, Str(1)), Chain(Texts(strings), 0))
    ensures result == Wrap(sum + Size(List(1, Str(1)), Chain(Texts(strings), 0)))
  {
    hide Size, SizeAll, FitsAll, Chain, Wrap;
    ghost var vs := Texts(strings);
    SizeList(sum, 1, Str(1), vs);
    result := Wrap(sum + 1);
    var idx := 0;
    while idx < |strings|
      invariant 0 <= idx <= |strings|
      invariant Wrap(result + SizeAll(Str(1), Chain(vs, idx)))
             == Wrap(sum + Size(List(1, Str(1)), Chain(vs, 0)))
    {
      SizeElement(result, Str(1), vs, idx);
      result := AddText(result, 1, strings[idx]);
      idx := idx + 1;
    }
    SizeListEnd(result, Str(1), vs);
  }

  lemma OffboardImageReadyChecked()
    ensures Checked(OFFBOARD_IMAGE_READY)
  {
    var inner := OFFBOARD_IMAGE_READY.rest.rest.rest.rest;
    assert Checked(inner.rest.rest);
    assert Checked(inner);
    assert Checked(OFFBOARD_IMAGE_READY.rest.rest);
  }

  /** What Pack wrote for one object, Unpack reads into another field by field, leaving exactly
      what followed. */
  lemma OffboardImageReadyRoundTrip(
      sent: OffboardImageReady, received: OffboardImageReady, ok: bool, more: Bytes, rest: Bytes)
    requires Pack(OFFBOARD_IMAGE_READY, sent.Value()).Some?
    requires Unpacked(Unpack(OFFBOARD_IMAGE_READY, Pack(OFFBOARD_IMAGE_READY, sent.Value()).value + more),
                      ok, received.Value(), rest)
    ensures ok && rest == more
    ensures received.timestamp == sent.timestamp && received.numRows == sent.numRows
    ensures received.numCols == sent.numCols && received.numChannels == sent.numChannels
    ensures received.isCompressed == sent.isCompressed && received.isEncrypted == sent.isEncrypted
    ensures received.procTypes == sent.procTypes && received.filename == sent.filename
  {
    OffboardImageReadyChecked();
    hide Pack, Unpack, Fits, Checked, Chain;
    CheckedRoundTrip(OFFBOARD_IMAGE_READY, sent.Value(), more);
    assert received.Value() == sent.Value();
    SameTexts(received.procTypes, sent.procTypes);
  }
}
