/** The bytes of the messages, spelled out: numbers low byte first, strings behind their length,
    fields in the order of the source, unions behind their tag. Packing by a schema is proved to give
    just these bytes. */
module WireLayout {
  import opened CladCodec
  import opened CladSchemas
  import opened CladBuffer
  import opened Common

  function Le16(n: nat): Bytes {
    [n % 0x100, n / 0x100 % 0x100]
  }

  function Le32(n: nat): Bytes {
    [n % 0x100, n / 0x100 % 0x100, n / 0x1_0000 % 0x100, n / 0x100_0000 % 0x100]
  }

  function Le64(n: nat): Bytes {
    Le32(n) + Le32(n / 0x1_0000_0000)
  }

  function Text8(s: Bytes): Bytes {
    [|s| % 0x100] + s
  }

  function Text16(s: Bytes): Bytes {
    Le16(|s|) + s
  }

  function Text32(s: Bytes): Bytes {
    Le32(|s|) + s
  }

  // ---------------------------------------------------------------- numbers and strings

  lemma NumberStep(n: nat, width: nat)
    requires width > 0
    ensures EncNat(n, width) == [n % 0x100] + EncNat(n / 0x100, width - 1)
  {
  }

  lemma OneByte(n: nat)
    ensures EncNat(n, 1) == [n % 0x100]
  {
    NumberStep(n, 1);
  }

  lemma TwoBytesLow(n: nat)
    ensures EncNat(n, 2) == Le16(n)
  {
    hide EncNat;
    NumberStep(n, 2);
    OneByte(n / 0x100);
  }

  lemma FourBytesLow(n: nat)
    ensures EncNat(n, 4) == Le32(n)
  {
    hide EncNat;
    NumberStep(n, 4);
    NumberStep(n / 0x100, 3);
    TwoBytesLow(n / 0x100 / 0x100);
    assert n / 0x100 / 0x100 == n / 0x1_0000 && n / 0x1_0000 / 0x100 == n / 0x100_0000;
  }

  lemma EightBytesLow(n: nat)
    ensures EncNat(n, 8) == Le64(n)
  {
    hide EncNat;
    var a := n / 0x100;
    var b := a / 0x100;
    var c := b / 0x100;
    NumberStep(n, 8);
    NumberStep(a, 7);
    NumberStep(b, 6);
    NumberStep(c, 5);
    FourBytesLow(c / 0x100);
    assert b == n / 0x1_0000 && c == n / 0x100_0000 && c / 0x100 == n / 0x1_0000_0000;
  }

  /** Numbers as the generated methods write them: low byte first, whatever the width. */
  lemma NumbersLowByteFirst(n: nat)
    ensures EncNat(n, 1) == [n % 0x100] && EncNat(n, 2) == Le16(n)
    ensures EncNat(n, 4) == Le32(n) && EncNat(n, 8) == Le64(n)
  {
    OneByte(n);
    TwoBytesLow(n);
    FourBytesLow(n);
    EightBytesLow(n);
  }

  lemma Truncated(n: nat)
    ensures Le32(n % 0x1_0000_0000) == Le32(n)
  {
    var q, r := n / 0x1_0000_0000, n % 0x1_0000_0000;
    assert n / 0x100 == r / 0x100 + 0x100_0000 * q;
    assert n / 0x1_0000 == r / 0x1_0000 + 0x1_0000 * q;
    assert n / 0x100_0000 == r / 0x100_0000 + 0x100 * q;
    LowByte(r, 0x100_0000 * q);
    LowByte(r / 0x100, 0x1_0000 * q);
    LowByte(r / 0x1_0000, 0x100 * q);
    LowByte(r / 0x100_0000, q);
  }

  lemma LowByte(r: nat, k: nat)
    ensures (r + 0x100 * k) % 0x100 == r % 0x100
  {
  }

  /** A string behind its length; up to two length bytes Pack refuses what is too long for them. */
  lemma TextLayout(s: Bytes)
    ensures Fits(Str(1), Text(s)) && Fits(Str(2), Text(s)) && Fits(Str(4), Text(s))
    ensures Pack(Str(1), Text(s)) == if |s| < 0x100 then Some(Text8(s)) else None
    ensures Pack(Str(2), Text(s)) == if |s| < 0x1_0000 then Some(Text16(s)) else None
    ensures Pack(Str(4), Text(s)) == Some(Text32(s))
  {
    Powers();
    NumbersLowByteFirst(|s|);
    NumbersLowByteFirst(|s| % 0x1_0000_0000);
    Truncated(|s|);
    hide EncNat, Pow256, Le32, Le16;
  }

  // ---------------------------------------------------------------- structs and lists

  /** A struct is its first field and then the others. */
  lemma FieldLayout(ty: Ty, v: Val)
    requires ty.Pair? && v.Both? && Fits(ty.first, v.head) && Fits(ty.rest, v.tail)
    ensures Fits(ty, v) && Pack(ty, v) == Then(Pack(ty.first, v.head), Pack(ty.rest, v.tail))
  {
  }

  lemma NumberLayout(n: nat)
    ensures n < 0x100 ==> Fits(UInt(1), Num(n)) && Pack(UInt(1), Num(n)) == Some([n])
    ensures n < 0x1_0000_0000 ==> Fits(UInt(4), Num(n)) && Pack(UInt(4), Num(n)) == Some(Le32(n))
    ensures n < 0x1_0000_0000_0000_0000 ==> Fits(UInt(8), Num(n)) && Pack(UInt(8), Num(n)) == Some(Le64(n))
  {
    Powers();
    NumbersLowByteFirst(n);
  }

  lemma EmptyLayout()
    ensures Fits(Unit, End) && Pack(Unit, End) == Some([])
  {
  }

  lemma Join2(a: Bytes, b: Bytes)
    ensures a + (b + []) == a + b
  {
  }

  lemma Join3(a: Bytes, b: Bytes, c: Bytes)
    ensures a + (b + (c + [])) == a + b + c
  {
  }

  lemma Join4(a: Bytes, b: Bytes, c: Bytes, d: Bytes)
    ensures a + (b + (c + (d + []))) == a + b + c + d
  {
  }

  lemma JoinBefore(a: Bytes, b: Bytes, c: Bytes, d: Bytes, e: Bytes)
    ensures a + (b + (c + (d + e))) == (a + b + c + d) + e
  {
  }

  lemma Join5(a: Bytes, b: Bytes, c: Bytes, d: Bytes, e: Bytes)
    ensures a + (b + (c + (d + (e + [])))) == a + b + c + d + e
  {
    Join4(b, c, d, e);
  }

  /** The elements of a list one after the other. */
  function Flat<T>(items: seq<T>, bytes: T -> Bytes): Bytes {
    if items == [] then [] else bytes(items[0]) + Flat(items[1..], bytes)
  }

  /** A list of which each element packs to its bytes, unless it is too long somewhere. */
  lemma {:induction false} ChainLayout<T(!new)>(
      e: Ty, vs: seq<Val>, items: seq<T>, bytes: T -> Bytes, short: T -> bool, i: nat)
    requires i <= |vs| == |items|
    requires forall k | 0 <= k < |vs| ::
               Fits(e, vs[k]) && Pack(e, vs[k]) == if short(items[k]) then Some(bytes(items[k])) else None
    ensures FitsAll(e, Chain(vs, i)) && Length(Chain(vs, i)) == |vs| - i
    ensures PackAll(e, Chain(vs, i))
         == if forall k | i <= k < |items| :: short(items[k]) then Some(Flat(items[i..], bytes)) else None
    decreases |vs| - i
  {
    ChainFits(e, vs, i);
    if i < |vs| {
      ChainLayout(e, vs, items, bytes, short, i + 1);
      assert items[i..][0] == items[i] && items[i..][1..] == items[i + 1..];
    }
  }

  /** A list behind its length, refused if that or an element is too long. */
  lemma ListLayout<T(!new)>(e: Ty, vs: seq<Val>, items: seq<T>, bytes: T -> Bytes, short: T -> bool)
    requires |vs| == |items|
    requires forall k | 0 <= k < |vs| ::
               Fits(e, vs[k]) && Pack(e, vs[k]) == if short(items[k]) then Some(bytes(items[k])) else None
    ensures Fits(List(1, e), Chain(vs, 0)) && Fits(List(2, e), Chain(vs, 0))
    ensures var all := forall k | 0 <= k < |items| :: short(items[k]);
      && Pack(List(1, e), Chain(vs, 0))
         == (if |items| < 0x100 && all then Some([|items| % 0x100] + Flat(items, bytes)) else None)
      && Pack(List(2, e), Chain(vs, 0))
         == (if |items| < 0x1_0000 && all then Some(Le16(|items|) + Flat(items, bytes)) else None)
  {
    ChainLayout(e, vs, items, bytes, short, 0);
    assert items[0..] == items;
    PrefixLayout(|items|);
    ListIs(1, e, Chain(vs, 0));
    ListIs(2, e, Chain(vs, 0));
    hide Pack, PackAll, Fits, FitsAll, Prefix, Chain, Flat, Length, Le16;
  }

  lemma ListIs(w: nat, e: Ty, v: Val)
    requires FitsAll(e, v)
    ensures Fits(List(w, e), v) && Pack(List(w, e), v) == Then(Prefix(Length(v), w), PackAll(e, v))
  {
  }

  lemma PrefixLayout(n: nat)
    ensures Prefix(n, 1) == if n < 0x100 then Some([n % 0x100]) else None
    ensures Prefix(n, 2) == if n < 0x1_0000 then Some(Le16(n)) else None
  {
    Powers();
    NumbersLowByteFirst(n);
    hide EncNat, Pow256, Le16;
  }

  // ---------------------------------------------------------------- unions

  /** The type behind a tag. */
  function Behind(arms: Arms, tag: byte): Option<Ty> {
    if arms.NoArms? then None else if arms.tag == tag then Some(arms.ty) else Behind(arms.more, tag)
  }

  lemma {:induction false} BehindTag(arms: Arms, tag: byte, x: Val)
    requires tag < 255 && Behind(arms, tag).Some? && Fits(Behind(arms, tag).value, x)
    ensures FitsArm(arms, tag, x) && PackArm(arms, tag, x) == Pack(Behind(arms, tag).value, x)
    ensures InRangeArm(arms, tag, x) == InRange(Behind(arms, tag).value, x)
  {
    hide Fits, Pack, InRange;
    if arms.tag != tag {
      BehindTag(arms.more, tag, x);
    }
  }

  /** Three arms with other tags are passed over. */
  lemma SkipThree(arms: Arms, tag: byte)
    requires arms.Arm? && arms.more.Arm? && arms.more.more.Arm?
    requires tag != arms.tag && tag != arms.more.tag && tag != arms.more.more.tag
    ensures Behind(arms, tag) == Behind(arms.more.more.more, tag)
  {
    assert Behind(arms, tag) == Behind(arms.more, tag);
    assert Behind(arms.more, tag) == Behind(arms.more.more, tag);
    assert Behind(arms.more.more, tag) == Behind(arms.more.more.more, tag);
  }

  lemma {:induction false} NothingBehind(arms: Arms, tag: byte, bs: Bytes)
    requires Behind(arms, tag) == None
    ensures UnpackArm(arms, tag, bs).Fail?
  {
    if arms.Arm? {
      NothingBehind(arms.more, tag, bs);
    }
  }

  /** A union is its tag and the value behind it; without a value it is the byte 255, and a tag with
      nothing behind it is refused. */
  lemma UnionLayout(arms: Arms, tag: byte, x: Val, bs: Bytes)
    ensures Pack(Union(arms), NoChoice) == Some([255]) && Unpack(Union(arms), [255] + bs) == Done(NoChoice, bs)
    ensures tag < 255 && Behind(arms, tag) == None ==> Unpack(Union(arms), [tag] + bs).Fail?
    ensures tag < 255 && Behind(arms, tag).Some? && Fits(Behind(arms, tag).value, x) ==>
              && Fits(Union(arms), Choice(tag, x))
              && Pack(Union(arms), Choice(tag, x)) == Then(Some([tag]), Pack(Behind(arms, tag).value, x))
              && InRange(Union(arms), Choice(tag, x)) == InRange(Behind(arms, tag).value, x)
  {
    assert ([255] + bs)[1..] == bs && ([tag] + bs)[1..] == bs;
    OneByte(tag);
    if tag < 255 && Behind(arms, tag).Some? && Fits(Behind(arms, tag).value, x) {
      BehindTag(arms, tag, x);
    } else if Behind(arms, tag) == None {
      NothingBehind(arms, tag, bs);
    }
  }

  lemma TagAlone(tag: byte)
    ensures Then(Some([tag]), Some([])) == Some([tag])
  {
    assert [tag] + [] == [tag];
  }

  // ---------------------------------------------------------------- documents

  /** A document: both versions, the short metadata, the long JSON. */
  function DocBytes(docVersion: uint64, fmtVersion: uint64, metadata: Bytes, jsonDoc: Bytes): Bytes {
    Le64(docVersion) + Le64(fmtVersion) + Text8(metadata) + Text32(jsonDoc)
  }

  lemma DocLayout(docVersion: uint64, fmtVersion: uint64, metadata: Bytes, jsonDoc: Bytes)
    ensures var v := Both(Num(docVersion), Both(Num(fmtVersion), Both(Text(metadata), Both(Text(jsonDoc), End))));
      Fits(DOC, v)
      && Pack(DOC, v) == if |metadata| < 0x100 then Some(DocBytes(docVersion, fmtVersion, metadata, jsonDoc)) else None
  {
    hide Pack, Fits, Le64, Le32, Text8, Text32;
    var strings := Both(Text(metadata), Both(Text(jsonDoc), End));
    NumberLayout(docVersion);
    NumberLayout(fmtVersion);
    TextLayout(metadata);
    TextLayout(jsonDoc);
    EmptyLayout();
    FieldLayout(DOC.rest.rest.rest, strings.tail);
    FieldLayout(DOC.rest.rest, strings);
    FieldLayout(DOC.rest, Both(Num(fmtVersion), strings));
    FieldLayout(DOC, Both(Num(docVersion), Both(Num(fmtVersion), strings)));
    Join4(Le64(docVersion), Le64(fmtVersion), Text8(metadata), Text32(jsonDoc));
  }
}
