/** The CLAD wire format, once for every message. The Go code of a message is generated from a
    schema; here the schema is a value, and Pack, Unpack and Size read off it what the generated
    methods do: little-endian numbers, length-prefixed strings and lists, structs field by field,
    unions as a tag byte and the value of that tag. */
module CladCodec {

  import opened Common

  /** A wire type. A struct is a chain of Pair ending in Unit. */
  datatype Ty =
    | UInt(width: nat)               // also enums, signed numbers and floats, as their bits
    | Bool
    | Str(width: nat)                // length prefix of `width` bytes
    | List(width: nat, elem: Ty)
    | Unit
    | Pair(first: Ty, rest: Ty)
    | Union(arms: Arms)

  datatype Arms = NoArms | Arm(tag: nat, ty: Ty, more: Arms)

  /** A value of some wire type. A list is a chain of Both ending in End, like a struct. */
  datatype Val =
    | Num(n: nat)
    | Flag(b: bool)
    | Text(s: Bytes)
    | End
    | Both(head: Val, tail: Val)
    | Choice(tag: nat, v: Val)
    | NoChoice                       // the INVALID tag

  const INVALID: byte := 255

  function Pow256(width: nat): (p: nat)
    ensures p > 0
  {
    if width == 0 then 1 else 256 * Pow256(width - 1)
  }

  function Length(v: Val): nat {
    if v.Both? then 1 + Length(v.tail) else 0
  }

  /** The value has the shape of the type. */
  predicate Fits(ty: Ty, v: Val)
    decreases ty, 0, v
  {
    match ty
    case UInt(w) => v.Num? && v.n < Pow256(w)
    case Bool => v.Flag?
    case Str(_) => v.Text?
    case List(_, e) => FitsAll(e, v)
    case Unit => v.End?
    case Pair(a, b) => v.Both? && Fits(a, v.head) && Fits(b, v.tail)
    case Union(arms) => v.NoChoice? || (v.Choice? && FitsArm(arms, v.tag, v.v))
  }

  predicate FitsAll(e: Ty, v: Val)
    decreases e, 1, v
  {
    v.End? || (v.Both? && Fits(e, v.head) && FitsAll(e, v.tail))
  }

  predicate FitsArm(arms: Arms, tag: nat, v: Val)
    decreases arms, 0, v
  {
    arms.Arm? && if arms.tag == tag then tag < INVALID && Fits(arms.ty, v) else FitsArm(arms.more, tag, v)
  }

  // ---------------------------------------------------------------- numbers

  function EncNat(n: nat, width: nat): (bs: Bytes)
    ensures |bs| == width
  {
    if width == 0 then [] else [n % 256] + EncNat(n / 256, width - 1)
  }

  function DecNat(bs: Bytes): (n: nat)
    ensures n < Pow256(|bs|)
  {
    if bs == [] then 0 else bs[0] + 256 * DecNat(bs[1..])
  }

  lemma {:induction false} DecEnc(n: nat, width: nat)
    requires n < Pow256(width)
    ensures DecNat(EncNat(n, width)) == n
  {
    if width > 0 {
      assert n / 256 < Pow256(width - 1);
      DecEnc(n / 256, width - 1);
      assert EncNat(n, width)[1..] == EncNat(n / 256, width - 1);
    }
  }

  lemma {:induction false} EncDec(bs: Bytes)
    ensures EncNat(DecNat(bs), |bs|) == bs
  {
    if bs != [] {
      EncDec(bs[1..]);
      var n := DecNat(bs);
      assert n % 256 == bs[0] && n / 256 == DecNat(bs[1..]);
      assert bs == [bs[0]] + bs[1..];
    }
  }

  // ---------------------------------------------------------------- Pack

  /** The length prefix: one and two byte lengths are checked, four byte ones are truncated. */
  function Prefix(length: nat, width: nat): Option<Bytes> {
    if width < 4 && length >= Pow256(width) then None else Some(EncNat(length % Pow256(width), width))
  }

  function Then(a: Option<Bytes>, b: Option<Bytes>): Option<Bytes> {
    if a.Some? && b.Some? then Some(a.value + b.value) else None
  }

  /** The bytes that Pack appends, None when it returns an error. */
  function Pack(ty: Ty, v: Val): Option<Bytes>
    requires Fits(ty, v)
    decreases ty, 0, v
  {
    match ty
    case UInt(w) => Some(EncNat(v.n, w))
    case Bool => Some([if v.b then 1 else 0])
    case Str(w) => Then(Prefix(|v.s|, w), Some(v.s))
    case List(w, e) => Then(Prefix(Length(v), w), PackAll(e, v))
    case Unit => Some([])
    case Pair(a, b) => Then(Pack(a, v.head), Pack(b, v.tail))
    case Union(arms) => if v.NoChoice? then Some([INVALID]) else Then(Some(EncNat(v.tag, 1)), PackArm(arms, v.tag, v.v))
  }

  function PackAll(e: Ty, v: Val): Option<Bytes>
    requires FitsAll(e, v)
    decreases e, 1, v
  {
    if v.End? then Some([]) else Then(Pack(e, v.head), PackAll(e, v.tail))
  }

  function PackArm(arms: Arms, tag: nat, v: Val): Option<Bytes>
    requires FitsArm(arms, tag, v)
    decreases arms, 0, v
  {
    if arms.tag == tag then Pack(arms.ty, v) else PackArm(arms.more, tag, v)
  }

  // ---------------------------------------------------------------- Unpack

  datatype Decoded = Fail | Done(v: Val, rest: Bytes)

  function Unpack(ty: Ty, bs: Bytes): Decoded
    decreases ty, 0, 0
  {
    match ty
    case UInt(w) => if |bs| < w then Fail else Done(Num(DecNat(bs[..w])), bs[w..])
    case Bool => if |bs| < 1 then Fail else Done(Flag(bs[0] != 0), bs[1..])
    case Str(w) =>
      if |bs| < w then Fail
      else
        var n, body := DecNat(bs[..w]), bs[w..];
        if |body| < n then Fail else Done(Text(body[..n]), body[n..])
    case List(w, e) => if |bs| < w then Fail else UnpackAll(e, DecNat(bs[..w]), bs[w..])
    case Unit => Done(End, bs)
    case Pair(a, b) =>
      var first := Unpack(a, bs);
      if first.Fail? then Fail
      else
        var second := Unpack(b, first.rest);
        if second.Fail? then Fail else Done(Both(first.v, second.v), second.rest)
    case Union(arms) =>
      if |bs| < 1 then Fail
      else if bs[0] == INVALID then Done(NoChoice, bs[1..])
      else
        var value := UnpackArm(arms, bs[0], bs[1..]);
        if value.Fail? then Fail else Done(Choice(bs[0], value.v), value.rest)
  }

  function UnpackAll(e: Ty, n: nat, bs: Bytes): Decoded
    decreases e, 1, n
  {
    if n == 0 then Done(End, bs)
    else
      var first := Unpack(e, bs);
      if first.Fail? then Fail
      else
        var others := UnpackAll(e, n - 1, first.rest);
        if others.Fail? then Fail else Done(Both(first.v, others.v), others.rest)
  }

  function UnpackArm(arms: Arms, tag: nat, bs: Bytes): Decoded
    decreases arms, 0, 0
  {
    if arms.NoArms? then Fail
    else if arms.tag == tag then Unpack(arms.ty, bs)
    else UnpackArm(arms.more, tag, bs)
  }

  // ---------------------------------------------------------------- Size

  /** uint32 arithmetic. */
  function Wrap(n: nat): (r: nat)
    ensures r < TWO_32
  {
    n % TWO_32
  }

  function Size(ty: Ty, v: Val): nat
    requires Fits(ty, v)
    decreases ty, 0, v
  {
    match ty
    case UInt(w) => Wrap(w)
    case Bool => Wrap(1)
    case Str(w) => Wrap(Wrap(w) + Wrap(|v.s|))
    case List(w, e) => Wrap(Wrap(w) + SizeAll(e, v))
    case Unit => Wrap(0)
    case Pair(a, b) => Wrap(Size(a, v.head) + Size(b, v.tail))
    case Union(arms) => if v.NoChoice? then Wrap(1) else Wrap(Wrap(1) + SizeArm(arms, v.tag, v.v))
  }

  function SizeAll(e: Ty, v: Val): nat
    requires FitsAll(e, v)
    decreases e, 1, v
  {
    if v.End? then Wrap(0) else Wrap(Size(e, v.head) + SizeAll(e, v.tail))
  }

  function SizeArm(arms: Arms, tag: nat, v: Val): nat
    requires FitsArm(arms, tag, v)
    decreases arms, 0, v
  {
    if arms.tag == tag then Size(arms.ty, v) else SizeArm(arms.more, tag, v)
  }

  // ---------------------------------------------------------------- round trip

  /** All lengths can be told by their prefixes. Pack checks this itself for one and two byte
      prefixes; for four byte ones it is up to the caller. */
  predicate InRange(ty: Ty, v: Val)
    requires Fits(ty, v)
    decreases ty, 0, v
  {
    match ty
    case Str(w) => |v.s| < Pow256(w)
    case List(w, e) => Length(v) < Pow256(w) && InRangeAll(e, v)
    case Pair(a, b) => InRange(a, v.head) && InRange(b, v.tail)
    case Union(arms) => v.NoChoice? || InRangeArm(arms, v.tag, v.v)
    case _ => true
  }

  predicate InRangeAll(e: Ty, v: Val)
    requires FitsAll(e, v)
    decreases e, 1, v
  {
    v.End? || (InRange(e, v.head) && InRangeAll(e, v.tail))
  }

  predicate InRangeArm(arms: Arms, tag: nat, v: Val)
    requires FitsArm(arms, tag, v)
    decreases arms, 0, v
  {
    if arms.tag == tag then InRange(arms.ty, v) else InRangeArm(arms.more, tag, v)
  }

  lemma NatFirst(n: nat, width: nat, tail: Bytes)
    requires n < Pow256(width)
    ensures var bs := EncNat(n, width) + tail;
      DecNat(bs[..width]) == n && bs[width..] == tail
  {
    assert (EncNat(n, width) + tail)[..width] == EncNat(n, width);
    DecEnc(n, width);
  }

  lemma PrefixInRange(length: nat, width: nat)
    requires length < Pow256(width)
    ensures Prefix(length, width) == Some(EncNat(length, width))
  {
    hide Pow256, EncNat;
    SmallMod(length, Pow256(width));
  }

  lemma SmallMod(x: nat, p: nat)
    requires x < p
    ensures x % p == x
  {
    var q := x / p;
    assert x == q * p + x % p;
    assert q >= 1 ==> q * p >= p;
    assert q == 0;
  }

  lemma {:induction false} UnpackPacked(ty: Ty, v: Val, more: Bytes)
    requires Fits(ty, v) && InRange(ty, v) && Pack(ty, v).Some?
    ensures Unpack(ty, Pack(ty, v).value + more) == Done(v, more)
    decreases ty, 2, v
  {
    match ty
    case UInt(w) => NatFirst(v.n, w, more);
    case Bool =>
    case Str(w) => UnpackPackedText(w, v.s, more);
    case List(w, e) => UnpackPackedList(w, e, v, more);
    case Unit => assert Pack(ty, v).value + more == more;
    case Pair(a, b) => UnpackPackedPair(a, b, v, more);
    case Union(arms) => UnpackPackedUnion(arms, v, more);
  }

  lemma UnpackPackedText(w: nat, s: Bytes, more: Bytes)
    requires |s| < Pow256(w)
    ensures Pack(Str(w), Text(s)).Some?
    ensures Unpack(Str(w), Pack(Str(w), Text(s)).value + more) == Done(Text(s), more)
  {
    hide EncNat, DecNat, Pow256, Prefix;
    PrefixInRange(|s|, w);
    assert EncNat(|s|, w) + s + more == EncNat(|s|, w) + (s + more);
    NatFirst(|s|, w, s + more);
    assert (s + more)[..|s|] == s && (s + more)[|s|..] == more;
  }

  lemma {:induction false} UnpackPackedList(w: nat, e: Ty, v: Val, more: Bytes)
    requires FitsAll(e, v) && InRange(List(w, e), v) && Pack(List(w, e), v).Some?
    ensures Unpack(List(w, e), Pack(List(w, e), v).value + more) == Done(v, more)
    decreases List(w, e), 1, v
  {
    hide EncNat, DecNat, Pow256, Prefix;
    var n, items := Length(v), PackAll(e, v).value;
    PrefixInRange(n, w);
    assert EncNat(n, w) + items + more == EncNat(n, w) + (items + more);
    NatFirst(n, w, items + more);
    UnpackPackedAll(e, v, more);
  }

  lemma {:induction false} UnpackPackedPair(a: Ty, b: Ty, v: Val, more: Bytes)
    requires Fits(Pair(a, b), v) && InRange(Pair(a, b), v) && Pack(Pair(a, b), v).Some?
    ensures Unpack(Pair(a, b), Pack(Pair(a, b), v).value + more) == Done(v, more)
    decreases Pair(a, b), 1, v
  {
    hide EncNat, DecNat, Pow256, Prefix, PackAll, PackArm, UnpackAll, UnpackArm, FitsAll, FitsArm;
    hide InRangeAll, InRangeArm, Length;
    var first, second := Pack(a, v.head).value, Pack(b, v.tail).value;
    assert first + second + more == first + (second + more);
    UnpackPacked(a, v.head, second + more);
    UnpackPacked(b, v.tail, more);
  }

  lemma {:induction false} UnpackPackedUnion(arms: Arms, v: Val, more: Bytes)
    requires Fits(Union(arms), v) && InRange(Union(arms), v) && Pack(Union(arms), v).Some?
    ensures Unpack(Union(arms), Pack(Union(arms), v).value + more) == Done(v, more)
    decreases Union(arms), 1, v
  {
    if v.Choice? {
      var body := PackArm(arms, v.tag, v.v).value;
      TagFits(arms, v.tag, v.v);
      assert EncNat(v.tag, 1) == [v.tag];
      assert ([v.tag] + body + more)[1..] == body + more;
      UnpackPackedArm(arms, v.tag, v.v, more);
    }
  }

  lemma TagFits(arms: Arms, tag: nat, v: Val)
    requires FitsArm(arms, tag, v)
    ensures tag < INVALID
  {
  }

  lemma {:induction false} UnpackPackedAll(e: Ty, v: Val, more: Bytes)
    requires FitsAll(e, v) && InRangeAll(e, v) && PackAll(e, v).Some?
    ensures UnpackAll(e, Length(v), PackAll(e, v).value + more) == Done(v, more)
    decreases e, 3, v
  {
    hide Fits, Pack, Unpack, InRange;
    if v.Both? {
      assert PackAll(e, v).value + more == Pack(e, v.head).value + (PackAll(e, v.tail).value + more);
      UnpackPacked(e, v.head, PackAll(e, v.tail).value + more);
      UnpackPackedAll(e, v.tail, more);
    } else {
      assert PackAll(e, v).value + more == more;
    }
  }

  lemma {:induction false} UnpackPackedArm(arms: Arms, tag: nat, v: Val, more: Bytes)
    requires FitsArm(arms, tag, v) && InRangeArm(arms, tag, v) && PackArm(arms, tag, v).Some?
    ensures UnpackArm(arms, tag, PackArm(arms, tag, v).value + more) == Done(v, more)
    decreases arms, 0, v
  {
    if arms.tag == tag {
      UnpackPacked(arms.ty, v, more);
    } else {
      UnpackPackedArm(arms.more, tag, v, more);
    }
  }

  // ---------------------------------------------------------------- what Unpack returns

  lemma {:induction false} UnpackedFits(ty: Ty, bs: Bytes)
    requires Unpack(ty, bs).Done?
    ensures Fits(ty, Unpack(ty, bs).v) && InRange(ty, Unpack(ty, bs).v)
    decreases ty, 2, 0
  {
    match ty
    case UInt(w) => assert |bs[..w]| == w;
    case Str(w) => assert |bs[..w]| == w;
    case List(w, e) =>
      assert |bs[..w]| == w;
      UnpackedAllFits(e, DecNat(bs[..w]), bs[w..]);
    case Pair(a, b) =>
      UnpackedFits(a, bs);
      UnpackedFits(b, Unpack(a, bs).rest);
    case Union(arms) =>
      if bs[0] != INVALID {
        UnpackedArmFits(arms, bs[0], bs[1..]);
      }
    case _ =>
  }

  lemma {:induction false} UnpackedAllFits(e: Ty, n: nat, bs: Bytes)
    requires UnpackAll(e, n, bs).Done?
    ensures var v := UnpackAll(e, n, bs).v; FitsAll(e, v) && InRangeAll(e, v) && Length(v) == n
    decreases e, 3, n
  {
    hide EncNat, DecNat, Pow256, FitsArm, InRangeArm, UnpackArm;
    if n > 0 {
      hide Fits, InRange, Unpack;
      UnpackedFits(e, bs);
      UnpackedAllFits(e, n - 1, Unpack(e, bs).rest);
    }
  }

  lemma {:induction false} UnpackedArmFits(arms: Arms, tag: nat, bs: Bytes)
    requires UnpackArm(arms, tag, bs).Done? && tag < INVALID
    ensures var v := UnpackArm(arms, tag, bs).v; FitsArm(arms, tag, v) && InRangeArm(arms, tag, v)
    decreases arms, 0, 0
  {
    if arms.tag == tag {
      UnpackedFits(arms.ty, bs);
    } else {
      UnpackedArmFits(arms.more, tag, bs);
    }
  }

  /** Unpack looks at no byte beyond those it consumes. */
  lemma {:induction false} UnpackExtends(ty: Ty, bs: Bytes, more: Bytes)
    requires Unpack(ty, bs).Done?
    ensures Unpack(ty, bs + more) == Done(Unpack(ty, bs).v, Unpack(ty, bs).rest + more)
    decreases ty, 2, 0
  {
    match ty
    case UInt(w) => SplitExtends(bs, more, w);
    case Bool => SplitExtends(bs, more, 1);
    case Str(w) =>
      SplitExtends(bs, more, w);
      SplitExtends(bs[w..], more, DecNat(bs[..w]));
    case List(w, e) =>
      SplitExtends(bs, more, w);
      UnpackAllExtends(e, DecNat(bs[..w]), bs[w..], more);
    case Unit =>
    case Pair(a, b) =>
      UnpackExtends(a, bs, more);
      UnpackExtends(b, Unpack(a, bs).rest, more);
    case Union(arms) =>
      SplitExtends(bs, more, 1);
      if bs[0] != INVALID {
        UnpackArmExtends(arms, bs[0], bs[1..], more);
      }
  }

  lemma SplitExtends(bs: Bytes, more: Bytes, k: nat)
    requires k <= |bs|
    ensures (bs + more)[..k] == bs[..k] && (bs + more)[k..] == bs[k..] + more
  {
  }

  lemma {:induction false} UnpackAllExtends(e: Ty, n: nat, bs: Bytes, more: Bytes)
    requires UnpackAll(e, n, bs).Done?
    ensures UnpackAll(e, n, bs + more) == Done(UnpackAll(e, n, bs).v, UnpackAll(e, n, bs).rest + more)
    decreases e, 3, n
  {
    if n > 0 {
      UnpackExtends(e, bs, more);
      UnpackAllExtends(e, n - 1, Unpack(e, bs).rest, more);
    }
  }

  lemma {:induction false} UnpackArmExtends(arms: Arms, tag: nat, bs: Bytes, more: Bytes)
    requires UnpackArm(arms, tag, bs).Done?
    ensures UnpackArm(arms, tag, bs + more)
         == Done(UnpackArm(arms, tag, bs).v, UnpackArm(arms, tag, bs).rest + more)
    decreases arms, 0, 0
  {
    if arms.tag == tag {
      UnpackExtends(arms.ty, bs, more);
    } else {
      UnpackArmExtends(arms.more, tag, bs, more);
    }
  }

  /** The round trip with remainder holds exactly when every length fits its prefix. */
  lemma RoundTripIffInRange(ty: Ty, v: Val, more: Bytes)
    requires Fits(ty, v) && Pack(ty, v).Some?
    ensures Unpack(ty, Pack(ty, v).value + more) == Done(v, more) <==> InRange(ty, v)
  {
    if InRange(ty, v) {
      UnpackPacked(ty, v, more);
    } else if Unpack(ty, Pack(ty, v).value + more).Done? {
      UnpackedFits(ty, Pack(ty, v).value + more);
    }
  }

  /** Every prefix is one that Pack checks. */
  predicate Checked(ty: Ty) {
    match ty
    case Str(w) => w < 4
    case List(w, e) => w < 4 && Checked(e)
    case Pair(a, b) => Checked(a) && Checked(b)
    case Union(arms) => CheckedArms(arms)
    case _ => true
  }

  predicate CheckedArms(arms: Arms) {
    arms.Arm? ==> Checked(arms.ty) && CheckedArms(arms.more)
  }

  /** Without four byte prefixes, whatever Pack accepts makes the round trip. */
  lemma {:induction false} CheckedInRange(ty: Ty, v: Val)
    requires Checked(ty) && Fits(ty, v) && Pack(ty, v).Some?
    ensures InRange(ty, v)
    decreases ty, 2, v
  {
    hide Pow256, EncNat;
    match ty
    case List(w, e) => CheckedAllInRange(e, v);
    case Pair(a, b) =>
      CheckedInRange(a, v.head);
      CheckedInRange(b, v.tail);
    case Union(arms) =>
      if v.Choice? {
        CheckedArmInRange(arms, v.tag, v.v);
      }
    case _ =>
  }

  lemma {:induction false} CheckedAllInRange(e: Ty, v: Val)
    requires Checked(e) && FitsAll(e, v) && PackAll(e, v).Some?
    ensures InRangeAll(e, v)
    decreases e, 3, v
  {
    if v.Both? {
      CheckedInRange(e, v.head);
      CheckedAllInRange(e, v.tail);
    }
  }

  lemma {:induction false} CheckedArmInRange(arms: Arms, tag: nat, v: Val)
    requires CheckedArms(arms) && FitsArm(arms, tag, v) && PackArm(arms, tag, v).Some?
    ensures InRangeArm(arms, tag, v)
    decreases arms, 0, v
  {
    if arms.tag == tag {
      CheckedInRange(arms.ty, v);
    } else {
      CheckedArmInRange(arms.more, tag, v);
    }
  }

  /** Nothing else can come out of unpacking a packed message. */
  lemma CheckedRoundTrip(ty: Ty, v: Val, more: Bytes)
    requires Checked(ty) && Fits(ty, v) && Pack(ty, v).Some?
    ensures Unpack(ty, Pack(ty, v).value + more) == Done(v, more)
  {
    CheckedInRange(ty, v);
    UnpackPacked(ty, v, more);
  }

  /** A message cut short anywhere is refused. */
  lemma StrictPrefixFails(ty: Ty, v: Val, k: nat)
    requires Fits(ty, v) && InRange(ty, v) && Pack(ty, v).Some? && k < |Pack(ty, v).value|
    ensures Unpack(ty, Pack(ty, v).value[..k]).Fail?
  {
    hide Unpack, Pack;
    var packed := Pack(ty, v).value;
    UnpackPacked(ty, v, []);
    assert packed + [] == packed && packed[..k] + packed[k..] == packed;
    if Unpack(ty, packed[..k]).Done? {
      UnpackExtends(ty, packed[..k], packed[k..]);
    }
  }

  /** No packed message is the beginning of another one of its type. */
  lemma PrefixFree(ty: Ty, v: Val, w: Val, more: Bytes)
    requires Fits(ty, v) && InRange(ty, v) && Pack(ty, v).Some?
    requires Fits(ty, w) && InRange(ty, w) && Pack(ty, w).Some?
    requires Pack(ty, w).value == Pack(ty, v).value + more
    ensures v == w && more == []
  {
    UnpackPacked(ty, v, more);
    UnpackPacked(ty, w, []);
    assert Pack(ty, w).value + [] == Pack(ty, w).value;
  }

  // ---------------------------------------------------------------- canonical encoding

  /** Every boolean on the way was a 0 or a 1. */
  predicate Clean(ty: Ty, bs: Bytes)
    requires Unpack(ty, bs).Done?
    decreases ty, 0, 0
  {
    match ty
    case Bool => bs[0] <= 1
    case List(w, e) => CleanAll(e, DecNat(bs[..w]), bs[w..])
    case Pair(a, b) => Clean(a, bs) && Clean(b, Unpack(a, bs).rest)
    case Union(arms) => bs[0] == INVALID || CleanArm(arms, bs[0], bs[1..])
    case _ => true
  }

  predicate CleanAll(e: Ty, n: nat, bs: Bytes)
    requires UnpackAll(e, n, bs).Done?
    decreases e, 1, n
  {
    n == 0 || (Clean(e, bs) && CleanAll(e, n - 1, Unpack(e, bs).rest))
  }

  predicate CleanArm(arms: Arms, tag: nat, bs: Bytes)
    requires UnpackArm(arms, tag, bs).Done?
    decreases arms, 0, 0
  {
    if arms.tag == tag then Clean(arms.ty, bs) else CleanArm(arms.more, tag, bs)
  }

  /** Packing again succeeds with as many bytes as were consumed, and with the same bytes exactly
      if `clean`. */
  ghost predicate Again(packed: Option<Bytes>, bs: Bytes, rest: Bytes, clean: bool) {
    && packed.Some? && |packed.value| <= |bs| && bs[|packed.value|..] == rest
    && (packed.value == bs[..|packed.value|] <==> clean)
  }

  lemma AgainThen(p: Option<Bytes>, q: Option<Bytes>, bs: Bytes, mid: Bytes, rest: Bytes, c: bool, d: bool)
    requires Again(p, bs, mid, c) && Again(q, mid, rest, d)
    ensures Again(Then(p, q), bs, rest, c && d)
  {
    var x, y := p.value, q.value;
    assert bs == bs[..|x|] + mid;
    assert (x + y)[..|x|] == x && (x + y)[|x|..] == y;
    var eaten := bs[..|x + y|];
    assert eaten[..|x|] == bs[..|x|] && eaten[|x|..] == mid[..|y|];
    assert eaten == eaten[..|x|] + eaten[|x|..];
    assert bs[|x + y|..] == mid[|y|..];
  }

  /** Packing again what was unpacked always succeeds, and gives back exactly the bytes consumed
      if and only if every boolean among them was 0 or 1. */
  lemma {:induction false} Canonical(ty: Ty, bs: Bytes)
    requires Unpack(ty, bs).Done?
    ensures var d := Unpack(ty, bs); Fits(ty, d.v) && Again(Pack(ty, d.v), bs, d.rest, Clean(ty, bs))
    decreases ty, 2, 0
  {
    match ty
    case UInt(w) => CanonicalLeaf(ty, bs);
    case Bool => CanonicalLeaf(ty, bs);
    case Str(w) => CanonicalText(w, bs);
    case List(w, e) => CanonicalList(w, e, bs);
    case Unit => CanonicalLeaf(ty, bs);
    case Pair(a, b) => CanonicalPair(a, b, bs);
    case Union(arms) => CanonicalUnion(arms, bs);
  }

  lemma CanonicalLeaf(ty: Ty, bs: Bytes)
    requires Unpack(ty, bs).Done? && (ty.UInt? || ty.Bool? || ty.Unit?)
    ensures var d := Unpack(ty, bs); Fits(ty, d.v) && Again(Pack(ty, d.v), bs, d.rest, Clean(ty, bs))
  {
    hide EncNat, DecNat, Pow256;
    match ty
    case UInt(w) =>
      assert |bs[..w]| == w;
      NatAgain(bs, w);
    case Bool => assert bs[..1] == [bs[0]];
    case Unit => assert bs[..0] == [];
  }

  lemma CanonicalText(w: nat, bs: Bytes)
    requires Unpack(Str(w), bs).Done?
    ensures var ty, d := Str(w), Unpack(Str(w), bs);
      Fits(ty, d.v) && Again(Pack(ty, d.v), bs, d.rest, Clean(ty, bs))
  {
    hide EncNat, DecNat, Pow256, Prefix, Again;
    LengthAgain(bs, w);
    var n, body := DecNat(bs[..w]), bs[w..];
    TextAgain(body, n);
    AgainThen(Prefix(n, w), Some(body[..n]), bs, body, body[n..], true, true);
  }

  lemma TextAgain(body: Bytes, n: nat)
    requires n <= |body|
    ensures Again(Some(body[..n]), body, body[n..], true)
  {
  }

  lemma NatAgain(bs: Bytes, w: nat)
    requires w <= |bs|
    ensures EncNat(DecNat(bs[..w]), w) == bs[..w]
  {
    hide EncNat, DecNat, Pow256;
    EncDec(bs[..w]);
  }

  lemma LengthAgain(bs: Bytes, w: nat)
    requires w <= |bs|
    ensures Again(Prefix(DecNat(bs[..w]), w), bs, bs[w..], true)
  {
    hide EncNat, DecNat, Pow256, Prefix;
    assert |bs[..w]| == w;
    NatAgain(bs, w);
    PrefixInRange(DecNat(bs[..w]), w);
  }

  lemma {:induction false} CanonicalList(w: nat, e: Ty, bs: Bytes)
    requires Unpack(List(w, e), bs).Done?
    ensures var ty, d := List(w, e), Unpack(List(w, e), bs);
      Fits(ty, d.v) && Again(Pack(ty, d.v), bs, d.rest, Clean(ty, bs))
    decreases List(w, e), 1, 0
  {
    hide EncNat, DecNat, Pow256, Prefix, Again;
    var n := DecNat(bs[..w]);
    LengthAgain(bs, w);
    UnpackedAllFits(e, n, bs[w..]);
    CanonicalAll(e, n, bs[w..]);
    var d := UnpackAll(e, n, bs[w..]);
    AgainThen(Prefix(n, w), PackAll(e, d.v), bs, bs[w..], d.rest, true, CleanAll(e, n, bs[w..]));
  }

  lemma {:induction false} CanonicalPair(a: Ty, b: Ty, bs: Bytes)
    requires Unpack(Pair(a, b), bs).Done?
    ensures var ty, d := Pair(a, b), Unpack(Pair(a, b), bs);
      Fits(ty, d.v) && Again(Pack(ty, d.v), bs, d.rest, Clean(ty, bs))
    decreases Pair(a, b), 1, 0
  {
    hide EncNat, DecNat, Pow256, Prefix, Again, PackAll, PackArm, UnpackAll, UnpackArm, FitsAll, FitsArm;
    hide CleanAll, CleanArm;
    var first := Unpack(a, bs);
    Canonical(a, bs);
    Canonical(b, first.rest);
    var second := Unpack(b, first.rest);
    AgainThen(Pack(a, first.v), Pack(b, second.v), bs, first.rest, second.rest, Clean(a, bs), Clean(b, first.rest));
  }

  lemma {:induction false} CanonicalUnion(arms: Arms, bs: Bytes)
    requires Unpack(Union(arms), bs).Done?
    ensures var ty, d := Union(arms), Unpack(Union(arms), bs);
      Fits(ty, d.v) && Again(Pack(ty, d.v), bs, d.rest, Clean(ty, bs))
    decreases Union(arms), 1, 0
  {
    hide DecNat, Pow256;
    assert bs[..1] == [bs[0]] == EncNat(bs[0], 1);
    if bs[0] != INVALID {
      UnpackedArmFits(arms, bs[0], bs[1..]);
      CanonicalArm(arms, bs[0], bs[1..]);
      var d := UnpackArm(arms, bs[0], bs[1..]);
      AgainThen(Some([bs[0]]), PackArm(arms, bs[0], d.v), bs, bs[1..], d.rest, true, CleanArm(arms, bs[0], bs[1..]));
    }
  }

  lemma {:induction false} CanonicalAll(e: Ty, n: nat, bs: Bytes)
    requires UnpackAll(e, n, bs).Done?
    ensures var d := UnpackAll(e, n, bs);
      FitsAll(e, d.v) && Again(PackAll(e, d.v), bs, d.rest, CleanAll(e, n, bs))
    decreases e, 3, n
  {
    hide Fits, Unpack, Pack, Clean;
    if n > 0 {
      hide Again;
      var first := Unpack(e, bs);
      Canonical(e, bs);
      CanonicalAll(e, n - 1, first.rest);
      var d := UnpackAll(e, n - 1, first.rest);
      var others := CleanAll(e, n - 1, first.rest);
      AgainThen(Pack(e, first.v), PackAll(e, d.v), bs, first.rest, d.rest, Clean(e, bs), others);
    }
  }

  lemma {:induction false} CanonicalArm(arms: Arms, tag: nat, bs: Bytes)
    requires UnpackArm(arms, tag, bs).Done? && tag < INVALID
    ensures var d := UnpackArm(arms, tag, bs);
      FitsArm(arms, tag, d.v) && Again(PackArm(arms, tag, d.v), bs, d.rest, CleanArm(arms, tag, bs))
    decreases arms, 0, 0
  {
    UnpackedArmFits(arms, tag, bs);
    hide Again;
    if arms.tag == tag {
      Canonical(arms.ty, bs);
    } else {
      CanonicalArm(arms.more, tag, bs);
    }
  }

  // Types without booleans are always clean.

  predicate BoolFree(ty: Ty) {
    match ty
    case Bool => false
    case List(_, e) => BoolFree(e)
    case Pair(a, b) => BoolFree(a) && BoolFree(b)
    case Union(arms) => BoolFreeArms(arms)
    case _ => true
  }

  predicate BoolFreeArms(arms: Arms) {
    arms.Arm? ==> BoolFree(arms.ty) && BoolFreeArms(arms.more)
  }

  lemma {:induction false} BoolFreeClean(ty: Ty, bs: Bytes)
    requires BoolFree(ty) && Unpack(ty, bs).Done?
    ensures Clean(ty, bs)
    decreases ty, 2, 0
  {
    hide DecNat;
    match ty
    case List(w, e) => BoolFreeCleanAll(e, DecNat(bs[..w]), bs[w..]);
    case Pair(a, b) =>
      BoolFreeClean(a, bs);
      BoolFreeClean(b, Unpack(a, bs).rest);
    case Union(arms) =>
      if bs[0] != INVALID {
        BoolFreeCleanArm(arms, bs[0], bs[1..]);
      }
    case _ =>
  }

  lemma {:induction false} BoolFreeCleanAll(e: Ty, n: nat, bs: Bytes)
    requires BoolFree(e) && UnpackAll(e, n, bs).Done?
    ensures CleanAll(e, n, bs)
    decreases e, 3, n
  {
    if n > 0 {
      BoolFreeClean(e, bs);
      BoolFreeCleanAll(e, n - 1, Unpack(e, bs).rest);
    }
  }

  lemma {:induction false} BoolFreeCleanArm(arms: Arms, tag: nat, bs: Bytes)
    requires BoolFreeArms(arms) && UnpackArm(arms, tag, bs).Done?
    ensures CleanArm(arms, tag, bs)
    decreases arms, 0, 0
  {
    if arms.tag == tag {
      BoolFreeClean(arms.ty, bs);
    } else {
      BoolFreeCleanArm(arms.more, tag, bs);
    }
  }

  /** A boolean that is not clean: read as true, written as 1. */
  lemma BoolNotCanonical(b: byte)
    requires b > 1
    ensures Unpack(Bool, [b]) == Done(Flag(true), []) && Pack(Bool, Flag(true)) == Some([1])
    ensures !Clean(Bool, [b])
  {
  }

  // ---------------------------------------------------------------- 32 bit lengths

  /** The robot's processor has a 32 bit int: there a string length from 2^31 on is negative, and
      taking that many bytes from the buffer is a panic, not an error. */
  predicate Crashes(ty: Ty, bs: Bytes)
    decreases ty, 0, 0
  {
    match ty
    case Str(w) => |bs| >= w && DecNat(bs[..w]) >= TWO_31
    case List(w, e) => |bs| >= w && CrashesAll(e, DecNat(bs[..w]), bs[w..])
    case Pair(a, b) => Crashes(a, bs) || (Unpack(a, bs).Done? && Crashes(b, Unpack(a, bs).rest))
    case Union(arms) => |bs| >= 1 && bs[0] != INVALID && CrashesArm(arms, bs[0], bs[1..])
    case _ => false
  }

  predicate CrashesAll(e: Ty, n: nat, bs: Bytes)
    decreases e, 1, n
  {
    n > 0 && (Crashes(e, bs) || (Unpack(e, bs).Done? && CrashesAll(e, n - 1, Unpack(e, bs).rest)))
  }

  predicate CrashesArm(arms: Arms, tag: nat, bs: Bytes)
    decreases arms, 0, 0
  {
    arms.Arm? && if arms.tag == tag then Crashes(arms.ty, bs) else CrashesArm(arms.more, tag, bs)
  }

  /** A buffer there holds fewer than 2^31 bytes, and then a crash only ever takes the place of a
      failure. */
  lemma {:induction false} CrashesFails(ty: Ty, bs: Bytes)
    requires |bs| < TWO_31 && Crashes(ty, bs)
    ensures Unpack(ty, bs).Fail?
    decreases ty, 2, 0
  {
    hide Clean, Again;
    match ty
    case Str(w) =>
    case List(w, e) => CrashesAllFails(e, DecNat(bs[..w]), bs[w..]);
    case Pair(a, b) =>
      if Crashes(a, bs) {
        CrashesFails(a, bs);
      } else {
        RestIsShorter(a, bs);
        CrashesFails(b, Unpack(a, bs).rest);
      }
    case Union(arms) => CrashesArmFails(arms, bs[0], bs[1..]);
  }

  lemma RestIsShorter(ty: Ty, bs: Bytes)
    requires Unpack(ty, bs).Done?
    ensures |Unpack(ty, bs).rest| <= |bs|
  {
    hide Unpack, Pack, Fits, Clean;
    Canonical(ty, bs);
  }

  lemma {:induction false} CrashesAllFails(e: Ty, n: nat, bs: Bytes)
    requires |bs| < TWO_31 && CrashesAll(e, n, bs)
    ensures UnpackAll(e, n, bs).Fail?
    decreases e, 3, n
  {
    hide Unpack, Crashes;
    if Crashes(e, bs) {
      CrashesFails(e, bs);
    } else {
      RestIsShorter(e, bs);
      CrashesAllFails(e, n - 1, Unpack(e, bs).rest);
    }
  }

  lemma {:induction false} CrashesArmFails(arms: Arms, tag: nat, bs: Bytes)
    requires |bs| < TWO_31 && CrashesArm(arms, tag, bs)
    ensures UnpackArm(arms, tag, bs).Fail?
    decreases arms, 0, 0
  {
    if arms.tag == tag {
      CrashesFails(arms.ty, bs);
    } else {
      CrashesArmFails(arms.more, tag, bs);
    }
  }

  lemma ShortPrefix(bs: Bytes, w: nat)
    requires w < 4 && w <= |bs|
    ensures DecNat(bs[..w]) < TWO_31
  {
    assert |bs[..w]| == w;
    assert Pow256(3) == 256 * Pow256(2) && Pow256(2) == 256 * Pow256(1) && Pow256(1) == 256 && Pow256(0) == 1;
  }

  /** Where every prefix has fewer than four bytes no input crashes. */
  lemma {:induction false} CheckedNeverCrashes(ty: Ty, bs: Bytes)
    requires Checked(ty)
    ensures !Crashes(ty, bs)
    decreases ty, 2, 0
  {
    hide DecNat;
    match ty
    case Str(w) =>
      if |bs| >= w {
        ShortPrefix(bs, w);
      }
    case List(w, e) =>
      if |bs| >= w {
        CheckedNeverCrashesAll(e, DecNat(bs[..w]), bs[w..]);
      }
    case Pair(a, b) =>
      CheckedNeverCrashes(a, bs);
      if Unpack(a, bs).Done? {
        CheckedNeverCrashes(b, Unpack(a, bs).rest);
      }
    case Union(arms) =>
      if |bs| >= 1 && bs[0] != INVALID {
        CheckedNeverCrashesArm(arms, bs[0], bs[1..]);
      }
    case _ =>
  }

  lemma {:induction false} CheckedNeverCrashesAll(e: Ty, n: nat, bs: Bytes)
    requires Checked(e)
    ensures !CrashesAll(e, n, bs)
    decreases e, 3, n
  {
    if n > 0 {
      CheckedNeverCrashes(e, bs);
      if Unpack(e, bs).Done? {
        CheckedNeverCrashesAll(e, n - 1, Unpack(e, bs).rest);
      }
    }
  }

  lemma {:induction false} CheckedNeverCrashesArm(arms: Arms, tag: nat, bs: Bytes)
    requires CheckedArms(arms)
    ensures !CrashesArm(arms, tag, bs)
    decreases arms, 0, 0
  {
    if arms.Arm? {
      if arms.tag == tag {
        CheckedNeverCrashes(arms.ty, bs);
      } else {
        CheckedNeverCrashesArm(arms.more, tag, bs);
      }
    }
  }

  // ---------------------------------------------------------------- Size

  lemma WrapAdd(a: nat, b: nat)
    ensures Wrap(Wrap(a) + Wrap(b)) == Wrap(a + b)
  {
  }

  /** Size is the number of bytes that a successful Pack writes, in uint32 arithmetic. */
  lemma {:induction false} SizeIsLength(ty: Ty, v: Val)
    requires Fits(ty, v) && Pack(ty, v).Some?
    ensures Size(ty, v) == Wrap(|Pack(ty, v).value|)
    decreases ty, 2, v
  {
    hide Wrap, EncNat, Pow256;
    match ty
    case Str(w) => WrapAdd(w, |v.s|);
    case List(w, e) =>
      SizeAllIsLength(e, v);
      WrapAdd(w, |PackAll(e, v).value|);
    case Pair(a, b) =>
      SizeIsLength(a, v.head);
      SizeIsLength(b, v.tail);
      WrapAdd(|Pack(a, v.head).value|, |Pack(b, v.tail).value|);
    case Union(arms) =>
      if v.Choice? {
        SizeArmIsLength(arms, v.tag, v.v);
        WrapAdd(1, |PackArm(arms, v.tag, v.v).value|);
      }
    case _ =>
  }

  lemma {:induction false} SizeAllIsLength(e: Ty, v: Val)
    requires FitsAll(e, v) && PackAll(e, v).Some?
    ensures SizeAll(e, v) == Wrap(|PackAll(e, v).value|)
    decreases e, 3, v
  {
    hide Wrap, Size, Pack, Fits;
    if v.Both? {
      SizeIsLength(e, v.head);
      SizeAllIsLength(e, v.tail);
      WrapAdd(|Pack(e, v.head).value|, |PackAll(e, v.tail).value|);
    }
  }

  lemma {:induction false} SizeArmIsLength(arms: Arms, tag: nat, v: Val)
    requires FitsArm(arms, tag, v) && PackArm(arms, tag, v).Some?
    ensures SizeArm(arms, tag, v) == Wrap(|PackArm(arms, tag, v).value|)
    decreases arms, 0, v
  {
    if arms.tag == tag {
      SizeIsLength(arms.ty, v);
    } else {
      SizeArmIsLength(arms.more, tag, v);
    }
  }
}
