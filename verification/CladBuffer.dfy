/** The byte buffer that generated messages are packed to and unpacked from, its reads and writes
    tied to the wire format, and the steps by which a method goes through a struct or a list. */
module CladBuffer {
  import opened CladCodec
  import opened Common

  lemma Powers()
    ensures Pow256(1) == 0x100 && Pow256(2) == 0x1_0000 && Pow256(4) == TWO_32
    ensures Pow256(8) == 0x1_0000_0000_0000_0000
  {
    assert Pow256(0) == 1;
    assert Pow256(3) == 0x100_0000 && Pow256(5) == 0x100 * TWO_32 && Pow256(6) == 0x1_0000 * TWO_32;
    assert Pow256(7) == 0x100_0000 * TWO_32;
  }

  /** Packing something that has the bytes `packed` took the buffer from `before` to `after`. An
      error leaves behind what was written up to it. */
  ghost predicate Packed(before: Bytes, packed: Option<Bytes>, ok: bool, after: Bytes) {
    && before <= after
    && Then(Some(before), packed) == if ok then Some(after) else None
  }

  /** Unpacking ended with `v` and left `rest`, where the format says `d`. */
  ghost predicate Unpacked(d: Decoded, ok: bool, v: Val, rest: Bytes) {
    d == if ok then Done(v, rest) else Fail
  }

  /** How a read from untrusted bytes ends. */
  datatype Outcome = Good | Failed | Crashed

  // ---------------------------------------------------------------- struct fields

  lemma ThenAssociates(a: Option<Bytes>, b: Option<Bytes>, c: Option<Bytes>)
    ensures Then(a, Then(b, c)) == Then(Then(a, b), c)
  {
    if a.Some? && b.Some? && c.Some? {
      assert a.value + (b.value + c.value) == a.value + b.value + c.value;
    }
  }

  lemma FieldFits(ty: Ty, v: Val)
    requires ty.Pair? && v.Both? && Fits(ty.first, v.head) && Fits(ty.rest, v.tail)
    ensures Fits(ty, v)
  {
  }

  lemma PackField(before: Bytes, ty: Ty, v: Val)
    requires ty.Pair? && Fits(ty, v)
    ensures Fits(ty.first, v.head) && Fits(ty.rest, v.tail)
    ensures Then(Some(before), Pack(ty, v))
         == Then(Then(Some(before), Pack(ty.first, v.head)), Pack(ty.rest, v.tail))
  {
    ThenAssociates(Some(before), Pack(ty.first, v.head), Pack(ty.rest, v.tail));
  }

  lemma PackEnd(before: Bytes)
    ensures Then(Some(before), Pack(Unit, End)) == Some(before)
  {
    assert before + [] == before;
  }

  function And(v: Val, d: Decoded): Decoded {
    if d.Fail? then Fail else Done(Both(v, d.v), d.rest)
  }

  lemma UnpackField(ty: Ty, bs: Bytes)
    requires ty.Pair?
    ensures var first := Unpack(ty.first, bs);
      Unpack(ty, bs) == if first.Fail? then Fail else And(first.v, Unpack(ty.rest, first.rest))
  {
  }

  lemma CrashField(ty: Ty, bs: Bytes)
    requires ty.Pair?
    ensures Crashes(ty, bs) <==>
              Crashes(ty.first, bs) || (Unpack(ty.first, bs).Done? && Crashes(ty.rest, Unpack(ty.first, bs).rest))
  {
  }

  lemma UnpackEnd(bs: Bytes)
    ensures Unpack(Unit, bs) == Done(End, bs) && !Crashes(Unit, bs)
  {
  }

  lemma WrapMoves(a: nat, b: nat, c: nat)
    ensures Wrap(a + Wrap(b + c)) == Wrap(Wrap(a + b) + c)
  {
  }

  lemma WrapTwice(a: nat)
    ensures Wrap(Wrap(a)) == Wrap(a)
  {
  }

  lemma WrapSmall(a: uint32)
    ensures Wrap(a) == a
  {
  }

  lemma SizeField(sum: nat, ty: Ty, v: Val)
    requires ty.Pair? && Fits(ty, v)
    ensures Fits(ty.first, v.head) && Fits(ty.rest, v.tail)
    ensures Wrap(sum + Size(ty, v)) == Wrap(Wrap(sum + Size(ty.first, v.head)) + Size(ty.rest, v.tail))
  {
    hide Wrap;
    WrapMoves(sum, Size(ty.first, v.head), Size(ty.rest, v.tail));
  }

  lemma SizeNumber(width: uint32, n: nat)
    requires n < Pow256(width)
    ensures Size(UInt(width), Num(n)) == width
  {
  }

  lemma SizeFlag(b: bool)
    ensures Size(Bool, Flag(b)) == 1
  {
  }

  lemma SizeEnd(sum: uint32)
    ensures Wrap(sum + Size(Unit, End)) == sum
  {
  }

  lemma SizeStart(ty: Ty, v: Val)
    requires ty.Pair? && Fits(ty, v)
    ensures Wrap(Size(ty, v)) == Size(ty, v)
  {
    hide Wrap;
    WrapTwice(Size(ty.first, v.head) + Size(ty.rest, v.tail));
  }

  // ---------------------------------------------------------------- list elements

  function Chain(vs: seq<Val>, i: nat): Val
    requires i <= |vs|
    decreases |vs| - i
  {
    if i == |vs| then End else Both(vs[i], Chain(vs, i + 1))
  }

  lemma {:induction false} ChainFits(e: Ty, vs: seq<Val>, i: nat)
    requires i <= |vs| && forall k :: 0 <= k < |vs| ==> Fits(e, vs[k])
    ensures FitsAll(e, Chain(vs, i)) && Length(Chain(vs, i)) == |vs| - i
    decreases |vs| - i
  {
    if i < |vs| {
      ChainFits(e, vs, i + 1);
    }
  }

  lemma {:induction false} ChainInjective(vs: seq<Val>, ws: seq<Val>, i: nat)
    requires i <= |vs| && i <= |ws| && Chain(vs, i) == Chain(ws, i)
    ensures vs[i..] == ws[i..]
    decreases |vs| - i
  {
    if i < |vs| {
      ChainInjective(vs, ws, i + 1);
      assert vs[i..] == [vs[i]] + vs[i + 1..] && ws[i..] == [ws[i]] + ws[i + 1..];
    }
  }

  lemma PackElement(before: Bytes, e: Ty, vs: seq<Val>, i: nat)
    requires i < |vs| && forall k :: 0 <= k < |vs| ==> Fits(e, vs[k])
    ensures FitsAll(e, Chain(vs, i)) && FitsAll(e, Chain(vs, i + 1))
    ensures Then(Some(before), PackAll(e, Chain(vs, i)))
         == Then(Then(Some(before), Pack(e, vs[i])), PackAll(e, Chain(vs, i + 1)))
  {
    ChainFits(e, vs, i);
    ChainFits(e, vs, i + 1);
    ThenAssociates(Some(before), Pack(e, vs[i]), PackAll(e, Chain(vs, i + 1)));
  }

  lemma PackList(before: Bytes, width: nat, e: Ty, vs: seq<Val>)
    requires forall k :: 0 <= k < |vs| ==> Fits(e, vs[k])
    ensures forall i :: 0 <= i <= |vs| ==> FitsAll(e, Chain(vs, i))
    ensures Fits(List(width, e), Chain(vs, 0))
    ensures Then(Some(before), Pack(List(width, e), Chain(vs, 0)))
         == Then(Then(Some(before), Prefix(|vs|, width)), PackAll(e, Chain(vs, 0)))
  {
    forall i | 0 <= i <= |vs|
      ensures FitsAll(e, Chain(vs, i))
    {
      ChainFits(e, vs, i);
    }
    ChainFits(e, vs, 0);
    ThenAssociates(Some(before), Prefix(|vs|, width), PackAll(e, Chain(vs, 0)));
  }

  /** The first k elements, and after them what `d` says of the others. */
  function Prepend(vs: seq<Val>, k: nat, d: Decoded): Decoded
    requires k <= |vs|
  {
    if k == 0 then d else Prepend(vs, k - 1, And(vs[k - 1], d))
  }

  lemma {:induction false} PrependFail(vs: seq<Val>, k: nat)
    requires k <= |vs|
    ensures Prepend(vs, k, Fail) == Fail
  {
    if k > 0 {
      PrependFail(vs, k - 1);
    }
  }

  lemma {:induction false} PrependSame(vs: seq<Val>, ws: seq<Val>, k: nat, d: Decoded)
    requires k <= |vs| && k <= |ws| && vs[..k] == ws[..k]
    ensures Prepend(vs, k, d) == Prepend(ws, k, d)
  {
    if k > 0 {
      assert vs[k - 1] == vs[..k][k - 1] == ws[..k][k - 1] == ws[k - 1];
      assert vs[..k - 1] == vs[..k][..k - 1] && ws[..k - 1] == ws[..k][..k - 1];
      PrependSame(vs, ws, k - 1, And(vs[k - 1], d));
    }
  }

  lemma {:induction false} PrependDone(vs: seq<Val>, k: nat, rest: Bytes)
    requires k <= |vs|
    ensures Prepend(vs, k, Done(Chain(vs, k), rest)) == Done(Chain(vs, 0), rest)
  {
    if k > 0 {
      PrependDone(vs, k - 1, rest);
    }
  }

  lemma UnpackList(width: nat, e: Ty, bs: Bytes)
    ensures var length := Unpack(UInt(width), bs);
      Unpack(List(width, e), bs) == if length.Fail? then Fail else UnpackAll(e, length.v.n, length.rest)
  {
  }

  /** The element at k was read: nothing is read after a failure, and a success fills place k. */
  lemma UnpackElement(e: Ty, vs: seq<Val>, k: nat, bs: Bytes, ok: bool, v: Val, rest: Bytes)
    requires k < |vs| && Unpacked(Unpack(e, bs), ok, v, rest)
    ensures Prepend(vs, k, UnpackAll(e, |vs| - k, bs))
         == if ok then Prepend(vs[k := v], k + 1, UnpackAll(e, |vs| - k - 1, rest)) else Fail
  {
    hide Unpack;
    if ok {
      PrependSame(vs, vs[k := v], k, UnpackAll(e, |vs| - k, bs));
    } else {
      PrependFail(vs, k);
    }
  }

  lemma UnpackListStart(vs: seq<Val>, d: Decoded)
    ensures Prepend(vs, 0, d) == d
  {
  }

  lemma CrashList(width: nat, e: Ty, bs: Bytes)
    ensures var length := Unpack(UInt(width), bs);
      Crashes(List(width, e), bs) <==> length.Done? && CrashesAll(e, length.v.n, length.rest)
  {
  }

  lemma CrashElement(e: Ty, n: nat, bs: Bytes)
    requires n > 0
    ensures CrashesAll(e, n, bs) <==>
              Crashes(e, bs) || (Unpack(e, bs).Done? && CrashesAll(e, n - 1, Unpack(e, bs).rest))
  {
  }

  lemma CrashListEnd(e: Ty, bs: Bytes)
    ensures !CrashesAll(e, 0, bs)
  {
  }

  lemma UnpackListEnd(e: Ty, vs: seq<Val>, bs: Bytes)
    ensures Prepend(vs, |vs|, UnpackAll(e, 0, bs)) == Done(Chain(vs, 0), bs)
  {
    PrependDone(vs, |vs|, bs);
  }

  lemma SizeOfList(width: uint32, e: Ty, v: Val)
    requires FitsAll(e, v)
    ensures Size(List(width, e), v) == Wrap(width + SizeAll(e, v))
  {
    hide Fits, FitsAll, SizeAll, Wrap;
    WrapSmall(width);
  }

  lemma SizeList(sum: nat, width: uint32, e: Ty, vs: seq<Val>)
    requires forall k :: 0 <= k < |vs| ==> Fits(e, vs[k])
    ensures forall i :: 0 <= i <= |vs| ==> FitsAll(e, Chain(vs, i))
    ensures Fits(List(width, e), Chain(vs, 0))
    ensures Wrap(sum + Size(List(width, e), Chain(vs, 0)))
         == Wrap(Wrap(sum + width) + SizeAll(e, Chain(vs, 0)))
  {
    hide Fits, FitsAll, Size, SizeAll, Chain, Wrap;
    PackList([], width, e, vs);
    SizeOfList(width, e, Chain(vs, 0));
    WrapMoves(sum, width, SizeAll(e, Chain(vs, 0)));
  }

  lemma SizeElement(sum: nat, e: Ty, vs: seq<Val>, i: nat)
    requires i < |vs| && forall k :: 0 <= k < |vs| ==> Fits(e, vs[k])
    ensures FitsAll(e, Chain(vs, i)) && FitsAll(e, Chain(vs, i + 1))
    ensures Wrap(sum + SizeAll(e, Chain(vs, i)))
         == Wrap(Wrap(sum + Size(e, vs[i])) + SizeAll(e, Chain(vs, i + 1)))
  {
    hide Fits, Size, Wrap;
    ChainFits(e, vs, i);
    ChainFits(e, vs, i + 1);
    WrapMoves(sum, Size(e, vs[i]), SizeAll(e, Chain(vs, i + 1)));
  }

  lemma SizeListEnd(sum: uint32, e: Ty, vs: seq<Val>)
    ensures Wrap(sum + SizeAll(e, Chain(vs, |vs|))) == sum
  {
  }

  lemma PackListEnd(before: Bytes, e: Ty, vs: seq<Val>)
    ensures Then(Some(before), PackAll(e, Chain(vs, |vs|))) == Some(before)
  {
    assert before + [] == before;
  }

  // ---------------------------------------------------------------- lists of strings and numbers

  function Texts(strings: seq<Bytes>): (vs: seq<Val>)
    ensures |vs| == |strings| && forall i :: 0 <= i < |vs| ==> vs[i] == Text(strings[i])
  {
    seq(|strings|, i requires 0 <= i < |strings| => Text(strings[i]))
  }

  lemma SameTexts(a: seq<Bytes>, b: seq<Bytes>)
    requires Chain(Texts(a), 0) == Chain(Texts(b), 0)
    ensures a == b
  {
    hide Chain;
    ChainInjective(Texts(a), Texts(b), 0);
    assert Texts(a)[0..] == Texts(a) && Texts(b)[0..] == Texts(b);
    assert forall i :: 0 <= i < |a| ==> Texts(a)[i] == Text(a[i]) && Texts(b)[i] == Text(b[i]);
  }

  function Nums(ns: seq<uint32>): (vs: seq<Val>)
    ensures |vs| == |ns| && forall i :: 0 <= i < |vs| ==> vs[i] == Num(ns[i]) && Fits(UInt(4), vs[i])
  {
    Powers();
    seq(|ns|, i requires 0 <= i < |ns| => Num(ns[i]))
  }

  lemma SameNums(a: seq<uint32>, b: seq<uint32>)
    requires Chain(Nums(a), 0) == Chain(Nums(b), 0)
    ensures a == b
  {
    hide Chain;
    ChainInjective(Nums(a), Nums(b), 0);
    assert Nums(a)[0..] == Nums(a) && Nums(b)[0..] == Nums(b);
    assert forall i :: 0 <= i < |a| ==> Nums(a)[i] == Num(a[i]) && Nums(b)[i] == Num(b[i]);
  }

  lemma {:induction false} NumsNeedBytes(count: nat, bs: Bytes)
    ensures UnpackAll(UInt(4), count, bs).Done? <==> 4 * count <= |bs|
  {
    if count > 0 && |bs| >= 4 {
      NumsNeedBytes(count - 1, bs[4..]);
    }
  }

  lemma WrapProduct(n: nat)
    ensures Wrap(Wrap(n) * 4) == Wrap(4 * n)
  {
  }

  lemma {:induction false} NumsSize(ns: seq<uint32>, i: nat)
    requires i <= |ns| && FitsAll(UInt(4), Chain(Nums(ns), i))
    ensures SizeAll(UInt(4), Chain(Nums(ns), i)) == Wrap(4 * (|ns| - i))
    decreases |ns| - i
  {
    hide Wrap;
    if i < |ns| {
      Powers();
      NumsSize(ns, i + 1);
      SizeNumber(4, ns[i]);
      WrapMoves(4, 4 * (|ns| - i - 1), 0);
      WrapTwice(4 * (|ns| - i));
    } else {
      WrapSmall(0);
    }
  }

  // ---------------------------------------------------------------- the buffer

  class Buffer {
    var unread: Bytes

    constructor (contents: Bytes)
      ensures unread == contents
    {
      unread := contents;
    }

    /** A fixed number of bytes, all or nothing; a read that falls short uses up the buffer. */
    method ReadUInt(width: nat) returns (ok: bool, n: nat)
      modifies this
      ensures Unpacked(Unpack(UInt(width), old(unread)), ok, Num(n), unread)
      ensures n < Pow256(width) && |unread| <= |old(unread)| && !Crashes(UInt(width), old(unread))
      ensures !ok ==> unread == []
    {
      ok, n := |unread| >= width, 0;
      if ok {
        n := DecNat(unread[..width]);
        unread := unread[width..];
      } else {
        unread := [];
      }
    }

    method ReadUInt32() returns (ok: bool, n: uint32)
      modifies this
      ensures Unpacked(Unpack(UInt(4), old(unread)), ok, Num(n), unread)
    {
      Powers();
      ok, n := ReadUInt(4);
    }

    method ReadBool() returns (ok: bool, b: bool)
      modifies this
      ensures Unpacked(Unpack(Bool, old(unread)), ok, Flag(b), unread)
    {
      var n;
      ok, n := ReadUInt(1);
      b := n != 0;
      assert ok ==> DecNat(old(unread)[..1]) == old(unread)[0];
    }

    /** The next n bytes, or all there are if those are fewer. */
    method Next(n: nat) returns (s: Bytes)
      modifies this
      ensures s + unread == old(unread)
      ensures |s| == if n <= |old(unread)| then n else |old(unread)|
    {
      var k := if n <= |unread| then n else |unread|;
      s := unread[..k];
      unread := unread[k..];
    }

    /** A string is its length and then its bytes. */
    method ReadText(width: nat) returns (ok: bool, s: Bytes)
      requires width < 4
      modifies this
      ensures Unpacked(Unpack(Str(width), old(unread)), ok, Text(s), unread)
      ensures |unread| <= |old(unread)| && !Crashes(Str(width), old(unread))
    {
      CheckedNeverCrashes(Str(width), unread);
      var length;
      s := [];
      ok, length := ReadUInt(width);
      if !ok {
        return;
      }
      ghost var body := unread;
      s := Next(length);
      ok := |s| == length;
      assert ok ==> s == body[..length] && unread == body[length..];
    }

    /** The same with a four byte length, which a 32 bit int takes for a negative number from 2^31
        on: Next panics then. */
    method ReadLongText() returns (o: Outcome, s: Bytes)
      requires |unread| < TWO_31
      modifies this
      ensures Unpacked(Unpack(Str(4), old(unread)), o == Good, Text(s), unread)
      ensures o == Crashed <==> Crashes(Str(4), old(unread))
      ensures |unread| <= |old(unread)|
    {
      s := [];
      var ok, length := ReadUInt(4);
      if !ok {
        return Failed, s;
      }
      ghost var body := unread;
      if length >= TWO_31 {
        return Crashed, s;
      }
      s := Next(length);
      assert |s| == length ==> s == body[..length] && unread == body[length..];
      o := if |s| == length then Good else Failed;
    }

    /** Numbers of four bytes each, read in one go: all of them or none. */
    method ReadUInt32s(count: nat) returns (ok: bool, ns: seq<uint32>)
      modifies this
      ensures Unpacked(UnpackAll(UInt(4), count, old(unread)), ok, Chain(Nums(ns), 0), unread)
    {
      hide UnpackAll, Chain, Unpack;
      Powers();
      NumsNeedBytes(count, unread);
      ok, ns := 4 * count <= |unread|, [];
      if !ok {
        unread := [];
        return;
      }
      ns := seq(count, _ => 0);
      ghost var all := UnpackAll(UInt(4), count, unread);
      UnpackListStart(Nums(ns), all);
      var idx := 0;
      while idx < count
        invariant 0 <= idx <= count == |ns| && all.Done?
        invariant all == Prepend(Nums(ns), idx, UnpackAll(UInt(4), count - idx, unread))
      {
        ghost var vs, bs := Nums(ns), unread;
        var n;
        ok, n := ReadUInt(4);
        UnpackElement(UInt(4), vs, idx, bs, ok, Num(n), unread);
        ns := ns[idx := n];
        assert Nums(ns) == vs[idx := Num(n)];
        idx := idx + 1;
      }
      UnpackListEnd(UInt(4), Nums(ns), unread);
      ok := true;
    }

    method WriteUInt(n: nat, width: nat)
      requires n < Pow256(width)
      modifies this
      ensures Packed(old(unread), Pack(UInt(width), Num(n)), true, unread)
    {
      unread := unread + EncNat(n, width);
    }

    method WriteUInt32s(ns: seq<uint32>)
      modifies this
      ensures FitsAll(UInt(4), Chain(Nums(ns), 0))
      ensures Packed(old(unread), PackAll(UInt(4), Chain(Nums(ns), 0)), true, unread)
    {
      hide PackAll, Pack, Fits, FitsAll, Chain;
      Powers();
      ghost var start, vs := unread, Nums(ns);
      PackList(unread, 1, UInt(4), vs);
      var idx := 0;
      while idx < |ns|
        invariant 0 <= idx <= |ns| && start <= unread
        invariant Then(Some(start), PackAll(UInt(4), Chain(vs, 0)))
               == Then(Some(unread), PackAll(UInt(4), Chain(vs, idx)))
      {
        PackElement(unread, UInt(4), vs, idx);
        WriteUInt(ns[idx], 4);
        idx := idx + 1;
      }
      PackListEnd(unread, UInt(4), vs);
    }

    method WriteBool(b: bool)
      modifies this
      ensures Packed(old(unread), Pack(Bool, Flag(b)), true, unread)
    {
      unread := unread + [if b then 1 else 0];
    }

    /** The length, unless it is too long for a prefix of one or two bytes. */
    method WriteLength(length: nat, width: nat) returns (ok: bool)
      modifies this
      ensures Packed(old(unread), Prefix(length, width), ok, unread)
    {
      var top := Pow256(width);
      if width < 4 && length > top - 1 {
        return false;
      }
      unread := unread + EncNat(length % top, width);
      return true;
    }

    method WriteText(s: Bytes, width: nat) returns (ok: bool)
      modifies this
      ensures Packed(old(unread), Pack(Str(width), Text(s)), ok, unread)
    {
      ThenAssociates(Some(unread), Prefix(|s|, width), Some(s));
      ok := WriteLength(|s|, width);
      if ok {
        unread := unread + s;
      }
    }
  }

  /** What Size adds for a string, in uint32 arithmetic. */
  method AddText(sum: nat, width: uint32, s: Bytes) returns (result: uint32)
    ensures result == Wrap(sum + Size(Str(width), Text(s)))
  {
    hide Wrap;
    WrapSmall(width);
    WrapMoves(sum, width, Wrap(|s|));
    result := Wrap(sum + width);
    result := Wrap(result + Wrap(|s|));
  }
}
