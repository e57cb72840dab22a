/** The robot's message about a finished action: a list of numbers and a union inside a struct. */
module RobotMessages {
  import opened CladCodec
  import opened CladSchemas
  import opened CladBuffer
  import opened Common
  import opened WireLayout

  function Animation(name: Bytes): (v: Val)
    ensures Fits(ANIMATION_COMPLETED, v)
  {
    FieldFits(ANIMATION_COMPLETED, Both(Text(name), End));
    Both(Text(name), End)
  }

  /** The union inside the message: no tag and the INVALID tag are the same on the wire. */
  datatype Completion = NoCompletion | AnimationCompleted(name: Bytes) {
    function Value(): (v: Val)
      ensures Fits(ACTION_COMPLETED_UNION, v)
    {
      if NoCompletion? then NoChoice else Choice(ANIMATION_TAG, Animation(name))
    }
  }

  const ANIMATION_TAG: byte := 1

  /** The union on the wire: the byte 255, or the byte 1 and the animation's name. */
  function CompletionBytes(c: Completion): Bytes {
    match c
    case NoCompletion => [255]
    case AnimationCompleted(name) => [1] + Text8(name)
  }

  predicate ShortCompletion(c: Completion) {
    c.AnimationCompleted? ==> |c.name| < 0x100
  }

  lemma CompletionLayout(c: Completion)
    ensures Pack(ACTION_COMPLETED_UNION, c.Value())
         == if ShortCompletion(c) then Some(CompletionBytes(c)) else None
  {
    var arms := ACTION_COMPLETED_UNION.arms;
    var name := if c.NoCompletion? then [] else c.name;
    assert Behind(arms, 1) == Some(ANIMATION_COMPLETED);
    hide Pack, Fits, Behind, Text8;
    TextLayout(name);
    EmptyLayout();
    FieldLayout(ANIMATION_COMPLETED, Animation(name));
    assert Text8(name) + [] == Text8(name);
    UnionLayout(arms, 1, Animation(name), []);
  }

  method PackAnimation(name: Bytes, buf: Buffer) returns (ok: bool)
    modifies buf
    ensures Packed(old(buf.unread), Pack(ANIMATION_COMPLETED, Animation(name)), ok, buf.unread)
  {
    hide Pack, Fits;
    PackField(buf.unread, ANIMATION_COMPLETED, Animation(name));
    ok := buf.WriteText(name, 1);
    PackEnd(buf.unread);
  }

  method UnpackAnimation(buf: Buffer) returns (ok: bool, name: Bytes)
    modifies buf
    ensures Unpacked(Unpack(ANIMATION_COMPLETED, old(buf.unread)), ok, Animation(name), buf.unread)
  {
    hide Unpack;
    UnpackField(ANIMATION_COMPLETED, buf.unread);
    ok, name := buf.ReadText(1);
    UnpackEnd(buf.unread);
  }

  method PackCompletion(c: Completion, buf: Buffer) returns (ok: bool)
    modifies buf
    ensures Packed(old(buf.unread), Pack(ACTION_COMPLETED_UNION, c.Value()), ok, buf.unread)
    ensures ok <==> ShortCompletion(c)
    ensures ok ==> buf.unread == old(buf.unread) + CompletionBytes(c)
  {
    CompletionLayout(c);
    hide CompletionBytes;
    Powers();
    var tag := if c.NoCompletion? then INVALID else ANIMATION_TAG;
    ghost var start := buf.unread;
    buf.WriteUInt(tag, 1);
    ok := true;
    assert EncNat(tag, 1) == [tag];
    if tag == INVALID {
      return;
    }
    ThenAssociates(Some(start), Some([tag]), Pack(ANIMATION_COMPLETED, Animation(c.name)));
    ok := PackAnimation(c.name, buf);
  }

  method UnpackCompletion(buf: Buffer) returns (ok: bool, c: Completion)
    modifies buf
    ensures Unpacked(Unpack(ACTION_COMPLETED_UNION, old(buf.unread)), ok, c.Value(), buf.unread)
  {
    c := NoCompletion;
    var tag;
    ok, tag := buf.ReadUInt(1);
    if !ok {
      return;
    }
    assert tag == old(buf.unread)[0];
    if tag == INVALID {
      return;
    }
    match tag {
      case 1 =>
        var name;
        ok, name := UnpackAnimation(buf);
        if ok {
          c := AnimationCompleted(name);
        }
      case _ =>
        ok := false;
    }
  }

  method SizeOfCompletion(c: Completion) returns (result: uint32)
    ensures result == Size(ACTION_COMPLETED_UNION, c.Value())
  {
    WrapSmall(1);
    if c.NoCompletion? {
      return 1;
    }
    ghost var v := Animation(c.name);
    result := 0;
    SizeStart(ANIMATION_COMPLETED, v);
    SizeField(0, ANIMATION_COMPLETED, v);
    result := AddText(0, 1, c.name);
    SizeEnd(result);
    result := Wrap(1 + result);
  }

  /** The message on the wire: three numbers, the counted list of numbers, the union. */
  function ActionBytes(idTag: uint32, actionType: uint32, result: uint32, subActionResults: seq<uint32>,
                       info: Completion): Bytes {
    Le32(idTag) + Le32(actionType) + Le32(result)
    + ([|subActionResults| % 0x100] + Flat(subActionResults, (n: uint32) => Le32(n))) + CompletionBytes(info)
  }

  function ActionValue(idTag: uint32, actionType: uint32, result: uint32, subActionResults: seq<uint32>,
                       info: Completion): (v: Val)
    ensures Fits(ROBOT_COMPLETED_ACTION, v)
  {
    Powers();
    ChainFits(UInt(4), Nums(subActionResults), 0);
    var parts := Both(Chain(Nums(subActionResults), 0), Both(info.Value(), End));
    var all := Both(Num(idTag), Both(Num(actionType), Both(Num(result), parts)));
    FieldFits(ROBOT_COMPLETED_ACTION.rest.rest.rest.rest, parts.tail);
    FieldFits(ROBOT_COMPLETED_ACTION.rest.rest.rest, parts);
    FieldFits(ROBOT_COMPLETED_ACTION.rest.rest, all.tail.tail);
    FieldFits(ROBOT_COMPLETED_ACTION.rest, all.tail);
    all
  }

  lemma NumsLayout(ns: seq<uint32>)
    ensures var v := Chain(Nums(ns), 0);
      && Fits(List(1, UInt(4)), v)
      && Pack(List(1, UInt(4)), v)
         == if |ns| < 0x100 then Some([|ns| % 0x100] + Flat(ns, (n: uint32) => Le32(n))) else None
  {
    hide Pack, Fits, Chain, Le32;
    forall i | 0 <= i < |ns|
      ensures Fits(UInt(4), Nums(ns)[i]) && Pack(UInt(4), Nums(ns)[i]) == Some(Le32(ns[i]))
    {
      NumberLayout(ns[i]);
    }
    ListLayout(UInt(4), Nums(ns), ns, (n: uint32) => Le32(n), (n: uint32) => true);
  }

  lemma ActionLayout(idTag: uint32, actionType: uint32, result: uint32, subs: seq<uint32>, info: Completion)
    ensures Pack(ROBOT_COMPLETED_ACTION, ActionValue(idTag, actionType, result, subs, info))
         == if |subs| < 0x100 && ShortCompletion(info)
            then Some(ActionBytes(idTag, actionType, result, subs, info)) else None
  {
    hide Pack, Fits, Chain, Le32, CompletionBytes, Flat;
    var ty, v := ROBOT_COMPLETED_ACTION, ActionValue(idTag, actionType, result, subs, info);
    NumberLayout(idTag);
    NumberLayout(actionType);
    NumberLayout(result);
    NumsLayout(subs);
    CompletionLayout(info);
    EmptyLayout();
    FieldLayout(ty.rest.rest.rest.rest, v.tail.tail.tail.tail);
    FieldLayout(ty.rest.rest.rest, v.tail.tail.tail);
    FieldLayout(ty.rest.rest, v.tail.tail);
    FieldLayout(ty.rest, v.tail);
    FieldLayout(ty, v);
    Join5(Le32(idTag), Le32(actionType), Le32(result),
          [|subs| % 0x100] + Flat(subs, (n: uint32) => Le32(n)), CompletionBytes(info));
  }

  lemma ActionHasNoBools()
    ensures BoolFree(ROBOT_COMPLETED_ACTION)
  {
    assert BoolFree(ANIMATION_COMPLETED);
    assert BoolFree(ACTION_COMPLETED_UNION);
    assert BoolFree(ROBOT_COMPLETED_ACTION.rest.rest.rest);
  }

  /** What the message is read from is what it is written to. */
  lemma ActionRead(bs: Bytes, idTag: uint32, actionType: uint32, result: uint32, subs: seq<uint32>,
                   info: Completion, rest: Bytes)
    requires Unpack(ROBOT_COMPLETED_ACTION, bs) == Done(ActionValue(idTag, actionType, result, subs, info), rest)
    ensures bs == ActionBytes(idTag, actionType, result, subs, info) + rest
  {
    ActionLayout(idTag, actionType, result, subs, info);
    ActionHasNoBools();
    hide Unpack, Pack, Fits, BoolFree, Clean, ActionBytes;
    BoolFreeClean(ROBOT_COMPLETED_ACTION, bs);
    CanonicalWithSize(ROBOT_COMPLETED_ACTION, bs);
  }

  class RobotCompletedAction {
    var idTag: uint32
    var actionType: uint32
    var result: uint32
    var subActionResults: seq<uint32>
    var completionInfo: Completion

    constructor (idTag: uint32, actionType: uint32, result: uint32, subActionResults: seq<uint32>, info: Completion)
      ensures this.idTag == idTag && this.actionType == actionType && this.result == result
      ensures this.subActionResults == subActionResults && completionInfo == info
    {
      this.idTag, this.actionType, this.result := idTag, actionType, result;
      this.subActionResults, this.completionInfo := subActionResults, info;
    }

    ghost function Value(): (v: Val)
      reads this
      ensures Fits(ROBOT_COMPLETED_ACTION, v)
    {
      ActionValue(idTag, actionType, result, subActionResults, completionInfo)
    }

    method Pack(buf: Buffer) returns (ok: bool)
      modifies buf
      ensures Packed(old(buf.unread), CladCodec.Pack(ROBOT_COMPLETED_ACTION, Value()), ok, buf.unread)
      ensures ok <==> |subActionResults| < 0x100 && ShortCompletion(completionInfo)
      ensures ok ==> buf.unread == old(buf.unread)
                                   + ActionBytes(idTag, actionType, result, subActionResults, completionInfo)
    {
      ActionLayout(idTag, actionType, result, subActionResults, completionInfo);
      hide CladCodec.Pack, PackAll, Fits, FitsAll, Chain, ActionBytes;
      Powers();
      ghost var v, ty := Value(), ROBOT_COMPLETED_ACTION;
      PackField(buf.unread, ty, v);
      buf.WriteUInt(idTag, 4);
      PackField(buf.unread, ty.rest, v.tail);
      buf.WriteUInt(actionType, 4);
      PackField(buf.unread, ty.rest.rest, v.tail.tail);
      buf.WriteUInt(result, 4);
      ty, v := ty.rest.rest.rest, v.tail.tail.tail;
      PackField(buf.unread, ty, v);
      PackList(buf.unread, 1, UInt(4), Nums(subActionResults));
      ok := buf.WriteLength(|subActionResults|, 1);
      if !ok {
        return;
      }
      buf.WriteUInt32s(subActionResults);
      PackField(buf.unread, ty.rest, v.tail);
      ok := PackCompletion(completionInfo, buf);
      PackEnd(buf.unread);
    }

    method Unpack(buf: Buffer) returns (ok: bool)
      requires buf as object != this
      modifies this, buf
      ensures Unpacked(CladCodec.Unpack(ROBOT_COMPLETED_ACTION, old(buf.unread)), ok, Value(), buf.unread)
      ensures ok ==> old(buf.unread)
                     == ActionBytes(idTag, actionType, result, subActionResults, completionInfo) + buf.unread
    {
      hide CladCodec.Unpack, UnpackAll, Fits, FitsAll, Chain, ActionBytes;
      Powers();
      ghost var ty := ROBOT_COMPLETED_ACTION;
      var length;
      UnpackField(ty, buf.unread);
      ok, idTag := buf.ReadUInt32();
      if !ok {
        return;
      }
      UnpackField(ty.rest, buf.unread);
      ok, actionType := buf.ReadUInt32();
      if !ok {
        return;
      }
      UnpackField(ty.rest.rest, buf.unread);
      ok, result := buf.ReadUInt32();
      if !ok {
        return;
      }
      ty := ty.rest.rest.rest;
      UnpackField(ty, buf.unread);
      UnpackList(1, UInt(4), buf.unread);
      ok, length := buf.ReadUInt(1);
      if !ok {
        return;
      }
      ok, subActionResults := buf.ReadUInt32s(length);
      if !ok {
        return;
      }
      UnpackField(ty.rest, buf.unread);
      ok, completionInfo := UnpackCompletion(buf);
      UnpackEnd(buf.unread);
      if ok {
        ActionRead(old(buf.unread), idTag, actionType, result, subActionResults, completionInfo, buf.unread);
      }
    }

    method Size() returns (size: uint32)
      ensures size == CladCodec.Size(ROBOT_COMPLETED_ACTION, Value())
    {
      hide CladCodec.Size, SizeAll, Fits, FitsAll, Chain, Wrap;
      Powers();
      ghost var v, ty := Value(), ROBOT_COMPLETED_ACTION;
      size := 0;
      SizeStart(ty, v);
      SizeField(size, ty, v);
      SizeNumber(4, idTag);
      size := Wrap(size + 4);
      SizeField(size, ty.rest, v.tail);
      SizeNumber(4, actionType);
      size := Wrap(size + 4);
      SizeField(size, ty.rest.rest, v.tail.tail);
      SizeNumber(4, result);
      size := Wrap(size + 4);
      ty, v := ty.rest.rest.rest, v.tail.tail.tail;
      SizeField(size, ty, v);
      SizeList(size, 1, UInt(4), Nums(subActionResults));
      size := Wrap(size + 1);
      NumsSize(subActionResults, 0);
      WrapProduct(|subActionResults|);
      size := Wrap(size + Wrap(Wrap(|subActionResults|) * 4));
      SizeField(size, ty.rest, v.tail);
      var nested := SizeOfCompletion(completionInfo);
      size := Wrap(size + nested);
      SizeEnd(size);
    }
  }

  lemma RobotCompletedActionChecked()
    ensures Checked(ROBOT_COMPLETED_ACTION)
  {
    assert Checked(ANIMATION_COMPLETED);
    assert Checked(ACTION_COMPLETED_UNION);
    assert Checked(ROBOT_COMPLETED_ACTION.rest.rest.rest);
  }

  /** What Pack wrote for one object, Unpack reads into another field by field, leaving exactly
      what followed. All prefixes are of one byte, so a successful Pack is enough. */
  lemma RobotCompletedActionRoundTrip(
      sent: RobotCompletedAction, received: RobotCompletedAction, ok: bool, more: Bytes, rest: Bytes)
    requires Pack(ROBOT_COMPLETED_ACTION, sent.Value()).Some?
    requires Unpacked(Unpack(ROBOT_COMPLETED_ACTION, Pack(ROBOT_COMPLETED_ACTION, sent.Value()).value + more),
                      ok, received.Value(), rest)
    ensures ok && rest == more
    ensures received.idTag == sent.idTag && received.actionType == sent.actionType && received.result == sent.result
    ensures received.subActionResults == sent.subActionResults && received.completionInfo == sent.completionInfo
  {
    RobotCompletedActionChecked();
    hide Pack, Unpack, Fits, Checked, Chain;
    CheckedRoundTrip(ROBOT_COMPLETED_ACTION, sent.Value(), more);
    assert received.Value() == sent.Value();
    SameNums(received.subActionResults, sent.subActionResults);
  }
}
