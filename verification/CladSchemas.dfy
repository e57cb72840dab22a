/** The schemas of the nested messages, and what the theorems about all schemas say of them. */
module CladSchemas {
  import opened CladCodec
  import opened Common

  // Documents: cloud docs

  const DOC := Pair(UInt(8), Pair(UInt(8), Pair(Str(1), Pair(Str(4), Unit))))
  const WRITE_REQUEST := Pair(Str(2), Pair(Str(2), Pair(Str(2), Pair(DOC, Unit))))
  const WRITE_RESPONSE := Pair(UInt(1), Pair(UInt(8), Unit))
  const READ_ITEM := Pair(Str(1), Pair(UInt(8), Unit))
  const READ_REQUEST := Pair(Str(2), Pair(Str(2), Pair(List(2, READ_ITEM), Unit)))
  const RESPONSE_DOC := Pair(UInt(1), Pair(DOC, Unit))
  const READ_RESPONSE := Pair(List(2, RESPONSE_DOC), Unit)
  const DELETE_REQUEST := Pair(Str(2), Pair(Str(2), Pair(Str(2), Unit)))
  const ERROR_RESPONSE := Pair(UInt(1), Unit)
  const USER_RESPONSE := Pair(Str(1), Unit)
  const THING_RESPONSE := Pair(Str(1), Unit)

  const DOC_REQUEST := Union(
    Arm(0, WRITE_REQUEST, Arm(1, READ_REQUEST, Arm(2, DELETE_REQUEST, Arm(3, Unit, Arm(4, Unit, NoArms))))))

  const DOC_RESPONSE := Union(
    Arm(0, WRITE_RESPONSE, Arm(1, READ_RESPONSE, Arm(2, Unit,
    Arm(3, ERROR_RESPONSE, Arm(4, USER_RESPONSE, Arm(5, THING_RESPONSE, NoArms)))))))

  // Vision

  const OFFBOARD_IMAGE_READY :=
    Pair(UInt(4), Pair(UInt(4), Pair(UInt(4), Pair(UInt(4), Pair(Bool, Pair(Bool,
    Pair(List(1, Str(1)), Pair(Str(1), Unit))))))))

  // Robot to gateway

  const ANIMATION_COMPLETED := Pair(Str(1), Unit)
  const ACTION_COMPLETED_UNION := Union(Arm(1, ANIMATION_COMPLETED, NoArms))
  const ROBOT_COMPLETED_ACTION :=
    Pair(UInt(4), Pair(UInt(4), Pair(UInt(4), Pair(List(1, UInt(4)), Pair(ACTION_COMPLETED_UNION, Unit)))))
  const LOADED_KNOWN_FACE :=
    Pair(UInt(8), Pair(UInt(8), Pair(UInt(8), Pair(UInt(8), Pair(UInt(4), Pair(Str(1), Unit))))))
  const ENROLLED_NAMES_RESPONSE := Pair(List(1, LOADED_KNOWN_FACE), Unit)

  const POINT := Pair(UInt(4), Pair(UInt(4), Unit))
  const RECT := Pair(UInt(4), Pair(UInt(4), Pair(UInt(4), Pair(UInt(4), Unit))))
  const POSE :=
    Pair(UInt(4), Pair(UInt(4), Pair(UInt(4), Pair(UInt(4),
    Pair(UInt(4), Pair(UInt(4), Pair(UInt(4), Pair(UInt(4), Unit))))))))
  const CHECKED_PAIR := Pair(Bool, Pair(UInt(4), Pair(UInt(4), Unit)))   // SmileAmount, Gaze, BlinkAmount
  const ROBOT_OBSERVED_FACE :=
    Pair(UInt(4), Pair(UInt(4), Pair(POSE, Pair(RECT, Pair(Str(1), Pair(UInt(1),
    Pair(CHECKED_PAIR, Pair(CHECKED_PAIR, Pair(CHECKED_PAIR, Pair(List(1, UInt(1)),
    Pair(List(1, POINT), Pair(List(1, POINT), Pair(List(1, POINT), Pair(List(1, POINT), Unit))))))))))))))

  /** The union of all robot messages: three of its arms, and any others. */
  function RobotToExternal(others: Arms): Ty {
    Union(Arm(1, ROBOT_COMPLETED_ACTION, Arm(5, ENROLLED_NAMES_RESPONSE, Arm(6, ROBOT_OBSERVED_FACE, others))))
  }

  lemma RequestsHaveNoBools()
    ensures BoolFree(DOC_REQUEST)
  {
    assert BoolFree(DOC) && BoolFree(READ_ITEM);
    assert BoolFree(READ_REQUEST.rest.rest) && BoolFree(WRITE_REQUEST.rest.rest);
    assert BoolFree(WRITE_REQUEST) && BoolFree(READ_REQUEST) && BoolFree(DELETE_REQUEST);
    assert BoolFreeArms(DOC_REQUEST.arms.more.more);
  }

  lemma ResponsesHaveNoBools()
    ensures BoolFree(DOC_RESPONSE)
  {
    assert BoolFree(DOC) && BoolFree(RESPONSE_DOC);
    assert BoolFree(WRITE_RESPONSE) && BoolFree(READ_RESPONSE) && BoolFree(ERROR_RESPONSE);
    assert BoolFreeArms(DOC_RESPONSE.arms.more.more.more);
  }

  /** For any message: Size is the number of bytes consumed, and packing again gives those very
      bytes exactly when all booleans among them were clean. */
  lemma CanonicalWithSize(ty: Ty, bs: Bytes)
    requires Unpack(ty, bs).Done?
    ensures var d := Unpack(ty, bs);
      && Fits(ty, d.v) && Pack(ty, d.v).Some?
      && (Pack(ty, d.v).value + d.rest == bs <==> Clean(ty, bs))
      && |d.rest| <= |bs| && Size(ty, d.v) == Wrap(|bs| - |d.rest|)
  {
    hide Unpack, Pack, Fits, Size, Clean, Wrap;
    Canonical(ty, bs);
    var d := Unpack(ty, bs);
    var packed := Pack(ty, d.v).value;
    assert bs == bs[..|packed|] + d.rest;
    assert (packed + d.rest)[..|packed|] == packed;
    SizeIsLength(ty, d.v);
  }

  /** Whatever bytes a document request or response was unpacked from, packing it again gives the
      bytes consumed, and its Size is their number. */
  lemma DocumentsAreCanonical(bs: Bytes, ty: Ty)
    requires ty == DOC_REQUEST || ty == DOC_RESPONSE
    requires Unpack(ty, bs).Done?
    ensures var d := Unpack(ty, bs);
      && Fits(ty, d.v) && Pack(ty, d.v).Some?
      && Pack(ty, d.v).value + d.rest == bs && |d.rest| <= |bs|
      && Size(ty, d.v) == Wrap(|bs| - |d.rest|)
  {
    hide Unpack, Pack, Fits, Size, BoolFree, Clean, Wrap, DOC_REQUEST, DOC_RESPONSE;
    RequestsHaveNoBools();
    ResponsesHaveNoBools();
    BoolFreeClean(ty, bs);
    CanonicalWithSize(ty, bs);
  }

  // ---------------------------------------------------------------- messages of the robot

  const COMPLETED_ACTION_TAG: byte := 1
  const ENROLLED_NAMES_TAG: byte := 5
  const OBSERVED_FACE_TAG: byte := 6

  predicate Spelled(tag: nat) {
    tag == COMPLETED_ACTION_TAG || tag == ENROLLED_NAMES_TAG || tag == OBSERVED_FACE_TAG
  }

  function RobotArm(tag: nat): Ty
    requires Spelled(tag)
  {
    if tag == COMPLETED_ACTION_TAG then ROBOT_COMPLETED_ACTION
    else if tag == ENROLLED_NAMES_TAG then ENROLLED_NAMES_RESPONSE
    else ROBOT_OBSERVED_FACE
  }

  lemma ActionAndNamesChecked()
    ensures Checked(ROBOT_COMPLETED_ACTION) && Checked(ENROLLED_NAMES_RESPONSE)
  {
    assert Checked(ACTION_COMPLETED_UNION);
    assert Checked(ROBOT_COMPLETED_ACTION.rest.rest.rest);
    assert Checked(LOADED_KNOWN_FACE.rest.rest.rest);
  }

  lemma FaceChecked()
    ensures Checked(ROBOT_OBSERVED_FACE)
  {
    assert Checked(POINT) && Checked(RECT) && Checked(POSE.rest.rest.rest.rest) && Checked(CHECKED_PAIR);
    assert Checked(List(1, POINT)) && Checked(POSE);
    var tail := ROBOT_OBSERVED_FACE.rest.rest.rest.rest;
    hide POSE, RECT, POINT, CHECKED_PAIR;
    assert Checked(tail.rest.rest.rest.rest.rest.rest.rest);
    assert Checked(tail.rest.rest.rest.rest);
    assert Checked(tail);
  }

  lemma RobotArmsChecked(tag: nat)
    requires Spelled(tag)
    ensures Checked(RobotArm(tag))
  {
    hide Checked;
    ActionAndNamesChecked();
    FaceChecked();
  }

  /** The union of the robot's messages over nested structs, lists and an inner union: for these
      three messages, all of whose prefixes Pack checks, success of Pack is enough for the round
      trip, and every truncation is refused. */
  lemma RobotMessagesRoundTrip(others: Arms, tag: byte, x: Val, more: Bytes, k: nat)
    requires Spelled(tag) && Fits(RobotArm(tag), x) && Pack(RobotArm(tag), x).Some?
    ensures var ty, v := RobotToExternal(others), Choice(tag, x);
      && Fits(ty, v) && InRange(ty, v)
      && Pack(ty, v) == Some([tag] + Pack(RobotArm(tag), x).value)
      && Unpack(ty, Pack(ty, v).value + more) == Done(v, more)
      && (k < |Pack(ty, v).value| ==> Unpack(ty, Pack(ty, v).value[..k]).Fail?)
  {
    var ty, v := RobotToExternal(others), Choice(tag, x);
    RobotArmsChecked(tag);
    CheckedInRange(RobotArm(tag), x);
    UnionOfRobotArm(others, tag, x);
    hide Unpack, Pack, Fits, InRange, Checked;
    RoundTripIffInRange(ty, v, more);
    if k < |Pack(ty, v).value| {
      StrictPrefixFails(ty, v, k);
    }
  }

  lemma UnionOfRobotArm(others: Arms, tag: byte, x: Val)
    requires Spelled(tag) && Fits(RobotArm(tag), x) && Pack(RobotArm(tag), x).Some?
    requires InRange(RobotArm(tag), x)
    ensures var ty, v := RobotToExternal(others), Choice(tag, x);
      Fits(ty, v) && InRange(ty, v) && Pack(ty, v) == Some([tag] + Pack(RobotArm(tag), x).value)
  {
    assert EncNat(tag, 1) == [tag];
    var arms := RobotToExternal(others).arms;
    hide FitsArm, PackArm, InRangeArm;
    if tag == COMPLETED_ACTION_TAG {
      ArmHere(arms, tag, x);
    } else if tag == ENROLLED_NAMES_TAG {
      ArmHere(arms.more, tag, x);
      ArmLater(arms, tag, x);
    } else {
      ArmHere(arms.more.more, tag, x);
      ArmLater(arms.more, tag, x);
      ArmLater(arms, tag, x);
    }
  }

  lemma ArmHere(arms: Arms, tag: byte, x: Val)
    requires arms.Arm? && arms.tag == tag < INVALID && Fits(arms.ty, x)
    ensures FitsArm(arms, tag, x)
    ensures PackArm(arms, tag, x) == Pack(arms.ty, x) && InRangeArm(arms, tag, x) == InRange(arms.ty, x)
  {
    hide Fits, Pack, InRange;
  }

  lemma ArmLater(arms: Arms, tag: byte, x: Val)
    requires arms.Arm? && arms.tag != tag && FitsArm(arms.more, tag, x)
    ensures FitsArm(arms, tag, x)
    ensures PackArm(arms, tag, x) == PackArm(arms.more, tag, x)
    ensures InRangeArm(arms, tag, x) == InRangeArm(arms.more, tag, x)
  {
    hide Fits, Pack, InRange;
  }

  // ---------------------------------------------------------------- the engine and switchboard sockets

  /** What Write puts on a socket: the size as two bytes, then the message. */
  function Written(ty: Ty, v: Val): Option<Bytes>
    requires Fits(ty, v)
  {
    Then(Some(EncNat(Size(ty, v) % 0x1_0000, 2)), Pack(ty, v))
  }

  lemma SizeBytes(size: nat, length: nat)
    requires size == Wrap(length)
    ensures DecNat(EncNat(size % 0x1_0000, 2)) == length <==> length < 0x1_0000
  {
    TwoBytes();
    hide EncNat, DecNat, Pow256;
    DecEnc(size % 0x1_0000, 2);
  }

  lemma TwoBytes()
    ensures Pow256(2) == 0x1_0000
  {
    assert Pow256(0) == 1 && Pow256(1) == 256;
  }

  /** Write sends two bytes and the message, and the two bytes tell the message's length exactly when
      it is below 65536. */
  lemma WrittenSize(ty: Ty, v: Val)
    requires Fits(ty, v) && Pack(ty, v).Some?
    ensures Written(ty, v).Some? && Written(ty, v).value[2..] == Pack(ty, v).value
    ensures DecNat(Written(ty, v).value[..2]) == |Pack(ty, v).value| <==> |Pack(ty, v).value| < 0x1_0000
  {
    hide Pack, Fits, Size, EncNat, DecNat, Wrap;
    var packed, block := Pack(ty, v).value, Written(ty, v).value;
    assert block[2..] == packed;
    assert block[..2] == EncNat(Size(ty, v) % 0x1_0000, 2);
    SizeIsLength(ty, v);
    SizeBytes(Size(ty, v), |packed|);
  }

  /** ProcessMessages on what ReadBlock gave: two bytes are skipped without a look at them. */
  function FromSocket(ty: Ty, block: Bytes): Decoded {
    if |block| < 2 then Fail else Unpack(ty, block[2..])
  }

  /** A message sent to the gateway behind any two bytes is decoded to its value exactly when the
      read buffer holds it all; a longer one is cut and then refused. */
  lemma ReceivedIffShort(ty: Ty, v: Val, size: Bytes)
    requires Fits(ty, v) && InRange(ty, v) && Pack(ty, v).Some? && |size| == 2
    ensures FromSocket(ty, Cut(size + Pack(ty, v).value))
         == if |Pack(ty, v).value| <= 32766 then Done(v, []) else Fail
  {
    hide Unpack, Pack, Fits, InRange;
    var packed := Pack(ty, v).value;
    var block := size + packed;
    if |packed| <= BUFFER_SIZE - 2 {
      UnpackPacked(ty, v, []);
      assert Cut(block)[2..] == packed == packed + [];
    } else {
      StrictPrefixFails(ty, v, BUFFER_SIZE - 2);
      assert Cut(block)[2..] == packed[..BUFFER_SIZE - 2];
    }
  }

  /** The engine's messages, as EngineCladIpcManager reads them. */
  lemma RobotMessageReceived(others: Arms, tag: byte, x: Val, size: Bytes)
    requires Spelled(tag) && Fits(RobotArm(tag), x) && Pack(RobotArm(tag), x).Some? && |size| == 2
    ensures FromSocket(RobotToExternal(others), Cut(size + [tag] + Pack(RobotArm(tag), x).value))
         == if |Pack(RobotArm(tag), x).value| <= 32765 then Done(Choice(tag, x), []) else Fail
  {
    hide Unpack, Pack, Fits, InRange;
    RobotMessagesRoundTrip(others, tag, x, [], 0);
    ReceivedIffShort(RobotToExternal(others), Choice(tag, x), size);
    assert size + [tag] + Pack(RobotArm(tag), x).value == size + ([tag] + Pack(RobotArm(tag), x).value);
  }
}
