/** The robot's messages to the gateway, as values, and the bytes they are sent as. Floats are their
    bit patterns and signed numbers their two's complement. */
module RobotLayout {
  import opened CladCodec
  import opened CladSchemas
  import opened CladBuffer
  import opened Common
  import opened RobotMessages
  import opened WireLayout

  // ---------------------------------------------------------------- the parts of a face

  datatype Point = Point(x: uint32, y: uint32)
  datatype Rect = Rect(xTopLeft: uint32, yTopLeft: uint32, width: uint32, height: uint32)
  datatype Pose = Pose(x: uint32, y: uint32, z: uint32, q0: uint32, q1: uint32, q2: uint32, q3: uint32,
                       originId: uint32)

  /** A smile, a gaze or a blink. */
  datatype Measure = Measure(wasChecked: bool, first: uint32, second: uint32)

  function PointValue(p: Point): Val {
    Both(Num(p.x), Both(Num(p.y), End))
  }

  function PointBytes(p: Point): Bytes {
    Le32(p.x) + Le32(p.y)
  }

  lemma PointLayout(p: Point)
    ensures Fits(POINT, PointValue(p)) && Pack(POINT, PointValue(p)) == Some(PointBytes(p))
  {
    hide Pack, Fits, Le32;
    NumberLayout(p.x);
    NumberLayout(p.y);
    EmptyLayout();
    FieldLayout(POINT.rest, PointValue(p).tail);
    FieldLayout(POINT, PointValue(p));
    Join2(Le32(p.x), Le32(p.y));
  }

  /** Four numbers and whatever fields come after them. */
  lemma FourNumbers(a: uint32, b: uint32, c: uint32, d: uint32, ty: Ty, v: Val)
    requires Fits(ty, v)
    ensures var all := Pair(UInt(4), Pair(UInt(4), Pair(UInt(4), Pair(UInt(4), ty))));
      var w := Both(Num(a), Both(Num(b), Both(Num(c), Both(Num(d), v))));
      Fits(all, w)
      && Pack(all, w) == Then(Some(Le32(a) + Le32(b) + Le32(c) + Le32(d)), Pack(ty, v))
  {
    hide Pack, Fits, Le32;
    NumberLayout(a);
    NumberLayout(b);
    NumberLayout(c);
    NumberLayout(d);
    var one := Pair(UInt(4), ty);
    FieldLayout(one, Both(Num(d), v));
    FieldLayout(Pair(UInt(4), one), Both(Num(c), Both(Num(d), v)));
    FieldLayout(Pair(UInt(4), Pair(UInt(4), one)), Both(Num(b), Both(Num(c), Both(Num(d), v))));
    FieldLayout(Pair(UInt(4), Pair(UInt(4), Pair(UInt(4), one))),
                Both(Num(a), Both(Num(b), Both(Num(c), Both(Num(d), v)))));
    if Pack(ty, v).Some? {
      JoinBefore(Le32(a), Le32(b), Le32(c), Le32(d), Pack(ty, v).value);
    }
  }

  function RectValue(r: Rect): Val {
    Both(Num(r.xTopLeft), Both(Num(r.yTopLeft), Both(Num(r.width), Both(Num(r.height), End))))
  }

  function RectBytes(r: Rect): Bytes {
    Le32(r.xTopLeft) + Le32(r.yTopLeft) + Le32(r.width) + Le32(r.height)
  }

  function PoseValue(p: Pose): Val {
    Both(Num(p.x), Both(Num(p.y), Both(Num(p.z), Both(Num(p.q0),
    Both(Num(p.q1), Both(Num(p.q2), Both(Num(p.q3), Both(Num(p.originId), End))))))))
  }

  function PoseBytes(p: Pose): Bytes {
    (Le32(p.x) + Le32(p.y) + Le32(p.z) + Le32(p.q0)) + (Le32(p.q1) + Le32(p.q2) + Le32(p.q3) + Le32(p.originId))
  }

  lemma PlaceLayout(p: Pose, r: Rect)
    ensures Fits(POSE, PoseValue(p)) && Pack(POSE, PoseValue(p)) == Some(PoseBytes(p))
    ensures Fits(RECT, RectValue(r)) && Pack(RECT, RectValue(r)) == Some(RectBytes(r))
  {
    hide Pack, Fits, Le32;
    EmptyLayout();
    FourNumbers(r.xTopLeft, r.yTopLeft, r.width, r.height, Unit, End);
    assert RectBytes(r) + [] == RectBytes(r);
    FourNumbers(p.q1, p.q2, p.q3, p.originId, Unit, End);
    FourNumbers(p.x, p.y, p.z, p.q0, POSE.rest.rest.rest.rest, PoseValue(p).tail.tail.tail.tail);
    var last := Le32(p.q1) + Le32(p.q2) + Le32(p.q3) + Le32(p.originId);
    assert last + [] == last;
  }

  function MeasureValue(m: Measure): Val {
    Both(Flag(m.wasChecked), Both(Num(m.first), Both(Num(m.second), End)))
  }

  function MeasureBytes(m: Measure): Bytes {
    [if m.wasChecked then 1 else 0] + Le32(m.first) + Le32(m.second)
  }

  lemma MeasureLayout(m: Measure)
    ensures Fits(CHECKED_PAIR, MeasureValue(m)) && Pack(CHECKED_PAIR, MeasureValue(m)) == Some(MeasureBytes(m))
  {
    var flag: Bytes := [if m.wasChecked then 1 else 0];
    assert Fits(Bool, Flag(m.wasChecked)) && Pack(Bool, Flag(m.wasChecked)) == Some(flag);
    hide Pack, Fits, Le32;
    NumberLayout(m.first);
    NumberLayout(m.second);
    EmptyLayout();
    FieldLayout(CHECKED_PAIR.rest.rest, MeasureValue(m).tail.tail);
    FieldLayout(CHECKED_PAIR.rest, MeasureValue(m).tail);
    FieldLayout(CHECKED_PAIR, MeasureValue(m));
    Join3(flag, Le32(m.first), Le32(m.second));
  }

  function PointValues(ps: seq<Point>): (vs: seq<Val>)
    ensures |vs| == |ps| && forall i :: 0 <= i < |vs| ==> vs[i] == PointValue(ps[i])
  {
    seq(|ps|, i requires 0 <= i < |ps| => PointValue(ps[i]))
  }

  function PointsBytes(ps: seq<Point>): Bytes {
    [|ps| % 0x100] + Flat(ps, PointBytes)
  }

  lemma PointsLayout(ps: seq<Point>)
    ensures var v := Chain(PointValues(ps), 0);
      && Fits(List(1, POINT), v)
      && Pack(List(1, POINT), v) == if |ps| < 0x100 then Some(PointsBytes(ps)) else None
  {
    hide Pack, Fits, Chain, PointBytes, PointValue;
    var vs := PointValues(ps);
    forall i | 0 <= i < |ps| ensures Fits(POINT, vs[i]) && Pack(POINT, vs[i]) == Some(PointBytes(ps[i])) {
      PointLayout(ps[i]);
    }
    ListLayout(POINT, vs, ps, PointBytes, (p: Point) => true);
  }

  function ByteValues(bs: Bytes): (vs: seq<Val>)
    ensures |vs| == |bs| && forall i :: 0 <= i < |vs| ==> vs[i] == Num(bs[i])
  {
    seq(|bs|, i requires 0 <= i < |bs| => Num(bs[i]))
  }

  lemma {:induction false} FlatBytes(bs: Bytes)
    ensures Flat(bs, (b: byte) => [b]) == bs
  {
    if bs != [] {
      FlatBytes(bs[1..]);
      assert bs == [bs[0]] + bs[1..];
    }
  }

  lemma ByteListLayout(bs: Bytes)
    ensures var v := Chain(ByteValues(bs), 0);
      && Fits(List(1, UInt(1)), v)
      && Pack(List(1, UInt(1)), v) == if |bs| < 0x100 then Some(Text8(bs)) else None
  {
    hide Pack, Fits, Chain;
    var vs := ByteValues(bs);
    forall i | 0 <= i < |bs| ensures Fits(UInt(1), vs[i]) && Pack(UInt(1), vs[i]) == Some([bs[i]]) {
      NumberLayout(bs[i]);
    }
    ListLayout(UInt(1), vs, bs, (b: byte) => [b], (b: byte) => true);
    FlatBytes(bs);
  }

  // ---------------------------------------------------------------- an observed face

  datatype ObservedFace = ObservedFace(
    faceId: uint32, timestamp: uint32, pose: Pose, imgRect: Rect, name: Bytes, expression: uint8,
    smileAmount: Measure, gaze: Measure, blinkAmount: Measure, expressionValues: Bytes,
    leftEye: seq<Point>, rightEye: seq<Point>, nose: seq<Point>, mouth: seq<Point>)

  predicate ShortFace(f: ObservedFace) {
    |f.name| < 0x100 && |f.expressionValues| < 0x100
    && |f.leftEye| < 0x100 && |f.rightEye| < 0x100 && |f.nose| < 0x100 && |f.mouth| < 0x100
  }

  function ListsValue(f: ObservedFace): Val {
    Both(Chain(ByteValues(f.expressionValues), 0),
         Both(Chain(PointValues(f.leftEye), 0), Both(Chain(PointValues(f.rightEye), 0),
         Both(Chain(PointValues(f.nose), 0), Both(Chain(PointValues(f.mouth), 0), End)))))
  }

  function FaceValue(f: ObservedFace): Val {
    Both(Num(f.faceId), Both(Num(f.timestamp), Both(PoseValue(f.pose), Both(RectValue(f.imgRect),
    Both(Text(f.name), Both(Num(f.expression), Both(MeasureValue(f.smileAmount), Both(MeasureValue(f.gaze),
    Both(MeasureValue(f.blinkAmount), ListsValue(f))))))))))
  }

  function ListsBytes(f: ObservedFace): Bytes {
    Text8(f.expressionValues) + PointsBytes(f.leftEye) + PointsBytes(f.rightEye)
    + PointsBytes(f.nose) + PointsBytes(f.mouth)
  }

  /** An observed face on the wire, its fields in order. */
  function FaceBytes(f: ObservedFace): Bytes {
    (Le32(f.faceId) + Le32(f.timestamp) + PoseBytes(f.pose) + RectBytes(f.imgRect))
    + ((Text8(f.name) + [f.expression] + MeasureBytes(f.smileAmount) + MeasureBytes(f.gaze))
       + (MeasureBytes(f.blinkAmount) + ListsBytes(f)))
  }

  predicate ShortFaceLists(f: ObservedFace) {
    |f.expressionValues| < 0x100
    && |f.leftEye| < 0x100 && |f.rightEye| < 0x100 && |f.nose| < 0x100 && |f.mouth| < 0x100
  }

  lemma FaceListsLayout(f: ObservedFace)
    ensures var ty := ROBOT_OBSERVED_FACE.rest.rest.rest.rest.rest.rest.rest.rest.rest;
      && Fits(ty, ListsValue(f))
      && Pack(ty, ListsValue(f)) == if ShortFaceLists(f) then Some(ListsBytes(f)) else None
  {
    hide Pack, Fits, Chain, PointsBytes, Text8, POINT;
    var ty := ROBOT_OBSERVED_FACE.rest.rest.rest.rest.rest.rest.rest.rest.rest;
    var v := ListsValue(f);
    ByteListLayout(f.expressionValues);
    PointsLayout(f.leftEye);
    PointsLayout(f.rightEye);
    PointsLayout(f.nose);
    PointsLayout(f.mouth);
    EmptyLayout();
    FieldLayout(ty.rest.rest.rest.rest, v.tail.tail.tail.tail);
    FieldLayout(ty.rest.rest.rest, v.tail.tail.tail);
    FieldLayout(ty.rest.rest, v.tail.tail);
    FieldLayout(ty.rest, v.tail);
    FieldLayout(ty, v);
    Join5(Text8(f.expressionValues), PointsBytes(f.leftEye), PointsBytes(f.rightEye),
          PointsBytes(f.nose), PointsBytes(f.mouth));
  }

  lemma FaceMiddleLayout(f: ObservedFace)
    ensures var ty, v := ROBOT_OBSERVED_FACE.rest.rest.rest.rest, FaceValue(f).tail.tail.tail.tail;
      && Fits(ty, v)
      && Pack(ty, v) == if ShortFace(f)
           then Some((Text8(f.name) + [f.expression] + MeasureBytes(f.smileAmount) + MeasureBytes(f.gaze))
                     + (MeasureBytes(f.blinkAmount) + ListsBytes(f)))
           else None
  {
    hide Pack, Fits, Text8, MeasureBytes, MeasureValue, ListsBytes, ListsValue, CHECKED_PAIR;
    var ty, v := ROBOT_OBSERVED_FACE.rest.rest.rest.rest, FaceValue(f).tail.tail.tail.tail;
    FaceListsLayout(f);
    TextLayout(f.name);
    NumberLayout(f.expression);
    MeasureLayout(f.smileAmount);
    MeasureLayout(f.gaze);
    MeasureLayout(f.blinkAmount);
    FieldLayout(ty.rest.rest.rest.rest, v.tail.tail.tail.tail);
    FieldLayout(ty.rest.rest.rest, v.tail.tail.tail);
    FieldLayout(ty.rest.rest, v.tail.tail);
    FieldLayout(ty.rest, v.tail);
    FieldLayout(ty, v);
    JoinBefore(Text8(f.name), [f.expression], MeasureBytes(f.smileAmount), MeasureBytes(f.gaze),
               MeasureBytes(f.blinkAmount) + ListsBytes(f));
  }

  lemma FaceLayout(f: ObservedFace)
    ensures Fits(ROBOT_OBSERVED_FACE, FaceValue(f))
    ensures Pack(ROBOT_OBSERVED_FACE, FaceValue(f)) == if ShortFace(f) then Some(FaceBytes(f)) else None
  {
    hide Pack, Fits, Text8, MeasureBytes, MeasureValue, ListsBytes, ListsValue, CHECKED_PAIR, Le32;
    hide PoseBytes, RectBytes, PoseValue, RectValue, POSE, RECT;
    var ty, v := ROBOT_OBSERVED_FACE, FaceValue(f);
    FaceMiddleLayout(f);
    NumberLayout(f.faceId);
    NumberLayout(f.timestamp);
    PlaceLayout(f.pose, f.imgRect);
    FieldLayout(ty.rest.rest.rest, v.tail.tail.tail);
    FieldLayout(ty.rest.rest, v.tail.tail);
    FieldLayout(ty.rest, v.tail);
    FieldLayout(ty, v);
    JoinBefore(Le32(f.faceId), Le32(f.timestamp), PoseBytes(f.pose), RectBytes(f.imgRect),
               (Text8(f.name) + [f.expression] + MeasureBytes(f.smileAmount) + MeasureBytes(f.gaze))
               + (MeasureBytes(f.blinkAmount) + ListsBytes(f)));
  }

  // ---------------------------------------------------------------- enrolled names

  datatype KnownFace = KnownFace(
    sinceFirstEnrolled: uint64, sinceLastUpdated: uint64, sinceLastSeen: uint64, lastSeenSinceEpoch: uint64,
    faceId: uint32, name: Bytes)

  predicate ShortKnownFace(f: KnownFace) {
    |f.name| < 0x100
  }

  function KnownFaceValue(f: KnownFace): Val {
    Both(Num(f.sinceFirstEnrolled), Both(Num(f.sinceLastUpdated), Both(Num(f.sinceLastSeen),
    Both(Num(f.lastSeenSinceEpoch), Both(Num(f.faceId), Both(Text(f.name), End))))))
  }

  function KnownFaceBytes(f: KnownFace): Bytes {
    (Le64(f.sinceFirstEnrolled) + Le64(f.sinceLastUpdated) + Le64(f.sinceLastSeen) + Le64(f.lastSeenSinceEpoch))
    + (Le32(f.faceId) + Text8(f.name))
  }

  lemma KnownFaceLayout(f: KnownFace)
    ensures Fits(LOADED_KNOWN_FACE, KnownFaceValue(f))
    ensures Pack(LOADED_KNOWN_FACE, KnownFaceValue(f)) == if ShortKnownFace(f) then Some(KnownFaceBytes(f)) else None
  {
    hide Pack, Fits, Le64, Le32, Text8;
    var ty, v := LOADED_KNOWN_FACE, KnownFaceValue(f);
    NumberLayout(f.sinceFirstEnrolled);
    NumberLayout(f.sinceLastUpdated);
    NumberLayout(f.sinceLastSeen);
    NumberLayout(f.lastSeenSinceEpoch);
    NumberLayout(f.faceId);
    TextLayout(f.name);
    EmptyLayout();
    FieldLayout(ty.rest.rest.rest.rest.rest, v.tail.tail.tail.tail.tail);
    FieldLayout(ty.rest.rest.rest.rest, v.tail.tail.tail.tail);
    FieldLayout(ty.rest.rest.rest, v.tail.tail.tail);
    FieldLayout(ty.rest.rest, v.tail.tail);
    FieldLayout(ty.rest, v.tail);
    FieldLayout(ty, v);
    Join2(Le32(f.faceId), Text8(f.name));
    JoinBefore(Le64(f.sinceFirstEnrolled), Le64(f.sinceLastUpdated), Le64(f.sinceLastSeen),
               Le64(f.lastSeenSinceEpoch), Le32(f.faceId) + Text8(f.name));
  }

  function KnownFaceValues(fs: seq<KnownFace>): (vs: seq<Val>)
    ensures |vs| == |fs| && forall i :: 0 <= i < |vs| ==> vs[i] == KnownFaceValue(fs[i])
  {
    seq(|fs|, i requires 0 <= i < |fs| => KnownFaceValue(fs[i]))
  }

  function NamesValue(fs: seq<KnownFace>): Val {
    Both(Chain(KnownFaceValues(fs), 0), End)
  }

  predicate ShortNames(fs: seq<KnownFace>) {
    |fs| < 0x100 && forall i | 0 <= i < |fs| :: ShortKnownFace(fs[i])
  }

  function NamesBytes(fs: seq<KnownFace>): Bytes {
    [|fs| % 0x100] + Flat(fs, KnownFaceBytes)
  }

  lemma NamesLayout(fs: seq<KnownFace>)
    ensures Fits(ENROLLED_NAMES_RESPONSE, NamesValue(fs))
    ensures Pack(ENROLLED_NAMES_RESPONSE, NamesValue(fs)) == if ShortNames(fs) then Some(NamesBytes(fs)) else None
  {
    hide Pack, Fits, Chain, KnownFaceBytes, KnownFaceValue, ShortKnownFace, LOADED_KNOWN_FACE;
    var vs := KnownFaceValues(fs);
    forall i | 0 <= i < |fs|
      ensures Fits(LOADED_KNOWN_FACE, vs[i])
      ensures Pack(LOADED_KNOWN_FACE, vs[i]) == if ShortKnownFace(fs[i]) then Some(KnownFaceBytes(fs[i])) else None
    {
      KnownFaceLayout(fs[i]);
    }
    ListLayout(LOADED_KNOWN_FACE, vs, fs, KnownFaceBytes, ShortKnownFace);
    EmptyLayout();
    FieldLayout(ENROLLED_NAMES_RESPONSE, NamesValue(fs));
    assert NamesBytes(fs) + [] == NamesBytes(fs);
  }

  // ---------------------------------------------------------------- the robot's union

  datatype RobotMessage =
    | Completed(idTag: uint32, actionType: uint32, result: uint32, subActionResults: seq<uint32>, info: Completion)
    | Names(faces: seq<KnownFace>)
    | Observed(face: ObservedFace)

  predicate ShortMessage(m: RobotMessage) {
    match m
    case Completed(_, _, _, subs, info) => |subs| < 0x100 && ShortCompletion(info)
    case Names(faces) => ShortNames(faces)
    case Observed(face) => ShortFace(face)
  }

  function MessageFields(m: RobotMessage): Val {
    match m
    case Completed(idTag, actionType, result, subs, info) => ActionValue(idTag, actionType, result, subs, info)
    case Names(faces) => NamesValue(faces)
    case Observed(face) => FaceValue(face)
  }

  function MessageValue(m: RobotMessage): Val {
    Choice(if m.Completed? then 1 else if m.Names? then 5 else 6, MessageFields(m))
  }

  /** A robot message on the wire: its tag, and its fields in order. */
  function MessageBytes(m: RobotMessage): Bytes {
    match m
    case Completed(idTag, actionType, result, subs, info) => [1] + ActionBytes(idTag, actionType, result, subs, info)
    case Names(faces) => [5] + NamesBytes(faces)
    case Observed(face) => [6] + FaceBytes(face)
  }

  lemma RobotArms(others: Arms)
    ensures var arms := RobotToExternal(others).arms;
      && Behind(arms, 1) == Some(ROBOT_COMPLETED_ACTION)
      && Behind(arms, 5) == Some(ENROLLED_NAMES_RESPONSE) && Behind(arms, 6) == Some(ROBOT_OBSERVED_FACE)
  {
    var arms := RobotToExternal(others).arms;
    assert Behind(arms.more.more, 6) == Some(ROBOT_OBSERVED_FACE);
    assert Behind(arms.more, 6) == Behind(arms.more.more, 6);
  }

  lemma TaggedLayout(arms: Arms, tag: byte, ty: Ty, x: Val, more: Bytes)
    requires tag < 255 && Behind(arms, tag) == Some(ty) && Checked(ty) && Fits(ty, x)
    ensures Fits(Union(arms), Choice(tag, x))
    ensures Pack(Union(arms), Choice(tag, x)) == Then(Some([tag]), Pack(ty, x))
    ensures Pack(ty, x).Some? ==>
              Unpack(Union(arms), [tag] + Pack(ty, x).value + more) == Done(Choice(tag, x), more)
  {
    hide Pack, Unpack, Fits, InRange, Checked, Behind;
    UnionLayout(arms, tag, x, []);
    if Pack(ty, x).Some? {
      CheckedInRange(ty, x);
      UnpackPacked(Union(arms), Choice(tag, x), more);
    }
  }

  /** A robot message is written as its bytes, or refused if something in it is too long for its length
      byte; and the bytes, whatever follows them, are read as that message. */
  lemma RobotMessageLayout(others: Arms, m: RobotMessage, more: Bytes)
    ensures var ty, v := RobotToExternal(others), MessageValue(m);
      && Fits(ty, v)
      && Pack(ty, v) == (if ShortMessage(m) then Some(MessageBytes(m)) else None)
      && (ShortMessage(m) ==> Unpack(ty, MessageBytes(m) + more) == Done(v, more))
  {
    RobotArms(others);
    ActionAndNamesChecked();
    FaceChecked();
    var arms := RobotToExternal(others).arms;
    assert RobotToExternal(others) == Union(arms);
    hide Pack, Unpack, Fits, Checked, Behind, ActionBytes, NamesBytes, FaceBytes, ActionValue, NamesValue, FaceValue;
    hide ShortFace, ShortNames, RobotToExternal, ROBOT_COMPLETED_ACTION, ENROLLED_NAMES_RESPONSE, ROBOT_OBSERVED_FACE;
    match m
    case Completed(idTag, actionType, result, subs, info) =>
      ActionLayout(idTag, actionType, result, subs, info);
      TaggedLayout(arms, 1, ROBOT_COMPLETED_ACTION, MessageFields(m), more);
    case Names(faces) =>
      NamesLayout(faces);
      TaggedLayout(arms, 5, ENROLLED_NAMES_RESPONSE, MessageFields(m), more);
    case Observed(face) =>
      FaceLayout(face);
      TaggedLayout(arms, 6, ROBOT_OBSERVED_FACE, MessageFields(m), more);
  }
}
