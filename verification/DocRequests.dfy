/** Requests to the document store and its responses, as values, and the bytes they are sent as. */
module DocRequests {
  import opened CladCodec
  import opened CladSchemas
  import opened CladBuffer
  import opened Common
  import opened DocMessages
  import opened WireLayout

  // ---------------------------------------------------------------- requests

  datatype ReadItem = ReadItem(docName: Bytes, myDocVersion: uint64) {
    function Value(): (v: Val)
      ensures Fits(READ_ITEM, v)
    {
      NumberLayout(myDocVersion);
      FieldFits(READ_ITEM.rest, Both(Num(myDocVersion), End));
      Both(Text(docName), Both(Num(myDocVersion), End))
    }
  }

  function ReadItemBytes(item: ReadItem): Bytes {
    Text8(item.docName) + Le64(item.myDocVersion)
  }

  predicate ShortReadItem(item: ReadItem) {
    |item.docName| < 0x100
  }

  lemma ReadItemLayout(item: ReadItem)
    ensures Pack(READ_ITEM, item.Value()) == if ShortReadItem(item) then Some(ReadItemBytes(item)) else None
  {
    hide Pack, Fits, Text8, Le64;
    TextLayout(item.docName);
    NumberLayout(item.myDocVersion);
    EmptyLayout();
    FieldLayout(READ_ITEM.rest, Both(Num(item.myDocVersion), End));
    FieldLayout(READ_ITEM, item.Value());
    Join2(Text8(item.docName), Le64(item.myDocVersion));
  }

  function ItemValues(items: seq<ReadItem>): (vs: seq<Val>)
    ensures |vs| == |items| && forall i :: 0 <= i < |vs| ==> vs[i] == items[i].Value()
  {
    seq(|items|, i requires 0 <= i < |items| => items[i].Value())
  }

  datatype Request =
    | Write(account: Bytes, thing: Bytes, docName: Bytes, doc: Doc)
    | Read(account: Bytes, thing: Bytes, items: seq<ReadItem>)
    | Delete(account: Bytes, thing: Bytes, docName: Bytes)
    | User
    | Thing
    | NoRequest

  predicate Short(s: Bytes) {
    |s| < 0x1_0000
  }

  /** What can be packed: every string and list short enough for its length prefix, as far as Pack
      looks. */
  predicate ShortRequest(r: Request) {
    match r
    case Write(account, thing, docName, doc) =>
      Short(account) && Short(thing) && Short(docName) && |doc.metadata| < 0x100
    case Read(account, thing, items) =>
      Short(account) && Short(thing) && |items| < 0x1_0000
      && forall i | 0 <= i < |items| :: ShortReadItem(items[i])
    case Delete(account, thing, docName) => Short(account) && Short(thing) && Short(docName)
    case _ => true
  }

  /** A request on the wire: its tag, and its fields in order. */
  function RequestBytes(r: Request): Bytes {
    match r
    case Write(account, thing, docName, doc) =>
      [0] + (Text16(account) + Text16(thing) + Text16(docName)
             + DocBytes(doc.docVersion, doc.fmtVersion, doc.metadata, doc.jsonDoc))
    case Read(account, thing, items) =>
      [1] + (Text16(account) + Text16(thing) + (Le16(|items|) + Flat(items, ReadItemBytes)))
    case Delete(account, thing, docName) => [2] + (Text16(account) + Text16(thing) + Text16(docName))
    case User => [3]
    case Thing => [4]
    case NoRequest => [255]
  }

  /** The fields of a request as a value of its schema. */
  function Fields(r: Request): Val {
    match r
    case Write(account, thing, docName, doc) =>
      Both(Text(account), Both(Text(thing), Both(Text(docName), Both(doc.Value(), End))))
    case Read(account, thing, items) =>
      Both(Text(account), Both(Text(thing), Both(Chain(ItemValues(items), 0), End)))
    case Delete(account, thing, docName) => Both(Text(account), Both(Text(thing), Both(Text(docName), End)))
    case _ => End
  }

  function RequestValue(r: Request): Val {
    match r
    case Write(_, _, _, _) => Choice(0, Fields(r))
    case Read(_, _, _) => Choice(1, Fields(r))
    case Delete(_, _, _) => Choice(2, Fields(r))
    case User => Choice(3, End)
    case Thing => Choice(4, End)
    case NoRequest => NoChoice
  }

  lemma WriteLayout(r: Request)
    requires r.Write?
    ensures Fits(WRITE_REQUEST, Fields(r))
    ensures Pack(WRITE_REQUEST, Fields(r)) == if ShortRequest(r) then Some(RequestBytes(r)[1..]) else None
  {
    hide Pack, Fits, Text16, DocBytes;
    var ty, v := WRITE_REQUEST, Fields(r);
    TextLayout(r.account);
    TextLayout(r.thing);
    TextLayout(r.docName);
    DocLayout(r.doc.docVersion, r.doc.fmtVersion, r.doc.metadata, r.doc.jsonDoc);
    EmptyLayout();
    FieldLayout(ty.rest.rest.rest, v.tail.tail.tail);
    FieldLayout(ty.rest.rest, v.tail.tail);
    FieldLayout(ty.rest, v.tail);
    FieldLayout(ty, v);
    Join4(Text16(r.account), Text16(r.thing), Text16(r.docName),
          DocBytes(r.doc.docVersion, r.doc.fmtVersion, r.doc.metadata, r.doc.jsonDoc));
  }

  lemma ReadLayout(r: Request)
    requires r.Read?
    ensures Fits(READ_REQUEST, Fields(r))
    ensures Pack(READ_REQUEST, Fields(r)) == if ShortRequest(r) then Some(RequestBytes(r)[1..]) else None
  {
    hide Pack, Fits, Text16, Le16, Flat, Chain, ReadItemBytes, ShortReadItem;
    var ty, v, vs := READ_REQUEST, Fields(r), ItemValues(r.items);
    TextLayout(r.account);
    TextLayout(r.thing);
    forall i | 0 <= i < |r.items|
      ensures Fits(READ_ITEM, vs[i])
      ensures Pack(READ_ITEM, vs[i]) == if ShortReadItem(r.items[i]) then Some(ReadItemBytes(r.items[i])) else None
    {
      ReadItemLayout(r.items[i]);
    }
    ListLayout(READ_ITEM, vs, r.items, ReadItemBytes, ShortReadItem);
    EmptyLayout();
    FieldLayout(ty.rest.rest, v.tail.tail);
    FieldLayout(ty.rest, v.tail);
    FieldLayout(ty, v);
    Join3(Text16(r.account), Text16(r.thing), Le16(|r.items|) + Flat(r.items, ReadItemBytes));
  }

  lemma DeleteLayout(r: Request)
    requires r.Delete?
    ensures Fits(DELETE_REQUEST, Fields(r))
    ensures Pack(DELETE_REQUEST, Fields(r)) == if ShortRequest(r) then Some(RequestBytes(r)[1..]) else None
  {
    hide Pack, Fits, Text16;
    var ty, v := DELETE_REQUEST, Fields(r);
    TextLayout(r.account);
    TextLayout(r.thing);
    TextLayout(r.docName);
    EmptyLayout();
    FieldLayout(ty.rest.rest, v.tail.tail);
    FieldLayout(ty.rest, v.tail);
    FieldLayout(ty, v);
    Join3(Text16(r.account), Text16(r.thing), Text16(r.docName));
  }

  lemma RequestArms()
    ensures var arms := DOC_REQUEST.arms;
      && Behind(arms, 0) == Some(WRITE_REQUEST) && Behind(arms, 1) == Some(READ_REQUEST)
      && Behind(arms, 2) == Some(DELETE_REQUEST) && Behind(arms, 3) == Some(Unit) && Behind(arms, 4) == Some(Unit)
      && forall tag: byte :: tag > 4 ==> Behind(arms, tag) == None
  {
    var third := DOC_REQUEST.arms.more.more.more;
    forall tag: byte | tag > 2 ensures Behind(DOC_REQUEST.arms, tag) == Behind(third, tag) {
      SkipThree(DOC_REQUEST.arms, tag);
    }
    assert third == Arm(3, Unit, Arm(4, Unit, NoArms));
    forall tag: byte | tag > 4 ensures Behind(third, tag) == None {
      assert Behind(third.more.more, tag) == None;
    }
  }

  /** A request is written as its bytes, or refused if something in it is too long for its prefix. */
  lemma RequestLayout(r: Request)
    ensures Fits(DOC_REQUEST, RequestValue(r))
    ensures Pack(DOC_REQUEST, RequestValue(r)) == if ShortRequest(r) then Some(RequestBytes(r)) else None
  {
    RequestArms();
    var arms := DOC_REQUEST.arms;
    assert DOC_REQUEST == Union(arms);
    hide Pack, Fits, Behind, Fields, DOC_REQUEST, WRITE_REQUEST, READ_REQUEST, DELETE_REQUEST;
    EmptyLayout();
    match r
    case Write(_, _, _, _) =>
      WriteLayout(r);
      UnionLayout(arms, 0, Fields(r), []);
    case Read(_, _, _) =>
      ReadLayout(r);
      UnionLayout(arms, 1, Fields(r), []);
    case Delete(_, _, _) =>
      DeleteLayout(r);
      UnionLayout(arms, 2, Fields(r), []);
    case User =>
      UnionLayout(arms, 3, End, []);
      TagAlone(3);
    case Thing =>
      UnionLayout(arms, 4, End, []);
      TagAlone(4);
    case NoRequest => UnionLayout(arms, 0, End, []);
  }

  lemma FieldInRange(ty: Ty, v: Val)
    requires ty.Pair? && Fits(ty, v)
    ensures InRange(ty, v) <==> InRange(ty.first, v.head) && InRange(ty.rest, v.tail)
  {
  }

  lemma WriteInRange(r: Request)
    requires r.Write? && ShortRequest(r) && Fits(WRITE_REQUEST, Fields(r))
    ensures InRange(WRITE_REQUEST, Fields(r)) <==> |r.doc.jsonDoc| < TWO_32
  {
    Powers();
    DocInRange(r.doc);
    var ty, v := WRITE_REQUEST, Fields(r);
    assert Fits(ty.rest, v.tail) && Fits(ty.rest.rest, v.tail.tail) && Fits(ty.rest.rest.rest, v.tail.tail.tail);
    assert InRange(Str(2), Text(r.account)) && InRange(Str(2), Text(r.thing)) && InRange(Str(2), Text(r.docName));
    assert InRange(Unit, End);
    hide InRange, Fits, DOC;
    FieldInRange(ty, v);
    FieldInRange(ty.rest, v.tail);
    FieldInRange(ty.rest.rest, v.tail.tail);
    FieldInRange(ty.rest.rest.rest, v.tail.tail.tail);
  }

  lemma OthersChecked()
    ensures Checked(READ_REQUEST) && Checked(DELETE_REQUEST) && Checked(Unit)
  {
    assert Checked(READ_ITEM);
    assert Checked(READ_REQUEST.rest.rest) && Checked(DELETE_REQUEST.rest.rest);
  }

  lemma RequestInRange(r: Request)
    requires ShortRequest(r) && Fits(DOC_REQUEST, RequestValue(r))
    ensures InRange(DOC_REQUEST, RequestValue(r)) <==> (r.Write? ==> |r.doc.jsonDoc| < TWO_32)
  {
    RequestArms();
    OthersChecked();
    var arms := DOC_REQUEST.arms;
    assert DOC_REQUEST == Union(arms) && InRange(DOC_REQUEST, NoChoice);
    hide Pack, Fits, InRange, Checked, Behind, Fields, DOC_REQUEST, WRITE_REQUEST, READ_REQUEST, DELETE_REQUEST;
    EmptyLayout();
    match r
    case Write(_, _, _, _) =>
      WriteLayout(r);
      WriteInRange(r);
      UnionLayout(arms, 0, Fields(r), []);
    case Read(_, _, _) =>
      ReadLayout(r);
      CheckedInRange(READ_REQUEST, Fields(r));
      UnionLayout(arms, 1, Fields(r), []);
    case Delete(_, _, _) =>
      DeleteLayout(r);
      CheckedInRange(DELETE_REQUEST, Fields(r));
      UnionLayout(arms, 2, Fields(r), []);
    case User =>
      CheckedInRange(Unit, End);
      UnionLayout(arms, 3, End, []);
    case Thing =>
      CheckedInRange(Unit, End);
      UnionLayout(arms, 4, End, []);
    case NoRequest =>
  }

  /** The bytes of a request, whatever follows them, are read as that request, exactly when a document
      in it has JSON below 4 GiB; bytes that begin with any other tag are refused. */
  lemma RequestReceivedIff(r: Request, more: Bytes, tag: byte)
    requires ShortRequest(r)
    ensures Unpack(DOC_REQUEST, RequestBytes(r) + more) == Done(RequestValue(r), more)
       <==> (r.Write? ==> |r.doc.jsonDoc| < 0x1_0000_0000)
    ensures 4 < tag < 255 ==> Unpack(DOC_REQUEST, [tag] + more).Fail?
  {
    hide Pack, Unpack, Fits, InRange, RequestBytes, RequestValue;
    RequestLayout(r);
    RequestInRange(r);
    RoundTripIffInRange(DOC_REQUEST, RequestValue(r), more);
    RequestArms();
    UnionLayout(DOC_REQUEST.arms, tag, End, more);
  }

  // ---------------------------------------------------------------- responses

  datatype Response =
    | Written(status: uint8, latestVersion: uint64)
    | Items(items: seq<ResponseDoc>)
    | Deleted
    | Refused(error: uint8)
    | UserIs(userId: Bytes)
    | ThingIs(thingName: Bytes)
    | NoResponse

  predicate ShortResponse(r: Response) {
    match r
    case Items(items) => |items| < 0x1_0000 && forall i | 0 <= i < |items| :: ShortItem(items[i])
    case UserIs(userId) => |userId| < 0x100
    case ThingIs(thingName) => |thingName| < 0x100
    case _ => true
  }

  /** A response on the wire. */
  function ResponseBytes(r: Response): Bytes {
    match r
    case Written(status, latestVersion) => [0] + ([status] + Le64(latestVersion))
    case Items(items) => [1] + (Le16(|items|) + Flat(items, ItemBytes))
    case Deleted => [2]
    case Refused(error) => [3] + [error]
    case UserIs(userId) => [4] + Text8(userId)
    case ThingIs(thingName) => [5] + Text8(thingName)
    case NoResponse => [255]
  }

  function ResponseValue(r: Response): Val {
    match r
    case Written(status, latestVersion) => Choice(0, Both(Num(status), Both(Num(latestVersion), End)))
    case Items(items) => Choice(1, ItemsValue(items))
    case Deleted => Choice(2, End)
    case Refused(error) => Choice(3, Both(Num(error), End))
    case UserIs(userId) => Choice(4, Both(Text(userId), End))
    case ThingIs(thingName) => Choice(5, Both(Text(thingName), End))
    case NoResponse => NoChoice
  }

  lemma ResponseArms()
    ensures var arms := DOC_RESPONSE.arms;
      && Behind(arms, 0) == Some(WRITE_RESPONSE) && Behind(arms, 1) == Some(READ_RESPONSE)
      && Behind(arms, 2) == Some(Unit) && Behind(arms, 3) == Some(ERROR_RESPONSE)
      && Behind(arms, 4) == Some(USER_RESPONSE) && Behind(arms, 5) == Some(THING_RESPONSE)
      && forall tag: byte :: tag > 5 ==> Behind(arms, tag) == None
  {
    var third := DOC_RESPONSE.arms.more.more.more;
    assert third == Arm(3, ERROR_RESPONSE, Arm(4, USER_RESPONSE, Arm(5, THING_RESPONSE, NoArms)));
    forall tag: byte | tag > 2 ensures Behind(DOC_RESPONSE.arms, tag) == Behind(third, tag) {
      SkipThree(DOC_RESPONSE.arms, tag);
    }
    assert Behind(third.more, 5) == Some(THING_RESPONSE);
    forall tag: byte | tag > 5 ensures Behind(third, tag) == None {
      SkipThree(third, tag);
    }
  }

  /** The fields of the small responses. */
  lemma SmallLayouts(n: uint8, m: uint64, s: Bytes)
    ensures var v := Both(Num(n), Both(Num(m), End));
      Fits(WRITE_RESPONSE, v) && Pack(WRITE_RESPONSE, v) == Some([n] + Le64(m))
    ensures Fits(ERROR_RESPONSE, Both(Num(n), End)) && Pack(ERROR_RESPONSE, Both(Num(n), End)) == Some([n])
    ensures var v := Both(Text(s), End);
      && Fits(USER_RESPONSE, v) && Pack(USER_RESPONSE, v) == (if |s| < 0x100 then Some(Text8(s)) else None)
      && Fits(THING_RESPONSE, v) && Pack(THING_RESPONSE, v) == (if |s| < 0x100 then Some(Text8(s)) else None)
  {
    hide Pack, Fits, Le64, Text8;
    NumberLayout(n);
    NumberLayout(m);
    TextLayout(s);
    EmptyLayout();
    FieldLayout(WRITE_RESPONSE.rest, Both(Num(m), End));
    FieldLayout(WRITE_RESPONSE, Both(Num(n), Both(Num(m), End)));
    FieldLayout(ERROR_RESPONSE, Both(Num(n), End));
    FieldLayout(USER_RESPONSE, Both(Text(s), End));
    FieldLayout(THING_RESPONSE, Both(Text(s), End));
    Join2([n], Le64(m));
    assert [n] + [] == [n] && Text8(s) + [] == Text8(s);
  }

  /** A response is written as its bytes, or refused if something in it is too long for its prefix. */
  lemma ResponseLayout(r: Response)
    ensures Fits(DOC_RESPONSE, ResponseValue(r))
    ensures Pack(DOC_RESPONSE, ResponseValue(r)) == if ShortResponse(r) then Some(ResponseBytes(r)) else None
  {
    ResponseArms();
    var arms := DOC_RESPONSE.arms;
    assert DOC_RESPONSE == Union(arms);
    hide Pack, Fits, Behind, ItemsValue, Text8, Le64, Le16, Flat;
    hide DOC_RESPONSE, WRITE_RESPONSE, READ_RESPONSE, ERROR_RESPONSE, USER_RESPONSE, THING_RESPONSE;
    EmptyLayout();
    match r
    case Written(status, latestVersion) =>
      SmallLayouts(status, latestVersion, []);
      UnionLayout(arms, 0, Both(Num(status), Both(Num(latestVersion), End)), []);
    case Items(items) =>
      ItemsLayout(items);
      UnionLayout(arms, 1, ItemsValue(items), []);
    case Deleted =>
      UnionLayout(arms, 2, End, []);
      TagAlone(2);
    case Refused(error) =>
      SmallLayouts(error, 0, []);
      UnionLayout(arms, 3, Both(Num(error), End), []);
    case UserIs(userId) =>
      SmallLayouts(0, 0, userId);
      UnionLayout(arms, 4, Both(Text(userId), End), []);
    case ThingIs(thingName) =>
      SmallLayouts(0, 0, thingName);
      UnionLayout(arms, 5, Both(Text(thingName), End), []);
    case NoResponse => UnionLayout(arms, 0, End, []);
  }

  lemma ItemsAllInRange(items: seq<ResponseDoc>)
    requires Pack(READ_RESPONSE, ItemsValue(items)).Some?
    ensures InRange(READ_RESPONSE, ItemsValue(items)) <==> JsonFits(items, 0)
  {
    hide Pack, Fits, Chain, PackAll, FitsAll, InRangeAll, JsonFits, Length;
    Powers();
    PackedItems(items);
    ItemsInRange(items, 0);
  }

  lemma SmallChecked()
    ensures Checked(WRITE_RESPONSE) && Checked(ERROR_RESPONSE) && Checked(USER_RESPONSE) && Checked(THING_RESPONSE)
    ensures Checked(Unit)
  {
  }

  lemma ResponseInRange(r: Response)
    requires ShortResponse(r) && Fits(DOC_RESPONSE, ResponseValue(r))
    ensures InRange(DOC_RESPONSE, ResponseValue(r)) <==> (r.Items? ==> JsonFits(r.items, 0))
  {
    ResponseArms();
    SmallChecked();
    var arms := DOC_RESPONSE.arms;
    assert DOC_RESPONSE == Union(arms) && InRange(DOC_RESPONSE, NoChoice);
    hide Pack, Fits, InRange, Checked, Behind, ItemsValue, Text8, Le64, Le16, Flat, JsonFits;
    hide DOC_RESPONSE, WRITE_RESPONSE, READ_RESPONSE, ERROR_RESPONSE, USER_RESPONSE, THING_RESPONSE;
    EmptyLayout();
    match r
    case Written(status, latestVersion) =>
      SmallLayouts(status, latestVersion, []);
      CheckedInRange(WRITE_RESPONSE, Both(Num(status), Both(Num(latestVersion), End)));
      UnionLayout(arms, 0, Both(Num(status), Both(Num(latestVersion), End)), []);
    case Items(items) =>
      ItemsLayout(items);
      ItemsAllInRange(items);
      UnionLayout(arms, 1, ItemsValue(items), []);
    case Deleted =>
      CheckedInRange(Unit, End);
      UnionLayout(arms, 2, End, []);
    case Refused(error) =>
      SmallLayouts(error, 0, []);
      CheckedInRange(ERROR_RESPONSE, Both(Num(error), End));
      UnionLayout(arms, 3, Both(Num(error), End), []);
    case UserIs(userId) =>
      SmallLayouts(0, 0, userId);
      CheckedInRange(USER_RESPONSE, Both(Text(userId), End));
      UnionLayout(arms, 4, Both(Text(userId), End), []);
    case ThingIs(thingName) =>
      SmallLayouts(0, 0, thingName);
      CheckedInRange(THING_RESPONSE, Both(Text(thingName), End));
      UnionLayout(arms, 5, Both(Text(thingName), End), []);
    case NoResponse =>
  }

  /** The same of responses: read back exactly when all JSON in it is below 4 GiB. */
  lemma ResponseReceivedIff(r: Response, more: Bytes, tag: byte)
    requires ShortResponse(r)
    ensures Unpack(DOC_RESPONSE, ResponseBytes(r) + more) == Done(ResponseValue(r), more)
       <==> (r.Items? ==> forall i | 0 <= i < |r.items| :: |r.items[i].doc.jsonDoc| < 0x1_0000_0000)
    ensures 5 < tag < 255 ==> Unpack(DOC_RESPONSE, [tag] + more).Fail?
  {
    hide Pack, Unpack, Fits, InRange, ResponseBytes, ResponseValue;
    ResponseLayout(r);
    ResponseInRange(r);
    RoundTripIffInRange(DOC_RESPONSE, ResponseValue(r), more);
    ResponseArms();
    UnionLayout(DOC_RESPONSE.arms, tag, End, more);
  }
}
