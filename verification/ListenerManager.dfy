/** The registry as an object: `managedChannels` updated in place, channels closed and filled.
    One call at a time, with no consumer running, so a send times out exactly when its
    channel is full. The interleaved behaviour is in ListenerProtocol; both change the table
    by the functions of ListenerTable. */
module ListenerManager {
  import opened ListenerTable

  /** The message tag of one of the three managers, and its message. */
  type Tag(==)
  type Msg(==)

  class Channel {
    const tag: Tag  // what its delete callback was created with
    const cap: nat
    var buf: seq<Msg>
    var closed: bool

    constructor (tag: Tag, cap: nat)
      ensures this.tag == tag && this.cap == cap && buf == [] && !closed
    {
      this.tag, this.cap := tag, cap;
      buf, closed := [], false;
    }
  }

  /** What SafeClose leaves of an open channel's buffer. */
  function Trimmed(buf: seq<Msg>): seq<Msg> {
    if buf == [] then [] else buf[1..]
  }

  /** The listeners that cannot take a message now. */
  function Overdue(list: seq<Channel>): seq<Channel>
    reads list
  {
    if list == [] then []
    else (if |list[0].buf| < list[0].cap then [] else [list[0]]) + Overdue(list[1..])
  }

  lemma OverdueMembers(list: seq<Channel>)
    ensures forall c | c in Overdue(list) :: c in list && |c.buf| >= c.cap
    ensures forall c | c in list && |c.buf| >= c.cap :: c in Overdue(list)
    ensures Distinct(list) ==> Distinct(Overdue(list))
  {
    if list != [] {
      assert list == [list[0]] + list[1..];
      OverdueMembers(list[1..]);
    }
  }

  class Manager {
    var managedChannels: Table<Tag, Channel>
    ghost var created: set<Channel>

    /** Every channel ever created is open iff it is listed, once, under its own tag. */
    ghost predicate Valid()
      reads this, created
    {
      && Tidy(managedChannels)
      && (forall tag, c {:trigger c in managedChannels[tag]} | tag in managedChannels && c in managedChannels[tag] ::
            c in created && c.tag == tag)
      && (forall c | c in created :: c.closed <==> c !in Listeners(managedChannels, c.tag))
    }

    constructor ()
      ensures Valid() && managedChannels == map[] && created == {}
    {
      managedChannels, created := map[], {};
    }

    method CreateChannel(tag: Tag, numChannels: nat) returns (result: Channel)
      requires Valid()
      modifies this
      ensures Valid() && fresh(result) && result.tag == tag && result.cap == numChannels && result.buf == []
      ensures managedChannels == old(managedChannels)[tag := Listeners(old(managedChannels), tag) + [result]]
      ensures created == old(created) + {result}
    {
      result := new Channel(tag, numChannels);
      var slice := Listeners(managedChannels, tag);
      assert result !in slice;
      managedChannels := managedChannels[tag := slice + [result]];
      created := created + {result};
      assert forall c :: c in managedChannels[tag] <==> c in slice || c == result;
    }

    /** Refused exactly when the tag has an open listener. */
    method CreateUniqueChannel(tag: Tag, numChannels: nat) returns (ok: bool, result: Channel?)
      requires Valid()
      modifies this
      ensures Valid()
      ensures ok <==> forall c | c in old(created) && c.tag == tag :: old(c.closed)
      ensures !ok ==> result == null && managedChannels == old(managedChannels) && created == old(created)
      ensures ok ==> result != null && fresh(result) && !result.closed && created == old(created) + {result}
      ensures ok ==> managedChannels == old(managedChannels)[tag := [result]]
    {
      if tag in managedChannels {
        ok, result := false, null;
        assert managedChannels[tag][0] in managedChannels[tag];
      } else {
        ok := true;
        result := CreateChannel(tag, numChannels);
        assert Listeners(old(managedChannels), tag) + [result] == [result];
      }
    }

    /** `panicked` reports Go's "close of closed channel". */
    method SafeClose(listener: Channel) returns (panicked: bool)
      modifies listener
      ensures panicked <==> old(listener.closed) && old(listener.buf) != []
      ensures listener.closed
      ensures listener.buf == if old(listener.buf) == [] then [] else old(listener.buf)[1..]
    {
      panicked := false;
      if listener.buf != [] {
        listener.buf := listener.buf[1..];
        panicked := listener.closed;
        listener.closed := true;
      } else if !listener.closed {
        listener.closed := true;
      }
    }

    method DeleteListenerUnsafe(listener: Channel, tag: Tag) returns (panicked: bool)
      requires Valid() && listener in created && listener.tag == tag
      modifies this`managedChannels, listener
      ensures Valid() && !panicked
      ensures managedChannels == Remove(old(managedChannels), tag, listener)
      ensures listener.closed
      ensures listener.buf == if old(listener.closed) then old(listener.buf) else Trimmed(old(listener.buf))
    {
      panicked := false;
      var chanSlice := Listeners(managedChannels, tag);
      var idx := 0;
      while idx < |chanSlice| && chanSlice[idx] != listener
        invariant idx <= |chanSlice|
        invariant listener !in chanSlice[..idx]
      {
        idx := idx + 1;
      }
      FirstIndex(chanSlice, listener, idx);
      RemoveEffect(managedChannels, tag, listener);
      label before:
      if idx < |chanSlice| {
        managedChannels := managedChannels[tag := SwapRemove(chanSlice, idx)];
        panicked := SafeClose(listener);
      }
      if Listeners(managedChannels, tag) == [] {
        managedChannels := managedChannels - {tag};
      }
      assert managedChannels == Remove(old(managedChannels), tag, listener);
      forall t, c | t in managedChannels && c in managedChannels[t]
        ensures c in created && c.tag == t
      {
        assert c in Listeners(managedChannels, t);
        assert c in Listeners(old(managedChannels), t);
      }
    }

    /** The deferred clean-up of a dispatch. */
    method Cleanup(marked: seq<Channel>, tag: Tag)
      requires Valid() && Distinct(marked)
      requires forall c | c in marked :: c in created && c.tag == tag && !c.closed
      modifies this`managedChannels, marked
      ensures Valid()
      ensures managedChannels == RemoveAll(old(managedChannels), tag, marked)
      ensures forall c | c in marked :: c.closed && c.buf == Trimmed(old(c.buf))
    {
      hide Remove, RemoveAll, IndexOf, Tidy, Valid, Trimmed;
      ghost var goal := RemoveAll(managedChannels, tag, marked);
      var k := 0;
      assert marked[k..] == marked;
      while k < |marked|
        invariant k <= |marked|
        invariant Valid() && created == old(created)
        invariant RemoveAll(managedChannels, tag, marked[k..]) == goal
        invariant forall i | 0 <= i < k :: marked[i].closed && marked[i].buf == Trimmed(old(marked[i].buf))
        invariant forall i | k <= i < |marked| :: !marked[i].closed && marked[i].buf == old(marked[i].buf)
      {
        var listener := marked[k];
        RemoveAllStep(managedChannels, tag, marked, k);
        var panicked := DeleteListenerUnsafe(listener, tag);
        k := k + 1;
      }
      assert marked[k..] == [];
      RemoveAllNone(managedChannels, tag);
    }

    /** The goroutines of a dispatch, one per listener. A sixth full listener blocks on the
        mark channel, which is what `blocked` reports; the others still get their message. */
    method FanOut(chanList: seq<Channel>, msg: Msg) returns (marked: seq<Channel>, blocked: bool)
      requires Distinct(chanList)
      modifies chanList`buf
      ensures blocked <==> |old(Overdue(chanList))| > 5
      ensures !blocked ==> marked == old(Overdue(chanList))
      ensures forall k | 0 <= k < |chanList| ::
                chanList[k].buf == old(chanList[k].buf)
                                   + if old(|chanList[k].buf| < chanList[k].cap) then [msg] else []
    {
      ghost var late := Overdue(chanList);
      marked, blocked := [], false;
      var idx := 0;
      assert chanList[idx..] == chanList;
      while idx < |chanList|
        invariant idx <= |chanList|
        invariant |marked| <= MARK_CAPACITY
        invariant if blocked then |late| > MARK_CAPACITY else late == marked + old(Overdue(chanList[idx..]))
        invariant forall k | idx <= k < |chanList| :: chanList[k].buf == old(chanList[k].buf)
        invariant forall k | 0 <= k < idx ::
                    chanList[k].buf == old(chanList[k].buf)
                                       + if old(|chanList[k].buf| < chanList[k].cap) then [msg] else []
      {
        var listener := chanList[idx];
        ghost var rest := old(Overdue(chanList[idx + 1..]));
        assert chanList[idx..][0] == listener && chanList[idx..][1..] == chanList[idx + 1..];
        assert marked + ([listener] + rest) == marked + [listener] + rest;
        assert marked + ([] + rest) == marked + rest;
        if |listener.buf| < listener.cap {
          listener.buf := listener.buf + [msg];
        } else if |marked| < MARK_CAPACITY {
          marked := marked + [listener];
        } else {
          blocked := true;
        }
        idx := idx + 1;
      }
    }

    twostate lemma ValidIgnoresBuffers()
      requires old(Valid())
      requires managedChannels == old(managedChannels) && created == old(created)
      requires forall c | c in created :: c.closed == old(c.closed)
      ensures Valid()
    {
    }

    /** What a dispatch that meets no consumer leaves of one listener. */
    twostate predicate Served(c: Channel, msg: Msg, completed: bool)
      reads c
    {
      if old(|c.buf| < c.cap) then c.buf == old(c.buf) + [msg] && c.closed == old(c.closed)
      else if completed then c.closed && c.buf == Trimmed(old(c.buf))
      else c.buf == old(c.buf) && c.closed == old(c.closed)
    }

    /** The deferred part, once every goroutine has sent or marked: `late` are the marked ones. */
    method AfterFanOut(ghost chanList: seq<Channel>, late: seq<Channel>, tag: Tag)
      requires Valid() && Distinct(late)
      requires forall i | 0 <= i < |late| :: late[i] in chanList
      requires forall c | c in chanList :: c in created && c.tag == tag && !c.closed
      modifies this`managedChannels, chanList
      ensures Valid() && managedChannels == RemoveAll(old(managedChannels), tag, late)
      ensures forall c | c in late :: c.closed && c.buf == Trimmed(old(c.buf))
      ensures forall c | c in chanList && c !in late :: c.buf == old(c.buf) && !c.closed
    {
      hide *;
      Cleanup(late, tag);
    }

    /** A dispatch that meets no consumer. It completes iff at most five listeners are full;
        then the full ones are closed and gone and every other listener has the message once
        more. If it blocks, the messages are out but nothing is cleaned up. */
    method SendToListeners(tag: Tag, msg: Msg) returns (completed: bool)
      requires Valid()
      modifies this`managedChannels, Listeners(managedChannels, tag)
      ensures Valid()
      ensures completed <==> |old(Overdue(Listeners(managedChannels, tag)))| <= 5
      ensures managedChannels == if completed
                then RemoveAll(old(managedChannels), tag, old(Overdue(Listeners(managedChannels, tag))))
                else old(managedChannels)
      ensures forall c | c in old(Listeners(managedChannels, tag)) :: !old(c.closed) && Served(c, msg, completed)
    {
      hide Remove, RemoveAll, IndexOf, Overdue;
      var chanList := Listeners(managedChannels, tag);
      OverdueMembers(chanList);
      ghost var late := Overdue(chanList);
      assert forall c | c in chanList :: c in created && c.tag == tag && !c.closed;
      assert Distinct(chanList);
      hide Valid, Tidy, Distinct, Listeners, Trimmed;
      var marked, blocked := FanOut(chanList, msg);
      ValidIgnoresBuffers();
      completed := !blocked;
      assert forall c | c in chanList :: c.buf == if c in late then old(c.buf) else old(c.buf) + [msg];
      if completed {
        AfterFanOut(chanList, marked, tag);
      }
      assert forall c | c in chanList :: c in late <==> old(|c.buf| >= c.cap);
    }
  }
}
