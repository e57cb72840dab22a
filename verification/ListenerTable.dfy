/** The map from a message tag to its listening channels, as `managedChannels` holds it,
    and the two ways it changes: appending a channel and swap-removing one.
    Channels are generic: the interleaving model names them by number, the class by reference. */
module ListenerTable {

  type Table<Tag(==), Chan(==)> = map<Tag, seq<Chan>>

  /** Capacity of a dispatch's markedForDelete channel. */
  const MARK_CAPACITY: nat := 5

  /** A missing key reads as the empty list, as a Go map lookup does. */
  function Listeners<Tag(==), Chan(==)>(t: Table<Tag, Chan>, tag: Tag): seq<Chan> {
    if tag in t then t[tag] else []
  }

  ghost predicate Distinct<T>(s: seq<T>) {
    forall i, j | 0 <= i < j < |s| :: s[i] != s[j]
  }

  function IndexOf<T(==)>(s: seq<T>, x: T): (i: nat)
    ensures i <= |s|
    ensures i < |s| ==> s[i] == x
    ensures x !in s[..i]
    ensures i == |s| <==> x !in s
  {
    if s == [] then 0 else if s[0] == x then 0 else
      var i := 1 + IndexOf(s[1..], x);
      assert s[..i] == [s[0]] + s[1..][..i - 1];
      assert s == [s[0]] + s[1..];
      i
  }

  lemma FirstIndex<T>(s: seq<T>, x: T, i: nat)
    requires i <= |s| && x !in s[..i] && (i < |s| ==> s[i] == x)
    ensures i == IndexOf(s, x)
  {
  }

  /** Overwrite position i with the last element, then drop the last position. */
  function SwapRemove<T>(s: seq<T>, i: nat): seq<T>
    requires i < |s|
  {
    s[i := s[|s| - 1]][..|s| - 1]
  }

  /** Append a channel to a tag's list, creating the list when there is none. */
  function Add<Tag(==), Chan(==)>(t: Table<Tag, Chan>, tag: Tag, c: Chan): Table<Tag, Chan> {
    t[tag := Listeners(t, tag) + [c]]
  }

  /** Remove the first occurrence of a channel; a list that becomes empty loses its key. */
  function Remove<Tag(==), Chan(==)>(t: Table<Tag, Chan>, tag: Tag, c: Chan): Table<Tag, Chan> {
    var s := Listeners(t, tag);
    var i := IndexOf(s, c);
    var rest := if i < |s| then SwapRemove(s, i) else s;
    if rest == [] then t - {tag} else t[tag := rest]
  }

  function RemoveAll<Tag(==), Chan(==)>(t: Table<Tag, Chan>, tag: Tag, cs: seq<Chan>): Table<Tag, Chan> {
    if cs == [] then t else RemoveAll(Remove(t, tag, cs[0]), tag, cs[1..])
  }

  lemma RemoveAllNone<Tag, Chan>(t: Table<Tag, Chan>, tag: Tag)
    ensures RemoveAll(t, tag, []) == t
  {
  }

  lemma RemoveAllStep<Tag, Chan>(t: Table<Tag, Chan>, tag: Tag, cs: seq<Chan>, k: nat)
    requires k < |cs|
    ensures RemoveAll(t, tag, cs[k..]) == RemoveAll(Remove(t, tag, cs[k]), tag, cs[k + 1..])
  {
    assert cs[k..][1..] == cs[k + 1..];
  }

  /** Keys only for non-empty lists, and no channel twice in a list. */
  ghost predicate Tidy<Tag, Chan>(t: Table<Tag, Chan>) {
    forall tag | tag in t :: t[tag] != [] && Distinct(t[tag])
  }

  /** Swap-remove loses exactly one occurrence: the contents as a multiset are those of the
      old list without the removed element. */
  lemma SwapRemoveMultiset<T>(s: seq<T>, i: nat)
    requires i < |s|
    ensures multiset(SwapRemove(s, i)) == multiset(s) - multiset{s[i]}
  {
    var last := |s| - 1;
    if i == last {
      assert SwapRemove(s, i) == s[..i];
      assert s == s[..i] + [s[i]];
    } else {
      assert SwapRemove(s, i) == s[..i] + [s[last]] + s[i + 1..last];
      assert s == s[..i] + [s[i]] + s[i + 1..last] + [s[last]];
    }
  }

  lemma SwapRemoveMembers<T>(s: seq<T>, i: nat)
    requires i < |s|
    requires Distinct(s)
    ensures Distinct(SwapRemove(s, i))
    ensures forall x :: x in SwapRemove(s, i) <==> x in s && x != s[i]
  {
    var r, last := SwapRemove(s, i), |s| - 1;
    assert forall k | 0 <= k < last :: r[k] == if k == i then s[last] else s[k];
    forall x | x in s && x != s[i] ensures x in r {
      var k :| 0 <= k < |s| && s[k] == x;
      assert r[if k == last then i else k] == x;
    }
  }

  /** What `deleteListenerUnsafe` does to the table: one channel goes, its tag keeps a key
      exactly when channels remain, and every other tag is untouched. */
  lemma RemoveEffect<Tag, Chan>(t: Table<Tag, Chan>, tag: Tag, c: Chan)
    requires Tidy(t)
    ensures Tidy(Remove(t, tag, c))
    ensures forall x :: x in Listeners(Remove(t, tag, c), tag) <==> x in Listeners(t, tag) && x != c
    ensures forall other | other != tag :: other in Remove(t, tag, c) <==> other in t
    ensures forall other | other != tag :: Listeners(Remove(t, tag, c), other) == Listeners(t, other)
    ensures c !in Listeners(t, tag) ==> Remove(t, tag, c) == t
  {
    var s := Listeners(t, tag);
    var i := IndexOf(s, c);
    if i < |s| {
      SwapRemoveMembers(s, i);
    }
  }

  /** A whole clean-up pass: exactly the listed channels are gone from the tag. */
  lemma {:induction false} RemoveAllEffect<Tag, Chan>(t: Table<Tag, Chan>, tag: Tag, cs: seq<Chan>)
    requires Tidy(t)
    ensures Tidy(RemoveAll(t, tag, cs))
    ensures forall x :: x in Listeners(RemoveAll(t, tag, cs), tag) <==> x in Listeners(t, tag) && x !in cs
    ensures forall other | other != tag :: other in RemoveAll(t, tag, cs) <==> other in t
    ensures forall other | other != tag :: Listeners(RemoveAll(t, tag, cs), other) == Listeners(t, other)
    ensures tag in RemoveAll(t, tag, cs) <==> exists x :: x in Listeners(t, tag) && x !in cs
  {
    if cs == [] {
      if tag in t {
        assert t[tag][0] in Listeners(t, tag);
      }
    } else {
      RemoveEffect(t, tag, cs[0]);
      RemoveAllEffect(Remove(t, tag, cs[0]), tag, cs[1..]);
      assert forall x :: x in cs <==> x == cs[0] || x in cs[1..];
    }
  }
}
