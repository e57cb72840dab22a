/** The progress filter of the update status stream. `ratio` stands for the float64 division of
    the code; all that is asked of it is that it keeps the order of the exact fractions. */
module UpdateProgress {

  datatype Pair = Pair(progress: int, expected: int)

  /** The fraction a is at most the fraction b, by cross-multiplication. */
  predicate AtMost(a: Pair, b: Pair) {
    a.progress * b.expected <= b.progress * a.expected
  }

  predicate ValidPair(p: Pair) {
    0 <= p.progress <= p.expected && 0 < p.expected
  }

  ghost predicate KeepsOrder(ratio: Pair -> real) {
    forall a: Pair, b: Pair {:trigger ratio(a), ratio(b)} | a.expected > 0 && b.expected > 0 && AtMost(a, b) ::
      ratio(a) <= ratio(b)
  }

  /** A poll worth considering, apart from its ratio. */
  predicate Sane(p: Pair) {
    p.progress > 0 && p.expected > 0 && p.progress <= p.expected
  }

  lemma Scaled(x: int, y: int, k: int)
    requires x <= y && k > 0
    ensures x * k <= y * k
  {
  }

  lemma Unscaled(x: int, y: int, k: int)
    requires x * k <= y * k && k > 0
    ensures x <= y
  {
  }

  lemma AtMostTransitive(a: Pair, b: Pair, c: Pair)
    requires ValidPair(a) && ValidPair(b) && ValidPair(c) && AtMost(a, b) && AtMost(b, c)
    ensures AtMost(a, c)
  {
    var p, q, r := a.progress, b.progress, c.progress;
    var e, f, g := a.expected, b.expected, c.expected;
    Scaled(p * f, q * e, g);
    Scaled(q * g, r * f, e);
    assert (p * g) * f == (p * f) * g && (q * e) * g == (q * g) * e && (r * f) * e == (r * e) * f;
    Unscaled(p * g, r * e, f);
  }

  class UpdateStatus {
    const ratio: Pair -> real
    var last: Pair

    ghost predicate Valid()
      reads this
    {
      KeepsOrder(ratio) && ValidPair(last)
    }

    constructor (ratio: Pair -> real)
      requires KeepsOrder(ratio)
      ensures Valid() && last == Pair(0, 1) && this.ratio == ratio
    {
      this.ratio := ratio;
      last := Pair(0, 1);
    }

    /** The reset in StartUpdateEngine. */
    method Restart()
      requires KeepsOrder(ratio)
      modifies this
      ensures Valid() && last == Pair(0, 1)
    {
      last := Pair(0, 1);
    }

    /** One turn of the status loop: what was polled, or the last good pair again. */
    method Report(polled: Pair) returns (status: Pair)
      requires Valid()
      modifies this
      ensures Valid() && status == last
      ensures status == old(last) || status == polled
      ensures AtMost(old(last), status) && ratio(old(last)) <= ratio(status)
      ensures 0 < polled.progress <= polled.expected ==> ratio(polled) <= ratio(status)
      ensures status != old(last) ==> 0 < polled.progress <= polled.expected
    {
      if polled.progress > 0 && polled.expected > 0
         && polled.progress <= polled.expected && ratio(last) < ratio(polled) {
        assert AtMost(last, polled) || AtMost(polled, last);
        last := polled;
      }
      status := last;
    }
  }

  datatype Event = Start | Poll(pair: Pair)

  /** No restart in the stretch (i, j]. */
  predicate SameStretch(events: seq<Event>, i: nat, j: nat)
    requires j < |events|
  {
    forall k | i < k <= j :: !events[k].Start?
  }

  /** Within a stretch the reported fraction never falls. */
  ghost predicate NeverFalls(events: seq<Event>, reports: seq<Pair>)
    requires |reports| <= |events|
  {
    forall i, j | 0 <= i < j < |reports| && SameStretch(events, i, j) :: AtMost(reports[i], reports[j])
  }

  /** Every report is a polled pair of its own stretch, or 0/1. */
  ghost predicate FromPolls(events: seq<Event>, reports: seq<Pair>)
    requires |reports| <= |events|
  {
    forall j | 0 <= j < |reports| :: reports[j] == Pair(0, 1)
      || exists i :: 0 <= i <= j && events[i] == Poll(reports[j]) && SameStretch(events, i, j)
  }

  /** No sane poll of the stretch was ahead of a later report. */
  ghost predicate NeverBehind(ratio: Pair -> real, events: seq<Event>, reports: seq<Pair>)
    requires |reports| <= |events|
  {
    forall i, j | 0 <= i <= j < |reports| && SameStretch(events, i, j) && events[i].Poll?
      && 0 < events[i].pair.progress <= events[i].pair.expected ::
      ratio(events[i].pair) <= ratio(reports[j])
  }

  lemma NeverFallsExtends(events: seq<Event>, reports: seq<Pair>, status: Pair)
    requires |reports| < |events| && NeverFalls(events, reports) && ValidPair(status)
    requires forall i | 0 <= i < |reports| :: ValidPair(reports[i])
    requires events[|reports|].Start? || reports == [] || AtMost(reports[|reports| - 1], status)
    ensures NeverFalls(events, reports + [status])
  {
    hide AtMost;
    var n := |reports|;
    forall i | 0 <= i < n && SameStretch(events, i, n) ensures AtMost(reports[i], status) {
      assert SameStretch(events, i, n - 1);
      if i < n - 1 {
        AtMostTransitive(reports[i], reports[n - 1], status);
      }
    }
  }

  lemma FromPollsExtends(events: seq<Event>, reports: seq<Pair>, status: Pair)
    requires |reports| < |events| && FromPolls(events, reports)
    requires status == Pair(0, 1) || events[|reports|] == Poll(status)
             || (events[|reports|].Poll? && reports != [] && status == reports[|reports| - 1])
    ensures FromPolls(events, reports + [status])
  {
    var n, reports' := |reports|, reports + [status];
    forall j | 0 <= j <= n && reports'[j] != Pair(0, 1)
      ensures exists i :: 0 <= i <= j && events[i] == Poll(reports'[j]) && SameStretch(events, i, j)
    {
      if j < n {
        var i :| 0 <= i <= j && events[i] == Poll(reports[j]) && SameStretch(events, i, j);
        assert events[i] == Poll(reports'[j]);
      } else if events[n] == Poll(status) {
        assert SameStretch(events, n, n);
      } else {
        var i :| 0 <= i <= n - 1 && events[i] == Poll(reports[n - 1]) && SameStretch(events, i, n - 1);
        assert SameStretch(events, i, n) && events[i] == Poll(reports'[n]);
      }
    }
  }

  lemma NeverBehindExtends(ratio: Pair -> real, events: seq<Event>, reports: seq<Pair>, status: Pair)
    requires |reports| < |events| && NeverBehind(ratio, events, reports)
    requires events[|reports|].Poll? && Sane(events[|reports|].pair) ==> ratio(events[|reports|].pair) <= ratio(status)
    requires events[|reports|].Start? || reports == [] || ratio(reports[|reports| - 1]) <= ratio(status)
    ensures NeverBehind(ratio, events, reports + [status])
  {
    var n := |reports|;
    forall i | 0 <= i < n && SameStretch(events, i, n) && events[i].Poll? && Sane(events[i].pair)
      ensures ratio(events[i].pair) <= ratio(status)
    {
      assert SameStretch(events, i, n - 1);
    }
  }

  /** Over any history of restarts and polls, whatever the polled files hold: every reported pair
      is valid, it is a polled pair of its stretch or 0/1, within a stretch the fraction never
      falls, and no sane poll of the stretch was ahead of a later report. */
  method StatusStream(ratio: Pair -> real, events: seq<Event>) returns (reports: seq<Pair>)
    requires KeepsOrder(ratio)
    ensures |reports| == |events|
    ensures forall i | 0 <= i < |reports| :: ValidPair(reports[i])
    ensures NeverFalls(events, reports) && FromPolls(events, reports) && NeverBehind(ratio, events, reports)
  {
    var s := new UpdateStatus(ratio);
    reports := [];
    for n := 0 to |events|
      invariant s.Valid() && s.ratio == ratio && |reports| == n
      invariant s.last == if n > 0 then reports[n - 1] else Pair(0, 1)
      invariant forall i | 0 <= i < n :: ValidPair(reports[i])
      invariant NeverFalls(events, reports) && FromPolls(events, reports) && NeverBehind(ratio, events, reports)
    {
      hide NeverFalls, FromPolls, NeverBehind, AtMost, KeepsOrder;
      var status;
      match events[n] {
        case Start =>
          s.Restart();
          status := s.last;
        case Poll(pair) =>
          status := s.Report(pair);
      }
      NeverFallsExtends(events, reports, status);
      FromPollsExtends(events, reports, status);
      NeverBehindExtends(ratio, events, reports, status);
      reports := reports + [status];
    }
  }
}
