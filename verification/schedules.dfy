/**
 Interval schedules in exact microseconds.

 NextIsFirst: the closed form finds the first point of the series strictly after an instant.
 PreviewOccurrences: exactly the next points, in order, none missing and none besides.
 */
module Schedules {
  import opened Results

  const MAX_PREVIEW_OCCURRENCES := 500
  const MICROSECONDS := 1_000_000

  datatype IntervalSchedule = IntervalSchedule(everySeconds: nat, anchor: int)

  predicate ValidSchedule(s: IntervalSchedule) {
    s.everySeconds > 0
  }

  function StepOf(s: IntervalSchedule): int {
    s.everySeconds * MICROSECONDS
  }

  function NextOccurrenceAfter(s: IntervalSchedule, moment: int): int
    requires ValidSchedule(s)
  {
    if moment < s.anchor then s.anchor
    else
      var completed := (moment - s.anchor) / StepOf(s);
      s.anchor + StepOf(s) * (completed + 1)
  }

  function Point(s: IntervalSchedule, k: nat): int {
    s.anchor + StepOf(s) * k
  }

  /** Later in the series is later in time. */
  lemma PointsAscend(s: IntervalSchedule, j: nat, k: nat)
    requires ValidSchedule(s) && j < k
    ensures Point(s, j) < Point(s, k)
    ensures Point(s, j) + StepOf(s) <= Point(s, k)
  {
    Multiples(StepOf(s), j, k - j - 1);
  }

  lemma Multiples(d: int, j: nat, more: nat)
    requires d > 0
    ensures d * j + d <= d * (j + more + 1)
  {
    assert d * (j + more + 1) == d * j + d * more + d;
  }

  /** The next occurrence is a point after the moment, and every point after the moment is it or later. */
  lemma NextIsFirst(s: IntervalSchedule, moment: int) returns (k: nat)
    requires ValidSchedule(s)
    ensures NextOccurrenceAfter(s, moment) == Point(s, k) > moment
    ensures forall j: nat :: Point(s, j) > moment <==> k <= j
  {
    var d := StepOf(s);
    if moment < s.anchor {
      k := 0;
    } else {
      var elapsed := moment - s.anchor;
      k := elapsed / d + 1;
      assert elapsed == d * (elapsed / d) + elapsed % d;
      assert Point(s, k - 1) <= moment;
    }
    forall j: nat ensures Point(s, j) > moment <==> k <= j {
      if j < k - 1 {
        PointsAscend(s, j, k - 1);
      } else if k < j {
        PointsAscend(s, k, j);
      }
    }
  }

  datatype PreviewError = CountTooSmall | CountTooLarge

  /** The count points of the series from the k-th on. */
  function PointsFrom(s: IntervalSchedule, k: nat, count: nat): seq<int> {
    seq(count, i requires 0 <= i < count => Point(s, k + i))
  }

  method PreviewOccurrences(s: IntervalSchedule, after: int, count: int) returns (r: Result<seq<int>, PreviewError>)
    requires ValidSchedule(s)
    ensures count < 1 ==> r == Err(CountTooSmall)
    ensures count > MAX_PREVIEW_OCCURRENCES ==> r == Err(CountTooLarge)
    ensures 1 <= count <= MAX_PREVIEW_OCCURRENCES ==>
              && r.Ok? && |r.value| == count
              && (forall i, j | 0 <= i < j < count :: r.value[i] < r.value[j])
              && (forall p | p in r.value :: p > after && exists k: nat :: p == Point(s, k))
              && (forall k: nat | after < Point(s, k) <= r.value[count - 1] :: Point(s, k) in r.value)
  {
    if count < 1 {
      return Err(CountTooSmall);
    }
    if count > MAX_PREVIEW_OCCURRENCES {
      return Err(CountTooLarge);
    }
    var occurrences: seq<int> := [];
    var cursor := after;
    ghost var first := NextIsFirst(s, after);
    for i := 0 to count
      invariant occurrences == PointsFrom(s, first, i)
      invariant cursor == if i == 0 then after else Point(s, first + i - 1)
    {
      var next := NextOccurrenceAfter(s, cursor);
      ghost var k := NextIsFirst(s, cursor);
      if i > 0 {
        PointsAscend(s, first + i - 1, first + i);
        assert !(Point(s, first + i - 1) > cursor) && Point(s, first + i) > cursor;
      }
      assert k == first + i;
      occurrences := occurrences + [next];
      cursor := next;
    }
    PointsAreAll(s, after, first, count);
    r := Ok(occurrences);
  }

  /** Consecutive points from the first one after an instant are all there are up to the last of them. */
  lemma PointsAreAll(s: IntervalSchedule, after: int, first: nat, count: int)
    requires ValidSchedule(s) && count >= 1
    requires forall j: nat :: Point(s, j) > after <==> first <= j
    ensures var ps := PointsFrom(s, first, count);
            && (forall i, j | 0 <= i < j < count :: ps[i] < ps[j])
            && (forall p | p in ps :: p > after && exists k: nat :: p == Point(s, k))
            && (forall k: nat | after < Point(s, k) <= ps[count - 1] :: Point(s, k) in ps)
  {
    hide Point;
    var ps := PointsFrom(s, first, count);
    forall i, j | 0 <= i < j < count ensures ps[i] < ps[j] {
      PointsAscend(s, first + i, first + j);
    }
    forall k: nat | after < Point(s, k) <= ps[count - 1] ensures Point(s, k) in ps {
      if k > first + count - 1 {
        PointsAscend(s, first + count - 1, k);
      }
      assert ps[k - first] == Point(s, k);
    }
  }
}
