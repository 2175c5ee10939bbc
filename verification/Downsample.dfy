/** Even downsampling of a point list, in exact arithmetic (backend/main.py). */
module Downsample {
  /** The index picked for position i, before it is limited to the last index. */
  function Pick(i: nat, len: nat, max: nat): nat
    requires max > 0
  {
    i * len / max
  }

  function Min(a: int, b: int): int { if a <= b then a else b }

  function Points<T>(items: seq<T>, max: int): (r: seq<T>)
    ensures |r| == if max <= 0 || |items| <= max then |items| else max
  {
    if max <= 0 || |items| <= max then items
    else seq(max, i requires 0 <= i < max => items[Min(|items| - 1, Pick(i, |items|, max))])
  }

  lemma PickBounds(i: nat, len: nat, max: nat)
    requires max > 0
    ensures Pick(i, len, max) * max <= i * len < Pick(i, len, max) * max + max
  {
    var x := i * len;
    assert x == x / max * max + x % max;
  }

  lemma LessByProduct(a: int, b: int, m: nat)
    requires a * m < b * m
    ensures a < b
  {
  }

  /** The largest gap allowed: len / max rounded up. */
  function Ceil(len: nat, max: nat): nat
    requires max > 0
  {
    (len + max - 1) / max
  }

  lemma CeilCovers(len: nat, max: nat)
    requires max > 0
    ensures len <= Ceil(len, max) * max
  {
    var x := len + max - 1;
    assert x == x / max * max + x % max;
  }

  /** Two consecutive picks; the end of the list stands for the pick after the last. */
  lemma NextPick(i: nat, len: nat, max: nat)
    requires 0 < max < len
    ensures Pick(i, len, max) < Pick(i + 1, len, max) <= Pick(i, len, max) + Ceil(len, max)
  {
    var p, q, c := Pick(i, len, max), Pick(i + 1, len, max), Ceil(len, max);
    PickBounds(i, len, max);
    PickBounds(i + 1, len, max);
    CeilCovers(len, max);
    assert (i + 1) * len == i * len + len;
    assert p * max < q * max by {
      assert p * max + len < q * max + max;
    }
    LessByProduct(p, q, max);
    assert (p + c + 1) * max == p * max + c * max + max;
    LessByProduct(q, p + c + 1, max);
  }

  lemma EndPick(len: nat, max: nat)
    requires max > 0
    ensures Pick(max, len, max) == len
  {
    PickBounds(max, len, max);
    var p := Pick(max, len, max);
    assert (len + 1) * max == len * max + max && (p + 1) * max == p * max + max;
    LessByProduct(p, len + 1, max);
    LessByProduct(len, p + 1, max);
  }

  lemma {:induction false} PicksIncrease(i: nat, j: nat, len: nat, max: nat)
    requires 0 < max < len && i < j
    ensures Pick(i, len, max) < Pick(j, len, max)
    decreases j
  {
    NextPick(j - 1, len, max);
    if i < j - 1 {
      PicksIncrease(i, j - 1, len, max);
    }
  }

  /** Too many items: exactly max of them are taken, the first one and then at strictly
      growing positions no further apart than len / max rounded up (the end included),
      and the limit to the last index never takes effect. */
  lemma EvenlySpread<T>(items: seq<T>, max: nat, i: nat)
    requires 0 < max < |items| && i < max
    ensures Pick(0, |items|, max) == 0
    ensures Pick(i, |items|, max) < Pick(i + 1, |items|, max) <= Pick(i, |items|, max) + Ceil(|items|, max)
    ensures Pick(max, |items|, max) == |items|
    ensures Pick(i, |items|, max) < |items| && Points(items, max)[i] == items[Pick(i, |items|, max)]
  {
    NextPick(i, |items|, max);
    EndPick(|items|, max);
    PicksIncrease(i, max, |items|, max);
  }

  /** Every item is kept or is less than len / max, rounded up, behind a kept one. */
  lemma {:induction false} KeptNearby(len: nat, max: nat, x: nat, upto: nat) returns (i: nat)
    requires 0 < max < len && x < Pick(upto, len, max)
    ensures i < upto && Pick(i, len, max) <= x < Pick(i, len, max) + Ceil(len, max)
    decreases upto
  {
    if upto == 0 {
      assert false;
    } else if Pick(upto - 1, len, max) <= x {
      i := upto - 1;
      NextPick(i, len, max);
    } else {
      i := KeptNearby(len, max, x, upto - 1);
    }
  }

  /** The result is the items at a subset of the positions, so it has no invented or
      reordered point: position i of the result is item Pick(i), and Pick is increasing. */
  lemma NearKept<T>(items: seq<T>, max: nat, x: nat) returns (i: nat)
    requires 0 < max < |items| && x < |items|
    ensures i < max && Points(items, max)[i] == items[Pick(i, |items|, max)]
    ensures Pick(i, |items|, max) <= x < Pick(i, |items|, max) + Ceil(|items|, max)
  {
    EndPick(|items|, max);
    i := KeptNearby(|items|, max, x, max);
    EvenlySpread(items, max, i);
  }
}
