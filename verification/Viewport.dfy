/** The viewport box of the live feeds, in exact arithmetic (backend/routers/data.py). */
module Viewport {
  datatype Box = Box(south: real, west: real, north: real, east: real)

  /** How many whole turns of 360 degrees fit below x. */
  function Turns(x: real): int { (x / 360.0).Floor }

  function Turned(x: real, k: int): real { x + k as real * 360.0 }

  /** The floored remainder modulo 360. */
  function Mod(x: real): real { Turned(x, -Turns(x)) }

  function NormalizeLongitude(value: real): real {
    var normalized := Mod(Mod(value + 180.0) + 360.0) - 180.0;
    if normalized == -180.0 && value > 0.0 then 180.0 else normalized
  }

  function Clamp(x: real): real {
    var low := if x < 90.0 then x else 90.0;
    if low > -90.0 then low else -90.0
  }

  function Abs(x: real): real { if x < 0.0 then -x else x }

  function Normalize(s: real, w: real, n: real, e: real): Box {
    var south, north := Clamp(s), Clamp(n);
    if Abs(e - w) >= 360.0 then Box(south, -180.0, north, 180.0)
    else
      var west, east := NormalizeLongitude(w), NormalizeLongitude(e);
      if east < west then Box(south, -180.0, north, 180.0) else Box(south, west, north, east)
  }

  /** The eastern end of the span that the input describes: it wraps when w is past e. */
  function SpanEnd(w: real, e: real): real { if w <= e then e else Turned(e, 1) }

  predicate Whole(b: Box) { b.west == -180.0 && b.east == 180.0 }

  lemma ModRange(x: real)
    ensures 0.0 <= Mod(x) < 360.0
  {
    var k := Turns(x) as real;
    assert k <= x / 360.0 < k + 1.0;
  }

  /** A normalised longitude is the input moved by whole turns, between -180 and 180. */
  lemma NormalizedLongitude(value: real) returns (k: int)
    ensures -180.0 <= NormalizeLongitude(value) <= 180.0
    ensures value == Turned(NormalizeLongitude(value), k)
  {
    var inner := Mod(value + 180.0);
    ModRange(value + 180.0);
    ModRange(inner + 360.0);
    var normalized := Mod(inner + 360.0) - 180.0;
    var a, b := Turns(value + 180.0), Turns(inner + 360.0);
    assert inner + 360.0 == Turned(value + 180.0, 1 - a);
    assert normalized == Turned(value, 1 - a - b);
    k := a + b - 1;
    if normalized == -180.0 && value > 0.0 {
      k := k - 1;
    }
  }

  /** The box is the whole circle, or it is exactly the input span moved by whole turns. */
  lemma BoxIsSpan(s: real, w: real, n: real, e: real) returns (k: int)
    ensures var b := Normalize(s, w, n, e);
      && -180.0 <= b.west <= b.east <= 180.0
      && (Whole(b) || (w == Turned(b.west, k) && SpanEnd(w, e) == Turned(b.east, k)))
  {
    var a := NormalizedLongitude(w);
    var c := NormalizedLongitude(e);
    k := a;
    var b := Normalize(s, w, n, e);
    if !Whole(b) {
      var turns := (c - a) as real;
      assert e - w == b.east - b.west + turns * 360.0;
      assert 0.0 <= b.east - b.west <= 360.0 && Abs(e - w) < 360.0;
      assert -2.0 < turns < 1.0;
      assert c == a || c == a - 1;
    }
  }

  /** Every longitude of the input span, wrapped or not, lies in the box after some whole
      number of turns. */
  lemma SpanCovered(s: real, w: real, n: real, e: real, x: real) returns (k: int)
    requires w <= x <= SpanEnd(w, e) || Abs(e - w) >= 360.0
    ensures Normalize(s, w, n, e).west <= Turned(x, k) <= Normalize(s, w, n, e).east
  {
    var b := Normalize(s, w, n, e);
    var j := BoxIsSpan(s, w, n, e);
    if Whole(b) {
      var m := NormalizedLongitude(x);
      k := -m;
    } else {
      k := -j;
    }
  }

  /** A span that lies strictly between two passes of the antimeridian is not widened. */
  lemma SpanKept(s: real, w: real, n: real, e: real, k: int)
    requires -180.0 < Turned(w, k) <= Turned(SpanEnd(w, e), k) < 180.0 && Abs(e - w) < 360.0
    ensures Normalize(s, w, n, e).west == Turned(w, k)
    ensures Normalize(s, w, n, e).east == Turned(SpanEnd(w, e), k)
  {
    StrictlyInside(w, k);
    StrictlyInside(e, if w <= e then k else k + 1);
  }

  lemma StrictlyInside(value: real, k: int)
    requires -180.0 < Turned(value, k) < 180.0
    ensures NormalizeLongitude(value) == Turned(value, k)
  {
    var j := NormalizedLongitude(value);
    var v := NormalizeLongitude(value);
    var turns := (j + k) as real;
    assert Turned(value, k) == v + turns * 360.0;
    assert -1.0 < turns < 1.0 || turns == 1.0 || turns == -1.0;
  }

  /** Latitudes are cut to the poles and nothing else is lost. */
  lemma LatitudesCovered(s: real, w: real, n: real, e: real, y: real)
    ensures var b := Normalize(s, w, n, e);
      && -90.0 <= b.south <= 90.0 && -90.0 <= b.north <= 90.0
      && (-90.0 < y < 90.0 ==> (s <= y <= n <==> b.south <= y <= b.north))
  {
  }
}
