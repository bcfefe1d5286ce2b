/** The CPU sampler of the energy campaign: a binary search and an interpolation over samples. */
module CpuSampler {
  import opened Prelude

  /** Milliseconds of wall clock, microseconds of CPU. */
  datatype Sample = Sample(at: real, cpu: real)

  /** Times strictly increase and the counter never goes back. */
  ghost predicate Ordered(s: seq<Sample>) {
    forall i, j :: 0 <= i < j < |s| ==> s[i].at < s[j].at && s[i].cpu <= s[j].cpu
  }

  function Line(a: Sample, b: Sample, t: real): real
    requires a.at != b.at
  {
    a.cpu + (b.cpu - a.cpu) * (t - a.at) / (b.at - a.at)
  }

  predicate InRange(s: seq<Sample>, t: real) { |s| > 0 && s[0].at <= t <= s[|s| - 1].at }

  /** `v` lies on the polygon through the samples, at time `t`. */
  ghost predicate OnCurve(s: seq<Sample>, t: real, v: real) {
    || (exists i :: 0 <= i < |s| && s[i] == Sample(t, v))
    || (exists i :: 0 <= i < |s| - 1 && Between(s, i, t) && v == Line(s[i], s[i + 1], t))
  }

  ghost predicate Between(s: seq<Sample>, i: int, t: real)
    requires 0 <= i < |s| - 1
  {
    s[i].at < t < s[i + 1].at
  }

  // ---------------------------------------------------------------- one segment

  lemma Scales(x: real, y: real, z: real)
    requires x >= 0.0 && y <= z
    ensures x * y <= x * z
  {
  }

  lemma Shares(p: real, q: real, d: real)
    requires p <= q && d > 0.0
    ensures p / d <= q / d
  {
  }

  lemma Cancels(x: real, d: real)
    requires d > 0.0
    ensures x * d / d == x && x * 0.0 / d == 0.0
  {
  }

  lemma LineRises(a: Sample, b: Sample, t: real, u: real)
    requires a.at < b.at && a.cpu <= b.cpu && t <= u
    ensures Line(a, b, t) <= Line(a, b, u)
  {
    Scales(b.cpu - a.cpu, t - a.at, u - a.at);
    Shares((b.cpu - a.cpu) * (t - a.at), (b.cpu - a.cpu) * (u - a.at), b.at - a.at);
  }

  lemma LineEnds(a: Sample, b: Sample)
    requires a.at < b.at
    ensures Line(a, b, a.at) == a.cpu && Line(a, b, b.at) == b.cpu
  {
    Cancels(b.cpu - a.cpu, b.at - a.at);
    assert a.at - a.at == 0.0;
  }

  /** Between two samples CPU use grows in proportion to time. */
  lemma LineIsProportional(a: Sample, b: Sample, t: real, u: real)
    requires a.at < b.at
    ensures (Line(a, b, u) - Line(a, b, t)) * (b.at - a.at) == (b.cpu - a.cpu) * (u - t)
  {
    var d, k := b.at - a.at, b.cpu - a.cpu;
    Undivides(k * (u - a.at), d);
    Undivides(k * (t - a.at), d);
    assert (Line(a, b, u) - Line(a, b, t)) * d == k * (u - a.at) / d * d - k * (t - a.at) / d * d;
  }

  lemma Undivides(x: real, d: real)
    requires d > 0.0
    ensures x / d * d == x
  {
  }

  // ---------------------------------------------------------------- the search

  /** On ordered samples the result lies on the curve, and there is one exactly inside the range. */
  method CpuAt(s: seq<Sample>, t: real) returns (r: Option<real>)
    ensures r.Some? <==> InRange(s, t)
    ensures r.Some? && Ordered(s) ==> OnCurve(s, t, r.value)
  {
    if s == [] || t < s[0].at || t > s[|s| - 1].at {
      return None;
    }
    var lo, hi := 0, |s| - 1;
    while lo < hi - 1
      invariant 0 <= lo <= hi < |s| && (lo == hi ==> |s| == 1)
      invariant s[lo].at <= t <= s[hi].at
      decreases hi - lo
    {
      var mid := (lo + hi) / 2;
      if s[mid].at <= t {
        lo := mid;
      } else {
        hi := mid;
      }
    }
    var a, b := s[lo], s[hi];
    if a.at == b.at {
      assert Ordered(s) ==> s[lo] == Sample(t, a.cpu);
      return Some(a.cpu);
    }
    r := Some(Line(a, b, t));
    if Ordered(s) {
      OnSegment(s, lo, t);
    }
  }

  lemma OnSegment(s: seq<Sample>, i: nat, t: real)
    requires Ordered(s) && i + 1 < |s| && s[i].at <= t <= s[i + 1].at
    ensures OnCurve(s, t, Line(s[i], s[i + 1], t))
  {
    LineEnds(s[i], s[i + 1]);
    if t == s[i].at {
      assert s[i] == Sample(t, Line(s[i], s[i + 1], t));
    } else if t == s[i + 1].at {
      assert s[i + 1] == Sample(t, Line(s[i], s[i + 1], t));
    } else {
      assert Between(s, i, t);
    }
  }

  // ---------------------------------------------------------------- the curve

  /** A point on the curve belongs to a segment or is the only sample; `i` is where it starts. */
  lemma Located(s: seq<Sample>, t: real, v: real) returns (i: nat)
    requires Ordered(s) && OnCurve(s, t, v)
    ensures i < |s| && s[i].at <= t && s[i].cpu <= v
    ensures i + 1 < |s| ==> t < s[i + 1].at && v <= s[i + 1].cpu && v == Line(s[i], s[i + 1], t)
    ensures i + 1 == |s| ==> s[i] == Sample(t, v)
  {
    if j :| 0 <= j < |s| && s[j] == Sample(t, v) {
      i := j;
      if i + 1 < |s| {
        LineEnds(s[i], s[i + 1]);
      }
    } else {
      i :| 0 <= i < |s| - 1 && Between(s, i, t) && v == Line(s[i], s[i + 1], t);
      LineEnds(s[i], s[i + 1]);
      LineRises(s[i], s[i + 1], s[i].at, t);
      LineRises(s[i], s[i + 1], t, s[i + 1].at);
    }
  }

  /** CPU use never decreases with time. */
  lemma CurveRises(s: seq<Sample>, t: real, v: real, u: real, w: real)
    requires Ordered(s) && OnCurve(s, t, v) && OnCurve(s, u, w) && t <= u
    ensures v <= w
  {
    var i := Located(s, t, v);
    var j := Located(s, u, w);
    if i < j {
      assert v <= s[i + 1].cpu <= s[j].cpu <= w;
    } else {
      assert i == j;
      if i + 1 < |s| {
        LineRises(s[i], s[i + 1], t, u);
      }
    }
  }

  /** The curve has one value at each time, and at a sample's time it is the sample's. */
  lemma CurveIsFunction(s: seq<Sample>, t: real, v: real, w: real)
    requires Ordered(s) && OnCurve(s, t, v) && OnCurve(s, t, w)
    ensures v == w
    ensures forall i :: 0 <= i < |s| && s[i].at == t ==> v == s[i].cpu
  {
    CurveRises(s, t, v, t, w);
    CurveRises(s, t, w, t, v);
    forall i | 0 <= i < |s| && s[i].at == t
      ensures v == s[i].cpu
    {
      assert s[i] == Sample(t, s[i].cpu);
      CurveRises(s, t, v, t, s[i].cpu);
      CurveRises(s, t, s[i].cpu, t, v);
    }
  }

  // ---------------------------------------------------------------- the inner window

  function Inner(s: seq<Sample>, t0: real, t1: real): seq<Sample> {
    if |s| == 0 then []
    else
      var n := |s| - 1;
      Inner(s[..n], t0, t1) + (if t0 <= s[n].at <= t1 then [s[n]] else [])
  }

  lemma {:induction false} InnerIff(s: seq<Sample>, t0: real, t1: real, x: Sample)
    ensures x in Inner(s, t0, t1) <==> x in s && t0 <= x.at <= t1
  {
    if |s| > 0 {
      var n := |s| - 1;
      InnerIff(s[..n], t0, t1, x);
      assert s == s[..n] + [s[n]];
    }
  }

  /** CPU seconds and wall seconds between the first and the last sample inside the window. */
  method CpuBetweenInner(s: seq<Sample>, t0: real, t1: real) returns (r: Option<(real, real)>)
    ensures r.None? <==> |Inner(s, t0, t1)| < 2
    ensures r.Some? ==> var inner := Inner(s, t0, t1); var first, last := inner[0], inner[|inner| - 1];
      r.value == ((last.cpu - first.cpu) / 1000000.0, (last.at - first.at) / 1000.0)
  {
    var inner := [];
    for i := 0 to |s|
      invariant inner == Inner(s[..i], t0, t1)
    {
      assert s[..i + 1][..i] == s[..i];
      if t0 <= s[i].at <= t1 {
        inner := inner + [s[i]];
      }
    }
    assert s[..|s|] == s;
    if |inner| < 2 {
      return None;
    }
    var first, last := inner[0], inner[|inner| - 1];
    return Some(((last.cpu - first.cpu) / 1000000.0, (last.at - first.at) / 1000.0));
  }

  /** The CPU of the inner window never exceeds the interpolated CPU of the same window, and
      neither does its length. */
  lemma InnerAtMostInterpolated(s: seq<Sample>, t0: real, t1: real, v0: real, v1: real)
    requires Ordered(s) && OnCurve(s, t0, v0) && OnCurve(s, t1, v1) && |Inner(s, t0, t1)| >= 2
    ensures var inner := Inner(s, t0, t1); var first, last := inner[0], inner[|inner| - 1];
      (last.cpu - first.cpu) / 1000000.0 <= (v1 - v0) / 1000000.0 && last.at - first.at <= t1 - t0
  {
    var inner := Inner(s, t0, t1);
    var first, last := inner[0], inner[|inner| - 1];
    InnerIff(s, t0, t1, first);
    InnerIff(s, t0, t1, last);
    var i :| 0 <= i < |s| && s[i] == first;
    var j :| 0 <= j < |s| && s[j] == last;
    assert s[i] == Sample(first.at, first.cpu) && s[j] == Sample(last.at, last.cpu);
    CurveRises(s, t0, v0, first.at, first.cpu);
    CurveRises(s, last.at, last.cpu, t1, v1);
    Shares(last.cpu - first.cpu, v1 - v0, 1000000.0);
  }
}
