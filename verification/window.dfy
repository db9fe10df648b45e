/**
  The five-sample sliding window of gateway/yyy.py. Each location
  notification that decodes to a non-empty result appends its X, Y, Z and
  quality to four parallel buffers, and the oldest sample is dropped once
  there are more than five. Once a second, if five samples are buffered,
  their averages are posted; the buffers are left as they are.

  The decoder yyy.py calls is not part of this model: a decoded sample is an
  abstract value, and a falsy result (None or an empty dict) is `None`.
 */
module SampleWindow {
  import opened Wrappers

  const CAPACITY: nat := 5

  /** The "X", "Y", "Z" and "Quality Factor" of one decoded notification. */
  datatype Sample = Sample(x: real, y: real, z: real, quality: int)

  /** `buffer_x`, `buffer_y`, `buffer_z`, `buffer_quality`. */
  datatype Buffers = Buffers(xs: seq<real>, ys: seq<real>, zs: seq<real>, qs: seq<int>)

  const EMPTY := Buffers([], [], [], [])

  /** The four buffers line up and hold at most five values each. */
  predicate Valid(b: Buffers)
  {
    |b.ys| == |b.xs| && |b.zs| == |b.xs| && |b.qs| == |b.xs| && |b.xs| <= CAPACITY
  }

  /** The buffers that hold exactly the samples `w`, in order. */
  function Columns(w: seq<Sample>): (r: Buffers)
    ensures |r.xs| == |w| && |r.ys| == |w| && |r.zs| == |w| && |r.qs| == |w|
  {
    Buffers(seq(|w|, i requires 0 <= i < |w| => w[i].x),
            seq(|w|, i requires 0 <= i < |w| => w[i].y),
            seq(|w|, i requires 0 <= i < |w| => w[i].z),
            seq(|w|, i requires 0 <= i < |w| => w[i].quality))
  }

  /** The last `n` elements of `s`, or all of `s` when it is shorter. */
  function Last<T>(s: seq<T>, n: nat): (r: seq<T>)
    ensures |r| == if |s| <= n then |s| else n
    ensures forall i :: 0 <= i < |r| ==> r[i] == s[|s| - |r| + i]
  {
    if |s| <= n then s else s[|s| - n..]
  }

  function PopFront<T>(s: seq<T>): seq<T>
  {
    if s == [] then s else s[1..]
  }

  /**
    `notification_handler`: a falsy decode leaves the buffers alone; a sample
    is appended to all four, and if `buffer_x` then holds more than five
    values the first of each buffer is popped.
   */
  function Handle(b: Buffers, decoded: Option<Sample>): (r: Buffers)
    ensures decoded.None? ==> r == b
    ensures Valid(b) ==> Valid(r)
    ensures Valid(b) && decoded.Some? ==> |r.xs| == if |b.xs| == CAPACITY then CAPACITY else |b.xs| + 1
  {
    match decoded
    case None => b
    case Some(s) =>
      var xs, ys, zs, qs := b.xs + [s.x], b.ys + [s.y], b.zs + [s.z], b.qs + [s.quality];
      if |xs| > CAPACITY then Buffers(PopFront(xs), PopFront(ys), PopFront(zs), PopFront(qs))
      else Buffers(xs, ys, zs, qs)
  }

  /** The buffers after the handler has seen every decode result in `results`, starting empty. */
  function Run(results: seq<Option<Sample>>): Buffers
  {
    if results == [] then EMPTY
    else Handle(Run(results[..|results| - 1]), results[|results| - 1])
  }

  /** The samples the handler accepted, in arrival order. */
  function Accepted(results: seq<Option<Sample>>): seq<Sample>
  {
    if results == [] then []
    else
      var init := Accepted(results[..|results| - 1]);
      match results[|results| - 1]
      case None => init
      case Some(s) => init + [s]
  }

  /** One accepted sample slides the window of the last five by one. */
  lemma HandleSlides(w: seq<Sample>, s: Sample)
    requires |w| <= CAPACITY
    ensures Handle(Columns(w), Some(s)) == Columns(Last(w + [s], CAPACITY))
  {
    var v := w + [s];
    var l := Last(v, CAPACITY);
    var h := Handle(Columns(w), Some(s));
    if |v| > CAPACITY {
      assert l == v[1..];
    } else {
      assert l == v;
    }
    assert h.xs == Columns(l).xs;
    assert h.ys == Columns(l).ys;
    assert h.zs == Columns(l).zs;
    assert h.qs == Columns(l).qs;
  }

  lemma LastOfLast(a: seq<Sample>, s: Sample)
    ensures Last(Last(a, CAPACITY) + [s], CAPACITY) == Last(a + [s], CAPACITY)
  {
    if |a| > CAPACITY {
      var k := |a| - CAPACITY;
      assert Last(a, CAPACITY) == a[k..];
      assert Last(a[k..] + [s], CAPACITY) == (a[k..] + [s])[1..];
      assert (a[k..] + [s])[1..] == a[k + 1..] + [s];
      assert Last(a + [s], CAPACITY) == (a + [s])[k + 1..];
      assert (a + [s])[k + 1..] == a[k + 1..] + [s];
    }
  }

  /**
    After any sequence of notifications the buffers hold exactly the last
    `min(n, 5)` of the `n` accepted samples, oldest first.
   */
  lemma {:induction false} WindowHoldsLastFive(results: seq<Option<Sample>>)
    ensures Valid(Run(results))
    ensures Run(results) == Columns(Last(Accepted(results), CAPACITY))
  {
    if results != [] {
      var init := results[..|results| - 1];
      WindowHoldsLastFive(init);
      var a := Accepted(init);
      match results[|results| - 1]
      case None =>
      case Some(s) =>
        HandleSlides(Last(a, CAPACITY), s);
        LastOfLast(a, s);
    }
  }

  function Sum(s: seq<real>): real
  {
    if s == [] then 0.0 else s[0] + Sum(s[1..])
  }

  function SumInt(s: seq<int>): int
  {
    if s == [] then 0 else s[0] + SumInt(s[1..])
  }

  /** The location record posted once a second: the X, Y, Z means and the floored quality mean. */
  datatype Average = Average(x: real, y: real, z: real, quality: int)

  /**
    One pass of the once-a-second loop: averages are formed only when at
    least five samples are buffered, and the buffers are handed back as they
    were (the loop never clears them). `//` floors, as Dafny's `/` does for
    the positive divisor 5.
   */
  function Tick(b: Buffers): (r: (Buffers, Option<Average>))
    ensures r.1.Some? <==> |b.xs| >= CAPACITY
    ensures r.1.Some? ==> 5 * r.1.value.quality <= SumInt(b.qs) < 5 * r.1.value.quality + 5
    ensures r.1.Some? ==> 5.0 * r.1.value.x == Sum(b.xs)
    ensures r.1.Some? ==> 5.0 * r.1.value.y == Sum(b.ys)
    ensures r.1.Some? ==> 5.0 * r.1.value.z == Sum(b.zs)
  {
    var report :=
      if |b.xs| >= CAPACITY
      then Some(Average(Sum(b.xs) / 5.0, Sum(b.ys) / 5.0, Sum(b.zs) / 5.0, SumInt(b.qs) / 5))
      else None;
    (b, report)
  }

  /**
    Once five samples have been accepted every later tick posts, and it
    posts the average of the last five accepted samples; sending changes
    nothing, so with no new samples every tick posts the same record again.
   */
  lemma TickAfterRun(results: seq<Option<Sample>>)
    ensures (Tick(Run(results)).1.Some?) <==> |Accepted(results)| >= CAPACITY
    ensures Tick(Run(results)).0 == Run(results)
    ensures Tick(Run(results)).1.Some? ==>
      var last := Columns(Last(Accepted(results), CAPACITY));
      var avg := Tick(Run(results)).1.value;
      && 5.0 * avg.x == Sum(last.xs) && 5.0 * avg.y == Sum(last.ys) && 5.0 * avg.z == Sum(last.zs)
      && 5 * avg.quality <= SumInt(last.qs) < 5 * avg.quality + 5
    ensures Tick(Run(results)).1.Some? ==> Tick(Tick(Run(results)).0) == Tick(Run(results))
  {
    WindowHoldsLastFive(results);
  }

  /** A falsy decode anywhere in the stream changes neither the buffers nor what is posted. */
  lemma FalsyIgnored(results: seq<Option<Sample>>)
    ensures Run(results + [None]) == Run(results)
    ensures Accepted(results + [None]) == Accepted(results)
  {
    assert (results + [None])[..|results|] == results;
  }
}
