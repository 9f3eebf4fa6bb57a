// The request counters and the latency histogram, against the list of requests
// they were told of.
module MetricsPage {

  // Seconds.
  const BUCKETS: seq<real> := [0.005, 0.01, 0.025, 0.05, 0.1, 0.25, 0.5, 1.0, 2.5, 10.0]

  const U64_MAX: nat := 0xFFFF_FFFF_FFFF_FFFF

  datatype Family = Info | Image | Other

  // A finished request; the time it took in nanoseconds.
  datatype Observation = Observation(family: Family, status: nat, nanos: nat) {
    function Seconds(): real {
      nanos as real / 1000000000.0
    }

    // as_micros, saturating at 64 bits.
    function Micros(): nat {
      if nanos / 1000 > U64_MAX then U64_MAX else nanos / 1000
    }

    // The first bucket whose bound the request meets, or the last.
    function Bucket(): nat {
      FirstAtLeast(Seconds(), 0)
    }
  }

  function FirstAtLeast(seconds: real, from: nat): (i: nat)
    requires from <= |BUCKETS|
    ensures from <= i <= |BUCKETS|
    ensures forall j :: from <= j < i ==> seconds > BUCKETS[j]
    ensures i < |BUCKETS| ==> seconds <= BUCKETS[i]
    decreases |BUCKETS| - from
  {
    if from == |BUCKETS| || seconds <= BUCKETS[from] then from else FirstAtLeast(seconds, from + 1)
  }

  lemma BoundsRise(i: nat, j: nat)
    requires i <= j < |BUCKETS|
    ensures BUCKETS[i] <= BUCKETS[j]
  {
  }

  // A request lands at or before a bucket exactly when it meets its bound.
  lemma BucketIff(o: Observation, i: nat)
    requires i < |BUCKETS|
    ensures o.Bucket() <= i <==> o.Seconds() <= BUCKETS[i]
  {
    if o.Bucket() <= i {
      BoundsRise(o.Bucket(), i);
    }
  }

  // ----- counting -----

  function Count(h: seq<Observation>, keep: Observation -> bool): nat {
    if h == [] then 0 else Count(h[..|h| - 1], keep) + if keep(h[|h| - 1]) then 1 else 0
  }

  lemma CountNext(h: seq<Observation>, o: Observation, keep: Observation -> bool)
    ensures Count(h + [o], keep) == Count(h, keep) + if keep(o) then 1 else 0
  {
    assert (h + [o])[..|h|] == h;
  }

  lemma {:induction false} CountSame(h: seq<Observation>, p: Observation -> bool, q: Observation -> bool)
    requires forall o :: p(o) == q(o)
    ensures Count(h, p) == Count(h, q)
  {
    if h != [] {
      CountSame(h[..|h| - 1], p, q);
    }
  }

  lemma {:induction false} CountBoth(h: seq<Observation>, p: Observation -> bool, q: Observation -> bool,
                                     either: Observation -> bool)
    requires forall o :: !(p(o) && q(o)) && (either(o) <==> p(o) || q(o))
    ensures Count(h, either) == Count(h, p) + Count(h, q)
  {
    if h != [] {
      CountBoth(h[..|h| - 1], p, q, either);
    }
  }

  lemma {:induction false} CountAll(h: seq<Observation>, keep: Observation -> bool)
    requires forall o :: keep(o)
    ensures Count(h, keep) == |h|
  {
    if h != [] {
      CountAll(h[..|h| - 1], keep);
    }
  }

  lemma {:induction false} CountNone(h: seq<Observation>, keep: Observation -> bool)
    ensures Count(h, keep) == 0 <==> forall o :: o in h ==> !keep(o)
  {
    if h != [] {
      assert h == h[..|h| - 1] + [h[|h| - 1]];
      CountNone(h[..|h| - 1], keep);
    }
  }

  function OfFamily(f: Family): Observation -> bool {
    (o: Observation) => o.family == f
  }

  // status / 100, everything but 2, 3 and 4 counted as 5
  function Class(status: nat): nat {
    if status / 100 == 2 || status / 100 == 3 || status / 100 == 4 then status / 100 else 5
  }

  function OfClass(c: nat): Observation -> bool {
    (o: Observation) => Class(o.status) == c
  }

  function Refused(): Observation -> bool {
    (o: Observation) => o.status == 503
  }

  function InBucket(i: nat): Observation -> bool {
    (o: Observation) => o.Bucket() == i
  }

  function UpToBucket(i: nat): Observation -> bool {
    (o: Observation) => o.Bucket() <= i
  }

  function Within(bound: real): Observation -> bool {
    (o: Observation) => o.Seconds() <= bound
  }

  function TotalMicros(h: seq<Observation>): nat {
    if h == [] then 0 else TotalMicros(h[..|h| - 1]) + h[|h| - 1].Micros()
  }

  // ----- the page -----

  // The figures of one rendering.
  datatype Figures = Figures(
    families: (nat, nat, nat),
    classes: (nat, nat, nat, nat),
    overload: nat,
    cumulative: seq<nat>,
    infinite: nat,
    sumSeconds: nat,
    sumMicros: nat,
    count: nat
  ) {
    // What the figures should be after these requests.
    ghost predicate Tell(h: seq<Observation>) {
      && families == (Count(h, OfFamily(Info)), Count(h, OfFamily(Image)), Count(h, OfFamily(Other)))
      && classes == Classes(h)
      && overload == Count(h, Refused())
      && Cumulates(cumulative, h, |BUCKETS|)
      && infinite == count == |h|
      && sumSeconds * 1000000 + sumMicros == TotalMicros(h) && sumMicros < 1000000
    }
  }

  class Metrics {
    var requestsInfo: nat
    var requestsImage: nat
    var requestsOther: nat
    var responses2xx: nat
    var responses3xx: nat
    var responses4xx: nat
    var responses5xx: nat
    var overload503: nat
    var latencySumMicros: nat
    var latencyCount: nat
    const latencyBuckets: array<nat>
    ghost var seen: seq<Observation>

    ghost predicate CountsFamilies(h: seq<Observation>)
      reads `requestsInfo, `requestsImage, `requestsOther
    {
      && requestsInfo == Count(h, OfFamily(Info)) && requestsImage == Count(h, OfFamily(Image))
      && requestsOther == Count(h, OfFamily(Other))
    }

    ghost predicate CountsClasses(h: seq<Observation>)
      reads `responses2xx, `responses3xx, `responses4xx, `responses5xx
    {
      (responses2xx, responses3xx, responses4xx, responses5xx) == Classes(h)
    }

    ghost predicate CountsRefusals(h: seq<Observation>)
      reads `overload503
    {
      overload503 == Count(h, Refused())
    }

    ghost predicate CountsLatency(h: seq<Observation>)
      reads latencyBuckets, `latencySumMicros, `latencyCount
    {
      && latencyBuckets.Length == |BUCKETS| + 1
      && (forall i {:trigger latencyBuckets[i]} :: 0 <= i <= |BUCKETS| ==> latencyBuckets[i] == Count(h, InBucket(i)))
      && latencySumMicros == TotalMicros(h) && latencyCount == |h|
    }

    ghost predicate Valid()
      reads this, latencyBuckets
    {
      CountsFamilies(seen) && CountsClasses(seen) && CountsRefusals(seen) && CountsLatency(seen)
    }

    constructor ()
      ensures Valid() && seen == [] && fresh(latencyBuckets)
    {
      requestsInfo, requestsImage, requestsOther := 0, 0, 0;
      responses2xx, responses3xx, responses4xx, responses5xx, overload503 := 0, 0, 0, 0, 0;
      latencySumMicros, latencyCount, seen := 0, 0, [];
      latencyBuckets := new nat[|BUCKETS| + 1](_ => 0);
    }

    // Record one finished request.
    method Observe(o: Observation)
      requires Valid()
      modifies this, latencyBuckets
      ensures Valid() && seen == old(seen) + [o]
    {
      ghost var all := seen + [o];
      CountFamily(o);
      CountStatus(o);
      CountRefusal(o);
      CountTime(o);
      seen := all;
    }

    method CountFamily(o: Observation)
      requires CountsFamilies(seen)
      modifies `requestsInfo, `requestsImage, `requestsOther
      ensures CountsFamilies(seen + [o])
    {
      CountNext(seen, o, OfFamily(Info));
      CountNext(seen, o, OfFamily(Image));
      CountNext(seen, o, OfFamily(Other));
      match o.family
      case Info => requestsInfo := requestsInfo + 1;
      case Image => requestsImage := requestsImage + 1;
      case Other => requestsOther := requestsOther + 1;
    }

    method CountStatus(o: Observation)
      requires CountsClasses(seen)
      modifies `responses2xx, `responses3xx, `responses4xx, `responses5xx
      ensures CountsClasses(seen + [o])
    {
      NextClasses(seen, o);
      match o.status / 100
      case 2 => responses2xx := responses2xx + 1;
      case 3 => responses3xx := responses3xx + 1;
      case 4 => responses4xx := responses4xx + 1;
      case _ => responses5xx := responses5xx + 1;
    }

    method CountRefusal(o: Observation)
      requires CountsRefusals(seen)
      modifies `overload503
      ensures CountsRefusals(seen + [o])
    {
      CountNext(seen, o, Refused());
      if o.status == 503 {
        overload503 := overload503 + 1;
      }
    }

    method CountTime(o: Observation)
      requires CountsLatency(seen)
      modifies latencyBuckets, `latencySumMicros, `latencyCount
      ensures CountsLatency(seen + [o])
    {
      NextLatency(seen, o);
      var index := Position(o);
      latencyBuckets[index] := latencyBuckets[index] + 1;
      latencySumMicros := latencySumMicros + o.Micros();
      latencyCount := latencyCount + 1;
    }

    // The figures of the page.
    method Render() returns (f: Figures)
      requires Valid()
      ensures f.Tell(seen)
    {
      var cumulative, infinite := Accumulate();
      f := Figures((requestsInfo, requestsImage, requestsOther),
                   (responses2xx, responses3xx, responses4xx, responses5xx), overload503,
                   cumulative, infinite, latencySumMicros / 1000000, latencySumMicros % 1000000, latencyCount);
    }

    // The running total over the buckets, and past the last one.
    method Accumulate() returns (cumulative: seq<nat>, infinite: nat)
      requires CountsLatency(seen)
      ensures Cumulates(cumulative, seen, |BUCKETS|) && infinite == |seen|
    {
      cumulative, infinite := [], 0;
      for i := 0 to |BUCKETS|
        invariant infinite == Below(seen, i) && Cumulates(cumulative, seen, i)
      {
        infinite := infinite + latencyBuckets[i];
        CumulatesNext(cumulative, seen, i);
        cumulative := cumulative + [infinite];
      }
      infinite := infinite + latencyBuckets[|BUCKETS|];
      BelowNext(seen, |BUCKETS|);
      BelowAll(seen);
    }
  }

  // The first n figures count the requests that met the first n bounds.
  ghost predicate Cumulates(cumulative: seq<nat>, h: seq<Observation>, n: nat)
    requires n <= |BUCKETS|
  {
    && |cumulative| == n
    && forall i {:trigger cumulative[i]} :: 0 <= i < n ==> cumulative[i] == Count(h, Within(BUCKETS[i]))
  }

  // BUCKETS.iter().position
  method Position(o: Observation) returns (index: nat)
    ensures index == o.Bucket()
  {
    index := 0;
    while index < |BUCKETS| && o.Seconds() > BUCKETS[index]
      invariant index <= |BUCKETS| && o.Bucket() == FirstAtLeast(o.Seconds(), index)
    {
      index := index + 1;
    }
  }

  // How many of each class, in order.
  function Classes(h: seq<Observation>): (nat, nat, nat, nat) {
    (Count(h, OfClass(2)), Count(h, OfClass(3)), Count(h, OfClass(4)), Count(h, OfClass(5)))
  }

  lemma NextClasses(h: seq<Observation>, o: Observation)
    ensures var (a, b, c, d) := Classes(h);
      Classes(h + [o]) == match o.status / 100
        case 2 => (a + 1, b, c, d)
        case 3 => (a, b + 1, c, d)
        case 4 => (a, b, c + 1, d)
        case _ => (a, b, c, d + 1)
  {
    CountNext(h, o, OfClass(2));
    CountNext(h, o, OfClass(3));
    CountNext(h, o, OfClass(4));
    CountNext(h, o, OfClass(5));
  }

  lemma NextLatency(h: seq<Observation>, o: Observation)
    ensures forall i {:trigger InBucket(i)} ::
      Count(h + [o], InBucket(i)) == Count(h, InBucket(i)) + if o.Bucket() == i then 1 else 0
    ensures TotalMicros(h + [o]) == TotalMicros(h) + o.Micros()
  {
    forall i: nat
      ensures Count(h + [o], InBucket(i)) == Count(h, InBucket(i)) + if o.Bucket() == i then 1 else 0
    {
      CountNext(h, o, InBucket(i));
    }
    assert (h + [o])[..|h|] == h;
  }

  // ----- the histogram -----

  // Requests in the first n buckets.
  function Below(h: seq<Observation>, n: nat): nat {
    if n == 0 then 0 else Count(h, UpToBucket(n - 1))
  }

  lemma BelowNext(h: seq<Observation>, n: nat)
    ensures Below(h, n + 1) == Below(h, n) + Count(h, InBucket(n))
  {
    if n == 0 {
      CountSame(h, UpToBucket(0), InBucket(0));
    } else {
      CountBoth(h, UpToBucket(n - 1), InBucket(n), UpToBucket(n));
    }
  }

  lemma BelowIsWithin(h: seq<Observation>, i: nat)
    requires i < |BUCKETS|
    ensures Below(h, i + 1) == Count(h, Within(BUCKETS[i]))
  {
    forall o: Observation
      ensures UpToBucket(i)(o) == Within(BUCKETS[i])(o)
    {
      BucketIff(o, i);
    }
    CountSame(h, UpToBucket(i), Within(BUCKETS[i]));
  }

  lemma BelowAll(h: seq<Observation>)
    ensures Below(h, |BUCKETS| + 1) == |h|
  {
    CountAll(h, UpToBucket(|BUCKETS|));
  }

  lemma CumulatesNext(cumulative: seq<nat>, h: seq<Observation>, i: nat)
    requires i < |BUCKETS| && Cumulates(cumulative, h, i)
    ensures Below(h, i + 1) == Below(h, i) + Count(h, InBucket(i))
    ensures Cumulates(cumulative + [Below(h, i + 1)], h, i + 1)
  {
    BelowNext(h, i);
    BelowIsWithin(h, i);
  }

  // ----- the figures in numbers -----

  // The bounds in nanoseconds.
  const BOUNDS_NANOS: seq<nat> := [5_000_000, 10_000_000, 25_000_000, 50_000_000, 100_000_000, 250_000_000, 500_000_000,
                                   1_000_000_000, 2_500_000_000, 10_000_000_000]

  function AtMostNanos(bound: nat): Observation -> bool {
    (o: Observation) => o.nanos <= bound
  }

  function StatusFrom(lo: nat, hi: nat): Observation -> bool {
    (o: Observation) => lo <= o.status <= hi
  }

  function TotalNanos(h: seq<Observation>): nat {
    if h == [] then 0 else TotalNanos(h[..|h| - 1]) + h[|h| - 1].nanos
  }

  lemma BoundIs(o: Observation, i: nat)
    requires i < |BUCKETS|
    ensures o.Seconds() <= BUCKETS[i] <==> o.nanos <= BOUNDS_NANOS[i]
  {
  }

  lemma WithinIs(h: seq<Observation>, i: nat)
    requires i < |BUCKETS|
    ensures Count(h, Within(BUCKETS[i])) == Count(h, AtMostNanos(BOUNDS_NANOS[i]))
  {
    forall o: Observation
      ensures Within(BUCKETS[i])(o) == AtMostNanos(BOUNDS_NANOS[i])(o)
    {
      BoundIs(o, i);
    }
    CountSame(h, Within(BUCKETS[i]), AtMostNanos(BOUNDS_NANOS[i]));
  }

  lemma ClassIs(h: seq<Observation>, c: nat)
    requires 2 <= c <= 4
    ensures Count(h, OfClass(c)) == Count(h, StatusFrom(100 * c, 100 * c + 99))
  {
    CountSame(h, OfClass(c), StatusFrom(100 * c, 100 * c + 99));
  }

  predicate NoneTooLong(h: seq<Observation>) {
    forall o :: o in h ==> o.nanos / 1000 < 0x1_0000_0000_0000_0000
  }

  // Each request's time is cut to whole microseconds.
  lemma {:induction false} TotalIsNear(h: seq<Observation>)
    requires NoneTooLong(h)
    ensures 1000 * TotalMicros(h) <= TotalNanos(h) <= 1000 * TotalMicros(h) + 999 * |h|
  {
    if h != [] {
      var o := h[|h| - 1];
      assert o in h;
      TotalIsNear(h[..|h| - 1]);
      assert 1000 * o.Micros() <= o.nanos <= 1000 * o.Micros() + 999;
    }
  }

  // The page in literal figures: each bucket the requests that took no longer than
  // its bound, the classes by status, the refusals, and the total time to within
  // a microsecond a request.
  lemma FiguresInNumbers(f: Figures, h: seq<Observation>)
    requires f.Tell(h)
    ensures |f.cumulative| == 10
    ensures forall i {:trigger f.cumulative[i]} :: 0 <= i < 10 ==>
      f.cumulative[i] == Count(h, AtMostNanos(BOUNDS_NANOS[i]))
    ensures f.classes.0 == Count(h, StatusFrom(200, 299)) && f.classes.1 == Count(h, StatusFrom(300, 399))
    ensures f.classes.2 == Count(h, StatusFrom(400, 499)) && f.overload == Count(h, StatusFrom(503, 503))
    ensures NoneTooLong(h) ==>
      var sum := 1000 * (1000000 * f.sumSeconds + f.sumMicros); sum <= TotalNanos(h) <= sum + 999 * |h|
  {
    forall i | 0 <= i < 10
      ensures f.cumulative[i] == Count(h, AtMostNanos(BOUNDS_NANOS[i]))
    {
      WithinIs(h, i);
    }
    ClassIs(h, 2);
    ClassIs(h, 3);
    ClassIs(h, 4);
    CountSame(h, Refused(), StatusFrom(503, 503));
    if NoneTooLong(h) {
      TotalIsNear(h);
    }
  }

  // Prometheus' rules: buckets never fall, and every total agrees.
  lemma FiguresAgree(f: Figures, h: seq<Observation>)
    requires f.Tell(h)
    ensures forall i, j :: 0 <= i <= j < |f.cumulative| ==> f.cumulative[i] <= f.cumulative[j] <= f.infinite
    ensures f.infinite == f.count == f.families.0 + f.families.1 + f.families.2
    ensures f.count == f.classes.0 + f.classes.1 + f.classes.2 + f.classes.3
    ensures f.overload <= f.classes.3
  {
    forall i, j | 0 <= i <= j < |f.cumulative|
      ensures f.cumulative[i] <= f.cumulative[j] <= f.infinite
    {
      BoundsRise(i, j);
      CountFewer(h, Within(BUCKETS[i]), Within(BUCKETS[j]));
      CountAtMostAll(h, Within(BUCKETS[j]));
    }
    FamiliesAreAll(h);
    ClassesAreAll(h);
    CountFewer(h, Refused(), OfClass(5));
  }

  lemma {:induction false} CountFewer(h: seq<Observation>, p: Observation -> bool, q: Observation -> bool)
    requires forall o :: p(o) ==> q(o)
    ensures Count(h, p) <= Count(h, q)
  {
    if h != [] {
      CountFewer(h[..|h| - 1], p, q);
    }
  }

  lemma {:induction false} CountAtMostAll(h: seq<Observation>, p: Observation -> bool)
    ensures Count(h, p) <= |h|
  {
    if h != [] {
      CountAtMostAll(h[..|h| - 1], p);
    }
  }

  lemma {:induction false} FamiliesAreAll(h: seq<Observation>)
    ensures Count(h, OfFamily(Info)) + Count(h, OfFamily(Image)) + Count(h, OfFamily(Other)) == |h|
  {
    if h != [] {
      FamiliesAreAll(h[..|h| - 1]);
    }
  }

  lemma {:induction false} ClassesAreAll(h: seq<Observation>)
    ensures Count(h, OfClass(2)) + Count(h, OfClass(3)) + Count(h, OfClass(4)) + Count(h, OfClass(5)) == |h|
  {
    if h != [] {
      ClassesAreAll(h[..|h| - 1]);
    }
  }

  // The 5xx figure is what its name says exactly when no other status class than
  // the four was ever observed: a 1xx is counted there too.
  lemma FivesIff(h: seq<Observation>)
    ensures Count(h, OfClass(5)) == Count(h, Hundreds(5))
       <==> forall o :: o in h ==> 2 <= o.status / 100 <= 5
  {
    CountBoth(h, Hundreds(5), Unclassed(), OfClass(5));
    CountNone(h, Unclassed());
  }

  function Hundreds(c: nat): Observation -> bool {
    (o: Observation) => o.status / 100 == c
  }

  function Unclassed(): Observation -> bool {
    (o: Observation) => !(2 <= o.status / 100 <= 5)
  }
}
