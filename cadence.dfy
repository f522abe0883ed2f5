/** The cadence detector of the audit: users whose messages arrive at suspiciously regular
    intervals. The square root of the source is avoided: for a positive mean gap, `std / mean < 0.08`
    holds exactly when `variance < 0.0064 * mean * mean` (lemma `CvBelowLimit`), and the rows carry
    and are ordered by `cv * cv = variance / (mean * mean)`, which orders them as `cv` does. */
module Cadence {
  import opened Seqs
  import opened Sorting
  import opened Records
  import opened Grouping
  import opened TimestampChecks
  import opened RealArith

  /** A group needs this many messages, and this many parsed timestamps, to be looked at. */
  const MinSamples: nat := 8
  const MinMeanGap: real := 10.0
  const MaxMeanGap: real := 86400.0
  const CvLimit: real := 0.08
  /** `CvLimit * CvLimit`. */
  const CvSquaredLimit: real := 0.0064

  /** The order of `times.sort()`: by instant. */
  predicate Earlier(a: DateTime, b: DateTime) {
    a.micros <= b.micros
  }

  /** `(b - a).total_seconds()`. */
  function Seconds(a: DateTime, b: DateTime): real {
    (b.micros - a.micros) as real / 1000000.0
  }

  /** `[(times[i] - times[i-1]).total_seconds() for i in range(1, len(times))]`. */
  function Gaps(ts: seq<DateTime>): (gs: seq<real>)
    ensures |gs| == if ts == [] then 0 else |ts| - 1
  {
    if |ts| <= 1 then [] else seq(|ts| - 1, i requires 0 <= i < |ts| - 1 => Seconds(ts[i], ts[i + 1]))
  }

  /** `sum(xs)`. */
  function Total(xs: seq<real>): real {
    if xs == [] then 0.0 else Total(xs[..|xs| - 1]) + xs[|xs| - 1]
  }

  /** `sum(gaps) / len(gaps)`. */
  function Mean(gs: seq<real>): real
    requires gs != []
  {
    Total(gs) / |gs| as real
  }

  /** `(g - mean_gap) ** 2` for every gap. */
  function SquaredDeviations(gs: seq<real>, mu: real): (ds: seq<real>)
    ensures |ds| == |gs|
  {
    seq(|gs|, i requires 0 <= i < |gs| => (gs[i] - mu) * (gs[i] - mu))
  }

  /** The population variance `sum((g - mean_gap) ** 2 for g in gaps) / len(gaps)`. */
  function Variance(gs: seq<real>): real
    requires gs != []
  {
    Total(SquaredDeviations(gs, Mean(gs))) / |gs| as real
  }

  /** `std_gap / mean_gap if mean_gap > 0 else 0.0`, for a given standard deviation. */
  function Cv(mean: real, std: real): real {
    if mean > 0.0 then std / mean else 0.0
  }

  /** `cv * cv` for a positive mean: `variance / (mean * mean)`. */
  function CvSquared(mean: real, variance: real): real {
    if mean > 0.0 then variance / (mean * mean) else 0.0
  }

  /** The flag condition `10 <= mean_gap <= 86400 and cv < 0.08`, without the square root: a
      variance below `0.0064 * mean_gap * mean_gap` (lemma `CvBelowLimit`). */
  predicate Regular(mean: real, variance: real) {
    MinMeanGap <= mean <= MaxMeanGap && variance < CvSquaredLimit * mean * mean
  }

  /** One row of `suspicious_cadence`: the mean gap, the squared coefficient of variation, and the
      number of gaps. */
  datatype CadenceRow = CadenceRow(userId: string, meanGap: real, cvSquared: real, samples: nat)

  /** The parsed timestamps of a group, in instant order. */
  function SortedTimes(or: Oracles, arr: seq<Message>): seq<DateTime> {
    SortBy(ParsedIn(or, arr), Earlier)
  }

  /** A group is flagged when it has at least eight messages, at least eight of them parse, and
      the gaps between the sorted parsed timestamps look machine-made. */
  predicate Flagged(or: Oracles, arr: seq<Message>) {
    && |arr| >= MinSamples && |ParsedIn(or, arr)| >= MinSamples
    && Gaps(SortedTimes(or, arr)) != [] && Regular(Mean(Gaps(SortedTimes(or, arr))), Variance(Gaps(SortedTimes(or, arr))))
  }

  /** The row reported for a flagged group: mean gap, `cv * cv` and the number of gaps. */
  function RowOf(or: Oracles, u: string, arr: seq<Message>): CadenceRow
    requires Flagged(or, arr)
  {
    var gs := Gaps(SortedTimes(or, arr));
    CadenceRow(u, Mean(gs), CvSquared(Mean(gs), Variance(gs)), |gs|)
  }

  /** The row of user `u` with group `arr`, if it is reported. */
  function RowsFor(or: Oracles, u: string, arr: seq<Message>): seq<CadenceRow> {
    if Flagged(or, arr) then [RowOf(or, u, arr)] else []
  }

  /** What user `u` adds to `suspicious_cadence` before the final sort. */
  function CadenceOf(or: Oracles, g: Grouping<string>): string -> seq<CadenceRow> {
    u => RowsFor(or, u, GroupOf(g, u))
  }

  /** `suspicious_cadence.sort(key=lambda x: x["cv"])`: ascending, stable. */
  predicate CvLe(a: CadenceRow, b: CadenceRow) {
    a.cvSquared <= b.cvSquared
  }

  /** `suspicious_cadence` after its sort. */
  function SuspiciousCadence(or: Oracles, g: Grouping<string>): seq<CadenceRow> {
    SortBy(FlatMap(g.keys, CadenceOf(or, g)), CvLe)
  }

  /** The loop collecting the timestamps of one group that parse. */
  method CollectTimes(or: Oracles, arr: seq<Message>) returns (times: seq<DateTime>)
    ensures times == ParsedIn(or, arr)
  {
    times := [];
    var j := 0;
    while j < |arr|
      invariant j <= |arr|
      invariant times == ParsedIn(or, arr[..j])
    {
      FlatMapStep(arr, j, ParsedOf(or));
      var parsed := ParseTimestamp(or, arr[j]);
      if parsed.Some? {
        times := times + [parsed.value];
      }
      j := j + 1;
    }
    assert arr[..j] == arr;
  }

  /** The body of the cadence loop for one user. */
  method UserCadence(or: Oracles, u: string, arr: seq<Message>) returns (found: seq<CadenceRow>)
    ensures found == RowsFor(or, u, arr)
  {
    found := [];
    if |arr| >= MinSamples {
      var times := CollectTimes(or, arr);
      if |times| >= MinSamples {
        times := SortBy(times, Earlier);
        var gaps := Gaps(times);
        assert gaps == Gaps(SortedTimes(or, arr));
        if gaps != [] {
          var meanGap := Total(gaps) / |gaps| as real;
          assert meanGap == Mean(gaps);
          var variance := Total(SquaredDeviations(gaps, meanGap)) / |gaps| as real;
          assert variance == Variance(gaps);
          if Regular(meanGap, variance) {
            assert Flagged(or, arr);
            found := [CadenceRow(u, meanGap, CvSquared(meanGap, variance), |gaps|)];
            assert found == [RowOf(or, u, arr)];
          } else {
            assert !Regular(Mean(gaps), Variance(gaps));
            assert !Flagged(or, arr);
          }
        }
      } else {
        assert !Flagged(or, arr);
      }
    } else {
      assert !Flagged(or, arr);
    }
  }

  /** The cadence loop over all users, then the sort. */
  method FindCadence(or: Oracles, g: Grouping<string>) returns (rows: seq<CadenceRow>)
    ensures rows == SuspiciousCadence(or, g)
  {
    rows := [];
    var i := 0;
    while i < |g.keys|
      invariant i <= |g.keys|
      invariant rows == FlatMap(g.keys[..i], CadenceOf(or, g))
    {
      var u := g.keys[i];
      FlatMapStep(g.keys, i, CadenceOf(or, g));
      var found := UserCadence(or, u, GroupOf(g, u));
      rows := rows + found;
      i := i + 1;
    }
    assert g.keys[..i] == g.keys;
    rows := SortBy(rows, CvLe);
  }

  // ---------------------------------------------------------------- properties

  /** For a positive mean and a non-negative standard deviation, `cv < 0.08` holds iff the variance
      is below `0.0064 * mean * mean`: the flag can be decided without the square root. */
  lemma CvBelowLimit(mean: real, std: real)
    requires mean > 0.0 && std >= 0.0
    ensures Cv(mean, std) < CvLimit <==> std * std < CvSquaredLimit * mean * mean
  {
    DivCompare(std, mean, CvLimit);
    ProductPositive(CvLimit, mean);
    SquareBelow(std, CvLimit * mean);
    assert (CvLimit * mean) * (CvLimit * mean) == CvSquaredLimit * mean * mean;
  }

  /** For a positive mean, `cv * cv` is the square of `cv`. */
  lemma CvSquaredIsSquare(mean: real, std: real)
    requires mean > 0.0
    ensures CvSquared(mean, std * std) == Cv(mean, std) * Cv(mean, std)
  {
    var c := Cv(mean, std);
    assert c * mean == std;
    DivProductExact(std * std, mean, mean, c * c);
  }


  /** Ordering rows by `cv * cv` orders them as by `cv`: for non-negative standard deviations,
      one coefficient is at most another iff its square is. */
  lemma CvSquaredOrder(mean1: real, std1: real, mean2: real, std2: real)
    requires mean1 > 0.0 && mean2 > 0.0 && std1 >= 0.0 && std2 >= 0.0
    ensures Cv(mean1, std1) <= Cv(mean2, std2) <==> CvSquared(mean1, std1 * std1) <= CvSquared(mean2, std2 * std2)
  {
    CvSquaredIsSquare(mean1, std1);
    CvSquaredIsSquare(mean2, std2);
    DivCompare(std1, mean1, 0.0);
    DivCompare(std2, mean2, 0.0);
    SquareBelow(Cv(mean2, std2), Cv(mean1, std1));
  }

  /** Sorting the parsed timestamps keeps their number. */
  lemma SortedTimesLength(or: Oracles, arr: seq<Message>)
    ensures |SortedTimes(or, arr)| == |ParsedIn(or, arr)|
  {
    SortByPermutes(ParsedIn(or, arr), Earlier);
    assert |multiset(SortedTimes(or, arr))| == |multiset(ParsedIn(or, arr))|;
  }

  /** A user is reported iff its group has at least eight messages of which at least eight carry a
      timestamp that parses, and the gaps between its sorted parsed timestamps have a mean between
      10 and 86400 seconds and a coefficient of variation below 0.08; the row then carries that mean,
      the squared coefficient and the number of gaps. */
  lemma CadenceSpec(or: Oracles, g: Grouping<string>, r: CadenceRow)
    ensures r in SuspiciousCadence(or, g) <==>
      && r.userId in g.keys
      && Flagged(or, GroupOf(g, r.userId))
      && r == RowOf(or, r.userId, GroupOf(g, r.userId))
  {
    SortByMembers(FlatMap(g.keys, CadenceOf(or, g)), CvLe);
    FlatMapMember(g.keys, CadenceOf(or, g), r);
    if r in SuspiciousCadence(or, g) {
      var u :| u in g.keys && r in CadenceOf(or, g)(u);
      CadenceOfMember(or, g, u, r);
    } else if r.userId in g.keys {
      CadenceOfMember(or, g, r.userId, r);
    }
  }

  /** The rows user `u` contributes: its own row when its group is flagged, nothing otherwise. */
  lemma CadenceOfMember(or: Oracles, g: Grouping<string>, u: string, r: CadenceRow)
    ensures r in CadenceOf(or, g)(u) <==> Flagged(or, GroupOf(g, u)) && r == RowOf(or, u, GroupOf(g, u))
  {
    assert CadenceOf(or, g)(u) == RowsFor(or, u, GroupOf(g, u));
  }

  /** Every reported row has at least seven gaps, a mean gap within bounds, and a squared coefficient
      of variation below 0.0064. */
  lemma CadenceRowBounds(or: Oracles, g: Grouping<string>, r: CadenceRow)
    requires r in SuspiciousCadence(or, g)
    ensures r.samples >= MinSamples - 1
    ensures MinMeanGap <= r.meanGap <= MaxMeanGap
    ensures r.cvSquared < CvSquaredLimit
  {
    CadenceSpec(or, g, r);
    FlaggedRow(or, r.userId, GroupOf(g, r.userId));
  }

  /** The row of a flagged group has at least seven gaps, a mean within bounds and `cv * cv`
      below the squared limit. */
  lemma FlaggedRow(or: Oracles, u: string, arr: seq<Message>)
    requires Flagged(or, arr)
    ensures RowOf(or, u, arr).samples >= MinSamples - 1
    ensures MinMeanGap <= RowOf(or, u, arr).meanGap <= MaxMeanGap
    ensures RowOf(or, u, arr).cvSquared < CvSquaredLimit
  {
    SortedTimesLength(or, arr);
    var gs := Gaps(SortedTimes(or, arr));
    CvSquaredBelow(Mean(gs), Variance(gs));
  }

  lemma CvSquaredBelow(mean: real, variance: real)
    requires mean > 0.0 && variance < CvSquaredLimit * mean * mean
    ensures CvSquared(mean, variance) < CvSquaredLimit
  {
    DivProductCompare(variance, mean, mean, CvSquaredLimit);
  }


  /** The rows come out in ascending order of the coefficient of variation, exactly the rows of the
      users, and rows of equal coefficient in user order. */
  lemma CadenceOrder(or: Oracles, g: Grouping<string>)
    ensures forall i, j | 0 <= i < j < |SuspiciousCadence(or, g)| ::
      SuspiciousCadence(or, g)[i].cvSquared <= SuspiciousCadence(or, g)[j].cvSquared
    ensures multiset(SuspiciousCadence(or, g)) == multiset(FlatMap(g.keys, CadenceOf(or, g)))
    ensures forall c :: Filter(SuspiciousCadence(or, g), EqClass(CvLe, c)) == Filter(FlatMap(g.keys, CadenceOf(or, g)), EqClass(CvLe, c))
  {
    assert TotalPreorder(CvLe);
    SortBySorted(FlatMap(g.keys, CadenceOf(or, g)), CvLe);
    SortByPermutes(FlatMap(g.keys, CadenceOf(or, g)), CvLe);
    forall c ensures Filter(SuspiciousCadence(or, g), EqClass(CvLe, c)) == Filter(FlatMap(g.keys, CadenceOf(or, g)), EqClass(CvLe, c)) {
      SortByStable(FlatMap(g.keys, CadenceOf(or, g)), CvLe, c);
    }
  }

  /** A sum of equal terms. */
  lemma {:induction false} TotalConstant(xs: seq<real>, c: real)
    requires forall i | 0 <= i < |xs| :: xs[i] == c
    ensures Total(xs) == |xs| as real * c
  {
    if xs != [] {
      TotalConstant(xs[..|xs| - 1], c);
    }
  }

  /** Equal gaps have that gap as their mean and no variance at all. */
  lemma EqualGaps(gs: seq<real>, c: real)
    requires gs != []
    requires forall i | 0 <= i < |gs| :: gs[i] == c
    ensures Mean(gs) == c
    ensures Variance(gs) == 0.0
  {
    TotalConstant(gs, c);
    assert Mean(gs) == c;
    TotalConstant(SquaredDeviations(gs, c), 0.0);
  }

  /** A user whose sorted parsed timestamps, at least eight of them in a group of at least eight,
      are spaced exactly `step` seconds apart with `10 <= step <= 86400` is reported, with a
      coefficient of variation of 0. */
  lemma EvenlySpacedFlagged(or: Oracles, g: Grouping<string>, u: string, step: real)
    requires u in g.keys
    requires |GroupOf(g, u)| >= MinSamples && |ParsedIn(or, GroupOf(g, u))| >= MinSamples
    requires forall i | 0 <= i < |Gaps(SortedTimes(or, GroupOf(g, u)))| :: Gaps(SortedTimes(or, GroupOf(g, u)))[i] == step
    requires MinMeanGap <= step <= MaxMeanGap
    ensures CadenceRow(u, step, 0.0, |ParsedIn(or, GroupOf(g, u))| - 1) in SuspiciousCadence(or, g)
  {
    EvenlySpacedGroup(or, u, GroupOf(g, u), step);
    CadenceSpec(or, g, CadenceRow(u, step, 0.0, |ParsedIn(or, GroupOf(g, u))| - 1));
  }

  lemma EvenlySpacedGroup(or: Oracles, u: string, arr: seq<Message>, step: real)
    requires |arr| >= MinSamples && |ParsedIn(or, arr)| >= MinSamples
    requires forall i | 0 <= i < |Gaps(SortedTimes(or, arr))| :: Gaps(SortedTimes(or, arr))[i] == step
    requires MinMeanGap <= step <= MaxMeanGap
    ensures Flagged(or, arr)
    ensures RowOf(or, u, arr) == CadenceRow(u, step, 0.0, |ParsedIn(or, arr)| - 1)
  {
    SortedTimesLength(or, arr);
    var gs := Gaps(SortedTimes(or, arr));
    EqualGaps(gs, step);
    ProductPositive(step, step);
    assert Regular(Mean(gs), Variance(gs));
  }
}
