/** The timestamp detector of the audit: unparsable timestamps, timestamps more than a year ahead of
    the clock or before 2010, and users whose parsed timestamps go backwards in group order. */
module TimestampChecks {
  import opened Wrappers
  import opened Seqs
  import opened Records
  import opened Grouping

  datatype Tally = Tally(unparsable: nat, future: nat, farPast: nat, outOfOrderUsers: nat)

  function Plus(a: Tally, b: Tally): Tally {
    Tally(a.unparsable + b.unparsable, a.future + b.future, a.farPast + b.farPast, a.outOfOrderUsers + b.outOfOrderUsers)
  }

  const MicrosPerDay: int := 86400 * 1000000

  /** `now + timedelta(days=365)`, for the clock reading `now` in microseconds. */
  function FarFuture(now: int): int {
    now + 365 * MicrosPerDay
  }

  function Unparses(or: Oracles): Message -> bool {
    (m: Message) => ParseTimestamp(or, m).None?
  }

  function Parses(or: Oracles): Message -> bool {
    (m: Message) => ParseTimestamp(or, m).Some?
  }

  /** The parsed timestamp of a message, if any. */
  function ParsedOf(or: Oracles): Message -> seq<DateTime> {
    m => if ParseTimestamp(or, m).Some? then [ParseTimestamp(or, m).value] else []
  }

  /** The parsed timestamps of `arr`, in order. */
  function ParsedIn(or: Oracles, arr: seq<Message>): seq<DateTime> {
    FlatMap(arr, ParsedOf(or))
  }

  function IsFuture(now: int): DateTime -> bool {
    (d: DateTime) => d.micros > FarFuture(now)
  }

  predicate IsFarPast(d: DateTime) {
    d.year < 2010
  }

  /** Some timestamp is earlier than the one before it. */
  predicate HasDrop(ts: seq<DateTime>) {
    ts != [] && (HasDrop(ts[..|ts| - 1]) || (|ts| >= 2 && ts[|ts| - 1].micros < ts[|ts| - 2].micros))
  }

  predicate NonDecreasing(ts: seq<DateTime>) {
    forall i, j | 0 <= i < j < |ts| :: ts[i].micros <= ts[j].micros
  }

  /** What one group contributes to the tally. */
  function GroupTally(or: Oracles, now: int, arr: seq<Message>): Tally {
    var ts := ParsedIn(or, arr);
    Tally(Count(arr, Unparses(or)), Count(ts, IsFuture(now)), Count(ts, IsFarPast), if HasDrop(ts) then 1 else 0)
  }

  /** The tally over the groups `ks`, in order. */
  function TallyOver(or: Oracles, now: int, g: Grouping<string>, ks: seq<string>): Tally {
    if ks == [] then Tally(0, 0, 0, 0)
    else Plus(TallyOver(or, now, g, ks[..|ks| - 1]), GroupTally(or, now, GroupOf(g, ks[|ks| - 1])))
  }

  /** No timestamp of `arr` parses to a naive `datetime`. */
  predicate AllAware(or: Oracles, arr: seq<Message>) {
    forall d | d in ParsedIn(or, arr) :: d.aware
  }

  /** The inner loop over one group. It fails, as `dt > far_future` raises, at the first naive
      timestamp. */
  method ScanGroup(or: Oracles, now: int, arr: seq<Message>) returns (t: Tally, ok: bool)
    ensures ok == AllAware(or, arr)
    ensures ok ==> t == GroupTally(or, now, arr)
  {
    t := Tally(0, 0, 0, 0);
    var unparsable, future, farPast := 0, 0, 0;
    var lastDt: Option<DateTime> := None;
    var outOfOrder := false;
    ghost var ts: seq<DateTime> := [];
    var j := 0;
    while j < |arr|
      invariant j <= |arr|
      invariant ts == ParsedIn(or, arr[..j])
      invariant AllAware(or, arr[..j])
      invariant unparsable == Count(arr[..j], Unparses(or))
      invariant future == Count(ts, IsFuture(now))
      invariant farPast == Count(ts, IsFarPast)
      invariant outOfOrder == HasDrop(ts)
      invariant lastDt == if ts == [] then None else Some(Last(ts))
    {
      var m := arr[j];
      ScanStep(or, now, arr, j);
      var parsed := ParseTimestamp(or, m);
      if parsed.None? {
        unparsable := unparsable + 1;
      } else {
        var dt := parsed.value;
        if !dt.aware {
          ok := false;
          return;
        }
        TimestampSnoc(now, ts, dt);
        if dt.micros > FarFuture(now) {
          future := future + 1;
        }
        if dt.year < 2010 {
          farPast := farPast + 1;
        }
        if lastDt.Some? && dt.micros < lastDt.value.micros {
          outOfOrder := true;
        }
        lastDt := Some(dt);
        ts := ts + [dt];
      }
      j := j + 1;
    }
    assert arr[..j] == arr;
    t := Tally(unparsable, future, farPast, if outOfOrder then 1 else 0);
    ok := true;
  }

  /** What scanning `arr[j]` does to each quantity the inner loop tracks. */
  lemma ScanStep(or: Oracles, now: int, arr: seq<Message>, j: nat)
    requires j < |arr|
    ensures var m := arr[j];
      var ts := ParsedIn(or, arr[..j]);
      var ts' := ParsedIn(or, arr[..j + 1]);
      && Count(arr[..j + 1], Unparses(or)) == Count(arr[..j], Unparses(or)) + (if ParseTimestamp(or, m).None? then 1 else 0)
      && (ParseTimestamp(or, m).None? ==> ts' == ts)
      && (ParseTimestamp(or, m).Some? ==> ts' == ts + [ParseTimestamp(or, m).value])
      && (ParseTimestamp(or, m).Some? && !ParseTimestamp(or, m).value.aware ==> !AllAware(or, arr))
      && (AllAware(or, arr[..j + 1]) <==> AllAware(or, arr[..j]) && (ParseTimestamp(or, m).Some? ==> ParseTimestamp(or, m).value.aware))
  {
    var m := arr[j];
    assert arr[..j + 1] == arr[..j] + [m];
    FlatMapStep(arr, j, ParsedOf(or));
    CountSnoc(arr[..j], m, Unparses(or));
    if ParseTimestamp(or, m).Some? {
      var dt := ParseTimestamp(or, m).value;
      assert dt in ParsedIn(or, arr[..j + 1]);
      FlatMapPrefix(arr, j + 1, ParsedOf(or));
    }
  }

  /** What appending one parsed timestamp does to the counts and the drop flag. */
  lemma TimestampSnoc(now: int, ts: seq<DateTime>, dt: DateTime)
    ensures Count(ts + [dt], IsFuture(now)) == Count(ts, IsFuture(now)) + (if dt.micros > FarFuture(now) then 1 else 0)
    ensures Count(ts + [dt], IsFarPast) == Count(ts, IsFarPast) + (if dt.year < 2010 then 1 else 0)
    ensures HasDrop(ts + [dt]) == (HasDrop(ts) || (ts != [] && dt.micros < Last(ts).micros))
    ensures Last(ts + [dt]) == dt
  {
    CountSnoc(ts, dt, IsFuture(now));
    CountSnoc(ts, dt, IsFarPast);
    assert (ts + [dt])[..|ts|] == ts;
  }

  function Last(ts: seq<DateTime>): DateTime
    requires ts != []
  {
    ts[|ts| - 1]
  }

  /** The outer loop over the groups, in their order. */
  method TimestampTally(or: Oracles, now: int, g: Grouping<string>) returns (t: Tally, ok: bool)
    ensures ok == forall k | k in g.keys :: AllAware(or, GroupOf(g, k))
    ensures ok ==> t == TallyOver(or, now, g, g.keys)
  {
    t := Tally(0, 0, 0, 0);
    var i := 0;
    while i < |g.keys|
      invariant i <= |g.keys|
      invariant forall k | k in g.keys[..i] :: AllAware(or, GroupOf(g, k))
      invariant t == TallyOver(or, now, g, g.keys[..i])
    {
      var gt, groupOk := ScanGroup(or, now, GroupOf(g, g.keys[i]));
      if !groupOk {
        ok := false;
        return;
      }
      TallyOverStep(or, now, g, g.keys, i);
      AwareStep(or, g, g.keys, i);
      t := Plus(t, gt);
      i := i + 1;
    }
    assert g.keys[..i] == g.keys;
    ok := true;
  }

  /** One more group whose timestamps are all aware keeps every group seen so far aware. */
  lemma AwareStep(or: Oracles, g: Grouping<string>, ks: seq<string>, i: nat)
    requires i < |ks| && AllAware(or, GroupOf(g, ks[i]))
    requires forall k | k in ks[..i] :: AllAware(or, GroupOf(g, k))
    ensures forall k | k in ks[..i + 1] :: AllAware(or, GroupOf(g, k))
  {
    assert ks[..i + 1] == ks[..i] + [ks[i]];
  }

  /** One more group adds its own tally. */
  lemma TallyOverStep(or: Oracles, now: int, g: Grouping<string>, ks: seq<string>, i: nat)
    requires i < |ks|
    ensures TallyOver(or, now, g, ks[..i + 1]) == Plus(TallyOver(or, now, g, ks[..i]), GroupTally(or, now, GroupOf(g, ks[i])))
  {
    assert ks[..i + 1][..i] == ks[..i];
  }

  // ---------------------------------------------------------------- properties

  /** The flag the inner loop computes from adjacent pairs is exactly "not non-decreasing". */
  lemma {:induction false} HasDropIffUnsorted(ts: seq<DateTime>)
    ensures HasDrop(ts) <==> !NonDecreasing(ts)
  {
    if ts != [] {
      var ts' := ts[..|ts| - 1];
      HasDropIffUnsorted(ts');
      if !HasDrop(ts) {
        assert NonDecreasing(ts') && (|ts| >= 2 ==> ts[|ts| - 2].micros <= ts[|ts| - 1].micros);
        forall i, j | 0 <= i < j < |ts| ensures ts[i].micros <= ts[j].micros {
          if j < |ts| - 1 {
            assert ts'[i] == ts[i] && ts'[j] == ts[j];
          } else if i < |ts| - 2 {
            assert ts'[i] == ts[i] && ts'[|ts| - 2] == ts[|ts| - 2];
          }
        }
      } else if HasDrop(ts') {
        var i, j :| 0 <= i < j < |ts'| && ts'[i].micros > ts'[j].micros;
        assert ts[i] == ts'[i] && ts[j] == ts'[j];
      }
    }
  }

  /** The message predicate "the timestamp parses and satisfies `q`". */
  function ParsesTo(or: Oracles, q: DateTime -> bool): Message -> bool {
    (m: Message) => ParseTimestamp(or, m).Some? && q(ParseTimestamp(or, m).value)
  }

  lemma {:induction false} CountParsed(or: Oracles, arr: seq<Message>, q: DateTime -> bool)
    ensures Count(ParsedIn(or, arr), q) == Count(arr, ParsesTo(or, q))
  {
    if arr != [] {
      var arr' := arr[..|arr| - 1];
      var m := arr[|arr| - 1];
      CountParsed(or, arr', q);
      assert arr == arr' + [m];
      FlatMapSnoc(arr', m, ParsedOf(or));
      if ParseTimestamp(or, m).Some? {
        CountSnoc(ParsedIn(or, arr'), ParseTimestamp(or, m).value, q);
      } else {
        assert ParsedIn(or, arr) == ParsedIn(or, arr');
      }
    }
  }

  /** The groups whose parsed timestamps go backwards. */
  function Unordered(or: Oracles, g: Grouping<string>): string -> bool {
    k => HasDrop(ParsedIn(or, GroupOf(g, k)))
  }

  /** The message fields of the tally over `ks` are counts over the groups of `ks`. */
  lemma {:induction false} TallyOverCounts(or: Oracles, now: int, g: Grouping<string>, ks: seq<string>)
    ensures TallyOver(or, now, g, ks).unparsable == CountInGroups(g, ks, Unparses(or))
    ensures TallyOver(or, now, g, ks).future == CountInGroups(g, ks, ParsesTo(or, IsFuture(now)))
    ensures TallyOver(or, now, g, ks).farPast == CountInGroups(g, ks, ParsesTo(or, IsFarPast))
  {
    if ks != [] {
      var ks', k := ks[..|ks| - 1], ks[|ks| - 1];
      var arr := GroupOf(g, k);
      assert TallyOver(or, now, g, ks) == Plus(TallyOver(or, now, g, ks'), GroupTally(or, now, arr));
      TallyOverCounts(or, now, g, ks');
      CountParsed(or, arr, IsFuture(now));
      CountParsed(or, arr, IsFarPast);
    }
  }

  /** The user field of the tally over `ks` counts the groups of `ks` that go backwards. */
  lemma {:induction false} TallyOverUsers(or: Oracles, now: int, g: Grouping<string>, ks: seq<string>)
    ensures TallyOver(or, now, g, ks).outOfOrderUsers == Count(ks, Unordered(or, g))
  {
    if ks != [] {
      TallyOverUsers(or, now, g, ks[..|ks| - 1]);
    }
  }

  /** Over the groups of the audit, `unparsable` counts the messages whose timestamp does not parse,
      `far_future_gt_1y` and `far_past_lt_2010` count messages by their own parsed timestamp, the
      unparsable plus the parsed timestamps are all the messages, and at most every group is out of
      order. */
  lemma TallySpec(or: Oracles, now: int, ms: seq<Message>)
    ensures var g := GroupSpec(ms, UidOf);
      var t := TallyOver(or, now, g, g.keys);
      && t.unparsable == Count(ms, Unparses(or))
      && t.unparsable + Count(ms, Parses(or)) == |ms|
      && t.future == Count(ms, ParsesTo(or, IsFuture(now)))
      && t.farPast == Count(ms, ParsesTo(or, IsFarPast))
      && t.outOfOrderUsers == Count(g.keys, Unordered(or, g))
      && t.outOfOrderUsers <= |g.keys|
  {
    var g := GroupSpec(ms, UidOf);
    TallyOverCounts(or, now, g, g.keys);
    TallyOverUsers(or, now, g, g.keys);
    GroupPartition(ms, UidOf, Unparses(or));
    GroupPartition(ms, UidOf, ParsesTo(or, IsFuture(now)));
    GroupPartition(ms, UidOf, ParsesTo(or, IsFarPast));
    CountComplement(ms, Parses(or), Unparses(or));
  }
}
