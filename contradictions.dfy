/** The contradiction detectors of the audit: a user who writes both "prefer aisle" and "prefer
    window", and a user whose messages put more than one city on the same date. */
module Contradictions {
  import opened Wrappers
  import opened Seqs
  import opened Text
  import opened LexOrder
  import opened Sorting
  import opened Normalise
  import opened Dicts
  import opened Records
  import opened Grouping

  // ---------------------------------------------------------------- cities

  /** The gazetteer `city_list`. The source holds it in a set, whose iteration order is not fixed;
      this list fixes one order, and every use below only depends on which cities are found. */
  function CityList(): seq<string> {
    ["new york", "nyc", "paris", "london", "tokyo", "milan", "monaco", "bangkok", "singapore",
     "rome", "berlin", "barcelona", "dubai", "sydney", "los angeles", "san francisco", "serengeti",
     "monte carlo", "venice", "prague", "vienna", "amsterdam", "seoul", "hong kong"]
  }

  /** `c in t`. */
  function ContainedIn(t: string): string -> bool {
    c => Contains(t, c)
  }

  /** `c in _norm(text)`. */
  function CityIn(text: string): string -> bool {
    ContainedIn(Norm(text))
  }

  /** What `extract_cities(text)` finds. */
  function CitiesIn(text: string): seq<string> {
    Filter(CityList(), CityIn(text))
  }

  /** `extract_cities`: the gazetteer entries occurring in `_norm(text)`. */
  method ExtractCities(text: string) returns (hits: seq<string>)
    ensures hits == CitiesIn(text)
  {
    hits := FindCities(Norm(text));
  }

  /** The loop of `extract_cities` over the gazetteer, on the normalised text `t`. */
  method FindCities(t: string) returns (hits: seq<string>)
    ensures hits == Filter(CityList(), ContainedIn(t))
  {
    var cs := CityList();
    hits := [];
    var i := 0;
    assert cs[..0] == [];
    while i < |cs|
      invariant i <= |cs|
      invariant hits == Filter(cs[..i], ContainedIn(t))
    {
      FilterSnoc(cs, i, ContainedIn(t));
      if Contains(t, cs[i]) {
        hits := hits + [cs[i]];
      }
      i := i + 1;
    }
    assert cs[..i] == cs;
  }

  lemma CitiesInMember(text: string, c: string)
    ensures c in CitiesIn(text) <==> c in CityList() && Contains(Norm(text), c)
  {
    FilterSound(CityList(), CityIn(text));
    if c in CityList() && Contains(Norm(text), c) {
      FilterComplete(CityList(), CityIn(text), c);
    }
  }

  // ---------------------------------------------------------------- dates

  /** What one `findall` result contributes: nothing for an empty piece or one the fuzzy parser
      rejects, else the ISO date it parses to. */
  function DateOfPiece(or: Oracles): string -> seq<string> {
    piece => if piece == "" then [] else match or.fuzzyDate(piece) case None => [] case Some(d) => [d]
  }

  /** The indices of the three entries of `date_patterns`. */
  function Patterns(): seq<nat> {
    [0, 1, 2]
  }

  function PatternDates(or: Oracles, text: string): nat -> seq<string> {
    (k: nat) => FlatMap(or.dateMatches(k, text), DateOfPiece(or))
  }

  /** `found` after both loops of `extract_dates`, before de-duplication. */
  function FoundDates(or: Oracles, text: string): seq<string> {
    FlatMap(Patterns(), PatternDates(or, text))
  }

  /** What `extract_dates(text)` returns. */
  function DatesOf(or: Oracles, text: string): seq<string> {
    Dedup(FoundDates(or, text))
  }

  /** The inner loop of `extract_dates` over one pattern's matches. */
  method ParsePieces(or: Oracles, pieces: seq<string>) returns (found: seq<string>)
    ensures found == FlatMap(pieces, DateOfPiece(or))
  {
    found := [];
    var j := 0;
    while j < |pieces|
      invariant j <= |pieces|
      invariant found == FlatMap(pieces[..j], DateOfPiece(or))
    {
      var piece := pieces[j];
      FlatMapStep(pieces, j, DateOfPiece(or));
      if piece != "" {
        var parsed := or.fuzzyDate(piece);
        if parsed.Some? {
          found := found + [parsed.value];
        }
      }
      j := j + 1;
    }
    assert pieces[..j] == pieces;
  }

  /** `extract_dates`: the distinct dates found by the three patterns, in order of first finding. */
  method ExtractDates(or: Oracles, text: string) returns (dates: seq<string>)
    ensures dates == DatesOf(or, text)
  {
    var found := [];
    var ks := Patterns();
    var i := 0;
    while i < |ks|
      invariant i <= |ks|
      invariant found == FlatMap(ks[..i], PatternDates(or, text))
    {
      var more := ParsePieces(or, or.dateMatches(ks[i], text));
      FlatMapStep(ks, i, PatternDates(or, text));
      found := found + more;
      i := i + 1;
    }
    assert ks[..i] == ks;
    dates := Dedup(found);
  }

  // ---------------------------------------------------------------- one user

  /** Some message of `arr`, lower-cased, contains `phrase` (`phrase in txt`). */
  predicate Mentions(arr: seq<Message>, phrase: string) {
    exists m | m in arr :: Contains(Lower(TextOf(m)), phrase)
  }

  lemma MentionsSnoc(arr: seq<Message>, i: nat, phrase: string)
    requires i < |arr|
    ensures Mentions(arr[..i + 1], phrase) == (Mentions(arr[..i], phrase) || Contains(Lower(TextOf(arr[i])), phrase))
  {
    assert arr[..i + 1] == arr[..i] + [arr[i]];
  }

  const Aisle: string := "prefer aisle"
  const Window: string := "prefer window"

  function CityPairs(d: string, cs: seq<string>): seq<(string, string)> {
    seq(|cs|, j requires 0 <= j < |cs| => (d, cs[j]))
  }

  function Product(ds: seq<string>, cs: seq<string>): seq<(string, string)> {
    FlatMap(ds, d => CityPairs(d, cs))
  }

  /** What one message adds to `date_to_cities`: every found date with every found city. */
  function DateCityPairs(or: Oracles): Message -> seq<(string, string)> {
    m => var txt := Lower(TextOf(m)); Product(DatesOf(or, txt), CitiesIn(txt))
  }

  function DateTable(or: Oracles, arr: seq<Message>): SetDict<string, string> {
    AddAll(EmptySetDict(), FlatMap(arr, DateCityPairs(or)))
  }

  /** `for c in cities: date_to_cities[d].add(c)`. */
  method AddCities(t0: SetDict<string, string>, d: string, cs: seq<string>) returns (t: SetDict<string, string>)
    ensures t == AddAll(t0, CityPairs(d, cs))
  {
    t := t0;
    var j := 0;
    while j < |cs|
      invariant j <= |cs|
      invariant t == AddAll(t0, CityPairs(d, cs[..j]))
    {
      assert CityPairs(d, cs[..j + 1]) == CityPairs(d, cs[..j]) + [(d, cs[j])];
      AddAllSnoc(t0, CityPairs(d, cs[..j]), d, cs[j]);
      t := Add(t, d, cs[j]);
      j := j + 1;
    }
    assert cs[..j] == cs;
  }

  /** `for d in dts: for c in cities: date_to_cities[d].add(c)`. */
  method AddDateCities(t0: SetDict<string, string>, ds: seq<string>, cs: seq<string>) returns (t: SetDict<string, string>)
    ensures t == AddAll(t0, Product(ds, cs))
  {
    t := t0;
    var i := 0;
    while i < |ds|
      invariant i <= |ds|
      invariant t == AddAll(t0, Product(ds[..i], cs))
    {
      FlatMapStep(ds, i, d => CityPairs(d, cs));
      AddAllAppend(t0, Product(ds[..i], cs), CityPairs(ds[i], cs));
      t := AddCities(t, ds[i], cs);
      i := i + 1;
    }
    assert ds[..i] == ds;
  }

  /** What scanning `arr[i]` adds to `date_to_cities`. */
  lemma TableStep(or: Oracles, arr: seq<Message>, i: nat)
    requires i < |arr|
    ensures AddAll(EmptySetDict(), FlatMap(arr[..i + 1], DateCityPairs(or)))
         == AddAll(AddAll(EmptySetDict(), FlatMap(arr[..i], DateCityPairs(or))), DateCityPairs(or)(arr[i]))
  {
    FlatMapStep(arr, i, DateCityPairs(or));
    AddAllAppend(EmptySetDict(), FlatMap(arr[..i], DateCityPairs(or)), DateCityPairs(or)(arr[i]));
  }

  /** The loop over one user's messages: the two seat flags and `date_to_cities`. */
  method ScanUser(or: Oracles, arr: seq<Message>) returns (aisle: bool, window: bool, table: SetDict<string, string>)
    ensures aisle == Mentions(arr, Aisle)
    ensures window == Mentions(arr, Window)
    ensures table == DateTable(or, arr)
  {
    aisle, window := false, false;
    table := EmptySetDict();
    var i := 0;
    while i < |arr|
      invariant i <= |arr|
      invariant aisle == Mentions(arr[..i], Aisle)
      invariant window == Mentions(arr[..i], Window)
      invariant table == AddAll(EmptySetDict(), FlatMap(arr[..i], DateCityPairs(or)))
    {
      var m := arr[i];
      var txt := Lower(TextOf(m));
      MentionsSnoc(arr, i, Aisle);
      MentionsSnoc(arr, i, Window);
      TableStep(or, arr, i);
      var hasAisle, hasWindow;
      hasAisle, hasWindow, table := ScanText(or, txt, table);
      aisle := aisle || hasAisle;
      window := window || hasWindow;
      i := i + 1;
    }
    assert arr[..i] == arr;
  }

  /** The body of the loop for one lower-cased text. */
  method ScanText(or: Oracles, txt: string, t0: SetDict<string, string>)
    returns (hasAisle: bool, hasWindow: bool, t: SetDict<string, string>)
    ensures hasAisle == Contains(txt, Aisle)
    ensures hasWindow == Contains(txt, Window)
    ensures t == AddAll(t0, Product(DatesOf(or, txt), CitiesIn(txt)))
  {
    hasAisle := Contains(txt, Aisle);
    hasWindow := Contains(txt, Window);
    t := t0;
    var dts := ExtractDates(or, txt);
    if |dts| > 0 {
      var cities := ExtractCities(txt);
      t := AddDateCities(t, dts, cities);
    } else {
      assert Product(dts, CitiesIn(txt)) == [];
    }
  }

  // ---------------------------------------------------------------- all users

  datatype Contradiction = SeatPreferenceFlip(userId: string)

  datatype SameDay = SameDay(userId: string, date: string, cities: seq<string>)

  /** What user `u`, with messages `arr`, adds to `contradictions`. */
  function FlipFor(u: string, arr: seq<Message>): seq<Contradiction> {
    if Mentions(arr, Aisle) && Mentions(arr, Window) then [SeatPreferenceFlip(u)] else []
  }

  function FlipOf(g: Grouping<string>): string -> seq<Contradiction> {
    u => FlipFor(u, GroupOf(g, u))
  }

  /** What date `d` of `date_to_cities` adds to `same_day_multi_city`. */
  function SameDayRow(u: string, t: SetDict<string, string>): string -> seq<SameDay> {
    d => if |SetOf(t, d)| > 1 then [SameDay(u, d, SortStrings(SetOf(t, d)))] else []
  }

  /** What user `u`, with messages `arr`, adds to `same_day_multi_city`. */
  function SameDayFor(or: Oracles, u: string, arr: seq<Message>): seq<SameDay> {
    var t := DateTable(or, arr); FlatMap(t.keys, SameDayRow(u, t))
  }

  function SameDayOf(or: Oracles, g: Grouping<string>): string -> seq<SameDay> {
    u => SameDayFor(or, u, GroupOf(g, u))
  }

  /** `for d, cities in date_to_cities.items(): if len(cities) > 1: ...append(...)`. */
  method SameDayRows(u: string, t: SetDict<string, string>) returns (rows: seq<SameDay>)
    ensures rows == FlatMap(t.keys, SameDayRow(u, t))
  {
    rows := [];
    var i := 0;
    while i < |t.keys|
      invariant i <= |t.keys|
      invariant rows == FlatMap(t.keys[..i], SameDayRow(u, t))
    {
      var d := t.keys[i];
      FlatMapStep(t.keys, i, SameDayRow(u, t));
      var cities := SetOf(t, d);
      if |cities| > 1 {
        rows := rows + [SameDay(u, d, SortStrings(cities))];
      }
      i := i + 1;
    }
    assert t.keys[..i] == t.keys;
  }

  /** The body of the loop over users, for user `u` with messages `arr`. */
  method UserContradictions(or: Oracles, u: string, arr: seq<Message>) returns (flip: seq<Contradiction>, rows: seq<SameDay>)
    ensures flip == FlipFor(u, arr)
    ensures rows == SameDayFor(or, u, arr)
  {
    var aisle, window, table := ScanUser(or, arr);
    flip := if aisle && window then [SeatPreferenceFlip(u)] else [];
    rows := SameDayRows(u, table);
  }

  lemma UserStep(or: Oracles, g: Grouping<string>, i: nat)
    requires i < |g.keys|
    ensures FlatMap(g.keys[..i + 1], FlipOf(g)) == FlatMap(g.keys[..i], FlipOf(g)) + FlipOf(g)(g.keys[i])
    ensures FlatMap(g.keys[..i + 1], SameDayOf(or, g)) == FlatMap(g.keys[..i], SameDayOf(or, g)) + SameDayOf(or, g)(g.keys[i])
  {
    FlatMapStep(g.keys, i, FlipOf(g));
    FlatMapStep(g.keys, i, SameDayOf(or, g));
  }

  /** The loop over all users of both detectors. */
  method FindContradictions(or: Oracles, g: Grouping<string>) returns (flips: seq<Contradiction>, sameDay: seq<SameDay>)
    ensures flips == FlatMap(g.keys, FlipOf(g))
    ensures sameDay == FlatMap(g.keys, SameDayOf(or, g))
  {
    flips, sameDay := [], [];
    var i := 0;
    while i < |g.keys|
      invariant i <= |g.keys|
      invariant flips == FlatMap(g.keys[..i], FlipOf(g))
      invariant sameDay == FlatMap(g.keys[..i], SameDayOf(or, g))
    {
      var u := g.keys[i];
      UserStep(or, g, i);
      var flip, rows := UserContradictions(or, u, GroupOf(g, u));
      flips := flips + flip;
      sameDay := sameDay + rows;
      i := i + 1;
    }
    assert g.keys[..i] == g.keys;
  }

  // ---------------------------------------------------------------- properties

  /** The pairs of `Product(ds, cs)` are exactly the date-city combinations. */
  lemma ProductMember(ds: seq<string>, cs: seq<string>, d: string, c: string)
    ensures (d, c) in Product(ds, cs) <==> d in ds && c in cs
  {
    FlatMapMember(ds, d' => CityPairs(d', cs), (d, c));
    if d in ds && c in cs {
      var j :| 0 <= j < |cs| && cs[j] == c;
      assert CityPairs(d, cs)[j] == (d, c);
    }
  }

  /** The distinct cities that messages of `arr` name in a message that also names date `d`. */
  function CitiesOnDate(or: Oracles, arr: seq<Message>, d: string): set<string> {
    set m, c | m in arr && d in DatesOf(or, Lower(TextOf(m))) && c in CitiesIn(Lower(TextOf(m))) :: c
  }

  /** A message pairs each of its dates with each of its cities. */
  lemma PairOfMessage(or: Oracles, m: Message, d: string, c: string)
    ensures (d, c) in DateCityPairs(or)(m) <==> d in DatesOf(or, Lower(TextOf(m))) && c in CitiesIn(Lower(TextOf(m)))
  {
    var txt := Lower(TextOf(m));
    ProductMember(DatesOf(or, txt), CitiesIn(txt), d, c);
  }

  /** `date_to_cities[d]` holds exactly the cities named together with date `d`, each once. */
  lemma DateTableSpec(or: Oracles, arr: seq<Message>, d: string)
    ensures d in DateTable(or, arr).keys <==> CitiesOnDate(or, arr, d) != {}
    ensures |SetOf(DateTable(or, arr), d)| == |CitiesOnDate(or, arr, d)|
    ensures forall c :: c in SetOf(DateTable(or, arr), d) <==> c in CitiesOnDate(or, arr, d)
    ensures Distinct(SetOf(DateTable(or, arr), d))
  {
    var vs := CitiesOnDate(or, arr, d);
    forall c ensures c in vs <==> exists m | m in arr :: (d, c) in DateCityPairs(or)(m) {
      forall m | m in arr ensures (d, c) in DateCityPairs(or)(m) <==> d in DatesOf(or, Lower(TextOf(m))) && c in CitiesIn(Lower(TextOf(m))) {
        PairOfMessage(or, m, d, c);
      }
    }
    SetDictOfScan(arr, DateCityPairs(or), d, vs);
    SetDictSets(FlatMap(arr, DateCityPairs(or)));
  }

  /** Some message of user `u` in the corpus mentions `phrase` exactly when its group does. */
  lemma MentionsGroup(ms: seq<Message>, u: string, phrase: string)
    ensures Mentions(GroupOf(GroupSpec(ms, UidOf), u), phrase) <==>
      exists m | m in ms :: UidOf(m) == u && Contains(Lower(TextOf(m)), phrase)
  {
    forall m ensures m in GroupOf(GroupSpec(ms, UidOf), u) <==> m in ms && UidOf(m) == u {
      GroupMembership(ms, UidOf, m, u);
    }
  }

  lemma FlipMember(g: Grouping<string>, u: string)
    ensures SeatPreferenceFlip(u) in FlatMap(g.keys, FlipOf(g)) <==>
      u in g.keys && Mentions(GroupOf(g, u), Aisle) && Mentions(GroupOf(g, u), Window)
  {
    FlatMapMember(g.keys, FlipOf(g), SeatPreferenceFlip(u));
  }

  /** A user is reported as a seat-preference flip iff some message of that user contains "prefer
      aisle" and some (possibly other) message contains "prefer window", each after lower-casing. */
  lemma FlipSpec(ms: seq<Message>, u: string)
    ensures var g := GroupSpec(ms, UidOf);
      SeatPreferenceFlip(u) in FlatMap(g.keys, FlipOf(g)) <==>
        (exists m | m in ms :: UidOf(m) == u && Contains(Lower(TextOf(m)), Aisle)) &&
        (exists m | m in ms :: UidOf(m) == u && Contains(Lower(TextOf(m)), Window))
  {
    var g := GroupSpec(ms, UidOf);
    FlipMember(g, u);
    MentionsGroup(ms, u, Aisle);
    MentionsGroup(ms, u, Window);
    if u !in g.keys {
      assert GroupOf(g, u) == [];
    }
  }

  lemma RowOfUser(u: string, t: SetDict<string, string>, r: SameDay)
    ensures r in FlatMap(t.keys, SameDayRow(u, t)) <==>
      r.userId == u && r.date in t.keys && |SetOf(t, r.date)| > 1 && r.cities == SortStrings(SetOf(t, r.date))
  {
    FlatMapMember(t.keys, SameDayRow(u, t), r);
  }

  /** The rows of `same_day_multi_city`, one per user and date with more than one city. */
  lemma SameDayMember(or: Oracles, g: Grouping<string>, r: SameDay)
    ensures var t := DateTable(or, GroupOf(g, r.userId));
      r in FlatMap(g.keys, SameDayOf(or, g)) <==>
        r.userId in g.keys && r.date in t.keys && |SetOf(t, r.date)| > 1 && r.cities == SortStrings(SetOf(t, r.date))
  {
    FlatMapMember(g.keys, SameDayOf(or, g), r);
    forall u' ensures r in SameDayOf(or, g)(u') <==> r in FlatMap(DateTable(or, GroupOf(g, u')).keys, SameDayRow(u', DateTable(or, GroupOf(g, u')))) {
    }
    forall u' ensures r in SameDayOf(or, g)(u') ==> u' == r.userId {
      RowOfUser(u', DateTable(or, GroupOf(g, u')), r);
    }
    RowOfUser(r.userId, DateTable(or, GroupOf(g, r.userId)), r);
  }

  lemma DateTableSize(or: Oracles, arr: seq<Message>, d: string)
    ensures |SetOf(DateTable(or, arr), d)| == |CitiesOnDate(or, arr, d)|
    ensures |SetOf(DateTable(or, arr), d)| > 0 ==> d in DateTable(or, arr).keys
  {
    DateTableSpec(or, arr, d);
  }

  /** The rows of `same_day_multi_city` for user `u` and date `d`. */
  predicate Reported(or: Oracles, g: Grouping<string>, u: string, d: string) {
    exists r | r in FlatMap(g.keys, SameDayOf(or, g)) :: r.userId == u && r.date == d
  }

  /** A (user, date) pair is reported iff the user is in the corpus and named more than one
      distinct city alongside that date. */
  lemma SameDayReported(or: Oracles, g: Grouping<string>, u: string, d: string)
    ensures Reported(or, g, u, d) <==> u in g.keys && |CitiesOnDate(or, GroupOf(g, u), d)| > 1
  {
    var t := DateTable(or, GroupOf(g, u));
    DateTableSize(or, GroupOf(g, u), d);
    if Reported(or, g, u, d) {
      var r :| r in FlatMap(g.keys, SameDayOf(or, g)) && r.userId == u && r.date == d;
      SameDayMember(or, g, r);
    }
    if u in g.keys && |SetOf(t, d)| > 1 {
      var r := SameDay(u, d, SortStrings(SetOf(t, d)));
      SameDayMember(or, g, r);
      assert r in FlatMap(g.keys, SameDayOf(or, g)) && r.userId == u && r.date == d;
    }
    if Reported(or, g, u, d) {
      assert u in g.keys && |SetOf(t, d)| > 1;
    } else {
      assert !(u in g.keys && |SetOf(t, d)| > 1);
    }
  }

  /** A reported row lists the cities named alongside its date, sorted and each once. */
  lemma SameDayCities(or: Oracles, g: Grouping<string>, r: SameDay)
    requires r in FlatMap(g.keys, SameDayOf(or, g))
    ensures |r.cities| > 1
    ensures Distinct(r.cities)
    ensures forall i, j | 0 <= i < j < |r.cities| :: LexLe(r.cities[i], r.cities[j])
    ensures forall c :: c in r.cities <==> c in CitiesOnDate(or, GroupOf(g, r.userId), r.date)
  {
    var t := DateTable(or, GroupOf(g, r.userId));
    SameDayMember(or, g, r);
    DateTableSpec(or, GroupOf(g, r.userId), r.date);
    SortStringsOfSet(SetOf(t, r.date));
  }
}
