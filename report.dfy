/** The report that `analyze` returns: every detector run over the corpus, each list cut to the
    size the report shows. `analyze` raises, and so returns no report, when a timestamp parses to a
    naive `datetime`, because comparing it with the aware far-future bound fails. */
module Report {
  import opened Wrappers
  import opened Seqs
  import opened Records
  import opened Dicts
  import opened Entries
  import opened Grouping
  import N = NameChecks
  import E = EncodingChecks
  import T = TimestampChecks
  import D = DuplicateChecks
  import P = PiiChecks
  import S = MessageStats
  import I = Integrity
  import R = PiiReuse
  import C = Contradictions
  import Cad = Cadence
  import L = LanguageShift

  // ---------------------------------------------------------------- sections

  datatype Totals = Totals(messages: nat, users: nat, avgLength: real, minLength: nat, maxLength: nat)

  datatype NamesSection = NamesSection(
    multiNameCount: nat,
    multiNameExamples: seq<N.MultiName>,
    fullCollisionCount: nat,
    fullCollisionExamples: seq<N.Collision>,
    firstCollisionsTop: seq<Entry>)

  datatype EncodingSection = EncodingSection(badNameCount: nat, badNameExamples: seq<string>, badMessageSamples: seq<E.Sample>)

  datatype DuplicatesSection = DuplicatesSection(
    perUser: seq<D.UserDuplicates>,
    crossUser: seq<Entry>,
    duplicateIdCount: nat,
    duplicateIdExamples: seq<string>)

  datatype PiiSection = PiiSection(phoneLike: seq<P.Hit>, emailLike: seq<P.Hit>, cardLike: seq<P.Hit>)

  datatype IntegritySection = IntegritySection(invalidUserIdCount: nat, invalidMessageIdCount: nat, missing: I.MissingFields)

  datatype ReuseSection = ReuseSection(sharedPhones: seq<Entry>, sharedEmails: seq<Entry>)

  datatype ContradictionsSection = ContradictionsSection(seatFlips: seq<C.Contradiction>, sameDayMultiCity: seq<C.SameDay>)

  /** The dictionary `analyze` returns. */
  datatype Report = Report(
    totals: Totals,
    names: NamesSection,
    encoding: EncodingSection,
    timestamps: T.Tally,
    duplicates: DuplicatesSection,
    pii: PiiSection,
    topWords: seq<Entry>,
    integrity: IntegritySection,
    reuse: ReuseSection,
    contradictions: ContradictionsSection,
    cadence: seq<Cad.CadenceRow>,
    language: seq<L.ShiftRow>)

  // ---------------------------------------------------------------- the report, section by section

  /** `by_user`, keyed by `m.get("user_id", "")`. */
  function ByUser(ms: seq<Message>): Grouping<string> {
    GroupSpec(ms, UidOf)
  }

  /** No timestamp of the corpus parses to a naive `datetime`, so the timestamp loop does not raise. */
  predicate TimestampsComparable(or: Oracles, ms: seq<Message>) {
    forall k | k in ByUser(ms).keys :: T.AllAware(or, GroupOf(ByUser(ms), k))
  }

  function TotalsOf(ms: seq<Message>): Totals {
    var ls := S.Lengths(ms);
    Totals(|ms|, |ByUser(ms).keys|, S.AvgLen(ls), S.MinLen(ls), S.MaxLen(ls))
  }

  function NamesOf(ms: seq<Message>): NamesSection {
    var multi := N.MultiNameUsers(ByUser(ms));
    var full := N.FullCollisions(AddAll(EmptySetDict(), FlatMap(ms, N.FullPair)));
    var first := N.FirstCollisions(AddAll(EmptySetDict(), FlatMap(ms, N.FirstPair)));
    NamesSection(|multi|, Take(multi, 10), |full|, Take(full, 10), Take(first, 20))
  }

  function EncodingOf(ms: seq<Message>): EncodingSection {
    var bad := E.BadNames(ms);
    EncodingSection(|bad|, Take(bad, 10), Take(FlatMap(ms, E.BadSample), E.SampleCap))
  }

  function DuplicatesOf(ms: seq<Message>): DuplicatesSection {
    var dupIds := D.DupIds(BumpAll(EmptyCountDict(), D.IdKeys(ms)));
    DuplicatesSection(
      Take(FlatMap(ByUser(ms).keys, D.PerUser(ByUser(ms))), 10),
      D.CrossUserTexts(AddAll(EmptySetDict(), FlatMap(ms, D.TextUid))),
      |dupIds|,
      Take(dupIds, 20))
  }

  function PiiOf(or: Oracles, ms: seq<Message>): PiiSection {
    PiiSection(Take(FlatMap(ms, P.PhoneHit(or)), 10), Take(FlatMap(ms, P.EmailHit(or)), 10), Take(FlatMap(ms, P.CardHit(or)), 5))
  }

  function IntegrityOf(ms: seq<Message>): IntegritySection {
    IntegritySection(|I.InvalidUserIds(ms)|, |I.InvalidMessageIds(ms)|, I.MissingFieldsOf(ms))
  }

  function ReuseOf(or: Oracles, ms: seq<Message>): ReuseSection {
    ReuseSection(
      Take(R.SharedPhones(AddAll(EmptySetDict(), FlatMap(ms, R.PhonePairs(or)))), 20),
      Take(R.SharedEmails(AddAll(EmptySetDict(), FlatMap(ms, R.EmailPairs(or)))), 20))
  }

  function ContradictionsOf(or: Oracles, ms: seq<Message>): ContradictionsSection {
    var g := ByUser(ms);
    ContradictionsSection(Take(FlatMap(g.keys, C.FlipOf(g)), 50), Take(FlatMap(g.keys, C.SameDayOf(or, g)), 50))
  }

  /** `analyze(messages)` with `datetime.now` as `now` (microseconds) and the regular expressions and
      parsers in `or`; None where it raises. Every list is cut to the size the report shows. */
  function ReportOf(or: Oracles, now: int, ms: seq<Message>): (r: Option<Report>)
    ensures r.Some? <==> TimestampsComparable(or, ms)
    ensures r.Some? ==>
      && r.value.totals.messages == |ms|
      && r.value.totals.users <= r.value.totals.messages
      && |r.value.names.multiNameExamples| <= 10 && |r.value.names.fullCollisionExamples| <= 10
      && |r.value.names.firstCollisionsTop| <= 20
      && |r.value.encoding.badNameExamples| <= 10 && |r.value.encoding.badMessageSamples| <= 50
      && |r.value.duplicates.perUser| <= 10 && |r.value.duplicates.crossUser| <= 20
      && |r.value.duplicates.duplicateIdExamples| <= 20
      && |r.value.pii.phoneLike| <= 10 && |r.value.pii.emailLike| <= 10 && |r.value.pii.cardLike| <= 5
      && |r.value.topWords| <= 25
      && |r.value.reuse.sharedPhones| <= 20 && |r.value.reuse.sharedEmails| <= 20
      && |r.value.contradictions.seatFlips| <= 50 && |r.value.contradictions.sameDayMultiCity| <= 50
      && |r.value.cadence| <= 50 && |r.value.language| <= 50
  {
    if !TimestampsComparable(or, ms) then None
    else
      var g := ByUser(ms);
      Some(Report(
        TotalsOf(ms),
        NamesOf(ms),
        EncodingOf(ms),
        T.TallyOver(or, now, g, g.keys),
        DuplicatesOf(ms),
        PiiOf(or, ms),
        S.TopWords(BumpAll(EmptyCountDict(), S.AllWords(ms))),
        IntegrityOf(ms),
        ReuseOf(or, ms),
        ContradictionsOf(or, ms),
        Take(Cad.SuspiciousCadence(or, g), 50),
        Take(L.ScriptShifts(g), 50)))
  }

  /** The names section, from the grouping `g` of `ms`. */
  method NamesSectionOf(ms: seq<Message>, g: Grouping<string>) returns (sec: NamesSection)
    requires g == ByUser(ms)
    ensures sec == NamesOf(ms)
  {
    var multi := N.MultiNameUsers(g);
    var fullTable, firstTable := N.NameTables(ms);
    var full := N.FullCollisions(fullTable);
    var first := N.FirstCollisions(firstTable);
    sec := NamesSection(|multi|, Take(multi, 10), |full|, Take(full, 10), Take(first, 20));
  }

  method EncodingSectionOf(ms: seq<Message>) returns (sec: EncodingSection)
    ensures sec == EncodingOf(ms)
  {
    var bad := E.BadNames(ms);
    var samples := E.BadMessageSamples(ms);
    sec := EncodingSection(|bad|, Take(bad, 10), samples);
  }

  method DuplicatesSectionOf(ms: seq<Message>, g: Grouping<string>) returns (sec: DuplicatesSection)
    requires g == ByUser(ms)
    ensures sec == DuplicatesOf(ms)
  {
    var perUser := D.PerUserDuplicates(g);
    var textTable := D.TextToUids(ms);
    var idCounts := D.IdCounts(ms);
    var dupIds := D.DupIds(idCounts);
    sec := DuplicatesSection(Take(perUser, 10), D.CrossUserTexts(textTable), |dupIds|, Take(dupIds, 20));
  }

  method PiiSectionOf(or: Oracles, ms: seq<Message>) returns (sec: PiiSection)
    ensures sec == PiiOf(or, ms)
  {
    var phones, emails, cards := P.PiiScan(or, ms);
    sec := PiiSection(Take(phones, 10), Take(emails, 10), Take(cards, 5));
  }

  method ReuseSectionOf(or: Oracles, ms: seq<Message>) returns (sec: ReuseSection)
    ensures sec == ReuseOf(or, ms)
  {
    var phoneTable, emailTable := R.ReuseTables(or, ms);
    sec := ReuseSection(Take(R.SharedPhones(phoneTable), 20), Take(R.SharedEmails(emailTable), 20));
  }

  method ContradictionsSectionOf(or: Oracles, ms: seq<Message>, g: Grouping<string>) returns (sec: ContradictionsSection)
    requires g == ByUser(ms)
    ensures sec == ContradictionsOf(or, ms)
  {
    var flips, sameDay := C.FindContradictions(or, g);
    sec := ContradictionsSection(Take(flips, 50), Take(sameDay, 50));
  }

  /** `analyze(messages)`: the detectors in the order the audit runs them. */
  method Analyze(or: Oracles, now: int, ms: seq<Message>) returns (r: Option<Report>)
    ensures r == ReportOf(or, now, ms)
  {
    var g := GroupBy(ms, UidOf);
    var ls := S.Lengths(ms);
    var totals := Totals(|ms|, |g.keys|, S.AvgLen(ls), S.MinLen(ls), S.MaxLen(ls));
    assert totals == TotalsOf(ms);
    var names := NamesSectionOf(ms, g);
    var encoding := EncodingSectionOf(ms);
    var tally, ok := T.TimestampTally(or, now, g);
    if !ok {
      assert !TimestampsComparable(or, ms);
      return None;
    }
    assert TimestampsComparable(or, ms);
    var duplicates, pii, topWords, integrity, reuse, contradictions, cadence, shifts := RestOf(or, ms, g);
    r := Some(Report(totals, names, encoding, tally, duplicates, pii, topWords, integrity,
                     reuse, contradictions, cadence, shifts));
  }

  /** The sections after the timestamp loop, which only run when it does not raise. */
  method RestOf(or: Oracles, ms: seq<Message>, g: Grouping<string>)
    returns (duplicates: DuplicatesSection, pii: PiiSection, topWords: seq<Entry>, integrity: IntegritySection,
             reuse: ReuseSection, contradictions: ContradictionsSection, cadence: seq<Cad.CadenceRow>,
             shifts: seq<L.ShiftRow>)
    requires g == ByUser(ms)
    ensures duplicates == DuplicatesOf(ms)
    ensures pii == PiiOf(or, ms)
    ensures topWords == S.TopWords(BumpAll(EmptyCountDict(), S.AllWords(ms)))
    ensures integrity == IntegrityOf(ms)
    ensures reuse == ReuseOf(or, ms)
    ensures contradictions == ContradictionsOf(or, ms)
    ensures cadence == Take(Cad.SuspiciousCadence(or, g), 50)
    ensures shifts == Take(L.ScriptShifts(g), 50)
  {
    duplicates := DuplicatesSectionOf(ms, g);
    pii := PiiSectionOf(or, ms);
    var wordCounts := S.WordCounts(ms);
    topWords := S.TopWords(wordCounts);
    integrity := IntegritySection(|I.InvalidUserIds(ms)|, |I.InvalidMessageIds(ms)|, I.MissingFieldsOf(ms));
    reuse := ReuseSectionOf(or, ms);
    contradictions := ContradictionsSectionOf(or, ms, g);
    var rows := Cad.FindCadence(or, g);
    cadence := Take(rows, 50);
    var found := L.FindShifts(g);
    shifts := Take(found, 50);
  }

  // ---------------------------------------------------------------- properties

  /** An empty corpus gives a report of zeros and empty lists. */
  lemma EmptyCorpus(or: Oracles, now: int)
    ensures ReportOf(or, now, []) == Some(Report(
      Totals(0, 0, 0.0, 0, 0),
      NamesSection(0, [], 0, [], []),
      EncodingSection(0, [], []),
      T.Tally(0, 0, 0, 0),
      DuplicatesSection([], [], 0, []),
      PiiSection([], [], []),
      [],
      IntegritySection(0, 0, I.MissingFields(0, 0, 0, 0)),
      ReuseSection([], []),
      ContradictionsSection([], []),
      [],
      []))
  {
    var g := ByUser([]);
    assert g.keys == [];
    assert TimestampsComparable(or, []);
    assert TotalsOf([]) == Totals(0, 0, 0.0, 0, 0);
    EmptyNames();
    assert EncodingOf([]) == EncodingSection(0, [], []);
    EmptyDuplicates();
    assert PiiOf(or, []) == PiiSection([], [], []);
    EmptyTopWords();
    assert IntegrityOf([]) == IntegritySection(0, 0, I.MissingFields(0, 0, 0, 0));
    EmptyReuse(or);
    assert ContradictionsOf(or, []) == ContradictionsSection([], []);
    assert Cad.SuspiciousCadence(or, g) == [];
  }

  lemma EmptyNames()
    ensures NamesOf([]) == NamesSection(0, [], 0, [], [])
  {
    assert N.MultiNameUsers(ByUser([])) == [];
    assert AddAll(EmptySetDict<string, string>(), FlatMap([], N.FullPair)) == EmptySetDict();
    assert AddAll(EmptySetDict<string, string>(), FlatMap([], N.FirstPair)) == EmptySetDict();
  }

  lemma EmptyDuplicates()
    ensures DuplicatesOf([]) == DuplicatesSection([], [], 0, [])
  {
    assert BumpAll(EmptyCountDict<string>(), D.IdKeys([])) == EmptyCountDict();
    assert AddAll(EmptySetDict<string, string>(), FlatMap([], D.TextUid)) == EmptySetDict();
  }

  lemma EmptyTopWords()
    ensures S.TopWords(BumpAll(EmptyCountDict(), S.AllWords([]))) == []
  {
    assert BumpAll(EmptyCountDict<string>(), S.AllWords([])) == EmptyCountDict();
  }

  lemma EmptyReuse(or: Oracles)
    ensures ReuseOf(or, []) == ReuseSection([], [])
  {
    assert AddAll(EmptySetDict<string, string>(), FlatMap([], R.PhonePairs(or))) == EmptySetDict();
    assert AddAll(EmptySetDict<string, string>(), FlatMap([], R.EmailPairs(or))) == EmptySetDict();
  }
}
