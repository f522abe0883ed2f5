/** Cross-user PII reuse: phone numbers (digits only) and e-mail addresses (lower-cased) that occur
    in the messages of more than one user. */
module PiiReuse {
  import opened Seqs
  import opened Text
  import opened Dicts
  import opened Entries
  import opened Records

  /** `norm_phone(s) = re.sub(r"\D+", "", s)`: keep the decimal digits, of every script. */
  function NormPhone(s: string): (r: string)
    ensures forall i | 0 <= i < |r| :: IsDecimal(r[i])
    ensures |r| == Count(s, IsDecimal)
  {
    FilterSound(s, IsDecimal);
    assert forall i | 0 <= i < |Filter(s, IsDecimal)| :: Filter(s, IsDecimal)[i] in Filter(s, IsDecimal);
    Filter(s, IsDecimal)
  }

  /** `norm_phone` works piece by piece: separators between digit groups do not matter. */
  lemma NormPhoneAppend(a: string, b: string)
    ensures NormPhone(a + b) == NormPhone(a) + NormPhone(b)
  {
    FilterAppend(a, b, IsDecimal);
  }

  /** A normalised phone is its own normal form. */
  lemma NormPhoneIdempotent(s: string)
    ensures NormPhone(NormPhone(s)) == NormPhone(s)
  {
    FilterAll(NormPhone(s), IsDecimal);
  }

  /** A phone written in Arabic-Indic digits keeps all nine of them. */
  lemma NormPhoneKeepsArabicIndic()
    ensures NormPhone("\U{660}\U{661}\U{662}\U{663}\U{664}\U{665}\U{666}\U{667}\U{668}") == "\U{660}\U{661}\U{662}\U{663}\U{664}\U{665}\U{666}\U{667}\U{668}"
  {
    var s := "\U{660}\U{661}\U{662}\U{663}\U{664}\U{665}\U{666}\U{667}\U{668}";
    assert forall i | 0 <= i < |s| :: s[i] as int == 0x660 + i;
    FilterAll(s, IsDecimal);
  }

  /** What the inner loop over `phone_re.findall(txt)` adds to `phone_to_users`. */
  function PhonePairs(or: Oracles): Message -> seq<(string, string)> {
    m => var phs := or.phoneMatches(TextOf(m));
      seq(|phs|, j requires 0 <= j < |phs| => (NormPhone(phs[j]), UidOf(m)))
  }

  /** What the inner loop over `email_re.findall(txt)` adds to `email_to_users`. */
  function EmailPairs(or: Oracles): Message -> seq<(string, string)> {
    m => var ems := or.emailMatches(TextOf(m));
      seq(|ems|, j requires 0 <= j < |ems| => (Lower(ems[j]), UidOf(m)))
  }

  /** `for ph in phs: phone_to_users[norm_phone(ph)].add(uid)`. */
  method AddPhones(d0: SetDict<string, string>, phs: seq<string>, uid: string) returns (d: SetDict<string, string>)
    ensures d == AddAll(d0, seq(|phs|, j requires 0 <= j < |phs| => (NormPhone(phs[j]), uid)))
  {
    d := d0;
    var j := 0;
    while j < |phs|
      invariant j <= |phs|
      invariant d == AddAll(d0, seq(j, k requires 0 <= k < j => (NormPhone(phs[k]), uid)))
    {
      var ps := seq(j, k requires 0 <= k < j => (NormPhone(phs[k]), uid));
      assert seq(j + 1, k requires 0 <= k < j + 1 => (NormPhone(phs[k]), uid)) == ps + [(NormPhone(phs[j]), uid)];
      AddAllSnoc(d0, ps, NormPhone(phs[j]), uid);
      d := Add(d, NormPhone(phs[j]), uid);
      j := j + 1;
    }
  }

  /** `for em in ems: email_to_users[em.lower()].add(uid)`. */
  method AddEmails(d0: SetDict<string, string>, ems: seq<string>, uid: string) returns (d: SetDict<string, string>)
    ensures d == AddAll(d0, seq(|ems|, j requires 0 <= j < |ems| => (Lower(ems[j]), uid)))
  {
    d := d0;
    var j := 0;
    while j < |ems|
      invariant j <= |ems|
      invariant d == AddAll(d0, seq(j, k requires 0 <= k < j => (Lower(ems[k]), uid)))
    {
      var ps := seq(j, k requires 0 <= k < j => (Lower(ems[k]), uid));
      assert seq(j + 1, k requires 0 <= k < j + 1 => (Lower(ems[k]), uid)) == ps + [(Lower(ems[j]), uid)];
      AddAllSnoc(d0, ps, Lower(ems[j]), uid);
      d := Add(d, Lower(ems[j]), uid);
      j := j + 1;
    }
  }

  /** The loop filling `phone_to_users` and `email_to_users`. */
  method ReuseTables(or: Oracles, ms: seq<Message>) returns (phones: SetDict<string, string>, emails: SetDict<string, string>)
    ensures phones == AddAll(EmptySetDict(), FlatMap(ms, PhonePairs(or)))
    ensures emails == AddAll(EmptySetDict(), FlatMap(ms, EmailPairs(or)))
  {
    phones, emails := EmptySetDict(), EmptySetDict();
    var i := 0;
    while i < |ms|
      invariant i <= |ms|
      invariant phones == AddAll(EmptySetDict(), FlatMap(ms[..i], PhonePairs(or)))
      invariant emails == AddAll(EmptySetDict(), FlatMap(ms[..i], EmailPairs(or)))
    {
      var m := ms[i];
      var txt := TextOf(m);
      var uid := UidOf(m);
      FlatMapStep(ms, i, PhonePairs(or));
      FlatMapStep(ms, i, EmailPairs(or));
      AddAllAppend(EmptySetDict(), FlatMap(ms[..i], PhonePairs(or)), PhonePairs(or)(m));
      AddAllAppend(EmptySetDict(), FlatMap(ms[..i], EmailPairs(or)), EmailPairs(or)(m));
      phones := AddPhones(phones, or.phoneMatches(txt), uid);
      emails := AddEmails(emails, or.emailMatches(txt), uid);
      i := i + 1;
    }
    assert ms[..i] == ms;
  }

  /** `len(uids) > 1 and len(p) >= 7`. */
  predicate SharedPhone(e: Entry) {
    e.count > 1 && |e.key| >= 7
  }

  /** `shared_phones` after its sort. */
  function SharedPhones(phones: SetDict<string, string>): seq<Entry> {
    RankDesc(Filter(SizesOf(phones), SharedPhone))
  }

  /** `shared_emails` after its sort. */
  function SharedEmails(emails: SetDict<string, string>): seq<Entry> {
    RankDesc(Filter(SizesOf(emails), Repeated))
  }

  /** The distinct users with a phone-like match whose digits are `p`. */
  function UsersWithPhone(or: Oracles, ms: seq<Message>, p: string): set<string> {
    set m, ph | m in ms && ph in or.phoneMatches(TextOf(m)) && NormPhone(ph) == p :: UidOf(m)
  }

  /** The distinct users with an e-mail-like match that lower-cases to `e`. */
  function UsersWithEmail(or: Oracles, ms: seq<Message>, e: string): set<string> {
    set m, em | m in ms && em in or.emailMatches(TextOf(m)) && Lower(em) == e :: UidOf(m)
  }

  lemma PhoneTable(or: Oracles, ms: seq<Message>, p: string)
    ensures var d := AddAll(EmptySetDict(), FlatMap(ms, PhonePairs(or)));
      && (p in d.keys <==> UsersWithPhone(or, ms, p) != {})
      && |SetOf(d, p)| == |UsersWithPhone(or, ms, p)|
  {
    var vs := UsersWithPhone(or, ms, p);
    forall v ensures v in vs <==> exists m | m in ms :: (p, v) in PhonePairs(or)(m) {
      if v in vs {
        var m, ph :| m in ms && ph in or.phoneMatches(TextOf(m)) && NormPhone(ph) == p && UidOf(m) == v;
        var phs := or.phoneMatches(TextOf(m));
        var j :| 0 <= j < |phs| && phs[j] == ph;
        assert PhonePairs(or)(m)[j] == (p, v);
      }
      if exists m | m in ms :: (p, v) in PhonePairs(or)(m) {
        var m :| m in ms && (p, v) in PhonePairs(or)(m);
        var phs := or.phoneMatches(TextOf(m));
        var j :| 0 <= j < |phs| && PhonePairs(or)(m)[j] == (p, v);
        assert phs[j] in phs;
      }
    }
    SetDictOfScan(ms, PhonePairs(or), p, vs);
  }

  lemma EmailTable(or: Oracles, ms: seq<Message>, e: string)
    ensures var d := AddAll(EmptySetDict(), FlatMap(ms, EmailPairs(or)));
      && (e in d.keys <==> UsersWithEmail(or, ms, e) != {})
      && |SetOf(d, e)| == |UsersWithEmail(or, ms, e)|
  {
    var vs := UsersWithEmail(or, ms, e);
    forall v ensures v in vs <==> exists m | m in ms :: (e, v) in EmailPairs(or)(m) {
      if v in vs {
        var m, em :| m in ms && em in or.emailMatches(TextOf(m)) && Lower(em) == e && UidOf(m) == v;
        var ems := or.emailMatches(TextOf(m));
        var j :| 0 <= j < |ems| && ems[j] == em;
        assert EmailPairs(or)(m)[j] == (e, v);
      }
      if exists m | m in ms :: (e, v) in EmailPairs(or)(m) {
        var m :| m in ms && (e, v) in EmailPairs(or)(m);
        var ems := or.emailMatches(TextOf(m));
        var j :| 0 <= j < |ems| && EmailPairs(or)(m)[j] == (e, v);
        assert ems[j] in ems;
      }
    }
    SetDictOfScan(ms, EmailPairs(or), e, vs);
  }

  /** A digit string is reported as a shared phone iff it has at least seven digits and occurs for
      more than one distinct user; it is reported with that number of users; most users first. */
  lemma SharedPhonesSpec(or: Oracles, ms: seq<Message>, p: string)
    ensures var sp := SharedPhones(AddAll(EmptySetDict(), FlatMap(ms, PhonePairs(or))));
      && ((exists e | e in sp :: e.key == p) <==> |p| >= 7 && |UsersWithPhone(or, ms, p)| > 1)
      && (forall e | e in sp && e.key == p :: e.count == |UsersWithPhone(or, ms, p)|)
      && (forall e | e in sp :: SharedPhone(e))
      && (forall i, j | 0 <= i < j < |sp| :: sp[i].count >= sp[j].count)
  {
    var d := AddAll(EmptySetDict(), FlatMap(ms, PhonePairs(or)));
    var es := Filter(SizesOf(d), SharedPhone);
    PhoneTable(or, ms, p);
    RankDescProps(es);
    FilterSound(SizesOf(d), SharedPhone);
    if |p| >= 7 && |UsersWithPhone(or, ms, p)| > 1 {
      var i :| 0 <= i < |d.keys| && d.keys[i] == p;
      FilterComplete(SizesOf(d), SharedPhone, SizesOf(d)[i]);
    }
  }

  /** An e-mail address is reported as shared iff it occurs, lower-cased, for more than one distinct
      user; it is reported with that number of users; most users first. */
  lemma SharedEmailsSpec(or: Oracles, ms: seq<Message>, a: string)
    ensures var se := SharedEmails(AddAll(EmptySetDict(), FlatMap(ms, EmailPairs(or))));
      && ((exists e | e in se :: e.key == a) <==> |UsersWithEmail(or, ms, a)| > 1)
      && (forall e | e in se && e.key == a :: e.count == |UsersWithEmail(or, ms, a)|)
      && (forall e | e in se :: e.count > 1)
      && (forall i, j | 0 <= i < j < |se| :: se[i].count >= se[j].count)
  {
    var d := AddAll(EmptySetDict(), FlatMap(ms, EmailPairs(or)));
    var es := Filter(SizesOf(d), Repeated);
    EmailTable(or, ms, a);
    RankDescProps(es);
    FilterSound(SizesOf(d), Repeated);
    if |UsersWithEmail(or, ms, a)| > 1 {
      var i :| 0 <= i < |d.keys| && d.keys[i] == a;
      FilterComplete(SizesOf(d), Repeated, SizesOf(d)[i]);
    }
  }
}
