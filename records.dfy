/** The message record the audit engine and the name helpers consume, the abstract services they
    call (ISO-8601 parsing, fuzzy date parsing, the PII and date regexes), and the id pattern. */
module Records {
  import opened Wrappers
  import opened Text

  /** One record from the messages API. A field the record does not carry is `None`. */
  datatype Message = Message(
    id: Option<string>,
    userId: Option<string>,
    userName: Option<string>,
    timestamp: Option<string>,
    text: Option<string>)

  /** `m.get("user_id", "")` */
  function UidOf(m: Message): string { m.userId.GetOr("") }

  /** `m.get("user_name", "")` */
  function NameOf(m: Message): string { m.userName.GetOr("") }

  /** `m.get("timestamp", "")` */
  function TimestampOf(m: Message): string { m.timestamp.GetOr("") }

  /** `m.get("message", "")` */
  function TextOf(m: Message): string { m.text.GetOr("") }

  /** `str(m.get("id", ""))` */
  function IdOrEmpty(m: Message): string { m.id.GetOr("") }

  /** `str(m.get("id"))`: an absent id prints as `None`. */
  function IdString(m: Message): string { if m.id.Some? then m.id.value else "None" }

  /** `t[:160]`, the snippet the samples carry. */
  function Snippet(t: string): string {
    if |t| <= 160 then t else t[..160]
  }

  /** A parsed `datetime`: the calendar year as written, the instant in microseconds since the epoch
      (for an aware value; for a naive one the same count read as UTC), and whether it carries a UTC
      offset. Comparing a naive with an aware value raises `TypeError`. */
  datatype DateTime = DateTime(year: int, micros: int, aware: bool)

  /** The services the audit calls but whose internals are not modelled. Each regex is represented by
      what `findall`/`finditer` returns on a text; `search` succeeds iff that list is non-empty. */
  datatype Oracles = Oracles(
    /** `datetime.fromisoformat`, `None` where it raises. */
    fromIsoFormat: string -> Option<DateTime>,
    /** `phone_re.findall(text)` for `\b(?:\+?\d[\d\s\-()]{7,}\d)\b`. */
    phoneMatches: string -> seq<string>,
    /** `email_re.findall(text)`. */
    emailMatches: string -> seq<string>,
    /** `m.group(0)` for every `m` in `cc_re.finditer(text)`, for `(?:\d[ -]?){13,19}`. */
    cardMatches: string -> seq<string>,
    /** `date_patterns[k].findall(text)` for the three date patterns, `k` in 0..2. */
    dateMatches: (nat, string) -> seq<string>,
    /** `date_parser.parse(piece, fuzzy=True).date().isoformat()`, `None` where it raises. */
    fuzzyDate: string -> Option<string>)

  /** `ts.replace("Z", "+00:00")` */
  function ReplaceZ(ts: string): (r: string)
    ensures forall i | 0 <= i < |r| :: r[i] != 'Z'
    ensures (forall i | 0 <= i < |ts| :: ts[i] != 'Z') ==> r == ts
  {
    if ts == [] then []
    else (if ts[0] == 'Z' then "+00:00" else [ts[0]]) + ReplaceZ(ts[1..])
  }

  /** `datetime.fromisoformat(m.get("timestamp", "").replace("Z", "+00:00"))` */
  function ParseTimestamp(or: Oracles, m: Message): Option<DateTime> {
    or.fromIsoFormat(ReplaceZ(TimestampOf(m)))
  }

  predicate IsHexOrDash(c: char) {
    IsDigit(c) || 'a' <= c <= 'f' || 'A' <= c <= 'F' || c == '-'
  }

  predicate AllHexOrDash(s: string) {
    forall i | 0 <= i < |s| :: IsHexOrDash(s[i])
  }

  /** `re.match(r"^[0-9a-fA-F-]{32,36}$", s)`. Python's `$` also matches just before a final newline,
      so one trailing `"\n"` is accepted too. */
  predicate UuidLike(s: string) {
    || (32 <= |s| <= 36 && AllHexOrDash(s))
    || (33 <= |s| <= 37 && s[|s| - 1] == '\n' && AllHexOrDash(s[..|s| - 1]))
  }

  /** A canonical UUID is id-like, the empty string is not, and neither is anything longer than 37. */
  lemma UuidLikeExamples()
    ensures UuidLike("cd3a350e-dbd2-408f-afa0-16a072f56d23")
    ensures !UuidLike("")
    ensures forall s: string | |s| > 37 || |s| < 32 :: !UuidLike(s)
  {
    var u := "cd3a350e-dbd2-408f-afa0-16a072f56d23";
    assert |u| == 36;
    assert AllHexOrDash(u);
  }
}
