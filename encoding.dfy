/** The encoding detectors of the audit: user names and message texts containing U+FFFD, the
    character decoders substitute for undecodable bytes. */
module EncodingChecks {
  import opened Wrappers
  import opened Seqs
  import opened Sorting
  import opened Records
  import opened Text

  /** `"�" in s`. */
  predicate HasReplacement(s: string) {
    Contains(s, [ReplacementChar])
  }

  /** `m.get("user_name", "")` for every message whose name holds U+FFFD. */
  function BadNamesIn(ms: seq<Message>): seq<string> {
    if ms == [] then []
    else BadNamesIn(ms[..|ms| - 1]) + (if HasReplacement(NameOf(ms[|ms| - 1])) then [NameOf(ms[|ms| - 1])] else [])
  }

  /** `bad_name_examples = sorted({...})`. */
  function BadNames(ms: seq<Message>): seq<string> {
    SortStrings(Dedup(BadNamesIn(ms)))
  }

  lemma {:induction false} BadNamesInMembers(ms: seq<Message>, x: string)
    ensures x in BadNamesIn(ms) <==> HasReplacement(x) && exists m | m in ms :: NameOf(m) == x
  {
    if ms != [] {
      var ms' := ms[..|ms| - 1];
      BadNamesInMembers(ms', x);
      assert ms == ms' + [ms[|ms| - 1]];
      assert forall m | m in ms' :: m in ms;
    }
  }

  /** The bad names are sorted, distinct, and exactly the names holding U+FFFD. */
  lemma BadNamesSpec(ms: seq<Message>)
    ensures Distinct(BadNames(ms))
    ensures forall i, j | 0 <= i < j < |BadNames(ms)| :: LexOrder.LexLe(BadNames(ms)[i], BadNames(ms)[j])
    ensures forall x :: x in BadNames(ms) <==> HasReplacement(x) && exists m | m in ms :: NameOf(m) == x
  {
    SortStringsOfSet(Dedup(BadNamesIn(ms)));
    forall x ensures x in BadNames(ms) <==> HasReplacement(x) && exists m | m in ms :: NameOf(m) == x {
      BadNamesInMembers(ms, x);
    }
  }

  /** One entry of `bad_message_samples`. */
  datatype Sample = Sample(id: Option<string>, userId: Option<string>, userName: Option<string>, snippet: string)

  /** The sample a message contributes: one if its text holds U+FFFD, none otherwise. */
  function BadSample(m: Message): seq<Sample> {
    if HasReplacement(TextOf(m)) then [Sample(m.id, m.userId, m.userName, Snippet(TextOf(m)))] else []
  }

  const SampleCap: nat := 50

  /** The loop that collects `bad_message_samples` and stops at the fiftieth. */
  method BadMessageSamples(ms: seq<Message>) returns (samples: seq<Sample>)
    ensures samples == Take(FlatMap(ms, BadSample), SampleCap)
  {
    samples := [];
    var i := 0;
    while i < |ms|
      invariant i <= |ms|
      invariant samples == FlatMap(ms[..i], BadSample)
      invariant |samples| < SampleCap
    {
      var m := ms[i];
      FlatMapStep(ms, i, BadSample);
      var t := TextOf(m);
      if HasReplacement(t) {
        samples := samples + [Sample(m.id, m.userId, m.userName, Snippet(t))];
        if |samples| >= SampleCap {
          FlatMapPrefix(ms, i + 1, BadSample);
          return;
        }
      }
      i := i + 1;
    }
    assert ms[..i] == ms;
  }

  /** Every sample comes from a message whose text holds U+FFFD, and carries that message's snippet. */
  lemma BadSamplesSound(ms: seq<Message>, s: Sample)
    requires s in Take(FlatMap(ms, BadSample), SampleCap)
    ensures exists m | m in ms :: HasReplacement(TextOf(m)) && s == Sample(m.id, m.userId, m.userName, Snippet(TextOf(m)))
  {
    FlatMapMember(ms, BadSample, s);
  }
}
