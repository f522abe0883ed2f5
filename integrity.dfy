/** The integrity section of the audit: ids that do not look like UUIDs, and records missing a field
    (a field counts as missing when it is absent or empty). */
module Integrity {
  import opened Wrappers
  import opened Seqs
  import opened Records

  /** `not uuid_re.match(str(m.get("user_id", "")))` */
  predicate BadUserId(m: Message) { !UuidLike(UidOf(m)) }

  /** `not uuid_re.match(str(m.get("id", "")))` */
  predicate BadMessageId(m: Message) { !UuidLike(IdOrEmpty(m)) }

  /** `invalid_user_ids = [m.get("user_id") for m in messages if ...]`. */
  function InvalidUserIds(ms: seq<Message>): (r: seq<Option<string>>)
    ensures |r| == Count(ms, BadUserId)
  {
    var bad := Filter(ms, BadUserId);
    seq(|bad|, i requires 0 <= i < |bad| => bad[i].userId)
  }

  /** `invalid_message_ids = [m.get("id") for m in messages if ...]`. */
  function InvalidMessageIds(ms: seq<Message>): (r: seq<Option<string>>)
    ensures |r| == Count(ms, BadMessageId)
  {
    var bad := Filter(ms, BadMessageId);
    seq(|bad|, i requires 0 <= i < |bad| => bad[i].id)
  }

  predicate NoUserId(m: Message) { UidOf(m) == "" }
  predicate NoUserName(m: Message) { NameOf(m) == "" }
  predicate NoTimestamp(m: Message) { TimestampOf(m) == "" }
  predicate NoText(m: Message) { TextOf(m) == "" }

  datatype MissingFields = MissingFields(userId: nat, userName: nat, timestamp: nat, message: nat)

  /** `missing_fields`: `sum(1 for m in messages if not m.get(field))` for each of the four fields. */
  function MissingFieldsOf(ms: seq<Message>): MissingFields {
    MissingFields(Count(ms, NoUserId), Count(ms, NoUserName), Count(ms, NoTimestamp), Count(ms, NoText))
  }

  /** Each missing count is at most the number of records, and is zero exactly when every record
      carries a non-empty value for that field. */
  lemma MissingFieldsSpec(ms: seq<Message>)
    ensures var mf := MissingFieldsOf(ms);
      && mf.userId <= |ms| && mf.userName <= |ms| && mf.timestamp <= |ms| && mf.message <= |ms|
      && (mf.userId == 0 <==> forall i | 0 <= i < |ms| :: UidOf(ms[i]) != "")
      && (mf.userName == 0 <==> forall i | 0 <= i < |ms| :: NameOf(ms[i]) != "")
      && (mf.timestamp == 0 <==> forall i | 0 <= i < |ms| :: TimestampOf(ms[i]) != "")
      && (mf.message == 0 <==> forall i | 0 <= i < |ms| :: TextOf(ms[i]) != "")
  {
    CountZero(ms, NoUserId);
    CountZero(ms, NoUserName);
    CountZero(ms, NoTimestamp);
    CountZero(ms, NoText);
  }

  /** A record without a user id also has an invalid one, since the empty string is not id-like; so
      the missing count never exceeds the invalid count. The same holds for message ids, where an
      absent id is read as the empty string. */
  lemma MissingWithinInvalid(ms: seq<Message>)
    ensures MissingFieldsOf(ms).userId <= |InvalidUserIds(ms)|
    ensures Count(ms, m => IdOrEmpty(m) == "") <= |InvalidMessageIds(ms)|
  {
    UuidLikeExamples();
    CountMono(ms, NoUserId, BadUserId);
    CountMono(ms, m => IdOrEmpty(m) == "", BadMessageId);
  }

  /** No id is reported invalid exactly when every user id looks like a UUID, and then no user id
      is missing either. */
  lemma NoInvalidUserIds(ms: seq<Message>)
    ensures |InvalidUserIds(ms)| == 0 <==> forall i | 0 <= i < |ms| :: UuidLike(UidOf(ms[i]))
    ensures |InvalidUserIds(ms)| == 0 ==> MissingFieldsOf(ms).userId == 0
  {
    CountZero(ms, BadUserId);
    MissingWithinInvalid(ms);
  }
}
