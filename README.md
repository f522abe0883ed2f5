# Message-corpus audit and member-name resolution, in Dafny

This project models three parts of a concierge service. The service keeps a corpus of member
messages. Each record has an `id`, `user_id`, `user_name`, `timestamp` and `message`.

* **The corpus audit** (`scripts/explore_messages.py`, `analyze` and its helpers). It groups the
  messages by user and sorts each group by timestamp string. It then runs one detector per report
  section:
  * name inconsistencies and collisions;
  * encoding damage (U+FFFD);
  * timestamp anomalies;
  * per-user and cross-user duplicate texts;
  * PII samples, with a Luhn-checked card gate;
  * length statistics and the top words;
  * id integrity and missing fields;
  * duplicate message ids;
  * phone and e-mail reuse across users;
  * seat-preference flips and same-day multi-city plans;
  * bot-like posting cadence;
  * script shifts.

  The result is a capped report.
* **The names index** (`app/name_index.py`). `norm_name` folds accents and case and reduces
  punctuation to single spaces. `build_names_index` maps normalised full names to user ids.
  `resolve_with_index` tries an exact lookup, then a substring lookup.
* **The member helpers of the agent** (`app/memory_agent.py`):
  * `_strip_accents` and `_norm_name`;
  * its own `group_by_user`, keyed by the raw `user_id`;
  * `latest_user_name`;
  * the name-scoring selection of `resolve_user_id`.

## How the model is laid out

Each loop of the source is a `method` with loop invariants. Each method is proved equal to a
specification function. The properties the audit promises are then proved as lemmas about those
functions:

* iff-characterisations of who is reported;
* counts;
* ordering and stability of sorts;
* caps;
* round trips between normalisers.

The data:

* A record is a `Records.Message` with `Option<string>` fields. `None` stands for a missing key.
* Python dicts with insertion order are `Dicts.Dict`: a key sequence plus a map. A key that is
  written again keeps its place.
* `defaultdict(set)` is `Dicts.SetDict`, which holds each set as a duplicate-free sequence.
* Sorting is a stable insertion sort under a total preorder (`Sorting.SortBy`). This is Python's
  `sort`/`sorted`, also with `reverse=True`, which is a stable sort by `>=`.

Parts of the system that the model takes as parameters:

* ISO-8601 parsing, the fuzzy date parser, and the phone, e-mail, card and date regular
  expressions are the fields of `Records.Oracles`.
* The clock (`datetime.now`) is the `now` parameter, in microseconds.

Unicode:

* NFKD decomposition followed by ASCII-ignore is `Text.StripAccents`.
* `str.lower` is `Text.Lower`.
* Both use tables that cover U+0000..U+017F.

Modules:

* Shared pieces: `Seqs`, `Dicts`, `Sorting`, `LexOrder`, `Words`, `Text`, `Normalise`, `Records`,
  `Grouping`, `Entries`, `Luhn`, `RealArith`.
* One module per report section: `NameChecks`, `EncodingChecks`, `TimestampChecks`,
  `DuplicateChecks`, `PiiChecks`, `MessageStats`, `Integrity`, `PiiReuse`, `Contradictions`,
  `Cadence`, `LanguageShift`.
* `Report` assembles the sections.
* `NameIndex` and `MemberHelpers` model the two service files.

Where a description of the system and the code differ, the model follows the code.

* **Out-of-order flag.** The code compares each parsed timestamp with the previous parsed one. It
  does not compare with the largest one seen so far. `TimestampChecks.HasDropIffUnsorted` proves
  that both readings flag the same groups.
* **Third date pattern.** This pattern has a capture group, so `findall` returns only the month
  name for it. The date oracle therefore stands for what `findall` really returns.

## Model

| member | source | states |
|---|---|---|
| Text.StripAccents | scripts/explore_messages.py:17-18 | `_strip_accents` yields only ASCII characters |
| Text.StripAccentsOfAscii | scripts/explore_messages.py:17-18 | ASCII text passes through `_strip_accents` unchanged |
| Text.StripAccentsAppend | scripts/explore_messages.py:17-18 | accent stripping works character by character, so it distributes over concatenation |
| Text.StripAccented | scripts/explore_messages.py:17-18 | é and É decompose to e and E once the accent is dropped |
| Text.AsciiPart | scripts/explore_messages.py:18 | `encode("ascii", "ignore")` keeps only ASCII characters |
| Text.LowerOfAscii | scripts/explore_messages.py:22 | on ASCII text `lower` maps A-Z to a-z one for one, and maps alphanumerics exactly to `[a-z0-9]` and spaces to spaces |
| Text.DecimalExamples | scripts/explore_messages.py:69 | ASCII digits are decimal with their usual values; Arabic-Indic one and fullwidth nine are decimal with values 1 and 9; superscript two is not decimal |
| Text.FirstToken | scripts/explore_messages.py:102 | `split(" ")[0]` is the longest space-free prefix, ended by a space or by the end of the text |
| Normalise.NormIsJoinTokens | scripts/explore_messages.py:21-23 | `_norm(s)` is the `[a-z0-9]` tokens of the folded text joined by single spaces |
| Normalise.NormCanonical | scripts/explore_messages.py:21-23 | `_norm` yields tokens separated by single spaces, with no leading or trailing space |
| Normalise.NormIdempotent | scripts/explore_messages.py:21-23 | `_norm(_norm(s)) == _norm(s)` |
| Normalise.NormTextWords | scripts/explore_messages.py:157-158 | `norm_text` keeps the whitespace-separated words of the lower-cased text, and is empty iff there are none |
| Normalise.NormNameIsJoinTokens | app/name_index.py:20-23 | `norm_name(s)` is the `[a-z0-9]` tokens of the folded text joined by single spaces |
| Normalise.NormNameCanonical | app/name_index.py:20-23 | `norm_name` yields tokens separated by single spaces, with no leading or trailing space |
| Normalise.NormNameIsNorm | app/name_index.py:20-23 | the regex-based `norm_name` and the audit's `_norm` agree on every input |
| Normalise.NormNameIdempotent | app/name_index.py:20-23 | `norm_name(norm_name(s)) == norm_name(s)` |
| Normalise.CanonicalTokens | app/name_index.py:20-23 | a canonical string is the join of its own tokens |
| Normalise.NormNameExample | app/name_index.py:20-23 | `norm_name("Thé Écolé  Dupont") == "the ecole dupont"` |
| Words.Runs | scripts/explore_messages.py:23 | `split()` gives non-empty maximal runs of non-separator characters |
| Words.RunsJoin | scripts/explore_messages.py:23 | splitting a space-join of non-empty tokens gives the tokens back |
| Words.CollapseNonWord | app/name_index.py:23 | `re.sub(r"[^a-z0-9]+", " ", s)` leaves only `[a-z0-9]` and single spaces |
| Words.CollapseRuns | app/name_index.py:23 | that substitution changes the separators, never the tokens |
| Words.TrimStart | app/name_index.py:23 | the left half of `strip()` removes exactly the leading whitespace |
| Words.TrimEnd | app/name_index.py:23 | the right half of `strip()` removes exactly the trailing whitespace |
| Words.StripSpacedCanonical | app/name_index.py:23 | stripping a text of tokens and single spaces leaves it canonical |
| Records.ReplaceZ | scripts/explore_messages.py:142 | `replace("Z", "+00:00")` leaves no `Z` and changes nothing in a text without one |
| Records.UuidLikeExamples | scripts/explore_messages.py:217 | a canonical UUID matches the id pattern; the empty string and texts shorter than 32 or longer than 37 do not |
| Grouping.GroupSpec | scripts/explore_messages.py:59-65 | `group_by_user` has distinct keys, each with a list, and no list without a key |
| Grouping.GroupBy | scripts/explore_messages.py:59-65 | the grouping loop computes `GroupSpec` |
| Grouping.Bucket | scripts/explore_messages.py:60-62 | the append loop puts the keys in order of first appearance, and gives each key its messages in input order |
| Grouping.SortGroups | scripts/explore_messages.py:63-64 | each list is then sorted by timestamp string |
| Grouping.GroupMembership | scripts/explore_messages.py:59-65 | a message is in the group of `k` iff it is in the input and its key is `k` |
| Grouping.GroupOrdered | scripts/explore_messages.py:63-64 | each group is sorted by timestamp string, and messages with equal timestamps keep their input order |
| Grouping.GroupPartition | scripts/explore_messages.py:59-65 | summed over the groups, the messages satisfying any predicate are those of the input |
| Grouping.GroupSizes | scripts/explore_messages.py:59-65 | the group sizes add up to the number of messages |
| Sorting.SortByStable | scripts/explore_messages.py:64 | the sort keeps the input order of equivalent elements |
| Sorting.SortByPermutes | scripts/explore_messages.py:64 | the sort is a permutation |
| Sorting.SortBySorted | scripts/explore_messages.py:64 | the sort's output is ordered |
| Entries.RankDescProps | scripts/explore_messages.py:112 | `sort(key=count, reverse=True)` orders by decreasing count, permutes, and keeps ties in order |
| Entries.TopRanked | scripts/explore_messages.py:214 | the first `n` ranked entries number `min(n, len)`, in decreasing count; an entry is left out only when all `n` places are taken, and then counts no more than any kept one |
| Luhn.DigitsSpec | scripts/explore_messages.py:69 | the digit list holds, in order, the value of each decimal digit of the text, of any script, and nothing else |
| Luhn.DoubleDigit | scripts/explore_messages.py:76-78 | a doubled digit minus 9 when above 9 is still a single digit |
| Luhn.LuhnCheck | scripts/explore_messages.py:68-80 | `luhn_check` is at least 13 digits and a checksum divisible by 10 |
| Luhn.LeftSumIsRightSum | scripts/explore_messages.py:73-79 | doubling by index parity from the left is the standard doubling of every second digit from the right |
| Luhn.LuhnIgnoresNonDigit | scripts/explore_messages.py:69 | inserting a character that is not a decimal digit never changes the verdict |
| Luhn.LuhnShortRejected | scripts/explore_messages.py:70-71 | fewer than 13 digits are rejected |
| Luhn.LuhnAcceptsTestCard | scripts/explore_messages.py:68-80 | `4111111111111111` is accepted, written in ASCII digits or in fullwidth digits |
| Luhn.LuhnDetectsSingleDigitChange | scripts/explore_messages.py:72-80 | changing any one digit of a valid digit list makes it invalid |
| Luhn.LuhnRejectsEditedDigit | scripts/explore_messages.py:68-80 | overwriting one digit character of an accepted number with a digit of another value makes it rejected |
| NameChecks.UidNamesSpec | scripts/explore_messages.py:87-89 | a user's names are sorted, distinct, and exactly the non-empty names that user's messages carry |
| NameChecks.NamesOfUser | scripts/explore_messages.py:88 | a name is among those of a user's group iff some message of that user carries it |
| NameChecks.MultiNameUsersSpec | scripts/explore_messages.py:90-92 | a user is listed iff they carry more than one distinct name, with exactly those names |
| NameChecks.NameTables | scripts/explore_messages.py:95-104 | the collision loop fills the full-name and first-name tables from each message's pairs |
| NameChecks.FirstNameSpec | scripts/explore_messages.py:102 | the first name is the first `[a-z0-9]` token of the folded name, and empty iff the name has none |
| NameChecks.FullTable | scripts/explore_messages.py:95-101 | a full name is a key iff some id used it, and its set is exactly those ids |
| NameChecks.FirstTable | scripts/explore_messages.py:96-104 | a first name is a key iff some id carries it, and its set has that many ids |
| NameChecks.CollisionsOfTable | scripts/explore_messages.py:105-108 | a name has a row iff it has more than one id, listed sorted and distinct |
| NameChecks.FullCollisionsSpec | scripts/explore_messages.py:105-108 | a full name is reported iff more than one distinct id used it; its ids are sorted, distinct and exactly those ids |
| NameChecks.FirstCollisionsSpec | scripts/explore_messages.py:109-112 | a first name is reported iff more than one distinct id carries it, with that number; rows go from most to fewest ids |
| EncodingChecks.BadNamesInMembers | scripts/explore_messages.py:115 | a name is collected iff it holds U+FFFD and some message carries it |
| EncodingChecks.BadNamesSpec | scripts/explore_messages.py:115 | the bad names are sorted, distinct, and exactly the names holding U+FFFD |
| EncodingChecks.BadMessageSamples | scripts/explore_messages.py:116-127 | the loop collects the samples of damaged texts in order and stops at the fiftieth |
| EncodingChecks.BadSamplesSound | scripts/explore_messages.py:116-127 | every sample comes from a message whose text holds U+FFFD and carries its 160-character snippet |
| TimestampChecks.ScanGroup | scripts/explore_messages.py:139-152 | the inner loop fails at a naive timestamp and otherwise computes the group's tally |
| TimestampChecks.TimestampSnoc | scripts/explore_messages.py:146-152 | one more parsed timestamp adds to the future and far-past counts by its own value, and sets the drop flag iff it is earlier than the previous one |
| TimestampChecks.TimestampTally | scripts/explore_messages.py:136-154 | the outer loop succeeds iff every group's timestamps are comparable, and then sums the group tallies |
| TimestampChecks.HasDropIffUnsorted | scripts/explore_messages.py:150-152 | comparing each parsed timestamp with the previous one flags exactly the sequences that are not non-decreasing |
| TimestampChecks.CountParsed | scripts/explore_messages.py:141-145 | counting over the parsed timestamps equals counting messages by their parsed timestamp |
| TimestampChecks.TallyOverCounts | scripts/explore_messages.py:136-149 | the message counters of the tally are counts over the groups |
| TimestampChecks.TallyOverUsers | scripts/explore_messages.py:153-154 | `out_of_order_users` counts the groups that go backwards |
| TimestampChecks.TallySpec | scripts/explore_messages.py:130-154 | over the whole corpus: unparsable plus parsed is every message; far-future and far-past count messages by their own parsed timestamp; out-of-order users is at most the number of users |
| DuplicateChecks.CountTexts | scripts/explore_messages.py:162-165 | the inner loop counts each normalised text of the group |
| DuplicateChecks.CountsOfGroup | scripts/explore_messages.py:162-166 | every counted key is a text of the group, counted as often as it occurs |
| DuplicateChecks.UserEntrySpec | scripts/explore_messages.py:166-168 | a user's entry holds one to five repeated texts, most repeated first, each with its true count; a repeated text is left out only when all five places are taken, by texts repeated at least as often |
| DuplicateChecks.UserEntryComplete | scripts/explore_messages.py:162-168 | a user adds an entry iff one of their normalised texts occurs more than once, and never more than one entry |
| DuplicateChecks.PerUserDuplicates | scripts/explore_messages.py:160-168 | the loop over the groups builds the per-user list |
| DuplicateChecks.PerUserSpec | scripts/explore_messages.py:160-168 | every listed user is in the corpus, with one to five texts repeated by that user, each with its count, most repeated first |
| DuplicateChecks.PerUserComplete | scripts/explore_messages.py:160-168 | every user with a text occurring more than once is listed |
| DuplicateChecks.PerUserDistinct | scripts/explore_messages.py:160-168 | no user is listed twice |
| DuplicateChecks.TextToUids | scripts/explore_messages.py:170-172 | the loop fills `text_to_uids` from each message's normalised text and user id |
| DuplicateChecks.TextTable | scripts/explore_messages.py:170-172 | a text is a key iff some user sent it, and its set has one entry per distinct user |
| DuplicateChecks.CrossUserSpec | scripts/explore_messages.py:170-177 | at most 20 non-empty texts shared by more than one user, each with its true user count, most users first; a qualifying text is left out only when all 20 places are taken, by texts with no fewer users |
| DuplicateChecks.IdCounts | scripts/explore_messages.py:228-231 | the loop counts each id string |
| DuplicateChecks.DupIdsSpec | scripts/explore_messages.py:232 | `dup_ids` lists each id that occurs more than once, exactly once |
| PiiChecks.FindCard | scripts/explore_messages.py:193-197 | the card loop finds a match iff one of its digit strings has 13 to 19 digits and passes the Luhn check |
| PiiChecks.PiiScan | scripts/explore_messages.py:187-199 | the PII loop collects one phone, e-mail and card hit per qualifying message, in message order; the final `continue` changes nothing |
| PiiChecks.CardHitsPerMessage | scripts/explore_messages.py:193-197 | a message adds at most one card hit, however many of its matches pass |
| PiiChecks.CardGate | scripts/explore_messages.py:194-195 | a card-like match has 13 to 19 digits and passes the Luhn check |
| MessageStats.MinLen | scripts/explore_messages.py:204 | `min_len` is the smallest length, or 0 without messages |
| MessageStats.MaxLen | scripts/explore_messages.py:205 | `max_len` is the largest length, or 0 without messages |
| MessageStats.AvgBetween | scripts/explore_messages.py:203-205 | the average length lies between the shortest and the longest, and is 0 without messages |
| MessageStats.WordsAreTokens | scripts/explore_messages.py:211 | the words of `_norm(text).split()` are the `[a-z0-9]` tokens of the text |
| MessageStats.CountWords | scripts/explore_messages.py:211-213 | the inner loop counts each word that is not a stop word |
| MessageStats.CountMessage | scripts/explore_messages.py:211-213 | one message adds its kept words to the counts |
| MessageStats.WordCounts | scripts/explore_messages.py:209-213 | the nested loop counts every kept word of every message |
| MessageStats.CountedWordOrigin | scripts/explore_messages.py:210-213 | a counted word is a token of some message and not a stop word |
| MessageStats.TallyEntry | scripts/explore_messages.py:209-214 | each row of `word_counts` is a counted word with its number of occurrences |
| MessageStats.TallyComplete | scripts/explore_messages.py:209-214 | every counted word has its row |
| MessageStats.TopWordsSpec | scripts/explore_messages.py:209-214 | at most 25 words, most frequent first, each with its true count; a counted word is left out only when all 25 places are taken, and then occurs no more often than any listed one |
| Integrity.InvalidUserIds | scripts/explore_messages.py:218 | one entry per record whose user id does not match the id pattern |
| Integrity.InvalidMessageIds | scripts/explore_messages.py:219 | one entry per record whose id does not match the id pattern |
| Integrity.MissingFieldsSpec | scripts/explore_messages.py:220-225 | each `missing_fields` count is at most the number of records, and zero iff every record has a non-empty value for that field |
| Integrity.MissingWithinInvalid | scripts/explore_messages.py:218-221 | a missing user id is also an invalid one, so the missing count never exceeds the invalid count |
| Integrity.NoInvalidUserIds | scripts/explore_messages.py:218-221 | no invalid user id iff every user id is id-like, and then none is missing |
| PiiReuse.NormPhone | scripts/explore_messages.py:237-238 | `norm_phone` keeps only decimal digits, of any script, one for each decimal digit of the input |
| PiiReuse.NormPhoneAppend | scripts/explore_messages.py:237-238 | `norm_phone` distributes over concatenation, so separators between digit groups do not matter |
| PiiReuse.NormPhoneKeepsArabicIndic | scripts/explore_messages.py:237-238 | a phone written in Arabic-Indic digits keeps all nine of them |
| PiiReuse.NormPhoneIdempotent | scripts/explore_messages.py:237-238 | a normalised phone is its own normal form |
| PiiReuse.AddPhones | scripts/explore_messages.py:244-245 | each phone match adds the user under its digits |
| PiiReuse.AddEmails | scripts/explore_messages.py:246-247 | each e-mail match adds the user under its lower case |
| PiiReuse.ReuseTables | scripts/explore_messages.py:239-247 | the loop fills both tables from every message's matches |
| PiiReuse.PhoneTable | scripts/explore_messages.py:241-245 | a phone is a key iff some user mentioned it, and its set counts those users |
| PiiReuse.EmailTable | scripts/explore_messages.py:241-247 | an address is a key iff some user mentioned it, and its set counts those users |
| PiiReuse.SharedPhonesSpec | scripts/explore_messages.py:248-254 | a phone is reported iff it has at least seven digits and more than one user, with that user count; most users first |
| PiiReuse.SharedEmailsSpec | scripts/explore_messages.py:251-255 | an address is reported iff more than one user mentioned it, with that user count; most users first |
| Contradictions.ExtractCities | scripts/explore_messages.py:264-270 | `extract_cities` returns the gazetteer entries contained in `_norm(text)` |
| Contradictions.FindCities | scripts/explore_messages.py:267-269 | the gazetteer loop keeps the entries contained in the normalised text |
| Contradictions.CitiesInMember | scripts/explore_messages.py:264-270 | a city is returned iff it is in the gazetteer and occurs in the normalised text |
| Contradictions.ParsePieces | scripts/explore_messages.py:280-289 | the inner date loop keeps the pieces that are non-empty and parse |
| Contradictions.ExtractDates | scripts/explore_messages.py:277-290 | `extract_dates` returns the distinct dates of the three patterns in order of first finding |
| Contradictions.ScanText | scripts/explore_messages.py:299-309 | one lower-cased text sets the seat flags by containment and adds its date-city pairs |
| Contradictions.ScanUser | scripts/explore_messages.py:298-309 | the loop over a user's messages computes both seat flags and `date_to_cities` |
| Contradictions.SameDayRows | scripts/explore_messages.py:312-314 | one row per date with more than one city |
| Contradictions.UserContradictions | scripts/explore_messages.py:294-314 | the body for one user computes that user's flip and same-day rows |
| Contradictions.FindContradictions | scripts/explore_messages.py:292-314 | the loop over users computes both lists in user order |
| Contradictions.ProductMember | scripts/explore_messages.py:307-309 | the nested loop adds exactly the date-city combinations |
| Contradictions.DateTableSpec | scripts/explore_messages.py:297-309 | `date_to_cities[d]` holds exactly the cities named alongside date `d`, each once |
| Contradictions.MentionsGroup | scripts/explore_messages.py:298-303 | a user's group mentions a phrase iff one of that user's messages does |
| Contradictions.FlipSpec | scripts/explore_messages.py:295-311 | a user is a seat-preference flip iff one of their messages contains "prefer aisle" and one contains "prefer window" |
| Contradictions.SameDayMember | scripts/explore_messages.py:312-314 | a row is reported iff its date has more than one city for its user, with those cities sorted |
| Contradictions.SameDayReported | scripts/explore_messages.py:292-314 | a (user, date) pair is reported iff the user named more than one distinct city alongside that date |
| Contradictions.SameDayCities | scripts/explore_messages.py:312-314 | a reported row lists more than one city, sorted, distinct, exactly those named alongside its date |
| Cadence.Gaps | scripts/explore_messages.py:331 | one gap fewer than timestamps |
| Cadence.CollectTimes | scripts/explore_messages.py:321-327 | the loop keeps the timestamps that parse, in group order |
| Cadence.UserCadence | scripts/explore_messages.py:319-340 | the body for one user computes that user's row or nothing |
| Cadence.FindCadence | scripts/explore_messages.py:317-341 | the loop over users, then the sort, computes the cadence list |
| Cadence.CvBelowLimit | scripts/explore_messages.py:336-339 | for a positive mean, `cv < 0.08` iff the variance is below `0.0064 * mean * mean` |
| Cadence.CvSquaredOrder | scripts/explore_messages.py:341 | ordering by `cv * cv` is ordering by `cv` |
| Cadence.CadenceSpec | scripts/explore_messages.py:316-340 | a user is reported iff they have at least eight messages, at least eight parse, and the gaps have a mean from 10 to 86400 and `cv < 0.08`; the row carries that mean and the gap count |
| Cadence.CadenceRowBounds | scripts/explore_messages.py:339-340 | every reported row has at least seven gaps, a mean within bounds, and `cv * cv` below 0.0064 |
| Cadence.CadenceOrder | scripts/explore_messages.py:341 | the rows are sorted ascending by `cv`, are a permutation of the users' rows, and keep equal ones in user order |
| Cadence.EqualGaps | scripts/explore_messages.py:334-335 | equal gaps have that gap as mean and zero variance |
| Cadence.EvenlySpacedFlagged | scripts/explore_messages.py:316-340 | a user with at least eight parsed timestamps, evenly spaced 10 to 86400 seconds apart, is reported with `cv` 0 |
| LanguageShift.MinRatio | scripts/explore_messages.py:356 | `min(ratios)` is a ratio below or equal to all others |
| LanguageShift.MaxRatio | scripts/explore_messages.py:356 | `max(ratios)` is a ratio above or equal to all others |
| LanguageShift.CollectRatios | scripts/explore_messages.py:346-353 | the inner loop computes one ASCII ratio per non-empty text |
| LanguageShift.UserShift | scripts/explore_messages.py:346-357 | the body for one user computes that user's row or nothing |
| LanguageShift.FindShifts | scripts/explore_messages.py:344-357 | the loop over users computes the shift list |
| LanguageShift.RatiosMember | scripts/explore_messages.py:347-353 | the ratios are those of the messages with a non-empty text |
| LanguageShift.ShiftedIff | scripts/explore_messages.py:346-356 | a group shifts iff one non-empty text has ratio below 0.6 and one above 0.95 |
| LanguageShift.ShiftMember | scripts/explore_messages.py:344-357 | a user is reported iff their group shifts, with the smallest and largest ratio |
| LanguageShift.ShiftUsersDistinct | scripts/explore_messages.py:344-357 | each user is reported at most once |
| LanguageShift.LowRatioThreshold | scripts/explore_messages.py:351-356 | a ratio is below 0.6 iff fewer than three fifths of the characters are ASCII |
| LanguageShift.HighRatioThreshold | scripts/explore_messages.py:351-356 | a ratio is above 0.95 iff more than nineteen twentieths of the characters are ASCII |
| LanguageShift.RatioBounds | scripts/explore_messages.py:351-352 | every ratio lies between 0 and 1 |
| LanguageShift.MixedScriptsReported | scripts/explore_messages.py:343-357 | a user with an all-ASCII text and a text without ASCII is reported with ratios 0 and 1 |
| Report.ReportOf | scripts/explore_messages.py:359-416 | the report exists iff the timestamps compare; it counts every message, has no more users than messages, and cuts every list to its cap |
| Report.NamesSectionOf | scripts/explore_messages.py:86-112 | computes the names section |
| Report.EncodingSectionOf | scripts/explore_messages.py:114-127 | computes the encoding section |
| Report.DuplicatesSectionOf | scripts/explore_messages.py:156-177 | computes the duplicates section |
| Report.PiiSectionOf | scripts/explore_messages.py:179-199 | computes the PII samples |
| Report.ReuseSectionOf | scripts/explore_messages.py:234-255 | computes the reuse section |
| Report.ContradictionsSectionOf | scripts/explore_messages.py:292-314 | computes the contradictions section |
| Report.RestOf | scripts/explore_messages.py:156-357 | the detectors after the timestamp loop compute their sections |
| Report.Analyze | scripts/explore_messages.py:83-416 | `analyze` runs the detectors in order and returns the report, or fails where a timestamp comparison raises |
| Report.EmptyCorpus | scripts/explore_messages.py:359-416 | an empty corpus gives a report of zeros and empty lists |
| Dicts.PutAllSpec | app/name_index.py:55-61 | writing pairs into a dict keeps keys in order of first writing, and each key holds the last value written |
| NameIndex.NormNameOrEmpty | app/name_index.py:21 | `s or ""` normalises a missing value to the empty string, and the result is canonical |
| NameIndex.Num2Id | app/name_index.py:55-61 | `num2id` is a well-formed JSON object |
| NameIndex.BuildNamesIndex | app/name_index.py:51-62 | the build loop returns `{"num2id": Num2Id(users)}` |
| NameIndex.BuildSpec | app/name_index.py:51-62 | the keys are the normalised names of records with an id and a name, in order of first appearance, each holding the id of the last such record |
| NameIndex.EntriesFromRecords | app/name_index.py:56-61 | each entry comes from a record with a non-empty id and name |
| NameIndex.ResolveWithIndex | app/name_index.py:65-79 | the resolve loop computes `Resolve` |
| NameIndex.FirstContainingSpec | app/name_index.py:75-79 | the substring fallback returns the id of the first key containing the query, and nothing iff no key contains it |
| NameIndex.ResolveNone | tests/test_name_index.py:18-25 | nothing resolves iff the query normalises to nothing, or there is no `num2id`, or no key equals or contains the query |
| NameIndex.ResolveBuilt | app/name_index.py:51-79 | a record's name resolves to the id of the last record with the same normalised name |
| NameIndex.RecordIsKey | app/name_index.py:56-61 | a record with an id and a name puts its normalised name into the index |
| NameIndex.ResolveKey | tests/test_name_index.py:7-9 | a key of the built index resolves to its own id |
| NameIndex.KeyIsNormalised | app/name_index.py:61 | every key is a fixed point of `norm_name` |
| MemberHelpers.StripAccentsValue | app/memory_agent.py:11-16 | strings lose their accents, and any other value is returned unchanged |
| MemberHelpers.StripAccentsValueAscii | app/memory_agent.py:11-16 | an ASCII string is returned unchanged too |
| MemberHelpers.GroupByUser | app/memory_agent.py:73-80 | the agent's grouping is the grouping under the raw `user_id` |
| MemberHelpers.GroupByUserSpec | app/memory_agent.py:73-80 | a message is in the group of its own raw id only, the sizes add up, and groups are stably sorted by timestamp string |
| MemberHelpers.LatestUserName | app/memory_agent.py:83-87 | the backward scan returns `LatestName` |
| MemberHelpers.LatestNameSpec | app/memory_agent.py:83-87 | the result is empty iff no message has a name; otherwise it is a name after which every name is empty |
| MemberHelpers.Score | app/memory_agent.py:105-110 | a score is at most 3 |
| MemberHelpers.ScoreName | app/memory_agent.py:105-110 | the scoring steps compute `Score` |
| MemberHelpers.ScoreMessage | app/memory_agent.py:100-110 | a message without an id or a normalised name scores 0; otherwise its name's score |
| MemberHelpers.ExactNameScoresThree | app/memory_agent.py:105-110 | a name equal to a non-empty query scores 3 |
| MemberHelpers.SelectBest | app/memory_agent.py:97-113 | the selection loop computes `Select` |
| MemberHelpers.ResolveUserId | app/memory_agent.py:90-114 | `resolve_user_id` computes `ResolveUser` |
| MemberHelpers.SelectBound | app/memory_agent.py:111-113 | the best score bounds every score, and a match is chosen iff it is positive |
| MemberHelpers.SelectNone | app/memory_agent.py:111-114 | no match iff every message scores 0 |
| MemberHelpers.SelectFirst | app/memory_agent.py:111-113 | the chosen match is the first message that reaches the best score |
| MemberHelpers.ResolvedByName | app/memory_agent.py:94-114 | a match by name scores 1 to 3 and comes from a message with an id and a name; no match iff every message scores 0 |
| MemberHelpers.UuidPassthrough | app/memory_agent.py:91-93 | an id-like argument comes back unchanged with an empty name |

## Left out

- Network and file I/O are not modelled: `fetch_all_messages` in both scripts, `main`, `load_names_index`, `save_names_index`, `ensure_dir`. The model starts from the records these calls return.
- The mem0 `MemoryAgent`, `build_user_memory`, the LLM client and the FastAPI endpoints are not modelled. They are foreign services outside the audit and resolution logic.
- `unicodedata.normalize("NFKD", …)` and `str.lower` are exact only on U+0000..U+017F. Characters above that are kept as they are. Above U+017F, a character that decomposes to an ASCII base is therefore dropped instead of folded. Decimal digits, by contrast, are covered for all of Unicode 15.0.0.
- Regular expressions are `Records.Oracles` fields: the phone, e-mail, card and date patterns. So are `datetime.fromisoformat` and `dateutil`'s fuzzy parser. The id pattern, `norm_phone` (`\D` is everything but the Unicode decimal digits) and `re.sub(r"[^a-z0-9]+", " ", …)` are modelled exactly. The `\b` whole-word test of `resolve_user_id` is modelled by `[a-z0-9]` boundaries, which is what `\b` means on a normalised name.
- Cadence.CadenceSpec: a row reports `cv * cv` instead of `cv` (no square root), and rows are sorted by that unrounded value instead of by `round(cv, 4)`. Rows whose `cv` differ only beyond the fourth decimal may therefore come out in another order.
- Cadence.CadenceOrder: the order proved is by the unrounded `cv * cv`. The source sorts by `round(cv, 4)`, so rows whose `cv` agree to four decimals stay in user order there but are ordered by their exact values here.
- Luhn.LuhnCheck: `c.isdigit()` also accepts digit characters that are not decimal, such as superscript two (U+00B2). `int(c)` raises `ValueError` on them. The model skips them like any other non-digit. The audit only passes the decimal digits of a card-pattern match to `luhn_check` (scripts/explore_messages.py:194), so the case does not arise there.
- Luhn.LuhnIgnoresNonDigit: for the same reason, inserting a non-decimal digit such as U+00B2 makes `luhn_check` raise rather than leave the verdict unchanged.
- PiiChecks.DigitsOnly: keeps the decimal digits, where `ch.isdigit()` keeps every digit character. The two agree on matches of the card pattern, which hold only `\d`, spaces and hyphens.
- Report.ReportOf: the average length, the mean gap and the ASCII ratios are exact reals. The rounding of `round(…, 1/2/3/4)` and floating-point error are not modelled.
- Report.ReportOf: a naive timestamp makes `analyze` raise `TypeError`. It is modelled as a report of `None`, not as the exception. Aware timestamps are compared as UTC instants.
- A JSON `null` field is treated as an absent key. `m.get(k, "")` then gives `""` where Python would give `None`. Non-string field values are not modelled. `MemberHelpers.StripAccentsValue` still keeps the agent's non-string passthrough.
- `num2id` values are strings. An index whose `num2id` is not an object is not modelled. A missing `num2id` is.
- MessageStats.TopWordsSpec: `Counter.most_common(25)` lists words of equal count in the order they were first counted, and the model does the same (a stable sort over the table's insertion order). The contract claims only the facts that hold for any tie order: at most 25 words, most frequent first, true counts, and a counted word left out only when all 25 places are taken, and then occurring no more often than a listed one.
- Python set iteration order is not modelled. It only reaches the output through `sorted(...)` and `len(...)`, which do not depend on it. `extract_cities` walks the gazetteer in a fixed list order, and its hits go into a set.
