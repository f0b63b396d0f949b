# Reconciliation checks for a maternal-health messaging platform

`check_modules.py` reconciles two views of the same contacts. One is the
contact list of a RapidPro messaging platform: each contact has group
names, custom fields (`rp_state_number`, `rp_mun`, `rp_atenmed`,
`rp_ispregnant`, `rp_mamafechanac`, `rp_deliverydate`, `rp_duedate`) and
URNs. The other is a reporting API that answers with per-bucket counts.

Each check does the following:

- It classifies the contacts with substring tests on group names, field
  lookups and URN tests.
- It counts them per bucket in a Python dictionary: per state, per
  municipality of a state, per hospital, per channel and per mother's-age
  band. The user-type check counts with list lengths instead.
- It asserts, bucket by bucket and in a fixed or the dictionary's key
  order, that the API reports the same count. The mother's-age check
  allows a difference of up to a tenth of the total counted.

The model is written as follows:

- **Contacts** (`contacts.dfy`): every classification rule is a
  predicate. Every list comprehension is `Select` with a `Selector`.
- **Dictionaries** (`dicts.dfy`): a dictionary filled in place is a
  `map` plus its insertion-ordered key sequence.
  - A counting loop must produce `CountMap` of the values it counts,
    with keys in `Dedup` (first-occurrence) order.
  - `Bump` is the `if key in d: d[key] += 1 else: d[key] = 1` step.
- **Counting loops** (`aggregation.dfy`): they are methods with loop
  invariants, proved against those specification functions.
- **API answer** (`reporting.dfy`): it is a sequence of `Entry` values.
  - `ValueByKey` is `get_value_by_key`. `None` stands for its
    `IndexError`.
  - Every `assert` becomes a `Verdict`:
    - `Pass`;
    - `Missing(key)`, the bucket is absent;
    - `Mismatch(key, local, api)`, the counts differ.
- **Checks** (`checks.dfy`): each check states when it passes, in terms
  of the contacts alone.
  - When it fails, `Reporting.FirstFailure` says the verdict is that of
    the first failing bucket in comparison order, and that every earlier
    bucket passed. The source stops at the first `assert` or lookup that
    raises.

Floating point is restated exactly in integers:

- `days / 365.25 <= 19` becomes `4 * days <= 19 * 1461`.
- `local - 0.1 * total <= api <= local + 0.1 * total` becomes
  `10 * api <= 10 * local + total && 10 * api >= 10 * local - total`.

The three age-band tests (`diff <= 19`, `diff >= 35`,
`diff > 19 and diff < 35`) are disjoint, so an age of exactly 19 or 35
years falls in one band only. `Contacts.BandsPartition` proves that
exactly one band holds for every age.

## Model

| member | source | states |
|---|---|---|
| `Text.ContainsIff` | check_modules.py:58 | Python's `tag in name` holds exactly when `tag` occurs in `name` at some offset |
| `Text.ContainsTransitive` | check_modules.py:82-84 | a name that contains `ALTO_PERSONAL` contains every substring of it, in particular `PERSONAL` |
| `Text.StripTrailingDot` | check_modules.py:149 | the result is the input less one final `.` when it ends in `.`, otherwise the input unchanged |
| `Text.StripKeepsDigits` | check_modules.py:148-150 | stripping the trailing `.` never changes whether the date string holds a digit |
| `Dicts.DedupIsKeyOrder` | check_modules.py:33-35 | the key order of a dictionary filled from a value sequence lists each value exactly once and nothing else |
| `Dicts.DedupSnoc` | check_modules.py:101-104 | a new key goes to the end of the key order, and an existing key leaves the order unchanged |
| `Dicts.AddCountsSnoc` | check_modules.py:101-104 | counting one more value is one `Bump` step |
| `Dicts.AddCountsMeaning` | check_modules.py:98-104 | after counting, the keys are the old keys plus the values counted; each count is the old count (or 0) plus the value's number of occurrences |
| `Dicts.CountMapMeaning` | check_modules.py:117-125 | a dictionary counted from empty holds exactly the values counted, each with its number of occurrences |
| `Dicts.CountFromZeroes` | check_modules.py:97-104 | counting into the active-states dictionary (every value present at 0) gives the same dictionary as counting from empty, so the `else` branch adds nothing |
| `Dicts.CountStep` | check_modules.py:176-179 | one iteration of a counting loop: key present iff already seen, the dictionary grows by `Bump`, and the key order grows only for a new key |
| `Dicts.SumOfThree` | check_modules.py:161 | `sum(ages[k] for k in ages.keys())` over the three band keys is the sum of the three counts |
| `Dicts.SumOfCountMap` | check_modules.py:161 | the counts of a counting dictionary, summed over its keys in order, equal the number of values counted |
| `Contacts.SupervisorsAreNotPersonal` | check_modules.py:80-85 | a contact in an `ALTO_PERSONAL` group also matches `PERSONAL` but is never counted as staff |
| `Contacts.ChannelPriority` | check_modules.py:189-198 | channel rules in order: a `tel:` URN means sms; facebook only without `tel:`; twitter only without either |
| `Contacts.BandOf` | check_modules.py:155-160 | every age has a band whose test it passes |
| `Contacts.BandsPartition` | check_modules.py:155-160 | the three band tests are disjoint and cover every age: exactly one holds |
| `Contacts.MomAgeCountedIff` | check_modules.py:142-151 | a contact is counted by the age check iff it is pregnant or puerperium, both date strings are non-empty and both hold a digit (the trailing `.` does not matter) |
| `Contacts.SelectMembers` | check_modules.py:57-85 | a list comprehension keeps exactly the selected contacts, each as many times as it occurs |
| `Contacts.SelectAppend` | check_modules.py:204-210 | a selection keeps input order: selecting from `a + b` is selecting from `a`, then from `b` |
| `Contacts.FlagsWithinGroups` | check_modules.py:57-75 | flagged pregnant (`rp_ispregnant == "1"`) and flagged puerperium (`"0"`) counts never exceed the group counts |
| `Contacts.PersonalExcludesSupervisors` | check_modules.py:80-85 | no selected staff contact has an `ALTO_PERSONAL` group |
| `Contacts.ChannelsPartition` | check_modules.py:185-198 | the four channel counts add up to the number of contacts |
| `Contacts.BandsCoverCounted` | check_modules.py:141-160 | the three band counts add up to the number of contacts the age check counts |
| `Contacts.NonEmptyValuesSet` | check_modules.py:98-100 | the counted field values are never empty, and there is one per contact whose field is set |
| `Contacts.NonEmptyValuesMembers` | check_modules.py:172-175 | a value is counted iff it is non-empty and some contact carries it |
| `Contacts.NonEmptyValuesCount` | check_modules.py:172-179 | each non-empty value occurs once per contact carrying it |
| `Contacts.MunValuesSet` | check_modules.py:119-121 | an empty municipality is never counted, and an empty state counts nothing |
| `Contacts.MunValuesCount` | check_modules.py:117-125 | the number of times code `k` is counted for `state` is the number of contacts with that state and municipality `k` |
| `Reporting.ValueByKey` | check_modules.py:39-45 | the result is the count of the first entry, in response order, whose `group` or `key` equals the key; there is no result (IndexError) exactly when no entry names it |
| `Reporting.TolerantIsBand` | check_modules.py:162-167 | the tolerant test passes exactly when `10 * abs(api - local) <= total` |
| `Reporting.TolerantBoundary` | check_modules.py:162-167 | with `total = 10 * q`, `local +- q` passes and `local +- (q + 1)` fails |
| `Reporting.CheckKey` | check_modules.py:105-109 | one bucket's assert: passes iff the bucket exists and its value is accepted; Missing iff absent; a Mismatch carries the key, the local count and the rejected API value |
| `Reporting.CheckKeyExact` | check_modules.py:180-182 | an exact bucket passes iff the API value equals the local count |
| `Reporting.CompareAll` | check_modules.py:163-167 | the assert loop over the key order passes iff every key's check passes; otherwise the result is the first key's failing verdict and all earlier keys passed |
| `Reporting.FirstFailureOfMap` | check_modules.py:163-167 | the first failing key of the assert loop over a dictionary is the first failing key against any count function that agrees with the dictionary on the keys |
| `Reporting.FirstFailureMeaning` | check_modules.py:105-109 | the first failing key is a missing bucket or a mismatch of one of the keys compared, with that key's local count and an API value the policy rejects |
| `Aggregation.FieldTallyMeaning` | check_modules.py:172-179 | a per-field tally's keys are exactly the non-empty values some contact carries, each with the number of contacts carrying it |
| `Aggregation.FieldTallySum` | check_modules.py:97-104 | the counts of a per-field tally add up to the number of contacts whose field is set |
| `Aggregation.MunTallyMeaning` | check_modules.py:117-125 | for a non-empty state, a code is a key of the tally iff it is non-empty and some contact of that state carries it; each key holds the number of contacts of that state and code; an empty state yields an empty tally |
| `Aggregation.GetActiveStates` | check_modules.py:30-36 | the keys are exactly the non-empty state numbers, every value is 0, and the key order is first occurrence |
| `Aggregation.TallyByState` | check_modules.py:97-104 | the state dictionary ends as the count of each non-empty state, with the same keys and key order as the active states |
| `Aggregation.TallyMun` | check_modules.py:117-125 | the municipality dictionary ends as the count of the codes of the contacts in that state, keys in first-occurrence order |
| `Aggregation.TallyHospitals` | check_modules.py:170-179 | the hospital dictionary ends as the count of each non-empty hospital code, keys in first-occurrence order |
| `Aggregation.TallyChannels` | check_modules.py:185-198 | each channel bucket ends as the number of contacts classified under that channel |
| `Aggregation.TallyMomAge` | check_modules.py:138-160 | each band bucket ends as the number of counted contacts whose age falls in that band |
| `Aggregation.ContactsByGroup` | check_modules.py:204-210 | the result is the contacts having a group named exactly `group`, in input order |
| `Checks.CheckUsers` | check_modules.py:51-89 | passes iff the API's `pregnant`, `baby` and `personal` buckets hold the flagged-pregnant, puerperium-group and staff counts; a missing bucket is one of those three; a mismatch is one of those three buckets with its local count and the differing API value; a failing verdict is that of the first failing bucket in the order pregnant, baby, personal, and every earlier one passed |
| `Checks.CompareCountsMeaning` | check_modules.py:105-109 | exact comparison of a counting dictionary over its key order passes iff the API holds each value's number of occurrences |
| `Checks.FieldCompareMeaning` | check_modules.py:180-182 | comparing a per-field tally passes iff the API holds, for each non-empty value, the number of contacts carrying it |
| `Checks.CheckUsersByState` | check_modules.py:92-109 | passes iff the API holds every state's contact count; a Missing or Mismatch names a real state, with its local count; a failing verdict is that of the first failing state in key order, and every earlier state passed |
| `Checks.MunCompareMeaning` | check_modules.py:126-130 | comparing one state's municipality tally passes iff the API agrees on every municipality of that state |
| `Checks.CheckStateMuns` | check_modules.py:117-130 | one state's municipality check passes iff that state's answer agrees on every municipality; a missing or mismatched bucket is a municipality of that state, a mismatch carrying its local count and the differing API value; a failing verdict is that of the first failing municipality in key order |
| `Checks.CheckUsersByMun` | check_modules.py:112-130 | passes iff, for every active state, that state's answer agrees on every municipality; a missing or mismatched bucket is a municipality of some active state, a mismatch carrying that state's local count and the differing API value of that state's answer; a failing verdict belongs to the first active state, in key order, whose answer disagrees, and is that state's first failing municipality |
| `Checks.CheckUsersByMomAge` | check_modules.py:133-167 | passes iff each band's API value is within a tenth of the total of its local count, where the total is the number of contacts counted; a missing bucket is one of the three bands; a mismatch is a band with its local count and an API value outside the tolerance; a failing verdict is that of the first failing band in the order first, second, third |
| `Checks.BandTotal` | check_modules.py:161 | `sum` of the band counts is the number of contacts the age check counts |
| `Checks.BandsPass` | check_modules.py:163-167 | the loop over the three bands passes iff each band's API value is within the tolerance of its count |
| `Checks.CheckUsersByHospital` | check_modules.py:169-182 | passes iff the API holds every hospital code's contact count; a Missing or Mismatch names a real code; a failing verdict is that of the first failing code in key order |
| `Checks.CheckUsersByChannels` | check_modules.py:184-201 | passes iff the API's sms, facebook, twitter and others buckets hold the channel counts; a missing bucket is one of the four; a mismatch is one of the four with its local count and the differing API value; a failing verdict is that of the first failing bucket in the order sms, facebook, twitter, others |

## Left out

- HTTP requests (`requests.get(...).json()`, check_modules.py:55, 96, 115-116, 134, 171, 186):
  - the answer's `response` array is an input;
  - for the municipality check, `fetch(state)` gives the answer for each state.
- Configuration reading, the `TembaClient` client and the flow constants (check_modules.py:1-23): plumbing around foreign libraries.
- Contacts.MomAgeDays: a contact whose date strings hold a digit but do not parse as dates makes `dateutil.parser.parse` raise (check_modules.py:152-153), which aborts `check_users_by_mom_age`. The model's `dayDiff` is total, so it counts such a contact in some band, and `Checks.CheckUsersByMomAge` can pass where the source raises.
- Date parsing with `dateutil` (check_modules.py:152-154): the day difference is the input function `dayDiff(birth, reference)`, applied to the mother's birth string and the stripped reference string.
- Floating-point rounding of `/365.25` and `* .1`: the comparisons are stated exactly in integers, as above.
- `print` diagnostics (check_modules.py:65, 76, 107-108, 128-129): output only.
- `check_babies` and `main` (check_modules.py:213-229): stubs that do nothing.
- Checks.CheckUsers: does not model the debug line `print(l[0].uuid)` (check_modules.py:77-78). It raises IndexError before the asserts whenever every puerperium contact is also flagged. It is a diagnostic, and the set difference it prints from depends on object identity.
- Contacts.Field: an absent field reads as the empty string. The source's `c.fields[name]` raises KeyError for a field name the platform does not declare. Every field read here is a declared field, which holds None when unset.
- Text.IsDigit: only the ASCII digits `0`-`9` count. Python's `str.isdigit` also accepts other Unicode digits.
- Reporting.ValueByKey: assumes every matching entry carries a `count`, and that `group`/`key` hold strings. A malformed answer (a missing `response` or `count` key) is not modelled.
- Contacts are values, so two equal contacts are indistinguishable. Every selection counts them per occurrence, as the source's lists do.
- The model writes the counting and classification steps differently without changing them:
  - The `if key in d: d[key] += 1 else: d[key] = 1` step is the function `Dicts.Bump`. The key order is appended separately when the key is new.
  - The channel loop calls `Contacts.ChannelOf`, and the age loop calls `Contacts.MomAgeDays`. Each is the source's per-contact if/elif chain or filter, written once.
