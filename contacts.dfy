/**
 * Contact records of the messaging platform and the rules that classify
 * them: group-name tests, field lookups, the channel a contact is reached
 * on and the mother's-age band.
 */
module Contacts {
  import opened Optional
  import opened Text

  /** A contact: its group names, its custom fields and its URNs
      (`tel:+52...`, `facebook:...`, `twitterid:...`). */
  datatype Contact = Contact(groups: seq<string>, fields: map<string, string>, urns: seq<string>)

  // Field names read by the checks.
  const STATE := "rp_state_number"
  const MUN := "rp_mun"
  const HOSPITAL := "rp_atenmed"
  const IS_PREGNANT := "rp_ispregnant"
  const MOM_BIRTH := "rp_mamafechanac"
  const DELIVERY := "rp_deliverydate"
  const DUE := "rp_duedate"

  /** `c.fields[name]`, where an unset field (None) and an empty string are
      both the falsy value "". */
  function Field(c: Contact, name: string): string {
    if name in c.fields then c.fields[name] else ""
  }

  /** `any(tag in g.name for g in c.groups)`. */
  predicate InGroupMatching(c: Contact, tag: string) {
    exists i | 0 <= i < |c.groups| :: Contains(c.groups[i], tag)
  }

  /** `any(tag in u for u in c.urns)`. */
  predicate HasUrnMatching(c: Contact, tag: string) {
    exists i | 0 <= i < |c.urns| :: Contains(c.urns[i], tag)
  }

  predicate IsPregnant(c: Contact) {
    InGroupMatching(c, "PREGNANT")
  }

  predicate IsPuerperium(c: Contact) {
    InGroupMatching(c, "PUERPERIUM")
  }

  /** Staff: some group mentions PERSONAL and none mentions ALTO_PERSONAL. */
  predicate IsPersonal(c: Contact) {
    InGroupMatching(c, "PERSONAL") && !InGroupMatching(c, "ALTO_PERSONAL")
  }

  /** A member of a supervisors' group is never counted as staff, although
      its group name also mentions PERSONAL. */
  lemma SupervisorsAreNotPersonal(c: Contact)
    requires InGroupMatching(c, "ALTO_PERSONAL")
    ensures InGroupMatching(c, "PERSONAL") && !IsPersonal(c)
  {
    var i :| 0 <= i < |c.groups| && Contains(c.groups[i], "ALTO_PERSONAL");
    ContainsIff("ALTO_PERSONAL", "PERSONAL");
    assert OccursAt("ALTO_PERSONAL", "PERSONAL", 5);
    ContainsTransitive(c.groups[i], "ALTO_PERSONAL", "PERSONAL");
  }

  /** The channel a contact is counted under. */
  datatype Channel = Sms | Facebook | Twitter | Others

  /** First match wins: a telephone URN, then Facebook, then Twitter. */
  function ChannelOf(c: Contact): Channel {
    if HasUrnMatching(c, "tel:") then Sms
    else if HasUrnMatching(c, "facebook") then Facebook
    else if HasUrnMatching(c, "twitterid") then Twitter
    else Others
  }

  /** The priority order of the channel rules. */
  lemma ChannelPriority(c: Contact)
    ensures HasUrnMatching(c, "tel:") <==> ChannelOf(c) == Sms
    ensures ChannelOf(c) == Facebook <==> !HasUrnMatching(c, "tel:") && HasUrnMatching(c, "facebook")
    ensures ChannelOf(c) == Twitter <==>
      !HasUrnMatching(c, "tel:") && !HasUrnMatching(c, "facebook") && HasUrnMatching(c, "twitterid")
  {
  }

  /** The three mother's-age bands. */
  datatype Band = Young | Middle | Mature

  /** Days in four years: `days / 365.25 <= y` is `4 * days <= y * DAYS_IN_4_YEARS`. */
  const DAYS_IN_4_YEARS := 1461

  /** The band tests of the source on `diff = days / 365.25`, in exact
      integer form: `diff <= 19`, `19 < diff < 35` and `diff >= 35`. */
  predicate InBand(b: Band, days: int) {
    match b
    case Young => 4 * days <= 19 * DAYS_IN_4_YEARS
    case Middle => 4 * days > 19 * DAYS_IN_4_YEARS && 4 * days < 35 * DAYS_IN_4_YEARS
    case Mature => 4 * days >= 35 * DAYS_IN_4_YEARS
  }

  /** The band an age falls in. */
  function BandOf(days: int): (b: Band)
    ensures InBand(b, days)
  {
    if 4 * days <= 19 * DAYS_IN_4_YEARS then Young
    else if 4 * days >= 35 * DAYS_IN_4_YEARS then Mature
    else Middle
  }

  /** The band tests are disjoint and cover every age: exactly one holds. */
  lemma BandsPartition(days: int)
    ensures forall b :: InBand(b, days) <==> b == BandOf(days)
  {
  }

  /** The reference date string: delivery date for a puerperium contact,
      due date otherwise. */
  function ReferenceDate(c: Contact): string {
    if IsPuerperium(c) then Field(c, DELIVERY) else Field(c, DUE)
  }

  /**
   * The mother's age (in days) at the reference date, when the contact is
   * counted by the mother's-age check; `dayDiff(birth, reference)` stands
   * for `(parse(reference) - parse(birth)).days`.
   */
  function MomAgeDays(c: Contact, dayDiff: (string, string) -> int): Option<int> {
    var birth := Field(c, MOM_BIRTH);
    var reference := ReferenceDate(c);
    if birth == "" || reference == "" || !(IsPregnant(c) || IsPuerperium(c)) then None
    else
      var stripped := StripTrailingDot(reference);
      if HasDigit(birth) && HasDigit(stripped) then Some(dayDiff(birth, stripped)) else None
  }

  /** Which contacts the mother's-age check counts. */
  lemma MomAgeCountedIff(c: Contact, dayDiff: (string, string) -> int)
    ensures MomAgeDays(c, dayDiff).Some? <==>
      && (IsPregnant(c) || IsPuerperium(c))
      && Field(c, MOM_BIRTH) != "" && ReferenceDate(c) != ""
      && HasDigit(Field(c, MOM_BIRTH)) && HasDigit(ReferenceDate(c))
  {
    if ReferenceDate(c) != "" {
      StripKeepsDigits(ReferenceDate(c));
    }
  }

  /** The contact selections the checks make. */
  datatype Selector =
    | PregnantGroup                            // some group mentions PREGNANT
    | PregnantFlagged                          // ... and rp_ispregnant is "1"
    | PuerperiumGroup                          // some group mentions PUERPERIUM
    | PuerperiumFlagged                        // ... and rp_ispregnant is "0"
    | Personal                                 // staff, supervisors excluded
    | MemberOf(group: string)                  // a group with exactly this name
    | FieldSet(field: string)                  // the field is not empty
    | FieldEquals(field: string, value: string)
    | OnChannel(channel: Channel)
    | InAgeBand(band: Band, dayDiff: (string, string) -> int)
    | MomAgeCounted(dayDiff: (string, string) -> int)
    | InStateMun(state: string, mun: string)    // that state number and municipality

  predicate Selects(sel: Selector, c: Contact) {
    match sel
    case PregnantGroup => IsPregnant(c)
    case PregnantFlagged => Field(c, IS_PREGNANT) == "1" && IsPregnant(c)
    case PuerperiumGroup => IsPuerperium(c)
    case PuerperiumFlagged => Field(c, IS_PREGNANT) == "0" && IsPuerperium(c)
    case Personal => IsPersonal(c)
    case MemberOf(g) => g in c.groups
    case FieldSet(f) => Field(c, f) != ""
    case FieldEquals(f, v) => Field(c, f) == v
    case OnChannel(ch) => ChannelOf(c) == ch
    case InAgeBand(b, dayDiff) => MomAgeDays(c, dayDiff).Some? && InBand(b, MomAgeDays(c, dayDiff).value)
    case MomAgeCounted(dayDiff) => MomAgeDays(c, dayDiff).Some?
    case InStateMun(s, m) => Field(c, STATE) == s && Field(c, MUN) == m
  }

  /** A list comprehension `[c for c in cs if ...]`. */
  function Select(cs: seq<Contact>, sel: Selector): seq<Contact> {
    if cs == [] then []
    else
      var c := cs[|cs| - 1];
      Select(cs[..|cs| - 1], sel) + (if Selects(sel, c) then [c] else [])
  }

  /** The selection keeps exactly the selected contacts, each as many times
      as it occurs in the input. */
  lemma {:induction false} SelectMembers(cs: seq<Contact>, sel: Selector)
    ensures forall c :: c in Select(cs, sel) ==> c in cs && Selects(sel, c)
    ensures forall c :: multiset(Select(cs, sel))[c] == if Selects(sel, c) then multiset(cs)[c] else 0
  {
    if cs != [] {
      var p, x := cs[..|cs| - 1], cs[|cs| - 1];
      assert cs == p + [x];
      SelectMembers(p, sel);
      assert multiset(cs) == multiset(p) + multiset{x};
    }
  }

  /** The selection keeps the input order: selecting from a concatenation
      concatenates the selections. */
  lemma {:induction false} SelectAppend(a: seq<Contact>, b: seq<Contact>, sel: Selector)
    ensures Select(a + b, sel) == Select(a, sel) + Select(b, sel)
  {
    if b == [] {
      assert a + b == a;
    } else {
      var p, x := b[..|b| - 1], b[|b| - 1];
      assert a + b == (a + p) + [x];
      assert (a + b)[..|a + b| - 1] == a + p;
      SelectAppend(a, p, sel);
    }
  }

  /** Every flagged pregnant contact is in a pregnant group, and likewise for
      puerperium: the flag counts never exceed the group counts. */
  lemma {:induction false} FlagsWithinGroups(cs: seq<Contact>)
    ensures |Select(cs, PregnantFlagged)| <= |Select(cs, PregnantGroup)|
    ensures |Select(cs, PuerperiumFlagged)| <= |Select(cs, PuerperiumGroup)|
  {
    if cs != [] {
      FlagsWithinGroups(cs[..|cs| - 1]);
    }
  }

  /** No selected staff contact belongs to a supervisors' group. */
  lemma PersonalExcludesSupervisors(cs: seq<Contact>)
    ensures forall c :: c in Select(cs, Personal) ==> c in cs && !InGroupMatching(c, "ALTO_PERSONAL")
  {
    SelectMembers(cs, Personal);
  }

  /** Every contact is counted under exactly one channel. */
  lemma {:induction false} ChannelsPartition(cs: seq<Contact>)
    ensures |Select(cs, OnChannel(Sms))| + |Select(cs, OnChannel(Facebook))|
          + |Select(cs, OnChannel(Twitter))| + |Select(cs, OnChannel(Others))| == |cs|
  {
    if cs != [] {
      ChannelsPartition(cs[..|cs| - 1]);
    }
  }

  /** Every counted contact falls in exactly one age band. */
  lemma {:induction false} BandsCoverCounted(cs: seq<Contact>, dayDiff: (string, string) -> int)
    ensures |Select(cs, InAgeBand(Young, dayDiff))| + |Select(cs, InAgeBand(Middle, dayDiff))|
          + |Select(cs, InAgeBand(Mature, dayDiff))| == |Select(cs, MomAgeCounted(dayDiff))|
  {
    if cs != [] {
      BandsCoverCounted(cs[..|cs| - 1], dayDiff);
      var c := cs[|cs| - 1];
      if MomAgeDays(c, dayDiff).Some? {
        BandsPartition(MomAgeDays(c, dayDiff).value);
      }
    }
  }

  /** The non-empty values of field `f`, in contact order:
      `[c.fields[f] for c in cs if c.fields[f]]`. */
  function NonEmptyValues(cs: seq<Contact>, f: string): seq<string> {
    if cs == [] then []
    else
      var v := Field(cs[|cs| - 1], f);
      NonEmptyValues(cs[..|cs| - 1], f) + (if v != "" then [v] else [])
  }

  /** No value is empty, and there is one value per contact whose field is set. */
  lemma {:induction false} NonEmptyValuesSet(cs: seq<Contact>, f: string)
    ensures "" !in NonEmptyValues(cs, f)
    ensures |NonEmptyValues(cs, f)| == |Select(cs, FieldSet(f))|
  {
    if cs != [] {
      NonEmptyValuesSet(cs[..|cs| - 1], f);
    }
  }

  /** The values are exactly the non-empty field values of the contacts. */
  lemma {:induction false} NonEmptyValuesMembers(cs: seq<Contact>, f: string, v: string)
    ensures v in NonEmptyValues(cs, f) <==> v != "" && exists i :: 0 <= i < |cs| && Field(cs[i], f) == v
  {
    if cs != [] {
      var p, x := cs[..|cs| - 1], cs[|cs| - 1];
      NonEmptyValuesMembers(p, f, v);
      var tail := if Field(x, f) != "" then [Field(x, f)] else [];
      assert NonEmptyValues(cs, f) == NonEmptyValues(p, f) + tail;
      if v != "" && exists i :: 0 <= i < |cs| && Field(cs[i], f) == v {
        var i :| 0 <= i < |cs| && Field(cs[i], f) == v;
        if i < |p| {
          assert Field(p[i], f) == v;
        }
      }
      if v in NonEmptyValues(p, f) {
        var i :| 0 <= i < |p| && Field(p[i], f) == v;
        assert Field(cs[i], f) == v;
      }
    }
  }

  /** Each value occurs once per contact carrying it. */
  lemma {:induction false} NonEmptyValuesCount(cs: seq<Contact>, f: string, v: string)
    requires v != ""
    ensures multiset(NonEmptyValues(cs, f))[v] == |Select(cs, FieldEquals(f, v))|
  {
    if cs != [] {
      var p, x := cs[..|cs| - 1], cs[|cs| - 1];
      NonEmptyValuesCount(p, f, v);
      var tail := if Field(x, f) != "" then [Field(x, f)] else [];
      assert NonEmptyValues(cs, f) == NonEmptyValues(p, f) + tail;
      assert multiset(NonEmptyValues(cs, f)) == multiset(NonEmptyValues(p, f)) + multiset(tail);
      assert Select(cs, FieldEquals(f, v)) == Select(p, FieldEquals(f, v)) + (if Field(x, f) == v then [x] else []);
    }
  }

  /** `this_state and this_state == state and key`: the contact has state
      `state` and a municipality code. */
  predicate CountedInState(c: Contact, state: string) {
    var thisState, key := Field(c, STATE), Field(c, MUN);
    thisState != "" && thisState == state && key != ""
  }

  /** The municipality codes of the contacts counted under `state`, in
      contact order. */
  function MunValues(cs: seq<Contact>, state: string): seq<string> {
    if cs == [] then []
    else
      var c := cs[|cs| - 1];
      MunValues(cs[..|cs| - 1], state) + (if CountedInState(c, state) then [Field(c, MUN)] else [])
  }

  /** A municipality value is counted only when both fields are set, and
      never for an empty state. */
  lemma {:induction false} MunValuesSet(cs: seq<Contact>, state: string)
    ensures "" !in MunValues(cs, state)
    ensures state == "" ==> MunValues(cs, state) == []
  {
    if cs != [] {
      MunValuesSet(cs[..|cs| - 1], state);
    }
  }

  /** The municipality of a contact is counted under its own state only:
      `mun[k]` is the number of contacts with that state and municipality `k`. */
  lemma {:induction false} MunValuesCount(cs: seq<Contact>, state: string, k: string)
    requires state != "" && k != ""
    ensures multiset(MunValues(cs, state))[k] == |Select(cs, InStateMun(state, k))|
  {
    if cs != [] {
      var p, c := cs[..|cs| - 1], cs[|cs| - 1];
      var sel := InStateMun(state, k);
      MunValuesCount(p, state, k);
      if Selects(sel, c) {
        assert CountedInState(c, state) && Field(c, MUN) == k;
        assert MunValues(cs, state) == MunValues(p, state) + [k];
        assert multiset(MunValues(cs, state)) == multiset(MunValues(p, state)) + multiset{k};
        assert Select(cs, sel) == Select(p, sel) + [c];
      } else if CountedInState(c, state) {
        var m := Field(c, MUN);
        assert m != k;
        assert MunValues(cs, state) == MunValues(p, state) + [m];
        assert multiset(MunValues(cs, state)) == multiset(MunValues(p, state)) + multiset{m};
        assert Select(cs, sel) == Select(p, sel);
      } else {
        assert MunValues(cs, state) == MunValues(p, state);
        assert Select(cs, sel) == Select(p, sel);
      }
    }
  }
}
