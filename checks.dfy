/**
 * The checks themselves: each counts the contacts locally, asks the
 * reporting API for the same buckets and compares bucket by bucket. The
 * API's answer is an input (for the municipality check, one answer per
 * state), and each `assert` of the source becomes the returned Verdict.
 */
module Checks {
  import opened Optional
  import opened Dicts
  import opened Contacts
  import opened Reporting
  import opened Aggregation

  // Bucket names of the user-type check.
  const PREGNANT_KEY := "pregnant"
  const BABY_KEY := "baby"
  const PERSONAL_KEY := "personal"

  /**
   * `check_users`: flagged pregnant contacts, puerperium contacts by group
   * and staff are compared, in that order, with the API's `pregnant`,
   * `baby` and `personal` buckets.
   */
  function CheckUsers(contacts: seq<Contact>, response: seq<Entry>): (v: Verdict)
    ensures v.Pass? <==>
      && ValueByKey(response, PREGNANT_KEY) == Some(|Select(contacts, PregnantFlagged)|)
      && ValueByKey(response, BABY_KEY) == Some(|Select(contacts, PuerperiumGroup)|)
      && ValueByKey(response, PERSONAL_KEY) == Some(|Select(contacts, Personal)|)
    ensures v.Missing? ==> v.key in [PREGNANT_KEY, BABY_KEY, PERSONAL_KEY] && ValueByKey(response, v.key).None?
    ensures v.Mismatch? ==>
      && ValueByKey(response, v.key) == Some(v.api) && v.api != v.local
      && (|| (v.key == PREGNANT_KEY && v.local == |Select(contacts, PregnantFlagged)|)
            || (v.key == BABY_KEY && v.local == |Select(contacts, PuerperiumGroup)|)
            || (v.key == PERSONAL_KEY && v.local == |Select(contacts, Personal)|))
    ensures !v.Pass? ==> FirstFailure(response, [PREGNANT_KEY, BABY_KEY, PERSONAL_KEY], UserTypeCount(contacts), Exact, v)
  {
    var keys, count := [PREGNANT_KEY, BABY_KEY, PERSONAL_KEY], UserTypeCount(contacts);
    var pregnant := |Select(contacts, PregnantFlagged)|;
    var baby := |Select(contacts, PuerperiumGroup)|;
    var personal := |Select(contacts, Personal)|;
    UserTypeKeysDistinct();
    assert count(PREGNANT_KEY) == pregnant && count(BABY_KEY) == baby && count(PERSONAL_KEY) == personal;
    CheckKeyExact(response, PREGNANT_KEY, pregnant);
    CheckKeyExact(response, BABY_KEY, baby);
    CheckKeyExact(response, PERSONAL_KEY, personal);
    var first := CheckKey(response, PREGNANT_KEY, pregnant, Exact);
    if !first.Pass? then
      FirstFailureAt(response, keys, count, Exact, first, 0);
      first
    else
      var second := CheckKey(response, BABY_KEY, baby, Exact);
      if !second.Pass? then
        FirstFailureAt(response, keys, count, Exact, second, 1);
        second
      else
        var third := CheckKey(response, PERSONAL_KEY, personal, Exact);
        if third.Pass? then third
        else
          FirstFailureAt(response, keys, count, Exact, third, 2);
          third
  }

  lemma UserTypeKeysDistinct()
    ensures PREGNANT_KEY != BABY_KEY && PREGNANT_KEY != PERSONAL_KEY && BABY_KEY != PERSONAL_KEY
  {
    assert |PREGNANT_KEY| == 8 && |BABY_KEY| == 4 && |PERSONAL_KEY| == 8;
    assert PREGNANT_KEY[1] == 'r' && PERSONAL_KEY[1] == 'e';
  }

  /** The local count `check_users` compares with each user-type bucket. */
  function UserTypeCount(contacts: seq<Contact>): string -> int {
    k => if k == PREGNANT_KEY then |Select(contacts, PregnantFlagged)|
         else if k == BABY_KEY then |Select(contacts, PuerperiumGroup)|
         else |Select(contacts, Personal)|
  }

  /** Comparing a counting dictionary exactly, over its keys in insertion
      order, passes when the API holds every value's number of occurrences. */
  lemma CompareCountsMeaning(vals: seq<string>, response: seq<Entry>)
    ensures forall k | k in Dedup(vals) :: k in CountMap(vals)
    ensures (forall k | k in Dedup(vals) :: CheckKey(response, k, CountMap(vals)[k], Exact).Pass?) <==>
            (forall k | k in vals :: ValueByKey(response, k) == Some(multiset(vals)[k]))
  {
    DedupIsKeyOrder(vals);
    CountMapMeaning(vals);
    forall k | k in vals {
      CheckKeyExact(response, k, CountMap(vals)[k]);
    }
  }

  /** The API agrees on the number of contacts carrying each non-empty
      value of field `f`. */
  ghost predicate FieldCountsAgree(contacts: seq<Contact>, f: string, response: seq<Entry>) {
    forall k | k in NonEmptyValues(contacts, f) :: ValueByKey(response, k) == Some(|Select(contacts, FieldEquals(f, k))|)
  }

  /** Comparing the tally of field `f` passes exactly when the API agrees,
      and each key compared is a value of the field with its contact count. */
  lemma FieldCompareMeaning(contacts: seq<Contact>, f: string, response: seq<Entry>)
    ensures forall k | k in Dedup(NonEmptyValues(contacts, f)) ::
      && k in NonEmptyValues(contacts, f)
      && k in CountMap(NonEmptyValues(contacts, f))
      && CountMap(NonEmptyValues(contacts, f))[k] == |Select(contacts, FieldEquals(f, k))|
    ensures (forall k | k in Dedup(NonEmptyValues(contacts, f)) ::
               CheckKey(response, k, CountMap(NonEmptyValues(contacts, f))[k], Exact).Pass?)
            <==> FieldCountsAgree(contacts, f, response)
  {
    var vals := NonEmptyValues(contacts, f);
    CompareCountsMeaning(vals, response);
    CountMapMeaning(vals);
    NonEmptyValuesSet(contacts, f);
    forall k | k in vals {
      NonEmptyValuesCount(contacts, f, k);
    }
  }

  /**
   * `check_users_by_state`: count the contacts per state, then compare
   * every state in key order; a missing or different bucket ends the check.
   */
  method CheckUsersByState(contacts: seq<Contact>, response: seq<Entry>) returns (v: Verdict)
    ensures v.Pass? <==> FieldCountsAgree(contacts, STATE, response)
    ensures v.Missing? ==> v.key in StateValues(contacts) && ValueByKey(response, v.key).None?
    ensures v.Mismatch? ==> && v.key in StateValues(contacts)
                            && v.local == |Select(contacts, FieldEquals(STATE, v.key))|
                            && ValueByKey(response, v.key) == Some(v.api) && v.api != v.local
    ensures !v.Pass? ==> FirstFailure(response, Dedup(StateValues(contacts)), k => |Select(contacts, FieldEquals(STATE, k))|, Exact, v)
  {
    var states, order := TallyByState(contacts);
    FieldCompareMeaning(contacts, STATE, response);
    v := CompareAll(response, order, states, Exact);
  }

  /** The API's answer for `state` agrees on every municipality of it. */
  ghost predicate MunsAgree(contacts: seq<Contact>, state: string, response: seq<Entry>) {
    forall k | k in MunValues(contacts, state) :: ValueByKey(response, k) == Some(|Select(contacts, InStateMun(state, k))|)
  }

  /** The check of one state's municipalities passes exactly when they agree. */
  lemma MunCompareMeaning(contacts: seq<Contact>, state: string, response: seq<Entry>)
    requires state != ""
    ensures forall k | k in Dedup(MunValues(contacts, state)) :: k in CountMap(MunValues(contacts, state))
    ensures (forall k | k in Dedup(MunValues(contacts, state)) ::
               CheckKey(response, k, CountMap(MunValues(contacts, state))[k], Exact).Pass?)
            <==> MunsAgree(contacts, state, response)
  {
    var vals := MunValues(contacts, state);
    CompareCountsMeaning(vals, response);
    MunValuesSet(contacts, state);
    forall k | k in vals {
      MunValuesCount(contacts, state, k);
    }
  }

  /** The body of the state loop of `check_users_by_mun`: count the
      contacts of `state` per municipality and compare with its answer. */
  method CheckStateMuns(contacts: seq<Contact>, state: string, result: seq<Entry>) returns (v: Verdict)
    requires state != ""
    ensures v.Pass? <==> MunsAgree(contacts, state, result)
    ensures v.Missing? ==> v.key in MunValues(contacts, state) && ValueByKey(result, v.key).None?
    ensures v.Mismatch? ==> && v.key in MunValues(contacts, state)
                            && v.local == |Select(contacts, InStateMun(state, v.key))|
                            && ValueByKey(result, v.key) == Some(v.api) && v.api != v.local
    ensures !v.Pass? ==> FirstFailure(result, Dedup(MunValues(contacts, state)), k => |Select(contacts, InStateMun(state, k))|, Exact, v)
  {
    var mun, munOrder := TallyMun(contacts, state);
    MunCompareMeaning(contacts, state, result);
    MunTallyMeaning(contacts, state);
    DedupIsKeyOrder(MunValues(contacts, state));
    v := CompareAll(result, munOrder, mun, Exact);
  }

  /**
   * `check_users_by_mun`: for each active state in key order, fetch that
   * state's answer and check its municipalities; the first failure ends
   * the check. `fetch(state)` stands for the `users_by_mun?state=` request.
   */
  method CheckUsersByMun(contacts: seq<Contact>, fetch: string -> seq<Entry>) returns (v: Verdict)
    ensures v.Pass? <==> forall s | s in StateValues(contacts) :: MunsAgree(contacts, s, fetch(s))
    ensures v.Missing? ==> exists s | s in StateValues(contacts) :: v.key in MunValues(contacts, s) && ValueByKey(fetch(s), v.key).None?
    ensures v.Mismatch? ==> exists s | s in StateValues(contacts) ::
      && v.key in MunValues(contacts, s) && v.local == |Select(contacts, InStateMun(s, v.key))|
      && ValueByKey(fetch(s), v.key) == Some(v.api) && v.api != v.local
    ensures !v.Pass? ==> var states := Dedup(StateValues(contacts));
      exists i | 0 <= i < |states| ::
        && (forall j | 0 <= j < i :: MunsAgree(contacts, states[j], fetch(states[j])))
        && FirstFailure(fetch(states[i]), Dedup(MunValues(contacts, states[i])),
                        k => |Select(contacts, InStateMun(states[i], k))|, Exact, v)
  {
    var states, order := GetActiveStates(contacts);
    DedupIsKeyOrder(StateValues(contacts));
    NonEmptyValuesSet(contacts, STATE);
    var j := 0;
    while j < |order|
      invariant 0 <= j <= |order|
      invariant forall i | 0 <= i < j :: MunsAgree(contacts, order[i], fetch(order[i]))
    {
      var state := order[j];
      var result := fetch(state);
      v := CheckStateMuns(contacts, state, result);
      if !v.Pass? {
        assert state in StateValues(contacts);
        return;
      }
      j := j + 1;
    }
    forall s | s in StateValues(contacts) ensures MunsAgree(contacts, s, fetch(s)) {
      var i :| 0 <= i < |order| && order[i] == s;
    }
    v := Pass;
  }

  /** The API value of band `key` is within a tenth of `total` of `local`. */
  predicate BandAgrees(response: seq<Entry>, key: string, local: int, total: int) {
    ValueByKey(response, key).Some? && Accepts(Tolerant(total), local, ValueByKey(response, key).value)
  }

  /** The local count `check_users_by_mom_age` compares with each band. */
  function BandCount(contacts: seq<Contact>, dayDiff: (string, string) -> int): string -> int {
    k => if k == FIRST then |Select(contacts, InAgeBand(Young, dayDiff))|
         else if k == SECOND then |Select(contacts, InAgeBand(Middle, dayDiff))|
         else |Select(contacts, InAgeBand(Mature, dayDiff))|
  }

  /**
   * `check_users_by_mom_age`: count the contacts per band, add the three
   * counts up and compare every band with the ten-per-cent tolerance of
   * that total. The total is the number of contacts counted at all.
   */
  method CheckUsersByMomAge(contacts: seq<Contact>, response: seq<Entry>, dayDiff: (string, string) -> int)
    returns (v: Verdict)
    ensures var total := |Select(contacts, MomAgeCounted(dayDiff))|;
      v.Pass? <==>
        && BandAgrees(response, FIRST, |Select(contacts, InAgeBand(Young, dayDiff))|, total)
        && BandAgrees(response, SECOND, |Select(contacts, InAgeBand(Middle, dayDiff))|, total)
        && BandAgrees(response, THIRD, |Select(contacts, InAgeBand(Mature, dayDiff))|, total)
    ensures v.Missing? ==> v.key in AGE_KEYS && ValueByKey(response, v.key).None?
    ensures v.Mismatch? ==>
      && ValueByKey(response, v.key) == Some(v.api)
      && !Accepts(Tolerant(|Select(contacts, MomAgeCounted(dayDiff))|), v.local, v.api)
      && (|| (v.key == FIRST && v.local == |Select(contacts, InAgeBand(Young, dayDiff))|)
            || (v.key == SECOND && v.local == |Select(contacts, InAgeBand(Middle, dayDiff))|)
            || (v.key == THIRD && v.local == |Select(contacts, InAgeBand(Mature, dayDiff))|))
    ensures !v.Pass? ==>
      FirstFailure(response, AGE_KEYS, BandCount(contacts, dayDiff), Tolerant(|Select(contacts, MomAgeCounted(dayDiff))|), v)
  {
    var ages := TallyMomAge(contacts, dayDiff);
    var totalUsers := SumOf(AGE_KEYS, ages);
    BandTotal(contacts, dayDiff);
    BandCountAgrees(contacts, dayDiff);
    v := CompareAll(response, AGE_KEYS, ages, Tolerant(totalUsers));
    BandsPass(contacts, dayDiff, response, totalUsers);
    if !v.Pass? {
      FirstFailureOfMap(response, AGE_KEYS, ages, BandCount(contacts, dayDiff), Tolerant(totalUsers), v);
      FirstFailureMeaning(response, AGE_KEYS, BandCount(contacts, dayDiff), Tolerant(totalUsers), v);
    }
  }

  /** The age dictionary holds each band's count under that band's key. */
  lemma BandCountAgrees(contacts: seq<Contact>, dayDiff: (string, string) -> int)
    ensures forall k | k in AGE_KEYS :: k in AgeCounts(contacts, dayDiff) && AgeCounts(contacts, dayDiff)[k] == BandCount(contacts, dayDiff)(k)
  {
    AgeKeysDistinct();
  }

  /** Every band passes exactly when each band agrees within the tolerance. */
  lemma BandsPass(contacts: seq<Contact>, dayDiff: (string, string) -> int, response: seq<Entry>, total: int)
    ensures (forall k | k in AGE_KEYS :: CheckKey(response, k, AgeCounts(contacts, dayDiff)[k], Tolerant(total)).Pass?) <==>
      && BandAgrees(response, FIRST, |Select(contacts, InAgeBand(Young, dayDiff))|, total)
      && BandAgrees(response, SECOND, |Select(contacts, InAgeBand(Middle, dayDiff))|, total)
      && BandAgrees(response, THIRD, |Select(contacts, InAgeBand(Mature, dayDiff))|, total)
  {
    AgeKeysDistinct();
    var ages := AgeCounts(contacts, dayDiff);
    assert forall k :: k in AGE_KEYS <==> k == FIRST || k == SECOND || k == THIRD;
    assert ages[FIRST] == |Select(contacts, InAgeBand(Young, dayDiff))|;
    assert ages[SECOND] == |Select(contacts, InAgeBand(Middle, dayDiff))|;
    assert ages[THIRD] == |Select(contacts, InAgeBand(Mature, dayDiff))|;
  }

  /** `sum(ages.values())` is the number of contacts the age check counts. */
  lemma BandTotal(contacts: seq<Contact>, dayDiff: (string, string) -> int)
    ensures SumOf(AGE_KEYS, AgeCounts(contacts, dayDiff)) == |Select(contacts, MomAgeCounted(dayDiff))|
  {
    AgeKeysDistinct();
    SumOfThree(FIRST, SECOND, THIRD, AgeCounts(contacts, dayDiff));
    BandsCoverCounted(contacts, dayDiff);
  }

  /** `check_users_by_hospital`: count the contacts per hospital code and
      compare every code in key order. */
  method CheckUsersByHospital(contacts: seq<Contact>, response: seq<Entry>) returns (v: Verdict)
    ensures v.Pass? <==> FieldCountsAgree(contacts, HOSPITAL, response)
    ensures v.Missing? ==> v.key in HospitalValues(contacts) && ValueByKey(response, v.key).None?
    ensures v.Mismatch? ==> && v.key in HospitalValues(contacts)
                            && v.local == |Select(contacts, FieldEquals(HOSPITAL, v.key))|
                            && ValueByKey(response, v.key) == Some(v.api) && v.api != v.local
    ensures !v.Pass? ==> FirstFailure(response, Dedup(HospitalValues(contacts)), k => |Select(contacts, FieldEquals(HOSPITAL, k))|, Exact, v)
  {
    var hospitals, order := TallyHospitals(contacts);
    FieldCompareMeaning(contacts, HOSPITAL, response);
    v := CompareAll(response, order, hospitals, Exact);
  }

  /** The local count `check_users_by_channels` compares with each bucket. */
  function ChannelCount(contacts: seq<Contact>): string -> int {
    k => if k == SMS then |Select(contacts, OnChannel(Sms))|
         else if k == FACEBOOK then |Select(contacts, OnChannel(Facebook))|
         else if k == TWITTER then |Select(contacts, OnChannel(Twitter))|
         else |Select(contacts, OnChannel(Others))|
  }

  /** The channel dictionary holds each channel's count under its key. */
  lemma ChannelCountAgrees(contacts: seq<Contact>)
    ensures forall k | k in CHANNEL_KEYS :: k in ChannelCounts(contacts) && ChannelCounts(contacts)[k] == ChannelCount(contacts)(k)
  {
    ChannelKeysDistinct();
  }

  /** `check_users_by_channels`: count the contacts per channel and compare
      the sms, facebook, twitter and others buckets in that order. */
  method CheckUsersByChannels(contacts: seq<Contact>, response: seq<Entry>) returns (v: Verdict)
    ensures v.Pass? <==>
      && ValueByKey(response, SMS) == Some(|Select(contacts, OnChannel(Sms))|)
      && ValueByKey(response, FACEBOOK) == Some(|Select(contacts, OnChannel(Facebook))|)
      && ValueByKey(response, TWITTER) == Some(|Select(contacts, OnChannel(Twitter))|)
      && ValueByKey(response, OTHERS) == Some(|Select(contacts, OnChannel(Others))|)
    ensures v.Missing? ==> v.key in CHANNEL_KEYS && ValueByKey(response, v.key).None?
    ensures v.Mismatch? ==>
      && ValueByKey(response, v.key) == Some(v.api) && v.api != v.local
      && (|| (v.key == SMS && v.local == |Select(contacts, OnChannel(Sms))|)
            || (v.key == FACEBOOK && v.local == |Select(contacts, OnChannel(Facebook))|)
            || (v.key == TWITTER && v.local == |Select(contacts, OnChannel(Twitter))|)
            || (v.key == OTHERS && v.local == |Select(contacts, OnChannel(Others))|))
    ensures !v.Pass? ==> FirstFailure(response, CHANNEL_KEYS, ChannelCount(contacts), Exact, v)
  {
    var channels := TallyChannels(contacts);
    ChannelCountAgrees(contacts);
    v := CompareAll(response, CHANNEL_KEYS, channels, Exact);
    if !v.Pass? {
      FirstFailureOfMap(response, CHANNEL_KEYS, channels, ChannelCount(contacts), Exact, v);
      FirstFailureMeaning(response, CHANNEL_KEYS, ChannelCount(contacts), Exact, v);
    }
    assert SMS == CHANNEL_KEYS[0] && FACEBOOK == CHANNEL_KEYS[1] && TWITTER == CHANNEL_KEYS[2] && OTHERS == CHANNEL_KEYS[3];
    CheckKeyExact(response, SMS, channels[SMS]);
    CheckKeyExact(response, FACEBOOK, channels[FACEBOOK]);
    CheckKeyExact(response, TWITTER, channels[TWITTER]);
    CheckKeyExact(response, OTHERS, channels[OTHERS]);
  }
}
