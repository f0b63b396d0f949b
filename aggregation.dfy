/**
 * The loops of the checks that fill dictionaries in place, each proved
 * against the dictionary it must produce: `CountMap` of the values it
 * counts, with keys in `Dedup` (insertion) order.
 */
module Aggregation {
  import opened Dicts
  import opened Contacts

  /** The non-empty state numbers of the contacts, in contact order. */
  function StateValues(contacts: seq<Contact>): seq<string> {
    NonEmptyValues(contacts, STATE)
  }

  /** The non-empty hospital codes of the contacts, in contact order. */
  function HospitalValues(contacts: seq<Contact>): seq<string> {
    NonEmptyValues(contacts, HOSPITAL)
  }

  lemma NonEmptyValuesPrefix(cs: seq<Contact>, f: string, i: nat)
    requires i < |cs|
    ensures Field(cs[i], f) == "" ==> NonEmptyValues(cs[..i + 1], f) == NonEmptyValues(cs[..i], f)
    ensures Field(cs[i], f) != "" ==> NonEmptyValues(cs[..i + 1], f) == NonEmptyValues(cs[..i], f) + [Field(cs[i], f)]
  {
    assert cs[..i + 1][..i] == cs[..i];
    assert NonEmptyValues(cs[..i], f) + [] == NonEmptyValues(cs[..i], f);
  }

  lemma SelectPrefix(cs: seq<Contact>, sel: Selector, i: nat)
    requires i < |cs|
    ensures Selects(sel, cs[i]) ==> |Select(cs[..i + 1], sel)| == |Select(cs[..i], sel)| + 1
    ensures !Selects(sel, cs[i]) ==> |Select(cs[..i + 1], sel)| == |Select(cs[..i], sel)|
  {
    assert cs[..i + 1][..i] == cs[..i];
  }

  lemma NonEmptyValueAt(cs: seq<Contact>, f: string, i: nat)
    requires i < |cs| && Field(cs[i], f) != ""
    ensures Field(cs[i], f) in NonEmptyValues(cs, f)
  {
    NonEmptyValuesMembers(cs, f, Field(cs[i], f));
  }

  lemma MunValuesPrefix(cs: seq<Contact>, state: string, i: nat)
    requires i < |cs|
    ensures !CountedInState(cs[i], state) ==> MunValues(cs[..i + 1], state) == MunValues(cs[..i], state)
    ensures CountedInState(cs[i], state) ==> MunValues(cs[..i + 1], state) == MunValues(cs[..i], state) + [Field(cs[i], MUN)]
  {
    assert cs[..i + 1][..i] == cs[..i];
    assert MunValues(cs[..i], state) + [] == MunValues(cs[..i], state);
  }

  /** A per-field tally holds exactly the non-empty values of the field,
      each with the number of contacts carrying it. */
  lemma FieldTallyMeaning(contacts: seq<Contact>, f: string)
    ensures forall k :: k in CountMap(NonEmptyValues(contacts, f)) <==>
      k != "" && exists i :: 0 <= i < |contacts| && Field(contacts[i], f) == k
    ensures forall k | k in CountMap(NonEmptyValues(contacts, f)) ::
      CountMap(NonEmptyValues(contacts, f))[k] == |Select(contacts, FieldEquals(f, k))|
  {
    var vals := NonEmptyValues(contacts, f);
    CountMapMeaning(vals);
    forall k ensures k in vals <==> k != "" && exists i :: 0 <= i < |contacts| && Field(contacts[i], f) == k {
      NonEmptyValuesMembers(contacts, f, k);
    }
    NonEmptyValuesSet(contacts, f);
    forall k | k in vals ensures multiset(vals)[k] == |Select(contacts, FieldEquals(f, k))| {
      NonEmptyValuesCount(contacts, f, k);
    }
  }

  /** The counts of a per-field tally, summed in key order, give the number
      of contacts whose field is set. */
  lemma FieldTallySum(contacts: seq<Contact>, f: string)
    ensures forall k | k in Dedup(NonEmptyValues(contacts, f)) :: k in CountMap(NonEmptyValues(contacts, f))
    ensures SumOf(Dedup(NonEmptyValues(contacts, f)), CountMap(NonEmptyValues(contacts, f))) == |Select(contacts, FieldSet(f))|
  {
    SumOfCountMap(NonEmptyValues(contacts, f));
    NonEmptyValuesSet(contacts, f);
  }

  /** The municipality tally of a state holds exactly the non-empty codes
      some contact of that state carries, each with the number of contacts
      of that state and municipality. */
  lemma MunTallyMeaning(contacts: seq<Contact>, state: string)
    ensures state == "" ==> CountMap(MunValues(contacts, state)) == map[]
    ensures state != "" ==> forall k :: k in CountMap(MunValues(contacts, state)) <==>
      k != "" && |Select(contacts, InStateMun(state, k))| > 0
    ensures forall k | k in CountMap(MunValues(contacts, state)) ::
      k != "" && CountMap(MunValues(contacts, state))[k] == |Select(contacts, InStateMun(state, k))|
  {
    var vals := MunValues(contacts, state);
    CountMapMeaning(vals);
    MunValuesSet(contacts, state);
    if state != "" {
      forall k | k != "" ensures multiset(vals)[k] == |Select(contacts, InStateMun(state, k))| {
        MunValuesCount(contacts, state, k);
      }
    }
  }

  /**
   * `get_active_states`: a dictionary holding 0 under every non-empty state
   * number of the contacts, keys in first-occurrence order.
   */
  method GetActiveStates(contacts: seq<Contact>) returns (states: map<string, int>, order: seq<string>)
    ensures forall k :: k in states <==> k in StateValues(contacts)
    ensures forall k | k in states :: states[k] == 0
    ensures order == Dedup(StateValues(contacts))
  {
    states, order := map[], [];
    ghost var seen: seq<string> := [];
    var i := 0;
    while i < |contacts|
      invariant 0 <= i <= |contacts|
      invariant seen == NonEmptyValues(contacts[..i], STATE)
      invariant forall k :: k in states <==> k in seen
      invariant forall k | k in states :: states[k] == 0
      invariant order == Dedup(seen)
    {
      var key := Field(contacts[i], STATE);
      NonEmptyValuesPrefix(contacts, STATE, i);
      if key != "" {
        DedupSnoc(seen, key);
        if key !in states {
          order := order + [key];
        }
        states := states[key := 0];
        seen := seen + [key];
      }
      i := i + 1;
    }
    assert contacts[..i] == contacts;
  }

  /**
   * The counting loop of `check_users_by_state`: starting from the active
   * states, add one under the state of every contact that has one. The
   * `else` branch of the source never runs: every non-empty state is
   * already a key, so the key order stays that of the active states.
   */
  method TallyByState(contacts: seq<Contact>) returns (states: map<string, int>, order: seq<string>)
    ensures states == CountMap(StateValues(contacts))
    ensures forall k :: k in states <==> k in StateValues(contacts)
    ensures order == Dedup(StateValues(contacts))
  {
    ghost var all := StateValues(contacts);
    states, order := GetActiveStates(contacts);
    ghost var zeroes := states;
    ghost var seen: seq<string> := [];
    var i := 0;
    while i < |contacts|
      invariant 0 <= i <= |contacts|
      invariant seen == NonEmptyValues(contacts[..i], STATE)
      invariant states == AddCounts(zeroes, seen)
      invariant states.Keys == zeroes.Keys
      invariant order == Dedup(all)
    {
      var key := Field(contacts[i], STATE);
      NonEmptyValuesPrefix(contacts, STATE, i);
      if key != "" {
        NonEmptyValueAt(contacts, STATE, i);
        assert key in zeroes;
        assert key in states;
        AddCountsSnoc(zeroes, seen, key);
        if key !in states {
          order := order + [key];
        }
        states := Bump(states, key);
        seen := seen + [key];
      }
      i := i + 1;
    }
    assert contacts[..i] == contacts;
    CountFromZeroes(zeroes, all);
    CountMapMeaning(all);
  }

  /**
   * The counting loop of `check_users_by_mun` for one state: the number of
   * contacts of that state under each non-empty municipality code.
   */
  method TallyMun(contacts: seq<Contact>, state: string) returns (mun: map<string, int>, order: seq<string>)
    ensures mun == CountMap(MunValues(contacts, state))
    ensures order == Dedup(MunValues(contacts, state))
  {
    mun, order := map[], [];
    ghost var seen: seq<string> := [];
    var i := 0;
    while i < |contacts|
      invariant 0 <= i <= |contacts|
      invariant seen == MunValues(contacts[..i], state)
      invariant mun == CountMap(seen)
      invariant order == Dedup(seen)
    {
      var thisState := Field(contacts[i], STATE);
      var key := Field(contacts[i], MUN);
      MunValuesPrefix(contacts, state, i);
      if !(thisState != "" && thisState == state && key != "") {
        i := i + 1;
        continue;
      }
      CountStep(seen, key);
      if key !in mun {
        order := order + [key];
      }
      mun := Bump(mun, key);
      seen := seen + [key];
      i := i + 1;
    }
    assert contacts[..i] == contacts;
    assert seen == MunValues(contacts, state);
  }

  /**
   * The counting loop of `check_users_by_hospital`: contacts without a
   * hospital code are skipped, the others counted under their code.
   */
  method TallyHospitals(contacts: seq<Contact>) returns (hospitals: map<string, int>, order: seq<string>)
    ensures hospitals == CountMap(HospitalValues(contacts))
    ensures order == Dedup(HospitalValues(contacts))
  {
    hospitals, order := map[], [];
    ghost var seen: seq<string> := [];
    var i := 0;
    while i < |contacts|
      invariant 0 <= i <= |contacts|
      invariant seen == NonEmptyValues(contacts[..i], HOSPITAL)
      invariant hospitals == CountMap(seen)
      invariant order == Dedup(seen)
    {
      var key := Field(contacts[i], HOSPITAL);
      NonEmptyValuesPrefix(contacts, HOSPITAL, i);
      if key == "" {
        i := i + 1;
        continue;
      }
      CountStep(seen, key);
      if key !in hospitals {
        order := order + [key];
      }
      hospitals := Bump(hospitals, key);
      seen := seen + [key];
      i := i + 1;
    }
    assert contacts[..i] == contacts;
    assert seen == HospitalValues(contacts);
  }

  // Bucket names of the channel check, in the dictionary's key order.
  const SMS := "sms"
  const FACEBOOK := "facebook"
  const TWITTER := "twitter"
  const OTHERS := "others"
  const CHANNEL_KEYS := [SMS, FACEBOOK, TWITTER, OTHERS]

  lemma ChannelKeysDistinct()
    ensures SMS != FACEBOOK && SMS != TWITTER && SMS != OTHERS
    ensures FACEBOOK != TWITTER && FACEBOOK != OTHERS && TWITTER != OTHERS
  {
    assert |SMS| == 3 && |FACEBOOK| == 8 && |TWITTER| == 7 && |OTHERS| == 6;
  }

  /** The dictionary the channel check must produce. */
  function ChannelCounts(contacts: seq<Contact>): map<string, int> {
    map[SMS := |Select(contacts, OnChannel(Sms))|,
        FACEBOOK := |Select(contacts, OnChannel(Facebook))|,
        TWITTER := |Select(contacts, OnChannel(Twitter))|,
        OTHERS := |Select(contacts, OnChannel(Others))|]
  }

  /**
   * The counting loop of `check_users_by_channels`: each contact adds one
   * to the first of sms, facebook, twitter whose URN test it passes, or to
   * others.
   */
  method TallyChannels(contacts: seq<Contact>) returns (channels: map<string, int>)
    ensures channels == ChannelCounts(contacts)
  {
    ChannelKeysDistinct();
    channels := map[SMS := 0, FACEBOOK := 0, TWITTER := 0, OTHERS := 0];
    var i := 0;
    while i < |contacts|
      invariant 0 <= i <= |contacts|
      invariant channels.Keys == {SMS, FACEBOOK, TWITTER, OTHERS}
      invariant channels[SMS] == |Select(contacts[..i], OnChannel(Sms))|
      invariant channels[FACEBOOK] == |Select(contacts[..i], OnChannel(Facebook))|
      invariant channels[TWITTER] == |Select(contacts[..i], OnChannel(Twitter))|
      invariant channels[OTHERS] == |Select(contacts[..i], OnChannel(Others))|
    {
      var c := contacts[i];
      SelectPrefix(contacts, OnChannel(Sms), i);
      SelectPrefix(contacts, OnChannel(Facebook), i);
      SelectPrefix(contacts, OnChannel(Twitter), i);
      SelectPrefix(contacts, OnChannel(Others), i);
      var channel := ChannelOf(c);
      if channel == Sms {
        channels := channels[SMS := channels[SMS] + 1];
      } else if channel == Facebook {
        channels := channels[FACEBOOK := channels[FACEBOOK] + 1];
      } else if channel == Twitter {
        channels := channels[TWITTER := channels[TWITTER] + 1];
      } else {
        channels := channels[OTHERS := channels[OTHERS] + 1];
      }
      i := i + 1;
    }
    assert contacts[..i] == contacts;
  }

  // Bucket names of the mother's-age check, in the dictionary's key order.
  const FIRST := "0.0-19.0"
  const SECOND := "19.0-35.0"
  const THIRD := "35.0-*"
  const AGE_KEYS := [FIRST, SECOND, THIRD]

  lemma AgeKeysDistinct()
    ensures FIRST != SECOND && FIRST != THIRD && SECOND != THIRD
  {
    assert |FIRST| == 8 && |SECOND| == 9 && |THIRD| == 6;
  }

  /** The dictionary the mother's-age check must produce. */
  function AgeCounts(contacts: seq<Contact>, dayDiff: (string, string) -> int): map<string, int> {
    map[FIRST := |Select(contacts, InAgeBand(Young, dayDiff))|,
        SECOND := |Select(contacts, InAgeBand(Middle, dayDiff))|,
        THIRD := |Select(contacts, InAgeBand(Mature, dayDiff))|]
  }

  /**
   * The counting loop of `check_users_by_mom_age`: a pregnant or puerperium
   * contact with both date strings set and holding digits adds one to each
   * band whose test its age passes.
   */
  method TallyMomAge(contacts: seq<Contact>, dayDiff: (string, string) -> int) returns (ages: map<string, int>)
    ensures ages == AgeCounts(contacts, dayDiff)
  {
    AgeKeysDistinct();
    ages := map[FIRST := 0, SECOND := 0, THIRD := 0];
    var i := 0;
    while i < |contacts|
      invariant 0 <= i <= |contacts|
      invariant ages.Keys == {FIRST, SECOND, THIRD}
      invariant ages[FIRST] == |Select(contacts[..i], InAgeBand(Young, dayDiff))|
      invariant ages[SECOND] == |Select(contacts[..i], InAgeBand(Middle, dayDiff))|
      invariant ages[THIRD] == |Select(contacts[..i], InAgeBand(Mature, dayDiff))|
    {
      var c := contacts[i];
      SelectPrefix(contacts, InAgeBand(Young, dayDiff), i);
      SelectPrefix(contacts, InAgeBand(Middle, dayDiff), i);
      SelectPrefix(contacts, InAgeBand(Mature, dayDiff), i);
      var age := MomAgeDays(c, dayDiff);
      if age.Some? {
        var days := age.value;
        if 4 * days <= 19 * DAYS_IN_4_YEARS {
          ages := ages[FIRST := ages[FIRST] + 1];
        }
        if 4 * days >= 35 * DAYS_IN_4_YEARS {
          ages := ages[THIRD := ages[THIRD] + 1];
        }
        if 4 * days > 19 * DAYS_IN_4_YEARS && 4 * days < 35 * DAYS_IN_4_YEARS {
          ages := ages[SECOND := ages[SECOND] + 1];
        }
      }
      i := i + 1;
    }
    assert contacts[..i] == contacts;
  }

  /**
   * `get_contacts_by_group`: the contacts that have a group named exactly
   * `group`, in input order.
   */
  method ContactsByGroup(contacts: seq<Contact>, group: string) returns (listGroup: seq<Contact>)
    ensures listGroup == Select(contacts, MemberOf(group))
  {
    listGroup := [];
    var i := 0;
    while i < |contacts|
      invariant 0 <= i <= |contacts|
      invariant listGroup == Select(contacts[..i], MemberOf(group))
    {
      var c := contacts[i];
      assert contacts[..i + 1][..i] == contacts[..i];
      assert contacts[..i + 1][i] == c;
      var groups := c.groups;
      if group in groups {
        listGroup := listGroup + [c];
      }
      i := i + 1;
    }
    assert contacts[..i] == contacts;
  }
}
