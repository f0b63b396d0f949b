/**
 * The reporting API's answer and how a locally computed count is compared
 * with it. An answer is the `response` array of the JSON body: entries
 * naming their bucket under `group` or `key`, each with a `count`.
 */
module Reporting {
  import opened Optional

  /** One entry of the `response` array; a missing field is None. */
  datatype Entry = Entry(group: Option<string>, key: Option<string>, count: int)

  /** `("group" in item and item["group"] == key) or ("key" in item and item["key"] == key)`. */
  predicate Matches(e: Entry, key: string) {
    e.group == Some(key) || e.key == Some(key)
  }

  /**
   * `get_value_by_key`: the count of the first entry, in response order,
   * that names `key`. None stands for the IndexError of `items[0]` when no
   * entry names it; there is no default value.
   */
  function ValueByKey(response: seq<Entry>, key: string): (r: Option<int>)
    ensures r.None? <==> forall i | 0 <= i < |response| :: !Matches(response[i], key)
    ensures r.Some? ==> exists i | 0 <= i < |response| ::
      && Matches(response[i], key)
      && r.value == response[i].count
      && forall j | 0 <= j < i :: !Matches(response[j], key)
  {
    if response == [] then None
    else if Matches(response[0], key) then Some(response[0].count)
    else
      var r := ValueByKey(response[1..], key);
      assert forall j | 1 <= j < |response| :: response[j] == response[1..][j - 1];
      r
  }

  /** Exact comparison, or the ten-per-cent tolerance of the mother's-age
      check, where `total` is the sum of that check's local counts. */
  datatype Policy = Exact | Tolerant(total: int)

  /**
   * Whether the API value passes. The tolerant test is
   * `api == local or (local - total * .1 <= api <= local + total * .1)`,
   * written with both sides multiplied by 10.
   */
  predicate Accepts(policy: Policy, local: int, api: int) {
    match policy
    case Exact => api == local
    case Tolerant(total) => api == local || (10 * api <= 10 * local + total && 10 * api >= 10 * local - total)
  }

  /** The tolerant test accepts exactly the values within a tenth of the
      total of the local count. */
  lemma TolerantIsBand(total: nat, local: int, api: int)
    ensures Accepts(Tolerant(total), local, api) <==> 10 * (api - local) <= total && 10 * (local - api) <= total
  {
  }

  /** When the total is a multiple of ten, the bounds `local +- total / 10`
      pass and one unit beyond either bound fails. */
  lemma TolerantBoundary(q: nat, local: int)
    ensures Accepts(Tolerant(10 * q), local, local + q)
    ensures Accepts(Tolerant(10 * q), local, local - q)
    ensures !Accepts(Tolerant(10 * q), local, local + q + 1)
    ensures !Accepts(Tolerant(10 * q), local, local - q - 1)
  {
  }

  /** The outcome of one check: all buckets agreed, a bucket is missing from
      the answer (IndexError), or a bucket disagrees (AssertionError). */
  datatype Verdict = Pass | Missing(key: string) | Mismatch(key: string, local: int, api: int)

  /** `api_value = get_value_by_key(result, key); assert <policy holds>`. */
  function CheckKey(response: seq<Entry>, key: string, local: int, policy: Policy): (v: Verdict)
    ensures v.Pass? <==> ValueByKey(response, key).Some? && Accepts(policy, local, ValueByKey(response, key).value)
    ensures v.Missing? <==> ValueByKey(response, key).None?
    ensures v.Missing? ==> v.key == key
    ensures v.Mismatch? ==> && v.key == key && v.local == local
                            && ValueByKey(response, key) == Some(v.api) && !Accepts(policy, local, v.api)
  {
    match ValueByKey(response, key)
    case None => Missing(key)
    case Some(api) => if Accepts(policy, local, api) then Pass else Mismatch(key, local, api)
  }

  /** With exact comparison a bucket passes when the answer names it with
      exactly the local count. */
  lemma CheckKeyExact(response: seq<Entry>, key: string, local: int)
    ensures CheckKey(response, key, local, Exact).Pass? <==> ValueByKey(response, key) == Some(local)
  {
  }

  /** `v` is the verdict of the first of `keys` whose check fails, comparing
      each key against `localOf(key)`, and every earlier key passes: the
      checks stop at the first statement that raises. */
  ghost predicate FirstFailure(response: seq<Entry>, keys: seq<string>, localOf: string -> int, policy: Policy, v: Verdict) {
    && !v.Pass?
    && exists i | 0 <= i < |keys| ::
      && v == CheckKey(response, keys[i], localOf(keys[i]), policy)
      && forall j | 0 <= j < i :: CheckKey(response, keys[j], localOf(keys[j]), policy).Pass?
  }

  /** The failure at index `i` is the first failure. */
  lemma FirstFailureAt(response: seq<Entry>, keys: seq<string>, localOf: string -> int, policy: Policy, v: Verdict, i: nat)
    requires i < |keys| && v == CheckKey(response, keys[i], localOf(keys[i]), policy) && !v.Pass?
    requires forall j | 0 <= j < i :: CheckKey(response, keys[j], localOf(keys[j]), policy).Pass?
    ensures FirstFailure(response, keys, localOf, policy, v)
  {
  }

  /** A first failure over a dictionary's values is a first failure over
      any count function that agrees with the dictionary on `keys`. */
  lemma FirstFailureOfMap(response: seq<Entry>, keys: seq<string>, local: map<string, int>,
                          localOf: string -> int, policy: Policy, v: Verdict)
    requires forall k | k in keys :: k in local && local[k] == localOf(k)
    requires !v.Pass?
    requires exists i | 0 <= i < |keys| ::
      && v == CheckKey(response, keys[i], local[keys[i]], policy)
      && forall j | 0 <= j < i :: CheckKey(response, keys[j], local[keys[j]], policy).Pass?
    ensures FirstFailure(response, keys, localOf, policy, v)
  {
    var i :| 0 <= i < |keys| && v == CheckKey(response, keys[i], local[keys[i]], policy)
      && forall j | 0 <= j < i :: CheckKey(response, keys[j], local[keys[j]], policy).Pass?;
    assert keys[i] in keys;
    forall j | 0 <= j < i ensures CheckKey(response, keys[j], localOf(keys[j]), policy).Pass? {
      assert keys[j] in keys;
    }
    FirstFailureAt(response, keys, localOf, policy, v, i);
  }

  /** The first failure is a missing bucket or a mismatch of one of `keys`,
      with that key's local count. */
  lemma FirstFailureMeaning(response: seq<Entry>, keys: seq<string>, localOf: string -> int, policy: Policy, v: Verdict)
    requires FirstFailure(response, keys, localOf, policy, v)
    ensures v.Missing? ==> v.key in keys && ValueByKey(response, v.key).None?
    ensures v.Mismatch? ==> && v.key in keys && v.local == localOf(v.key)
                            && ValueByKey(response, v.key) == Some(v.api) && !Accepts(policy, v.local, v.api)
  {
    var i :| 0 <= i < |keys| && v == CheckKey(response, keys[i], localOf(keys[i]), policy);
  }

  /**
   * The `for key in d.keys(): api_value = get_value_by_key(result, key);
   * assert ...` loop: the buckets are compared in key order and the first
   * failing bucket ends the check.
   */
  method CompareAll(response: seq<Entry>, keys: seq<string>, local: map<string, int>, policy: Policy)
    returns (v: Verdict)
    requires forall k | k in keys :: k in local
    ensures v.Pass? <==> forall k | k in keys :: CheckKey(response, k, local[k], policy).Pass?
    ensures !v.Pass? ==> exists i | 0 <= i < |keys| ::
      && v == CheckKey(response, keys[i], local[keys[i]], policy)
      && forall j | 0 <= j < i :: CheckKey(response, keys[j], local[keys[j]], policy).Pass?
  {
    var i := 0;
    while i < |keys|
      invariant 0 <= i <= |keys|
      invariant forall j | 0 <= j < i :: CheckKey(response, keys[j], local[keys[j]], policy).Pass?
    {
      var key := keys[i];
      var apiValue := ValueByKey(response, key);
      assert key in keys;
      if apiValue.None? {
        return Missing(key);
      }
      if !Accepts(policy, local[key], apiValue.value) {
        return Mismatch(key, local[key], apiValue.value);
      }
      i := i + 1;
    }
    return Pass;
  }
}
