/**
 * The Python dictionaries the checks fill in place. A dictionary is modelled
 * as a `map` together with the sequence of its keys in insertion order
 * (Python 3.7+ iterates `d.keys()` in that order). When a dictionary is
 * filled key by key from a sequence of values, its key order is `Dedup` of
 * that sequence and, when every occurrence adds one, its contents are
 * `CountMap` of it.
 */
module Dicts {

  /** No key occurs twice. */
  predicate NoDup(s: seq<string>) {
    forall i, j | 0 <= i < j < |s| :: s[i] != s[j]
  }

  /** The distinct values of `s` in the order of their first occurrence. */
  function Dedup(s: seq<string>): seq<string> {
    if s == [] then []
    else
      var d := Dedup(s[..|s| - 1]);
      if s[|s| - 1] in d then d else d + [s[|s| - 1]]
  }

  /** `Dedup` lists every value of `s` exactly once and nothing else. */
  lemma {:induction false} DedupIsKeyOrder(s: seq<string>)
    ensures NoDup(Dedup(s))
    ensures forall x :: x in Dedup(s) <==> x in s
  {
    if s != [] {
      var p, x := s[..|s| - 1], s[|s| - 1];
      assert s == p + [x];
      DedupIsKeyOrder(p);
    }
  }

  /** Appending a value appends it to the key order when it is new. */
  lemma DedupSnoc(s: seq<string>, x: string)
    ensures x in s ==> Dedup(s + [x]) == Dedup(s)
    ensures x !in s ==> Dedup(s + [x]) == Dedup(s) + [x]
  {
    assert (s + [x])[..|s|] == s;
    DedupIsKeyOrder(s);
  }

  /** `if x in d: d[x] += 1 else: d[x] = 1`. */
  function Bump(d: map<string, int>, x: string): map<string, int> {
    if x in d then d[x := d[x] + 1] else d[x := 1]
  }

  /** The dictionary `d` after `for v in vals: <Bump d at v>`. */
  function AddCounts(d: map<string, int>, vals: seq<string>): map<string, int> {
    if vals == [] then d
    else Bump(AddCounts(d, vals[..|vals| - 1]), vals[|vals| - 1])
  }

  /** The dictionary obtained by counting `vals` from an empty one. */
  function CountMap(vals: seq<string>): map<string, int> {
    AddCounts(map[], vals)
  }

  /** One more counting step. */
  lemma AddCountsSnoc(d: map<string, int>, vals: seq<string>, x: string)
    ensures AddCounts(d, vals + [x]) == Bump(AddCounts(d, vals), x)
  {
    assert (vals + [x])[..|vals|] == vals;
  }

  /** Counting adds one per occurrence and creates the keys not yet present. */
  lemma {:induction false} AddCountsMeaning(d: map<string, int>, vals: seq<string>)
    ensures forall k :: k in AddCounts(d, vals) <==> k in d || k in vals
    ensures forall k | k in AddCounts(d, vals) ::
      AddCounts(d, vals)[k] == (if k in d then d[k] else 0) + multiset(vals)[k]
  {
    if vals != [] {
      var p, x := vals[..|vals| - 1], vals[|vals| - 1];
      assert vals == p + [x];
      assert multiset(vals) == multiset(p) + multiset{x};
      AddCountsMeaning(d, p);
    }
  }

  /** A counting dictionary holds exactly the values counted, each with its
      number of occurrences. */
  lemma CountMapMeaning(vals: seq<string>)
    ensures forall k :: k in CountMap(vals) <==> k in vals
    ensures forall k | k in CountMap(vals) :: CountMap(vals)[k] == multiset(vals)[k]
  {
    AddCountsMeaning(map[], vals);
  }

  /** Counting values into a dictionary that already holds each of them,
      and nothing else, at 0 gives the same dictionary as counting them
      from an empty one: no key is added. */
  lemma CountFromZeroes(d: map<string, int>, vals: seq<string>)
    requires forall k :: k in d <==> k in vals
    requires forall k | k in d :: d[k] == 0
    ensures AddCounts(d, vals) == CountMap(vals)
  {
    AddCountsMeaning(d, vals);
    CountMapMeaning(vals);
    var a, b := AddCounts(d, vals), CountMap(vals);
    assert a.Keys == b.Keys;
    assert forall k | k in a :: a[k] == b[k];
  }

  /** One step of a counting loop over `seen + [key]`: the dictionary and its
      key order both grow as the loop body says. */
  lemma CountStep(seen: seq<string>, key: string)
    ensures key in CountMap(seen) <==> key in seen
    ensures CountMap(seen + [key]) == Bump(CountMap(seen), key)
    ensures Dedup(seen + [key]) == if key in seen then Dedup(seen) else Dedup(seen) + [key]
  {
    AddCountsMeaning(map[], seen);
    AddCountsSnoc(map[], seen, key);
    DedupSnoc(seen, key);
  }

  /** Python's `sum(m[k] for k in keys)`. */
  function SumOf(keys: seq<string>, m: map<string, int>): int
    requires forall k | k in keys :: k in m
  {
    if keys == [] then 0 else m[keys[0]] + SumOf(keys[1..], m)
  }

  /** The sum over three distinct keys. */
  lemma SumOfThree(a: string, b: string, c: string, m: map<string, int>)
    requires a in m && b in m && c in m
    ensures SumOf([a, b, c], m) == m[a] + m[b] + m[c]
  {
    assert [c][1..] == [];
    assert SumOf([c], m) == m[c];
    assert [b, c][1..] == [c];
    assert SumOf([b, c], m) == m[b] + m[c];
    assert [a, b, c][1..] == [b, c];
  }

  /** Total number of occurrences in `vals` of the keys in `keys`. */
  function Occurrences(keys: seq<string>, vals: seq<string>): nat {
    if keys == [] then 0 else multiset(vals)[keys[0]] + Occurrences(keys[1..], vals)
  }

  lemma {:induction false} OccurrencesOfNothing(keys: seq<string>)
    ensures Occurrences(keys, []) == 0
  {
    if keys != [] {
      OccurrencesOfNothing(keys[1..]);
    }
  }

  lemma {:induction false} OccurrencesSnoc(keys: seq<string>, vals: seq<string>, x: string)
    requires NoDup(keys)
    ensures Occurrences(keys, vals + [x]) == Occurrences(keys, vals) + (if x in keys then 1 else 0)
  {
    if keys != [] {
      assert multiset(vals + [x]) == multiset(vals) + multiset{x};
      assert NoDup(keys[1..]) by {
        forall i, j | 0 <= i < j < |keys[1..]| ensures keys[1..][i] != keys[1..][j] {
          assert keys[1..][i] == keys[i + 1] && keys[1..][j] == keys[j + 1];
        }
      }
      OccurrencesSnoc(keys[1..], vals, x);
      assert x in keys <==> x == keys[0] || x in keys[1..] by {
        assert keys == [keys[0]] + keys[1..];
      }
      if x == keys[0] {
        assert x !in keys[1..] by {
          forall j | 0 <= j < |keys[1..]| ensures keys[1..][j] != x {
            assert keys[1..][j] == keys[j + 1];
          }
        }
      }
    }
  }

  /** When `keys` lists every value of `vals` once, their occurrences add
      up to the length of `vals`. */
  lemma {:induction false} OccurrencesCoverAll(keys: seq<string>, vals: seq<string>)
    requires NoDup(keys)
    requires forall v | v in vals :: v in keys
    ensures Occurrences(keys, vals) == |vals|
  {
    if vals == [] {
      OccurrencesOfNothing(keys);
    } else {
      var p, x := vals[..|vals| - 1], vals[|vals| - 1];
      assert vals == p + [x];
      OccurrencesCoverAll(keys, p);
      OccurrencesSnoc(keys, p, x);
    }
  }

  lemma {:induction false} SumOfCounts(keys: seq<string>, m: map<string, int>, vals: seq<string>)
    requires forall k | k in keys :: k in m && m[k] == multiset(vals)[k]
    ensures SumOf(keys, m) == Occurrences(keys, vals)
  {
    if keys != [] {
      SumOfCounts(keys[1..], m, vals);
    }
  }

  /** The counts of a dictionary filled by counting `vals`, summed over its
      keys in insertion order, give the number of values counted. */
  lemma SumOfCountMap(vals: seq<string>)
    ensures forall k | k in Dedup(vals) :: k in CountMap(vals)
    ensures SumOf(Dedup(vals), CountMap(vals)) == |vals|
  {
    DedupIsKeyOrder(vals);
    CountMapMeaning(vals);
    SumOfCounts(Dedup(vals), CountMap(vals), vals);
    OccurrencesCoverAll(Dedup(vals), vals);
  }
}
