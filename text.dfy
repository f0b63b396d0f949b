/** A small option type for lookups that may find nothing. */
module Optional {
  datatype Option<T> = None | Some(value: T)
}

/**
 * The string tests the classification rules are built from: Python's
 * substring test `sub in s`, the "has a digit" test and the removal of a
 * single trailing period from a date string.
 */
module Text {

  /** Python's `sub in s`: `sub` occurs in `s` at some offset. */
  function Contains(s: string, sub: string): bool
    decreases |s|
  {
    if |sub| > |s| then false
    else if s[..|sub|] == sub then true
    else Contains(s[1..], sub)
  }

  /** `sub` occurs in `s` starting at offset `i`. */
  ghost predicate OccursAt(s: string, sub: string, i: int) {
    0 <= i && i + |sub| <= |s| && s[i..i + |sub|] == sub
  }

  /** The substring test succeeds exactly when some offset holds `sub`. */
  lemma {:induction false} ContainsIff(s: string, sub: string)
    ensures Contains(s, sub) <==> exists i :: OccursAt(s, sub, i)
    decreases |s|
  {
    if |sub| > |s| {
      forall i ensures !OccursAt(s, sub, i) { }
    } else if s[..|sub|] == sub {
      assert OccursAt(s, sub, 0);
    } else {
      ContainsIff(s[1..], sub);
      forall i | OccursAt(s[1..], sub, i) ensures OccursAt(s, sub, i + 1) {
        assert s[1..][i..i + |sub|] == s[i + 1..i + 1 + |sub|];
      }
      forall i | OccursAt(s, sub, i) ensures OccursAt(s[1..], sub, i - 1) {
        assert i != 0;
        assert s[1..][i - 1..i - 1 + |sub|] == s[i..i + |sub|];
      }
    }
  }

  /** A substring of a substring is a substring: every string that
      contains `outer` contains each string `outer` contains. */
  lemma ContainsTransitive(s: string, outer: string, inner: string)
    requires Contains(s, outer) && Contains(outer, inner)
    ensures Contains(s, inner)
  {
    ContainsIff(s, outer);
    ContainsIff(outer, inner);
    ContainsIff(s, inner);
    var i :| OccursAt(s, outer, i);
    var j :| OccursAt(outer, inner, j);
    forall k | 0 <= k < |inner| ensures inner[k] == s[i + j + k] {
      assert inner[k] == outer[j..j + |inner|][k] == outer[j + k];
      assert outer[j + k] == s[i..i + |outer|][j + k] == s[i + j + k];
    }
    assert s[i + j..i + j + |inner|] == inner;
    assert OccursAt(s, inner, i + j);
  }

  /** Python's `str.isdigit` on one character, restricted to ASCII digits. */
  predicate IsDigit(ch: char) {
    '0' <= ch <= '9'
  }

  /** `any(char.isdigit() for char in s)`. */
  predicate HasDigit(s: string) {
    exists i | 0 <= i < |s| :: IsDigit(s[i])
  }

  /** `s[:-1] if s[-1] == "." else s`; indexing `s[-1]` needs a non-empty string. */
  function StripTrailingDot(s: string): (r: string)
    requires |s| > 0
    ensures |r| <= |s| && r == s[..|r|]
    ensures |r| == |s| - 1 <==> s[|s| - 1] == '.'
    ensures |r| == |s| <==> s[|s| - 1] != '.'
  {
    if s[|s| - 1] == '.' then s[..|s| - 1] else s
  }

  /** Removing the trailing period never changes whether the string has a digit. */
  lemma StripKeepsDigits(s: string)
    requires |s| > 0
    ensures HasDigit(StripTrailingDot(s)) <==> HasDigit(s)
  {
    var r := StripTrailingDot(s);
    if HasDigit(s) {
      var i :| 0 <= i < |s| && IsDigit(s[i]);
      assert i < |r| && r[i] == s[i];
    }
    if HasDigit(r) {
      var i :| 0 <= i < |r| && IsDigit(r[i]);
      assert s[i] == r[i];
    }
  }
}
