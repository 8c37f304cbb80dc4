/**
 * String tests the models rely on: substring containment (JavaScript's
 * `includes`, and SQL's `LIKE '%key%'` read case-sensitively with no
 * wildcard characters in the key) and ASCII lower-casing (`toLowerCase`).
 */
module Text {

  /** `name.includes(key)`: `key` occurs in `name` at some offset. */
  predicate Includes(name: string, key: string)
    ensures Includes(name, key) ==> |key| <= |name|
    ensures key == [] ==> Includes(name, key)
    decreases |name|
  {
    (|key| <= |name| && name[..|key|] == key) || (|name| > 0 && Includes(name[1..], key))
  }

  /** An occurrence of `key` at offset `i` makes `name.includes(key)` true. */
  lemma {:induction false} IncludesAt(name: string, key: string, i: nat)
    requires i + |key| <= |name| && name[i..i + |key|] == key
    ensures Includes(name, key)
    decreases i
  {
    if i > 0 {
      assert name[1..][i - 1..i - 1 + |key|] == name[i..i + |key|];
      IncludesAt(name[1..], key, i - 1);
    }
  }

  /** Conversely, `name.includes(key)` names an offset where `key` occurs. */
  lemma {:induction false} IncludesOffset(name: string, key: string) returns (i: nat)
    requires Includes(name, key)
    ensures i + |key| <= |name| && name[i..i + |key|] == key
    decreases |name|
  {
    if |key| <= |name| && name[..|key|] == key {
      i := 0;
    } else {
      var j := IncludesOffset(name[1..], key);
      assert name[1..][j..j + |key|] == name[j + 1..j + 1 + |key|];
      i := j + 1;
    }
  }

  /** `toLowerCase` on one character, for the ASCII letters. */
  function LowerChar(c: char): char
  {
    if 'A' <= c <= 'Z' then (c as int + 32) as char else c
  }

  /** `s.toLowerCase()`, for ASCII text. */
  function Lower(s: string): (r: string)
    ensures |r| == |s|
    ensures forall i :: 0 <= i < |s| ==> r[i] == LowerChar(s[i])
  {
    if s == [] then [] else [LowerChar(s[0])] + Lower(s[1..])
  }

  /** `c` and `d` are the same letter, ignoring ASCII case. */
  predicate SameLetter(c: char, d: char)
  {
    || c == d
    || ('A' <= c <= 'Z' && c as int + 32 == d as int)
    || ('A' <= d <= 'Z' && d as int + 32 == c as int)
  }

  /** `a` and `b` spell the same text up to ASCII case. */
  predicate EqualsIgnoringCase(a: string, b: string)
  {
    |a| == |b| && forall i :: 0 <= i < |a| ==> SameLetter(a[i], b[i])
  }

  /** A string with no upper-case ASCII letter. */
  predicate IsLowerCase(s: string)
  {
    forall i :: 0 <= i < |s| ==> !('A' <= s[i] <= 'Z')
  }

  /** Lower-casing `a` gives the lower-case `b` exactly when `a` equals `b` up to case. */
  lemma LowerMatches(a: string, b: string)
    requires IsLowerCase(b)
    ensures Lower(a) == b <==> EqualsIgnoringCase(a, b)
  {
    if EqualsIgnoringCase(a, b) {
      forall i | 0 <= i < |a|
        ensures Lower(a)[i] == b[i]
      {
        assert SameLetter(a[i], b[i]);
      }
    }
    if Lower(a) == b {
      forall i | 0 <= i < |a|
        ensures SameLetter(a[i], b[i])
      {
        assert LowerChar(a[i]) == b[i];
      }
    }
  }
}
