/**
  The two string operations the search uses: `toLowerCase` and `includes`.
  Case mapping is a fixed character table (Latin A-Z, Cyrillic А-Я and Ё);
  the rest of Unicode case mapping is not modelled.
 */
module Text {

  /** True iff `c` is one of the capital letters the case table covers. */
  predicate IsUpper(c: char) {
    ('A' <= c <= 'Z') || ('А' <= c <= 'Я') || c == 'Ё'
  }

  /** Lower-cases one character; characters outside the table are kept. */
  function LowerChar(c: char): (d: char)
    ensures !IsUpper(d)
    ensures !IsUpper(c) ==> d == c
    ensures IsUpper(c) ==> d != c
  {
    if 'A' <= c <= 'Z' then (c as int + 32) as char
    else if 'А' <= c <= 'Я' then (c as int + 32) as char
    else if c == 'Ё' then 'ё'
    else c
  }

  /** Lower-cases a string character by character. */
  function Lower(s: string): (r: string)
    ensures |r| == |s|
    ensures forall i :: 0 <= i < |s| ==> r[i] == LowerChar(s[i])
  {
    seq(|s|, i requires 0 <= i < |s| => LowerChar(s[i]))
  }

  /** `t` occurs in `s` starting at index `i`. */
  predicate OccursAt(s: string, t: string, i: int) {
    0 <= i && i + |t| <= |s| && s[i..i + |t|] == t
  }

  /** `s.includes(t)`: `t` occurs somewhere in `s` (the empty string occurs
      everywhere). */
  predicate Contains(s: string, t: string) {
    exists i | 0 <= i <= |s| - |t| :: OccursAt(s, t, i)
  }

  /** The left-to-right scan behind `String.prototype.includes`. */
  method Includes(s: string, t: string) returns (found: bool)
    ensures found <==> Contains(s, t)
  {
    if |t| > |s| {
      return false;
    }
    var i := 0;
    while i <= |s| - |t|
      invariant 0 <= i <= |s| - |t| + 1
      invariant forall j :: 0 <= j < i ==> !OccursAt(s, t, j)
    {
      if s[i..i + |t|] == t {
        assert OccursAt(s, t, i);
        return true;
      }
      i := i + 1;
    }
    return false;
  }

  /** Lower-casing twice is lower-casing once. */
  lemma LowerIdempotent(s: string)
    ensures Lower(Lower(s)) == Lower(s)
  {
  }

  /** Lower-casing works piecewise on a concatenation. */
  lemma LowerAppend(a: string, b: string)
    ensures Lower(a + b) == Lower(a) + Lower(b)
  {
  }

  /** The empty query is found in every string. */
  lemma ContainsEmpty(s: string)
    ensures Contains(s, [])
  {
    assert OccursAt(s, [], 0);
  }

  /** Every string contains itself. */
  lemma ContainsSelf(s: string)
    ensures Contains(s, s)
  {
    assert OccursAt(s, s, 0);
  }

  /** A string contains each middle part of a concatenation. */
  lemma ContainsInfix(a: string, t: string, b: string)
    ensures Contains(a + t + b, t)
  {
    assert (a + t + b)[|a|..|a| + |t|] == t;
    assert OccursAt(a + t + b, t, |a|);
  }

  /** An occurrence at `i` fixes the character at `i + k` to `t[k]`. */
  lemma OccursAtChar(s: string, t: string, i: int, k: int)
    requires OccursAt(s, t, i)
    requires 0 <= k < |t|
    ensures s[i + k] == t[k]
  {
    assert s[i + k] == s[i..i + |t|][k];
  }

  /** A string that contains `t` contains each character of `t`. */
  lemma ContainsChar(s: string, t: string, k: int)
    requires Contains(s, t)
    requires 0 <= k < |t|
    ensures t[k] in s
  {
    var i :| 0 <= i <= |s| - |t| && OccursAt(s, t, i);
    OccursAtChar(s, t, i, k);
  }

  /** A character of a lower-cased string is the image of one of the
      original's characters. */
  lemma InLower(s: string, c: char)
    requires c in Lower(s)
    ensures exists u :: u in s && LowerChar(u) == c
  {
    var i :| 0 <= i < |s| && Lower(s)[i] == c;
    assert s[i] in s;
  }

  /** If neither the letter `c` nor its capital `cap` occurs in `s`, no query
      whose `k`-th character lower-cases to `c` is found in `Lower(s)`. */
  lemma AbsentLetter(s: string, q: string, k: int, c: char, cap: char)
    requires 0 <= k < |q| && LowerChar(q[k]) == c
    requires forall u :: LowerChar(u) == c ==> u == c || u == cap
    requires c !in s && cap !in s
    ensures !Contains(Lower(s), Lower(q))
  {
    if Contains(Lower(s), Lower(q)) {
      ContainsChar(Lower(s), Lower(q), k);
      InLower(s, c);
    }
  }
}
