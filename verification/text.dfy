/**
 The two string operations the name filter relies on: lower-casing, as
 `String.prototype.toLowerCase` performs it on ASCII letters, and the substring
 test of `String.prototype.includes`.
 */
module Text {

  predicate IsUpper(c: char) {
    'A' <= c <= 'Z'
  }

  /** Lower-cases one character; only the 26 ASCII capitals change. */
  function LowerChar(c: char): (d: char)
    ensures !IsUpper(d)
    ensures IsUpper(c) ==> d as int == c as int + 32
    ensures !IsUpper(c) ==> d == c
  {
    if IsUpper(c) then (c as int + 32) as char else c
  }

  /** Lower-cases a whole string, character by character. */
  function ToLower(s: string): (r: string)
    ensures |r| == |s|
    ensures forall i :: 0 <= i < |s| ==> r[i] == LowerChar(s[i])
  {
    seq(|s|, i requires 0 <= i < |s| => LowerChar(s[i]))
  }

  /** No capital survives lower-casing, and a string without capitals is left as it is. */
  lemma ToLowerLowers(s: string)
    ensures forall i :: 0 <= i < |s| ==> !IsUpper(ToLower(s)[i])
    ensures (forall i :: 0 <= i < |s| ==> !IsUpper(s[i])) ==> ToLower(s) == s
  {
  }

  /** Lower-casing a lower-cased string changes nothing. */
  lemma ToLowerIdempotent(s: string)
    ensures ToLower(ToLower(s)) == ToLower(s)
  {
  }

  /** `n` occurs in `h` starting at position `i`. */
  ghost predicate OccursAt(h: string, n: string, i: int) {
    0 <= i && i + |n| <= |h| && h[i..i + |n|] == n
  }

  /**
   `h.includes(n)`: scans `h` from the left, testing at each position whether
   `n` is a prefix of what remains. The empty string is found in every string.
   */
  function Includes(h: string, n: string): (found: bool)
    ensures |n| == 0 ==> found
    ensures found ==> |n| <= |h|
    ensures n <= h ==> found
    decreases |h|
  {
    if n <= h then true
    else if |h| == 0 then false
    else Includes(h[1..], n)
  }

  /** The scan finds `n` exactly when `n` occurs at some position of `h`. */
  lemma {:induction false} IncludesIffOccurs(h: string, n: string)
    ensures Includes(h, n) <==> exists i :: OccursAt(h, n, i)
    decreases |h|
  {
    if n <= h {
      assert OccursAt(h, n, 0);
    } else {
      assert !OccursAt(h, n, 0);
      if |h| == 0 {
        assert |n| > 0;
      } else {
        IncludesIffOccurs(h[1..], n);
        if exists j :: OccursAt(h[1..], n, j) {
          var j :| OccursAt(h[1..], n, j);
          assert h[1..][j..j + |n|] == h[j + 1..j + 1 + |n|];
          assert OccursAt(h, n, j + 1);
        }
        if exists i :: OccursAt(h, n, i) {
          var i :| OccursAt(h, n, i);
          assert h[1..][i - 1..i - 1 + |n|] == h[i..i + |n|];
          assert OccursAt(h[1..], n, i - 1);
        }
      }
    }
  }

  /** Every string includes the empty string. */
  lemma IncludesEmpty(h: string)
    ensures Includes(h, "")
  {
  }

  /** Inclusion is transitive: a substring of a substring is a substring. */
  lemma IncludesTransitive(h: string, m: string, n: string)
    requires Includes(h, m) && Includes(m, n)
    ensures Includes(h, n)
  {
    IncludesIffOccurs(h, m);
    IncludesIffOccurs(m, n);
    var i :| OccursAt(h, m, i);
    var j :| OccursAt(m, n, j);
    forall k | 0 <= k < |n|
      ensures h[i + j + k] == n[k]
    {
      assert m[j + k] == n[k];
      assert h[i..i + |m|][j + k] == h[i + j + k];
    }
    assert h[i + j..i + j + |n|] == n;
    assert OccursAt(h, n, i + j);
    IncludesIffOccurs(h, n);
  }
}
