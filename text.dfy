/** The two string operations the column-name heuristic uses: `str.upper()` and the `in` substring test. */
module Text {

  /** Upper-cases an ASCII lower-case letter and leaves every other character as it is. */
  function UpperChar(c: char): (u: char)
    ensures !('a' <= u <= 'z')
    ensures !('a' <= c <= 'z') ==> u == c
    ensures 'a' <= c <= 'z' ==> u == "ABCDEFGHIJKLMNOPQRSTUVWXYZ"[c as int - 'a' as int]
  {
    if 'a' <= c <= 'z' then (c as int - 'a' as int + 'A' as int) as char else c
  }

  function Upper(s: string): (u: string)
    ensures |u| == |s|
  {
    seq(|s|, i requires 0 <= i < |s| => UpperChar(s[i]))
  }

  /** A string without ASCII lower-case letters is its own upper-case form. */
  lemma UpperOfUpperCase(s: string)
    requires forall i :: 0 <= i < |s| ==> !('a' <= s[i] <= 'z')
    ensures Upper(s) == s
  {
  }

  /** A string cannot contain a piece that has a character the string lacks. */
  lemma {:induction false} MissingCharNotContained(s: string, part: string, c: char)
    requires c in part && c !in s
    ensures !Contains(s, part)
    decreases |s|
  {
    if |part| <= |s| {
      MissingCharNotContained(s[1..], part, c);
    }
  }

  /** `part in s`: `part` occurs somewhere in `s` as a contiguous piece. */
  function Contains(s: string, part: string): (b: bool)
    ensures b ==> |part| <= |s|
    ensures part == [] ==> b
    decreases |s|
  {
    |part| <= |s| && (s[..|part|] == part || Contains(s[1..], part))
  }

  predicate OccursAt(s: string, part: string, i: int) {
    0 <= i && i + |part| <= |s| && s[i..i + |part|] == part
  }

  /** The recursive test agrees with the definition of a substring occurrence, in both directions. */
  lemma {:induction false} ContainsIff(s: string, part: string)
    ensures Contains(s, part) <==> exists i :: OccursAt(s, part, i)
    decreases |s|
  {
    if |part| <= |s| {
      if s[..|part|] == part {
        assert OccursAt(s, part, 0);
      } else {
        ContainsIff(s[1..], part);
        if Contains(s[1..], part) {
          var i :| OccursAt(s[1..], part, i);
          assert s[i + 1..i + 1 + |part|] == s[1..][i..i + |part|];
          assert OccursAt(s, part, i + 1);
        } else {
          forall i | OccursAt(s, part, i)
            ensures OccursAt(s[1..], part, i - 1)
          {
            assert s[1..][i - 1..i - 1 + |part|] == s[i..i + |part|];
          }
        }
      }
    }
  }
}
