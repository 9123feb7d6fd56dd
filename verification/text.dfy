/** The string operations the components lean on: `trim`, `toLowerCase`
    and `includes` as JavaScript defines them, and prefix tests. */
module Text {

  /** The code points `String.prototype.trim` removes: the ECMAScript
      WhiteSpace set (tab, vertical tab, form feed, space, no-break space,
      the byte-order mark and the other space separators) and the four line
      terminators. */
  predicate IsWhitespace(c: char) {
    var n := c as int;
    || n == 0x09 || n == 0x0A || n == 0x0B || n == 0x0C || n == 0x0D
    || n == 0x20 || n == 0xA0 || n == 0x1680 || (0x2000 <= n <= 0x200A)
    || n == 0x2028 || n == 0x2029 || n == 0x202F || n == 0x205F
    || n == 0x3000 || n == 0xFEFF
  }

  ghost predicate AllWhitespace(s: string) {
    forall i | 0 <= i < |s| :: IsWhitespace(s[i])
  }

  /** Drops leading white space: the result is a suffix of `s` that does not
      start with white space, and what was dropped is all white space. */
  function TrimStart(s: string): (r: string)
    ensures |r| <= |s| && r == s[|s| - |r|..]
    ensures r == [] || !IsWhitespace(r[0])
  {
    if |s| > 0 && IsWhitespace(s[0]) then TrimStart(s[1..]) else s
  }

  /** Drops trailing white space: the result is a prefix of `s` that does
      not end with white space, and what was dropped is all white space. */
  function TrimEnd(s: string): (r: string)
    ensures r <= s
    ensures r == [] || !IsWhitespace(r[|r| - 1])
  {
    if |s| > 0 && IsWhitespace(s[|s| - 1]) then TrimEnd(s[..|s| - 1]) else s
  }

  /** What `TrimStart` drops is white space. */
  lemma {:induction false} TrimStartDropsWhitespace(s: string)
    ensures forall k :: 0 <= k < |s| - |TrimStart(s)| ==> IsWhitespace(s[k])
    decreases |s|
  {
    if |s| > 0 && IsWhitespace(s[0]) {
      TrimStartDropsWhitespace(s[1..]);
      forall k | 1 <= k < |s| - |TrimStart(s)| ensures IsWhitespace(s[k]) {
        assert s[k] == s[1..][k - 1];
      }
    }
  }

  /** What `TrimEnd` drops is white space. */
  lemma {:induction false} TrimEndDropsWhitespace(s: string)
    ensures forall k :: |TrimEnd(s)| <= k < |s| ==> IsWhitespace(s[k])
    decreases |s|
  {
    if |s| > 0 && IsWhitespace(s[|s| - 1]) {
      var t := s[..|s| - 1];
      TrimEndDropsWhitespace(t);
      forall k | |TrimEnd(s)| <= k < |s| - 1 ensures IsWhitespace(s[k]) {
        assert s[k] == t[k];
      }
    }
  }

  /** `r` is the slice of `s` starting at `i`, and every character of `s`
      outside that slice is white space. */
  ghost predicate CutOutOf(s: string, r: string, i: int) {
    && 0 <= i && i + |r| <= |s| && r == s[i..i + |r|]
    && forall k :: 0 <= k < |s| && !(i <= k < i + |r|) ==> IsWhitespace(s[k])
  }

  /** `s.trim()`: white space on neither end of the result. */
  function Trim(s: string): (r: string)
    ensures |r| <= |s|
    ensures r == [] || (!IsWhitespace(r[0]) && !IsWhitespace(r[|r| - 1]))
  {
    TrimEnd(TrimStart(s))
  }

  /** `s.trim()` is a slice of `s` cut out by removing only white space
      before and after it. */
  lemma TrimCuts(s: string)
    ensures exists i :: CutOutOf(s, Trim(s), i)
  {
    var t := TrimStart(s);
    TrimStartDropsWhitespace(s);
    TrimEndDropsWhitespace(t);
    CutOfTwoTrims(s, t, TrimEnd(t));
    assert CutOutOf(s, Trim(s), |s| - |t|);
  }

  /** A white-space prefix dropped from `s`, then a white-space suffix
      dropped from what is left, cut `s` as `CutOutOf` says. */
  lemma CutOfTwoTrims(s: string, t: string, r: string)
    requires |t| <= |s| && t == s[|s| - |t|..]
    requires forall k :: 0 <= k < |s| - |t| ==> IsWhitespace(s[k])
    requires r <= t && forall k :: |r| <= k < |t| ==> IsWhitespace(t[k])
    ensures CutOutOf(s, r, |s| - |t|)
  {
    var i := |s| - |t|;
    assert r == t[..|r|];
    DropThenTake(s, i, |r|);
    forall k | i + |r| <= k < |s| ensures IsWhitespace(s[k]) {
      assert s[k] == t[k - i];
    }
  }

  lemma DropThenTake(s: string, i: nat, k: nat)
    requires i + k <= |s|
    ensures s[i..][..k] == s[i..i + k]
  {
  }

  lemma {:induction false} TrimStartEmptyIff(s: string)
    ensures TrimStart(s) == [] <==> AllWhitespace(s)
    decreases |s|
  {
    if |s| > 0 && IsWhitespace(s[0]) {
      TrimStartEmptyIff(s[1..]);
      assert AllWhitespace(s) <==> AllWhitespace(s[1..]) by {
        if AllWhitespace(s[1..]) {
          forall i | 0 <= i < |s| ensures IsWhitespace(s[i]) {
            if i > 0 { assert s[i] == s[1..][i - 1]; }
          }
        }
      }
    }
  }

  lemma {:induction false} TrimEndEmptyIff(s: string)
    ensures TrimEnd(s) == [] <==> AllWhitespace(s)
    decreases |s|
  {
    if |s| > 0 && IsWhitespace(s[|s| - 1]) {
      var t := s[..|s| - 1];
      TrimEndEmptyIff(t);
      assert AllWhitespace(s) <==> AllWhitespace(t) by {
        if AllWhitespace(t) {
          forall i | 0 <= i < |s| ensures IsWhitespace(s[i]) {
            if i < |s| - 1 { assert s[i] == t[i]; }
          }
        }
      }
    }
  }

  /** `!s.trim()`: the trimmed string is empty, hence falsy. */
  predicate IsBlank(s: string) {
    Trim(s) == ""
  }

  /** A string is blank for the validator exactly when every character is
      white space; in particular the empty string is blank. */
  lemma BlankIffAllWhitespace(s: string)
    ensures IsBlank(s) <==> AllWhitespace(s)
  {
    var t := TrimStart(s);
    TrimStartEmptyIff(s);
    TrimEndEmptyIff(t);
    if t != [] {
      assert !IsWhitespace(t[0]);
    }
  }

  /** ASCII `toLowerCase`: upper-case Latin letters map to lower case,
      every other character is kept. */
  function LowerChar(c: char): char {
    if 'A' <= c <= 'Z' then (c as int + 32) as char else c
  }

  /** `s.toLowerCase()`: same length, no upper-case Latin letter left, and
      every character either kept or an upper-case letter lowered. */
  function Lower(s: string): (r: string)
    ensures |r| == |s|
    ensures forall i :: 0 <= i < |r| ==> !('A' <= r[i] <= 'Z')
    ensures forall i :: 0 <= i < |s| ==> r[i] == s[i] || ('A' <= s[i] <= 'Z' && r[i] as int == s[i] as int + 32)
  {
    seq(|s|, i requires 0 <= i < |s| => LowerChar(s[i]))
  }

  /** Lowering twice is lowering once. */
  lemma LowerIdempotent(s: string)
    ensures Lower(Lower(s)) == Lower(s)
  {
  }

  /** `needle` occurs in `hay` starting at index `i`. */
  ghost predicate OccursAt(hay: string, needle: string, i: int) {
    0 <= i && i + |needle| <= |hay| && hay[i..i + |needle|] == needle
  }

  /** `hay.includes(needle)`, scanning left to right; the empty needle is
      found everywhere. The scan finds the needle exactly when it occurs at
      some index. */
  function Includes(hay: string, needle: string): (b: bool)
    ensures b <==> exists i :: OccursAt(hay, needle, i)
    decreases |hay|
  {
    assert needle <= hay <==> OccursAt(hay, needle, 0) by {
      if |needle| <= |hay| { assert hay[0..|needle|] == hay[..|needle|]; }
    }
    if needle <= hay then true
    else if |hay| == 0 then false
    else
      var rest := Includes(hay[1..], needle);
      forall i | OccursAt(hay[1..], needle, i) ensures OccursAt(hay, needle, i + 1) {
        OccursInTail(hay, needle, i);
      }
      forall i | OccursAt(hay, needle, i) && i > 0 ensures OccursAt(hay[1..], needle, i - 1) {
        OccursInTail(hay, needle, i - 1);
      }
      rest
  }

  /** Shifting the haystack by one character shifts every occurrence. */
  lemma OccursInTail(hay: string, needle: string, i: int)
    requires |hay| > 0 && i >= 0
    ensures OccursAt(hay[1..], needle, i) <==> OccursAt(hay, needle, i + 1)
  {
    if 0 <= i && i + |needle| <= |hay| - 1 {
      assert hay[1..][i..i + |needle|] == hay[i + 1..i + 1 + |needle|];
    }
  }

  /** If the needle's character at offset `j` appears nowhere the needle
      could put it, the needle does not occur. */
  lemma CharOutOfReach(hay: string, needle: string, j: int)
    requires 0 <= j < |needle| <= |hay|
    requires needle[j] !in hay[j..|hay| - |needle| + j + 1]
    ensures !Includes(hay, needle)
  {
    var reach := hay[j..|hay| - |needle| + j + 1];
    forall i | 0 <= i && i + |needle| <= |hay| ensures !OccursAt(hay, needle, i) {
      assert hay[i..i + |needle|][j] == reach[i];
      assert reach[i] in reach;
    }
  }

  /** The needle's character at offset `j` cannot be lined up with any
      character of the hay: either the needle is longer than the hay, or
      that character is absent from every position the needle could put
      it at. */
  predicate Excludes(hay: string, needle: string, j: int)
  {
    0 <= j < |needle| &&
    (|needle| <= |hay| ==> needle[j] !in hay[j..|hay| - |needle| + j + 1])
  }

  lemma ExcludesNotIncluded(hay: string, needle: string, j: int)
    requires Excludes(hay, needle, j)
    ensures !Includes(hay, needle)
  {
    if |needle| <= |hay| {
      CharOutOfReach(hay, needle, j);
    }
  }

  /** The upper-case partner of a lower-case Latin letter. */
  function UpperChar(c: char): char
    requires 'a' <= c <= 'z'
  {
    (c as int - 32) as char
  }

  /** Like `Excludes`, but for a lower-case letter of the needle that is
      absent from the reach in both cases: the test a case-insensitive
      search needs, stated on the strings before lowering. */
  predicate ExcludesLetter(hay: string, needle: string, j: int) {
    && 0 <= j < |needle| && 'a' <= needle[j] <= 'z'
    && (|needle| <= |hay| ==>
          var reach := hay[j..|hay| - |needle| + j + 1];
          needle[j] !in reach && UpperChar(needle[j]) !in reach)
  }

  lemma ExcludesLetterLowered(hay: string, needle: string, j: int)
    requires ExcludesLetter(hay, needle, j)
    ensures Excludes(Lower(hay), Lower(needle), j)
  {
    var c := needle[j];
    assert Lower(needle)[j] == c;
    if |needle| <= |hay| {
      var lo, hi := j, |hay| - |needle| + j + 1;
      var reach, lowered := hay[lo..hi], Lower(hay)[lo..hi];
      forall k | 0 <= k < |lowered| ensures lowered[k] != c {
        assert lowered[k] == LowerChar(reach[k]);
        assert reach[k] in reach;
      }
    }
  }
}
