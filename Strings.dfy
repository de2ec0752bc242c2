/** The string operations the components use: `includes`, an ASCII `toLowerCase`,
    and `split(sep).pop()`. */
module Strings {

  /** `t` occurs in `s` starting at index `i`. */
  predicate OccursAt(s: string, t: string, i: int)
  {
    0 <= i && i + |t| <= |s| && s[i..i + |t|] == t
  }

  /** String.prototype.includes: `t` is a substring of `s`. */
  function Includes(s: string, t: string): (b: bool)
    ensures b <==> exists i :: OccursAt(s, t, i)
    decreases |s|
  {
    if |t| > |s| then false
    else
      PrefixOccurs(s, t);
      if t <= s then true
      else
        OccursShift(s, t);
        Includes(s[1..], t)
  }

  /** An occurrence at index 0 is a prefix. */
  lemma PrefixOccurs(s: string, t: string)
    requires |t| <= |s|
    ensures OccursAt(s, t, 0) <==> t <= s
  {
  }

  /** The occurrences in `s` after its first character are those in `s[1..]`, shifted by one. */
  lemma OccursShift(s: string, t: string)
    requires s != []
    ensures forall i :: OccursAt(s, t, i) ==> i == 0 || OccursAt(s[1..], t, i - 1)
    ensures forall i :: OccursAt(s[1..], t, i) ==> OccursAt(s, t, i + 1)
  {
    forall i | OccursAt(s, t, i) && i != 0 ensures OccursAt(s[1..], t, i - 1) {
      assert s[1..][i - 1..i - 1 + |t|] == s[i..i + |t|];
    }
    forall i | OccursAt(s[1..], t, i) ensures OccursAt(s, t, i + 1) {
      assert s[1..][i..i + |t|] == s[i + 1..i + 1 + |t|];
    }
  }

  /** The empty string is included in every string, the empty one too. */
  lemma IncludesEmpty(s: string)
    ensures Includes(s, "")
  {
    assert OccursAt(s, "", 0);
  }

  /** Lower-cases one character of the ASCII range 'A'..'Z'; every other character is kept. */
  function ToLowerChar(c: char): (r: char)
    ensures !('A' <= r <= 'Z')
    ensures r != c <==> 'A' <= c <= 'Z'
    ensures r != c ==> 'a' <= r <= 'z' && r as int - 'a' as int == c as int - 'A' as int
  {
    if 'A' <= c <= 'Z' then (c as int + 32) as char else c
  }

  /** String.prototype.toLowerCase restricted to ASCII letters. */
  function ToLower(s: string): (r: string)
    ensures |r| == |s|
    ensures forall i :: 0 <= i < |s| ==> r[i] == ToLowerChar(s[i])
  {
    if s == [] then [] else [ToLowerChar(s[0])] + ToLower(s[1..])
  }

  /** Lower-casing twice is lower-casing once. */
  lemma ToLowerIdempotent(s: string)
    ensures ToLower(ToLower(s)) == ToLower(s)
  {
  }

  /** `split(sep).pop()`: the text after the last `sep`, or all of `s` when it has none. */
  function LastSegment(s: string, sep: char): (r: string)
    ensures sep !in r
    ensures |r| <= |s| && s[|s| - |r|..] == r
    ensures sep in s ==> s[|s| - |r| - 1] == sep
    ensures sep !in s ==> r == s
  {
    if s == [] then []
    else if s[|s| - 1] == sep then []
    else
      var front := s[..|s| - 1];
      var r := LastSegment(front, sep) + [s[|s| - 1]];
      assert s == front + [s[|s| - 1]];
      assert sep in s ==> sep in front;
      r
  }

  /** Lower-casing keys the last segment: lower-casing before or after the split gives
      the same text, because lower-casing maps '.' and only '.' to '.'. */
  lemma {:induction false} LastSegmentToLower(s: string)
    ensures LastSegment(ToLower(s), '.') == ToLower(LastSegment(s, '.'))
  {
    if s != [] {
      var front, c := s[..|s| - 1], s[|s| - 1];
      assert s == front + [c];
      ToLowerSnoc(front, c);
      var low, lowFront := ToLower(s), ToLower(front);
      assert low == lowFront + [ToLowerChar(c)];
      assert low[..|low| - 1] == lowFront;
      LastSegmentToLower(front);
      if c == '.' {
        assert LastSegment(low, '.') == [] && LastSegment(s, '.') == [];
      } else {
        assert LastSegment(low, '.') == LastSegment(lowFront, '.') + [ToLowerChar(c)];
        assert LastSegment(s, '.') == LastSegment(front, '.') + [c];
        ToLowerSnoc(LastSegment(front, '.'), c);
      }
    }
  }

  /** Lower-casing a string with one more character appends that character lower-cased. */
  lemma ToLowerSnoc(s: string, c: char)
    ensures ToLower(s + [c]) == ToLower(s) + [ToLowerChar(c)]
  {
    var l, r := ToLower(s + [c]), ToLower(s) + [ToLowerChar(c)];
    assert |l| == |r|;
    forall i | 0 <= i < |l| ensures l[i] == r[i] {
      assert (s + [c])[i] == if i < |s| then s[i] else c;
    }
  }

  /** The last segment of a text that ends with `sep` and then a sep-free `b` is `b`,
      whatever comes before. */
  lemma LastSegmentAfter(a: string, sep: char, b: string)
    requires sep !in b
    ensures LastSegment(a + [sep] + b, sep) == b
  {
    var s := a + [sep] + b;
    var r := LastSegment(s, sep);
    assert s[|a|] == sep;
    assert sep in s;
    assert s[|s| - |b|..] == b;
  }
}
