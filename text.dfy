/**
 * The string operations the loader and the queries rely on: lower-casing,
 * trimming (Python's str.strip with and without a character argument),
 * replacing a character, taking the first field of a split, substring search
 * and the lexicographic order used to sort by track name.
 */
module Text {

  /** The characters Python's str.isspace holds true of, which str.strip() removes. */
  predicate IsSpace(c: char) {
    var n := c as int;
    (9 <= n <= 13) || (28 <= n <= 32) || n == 0x85 || n == 0xA0 || n == 0x1680
    || (0x2000 <= n <= 0x200A) || n == 0x2028 || n == 0x2029 || n == 0x202F
    || n == 0x205F || n == 0x3000
  }

  predicate IsUpper(c: char) {
    'A' <= c <= 'Z'
  }

  /** ASCII lower-casing of one character. */
  function LowerChar(c: char): (r: char)
    ensures !IsUpper(r)
    ensures IsUpper(c) ==> r as int == c as int + 32
    ensures !IsUpper(c) ==> r == c
  {
    if IsUpper(c) then (c as int + 32) as char else c
  }

  /** ASCII lower-casing of a string (str.lower restricted to ASCII letters). */
  function Lower(s: string): (r: string)
    ensures |r| == |s|
    ensures forall i :: 0 <= i < |s| ==> r[i] == LowerChar(s[i])
  {
    seq(|s|, i requires 0 <= i < |s| => LowerChar(s[i]))
  }

  /** The first index at or after `i` whose character `drop` does not hold of (|s| if none). */
  function LeadEnd(s: string, drop: char -> bool, i: nat): (j: nat)
    requires i <= |s|
    ensures i <= j <= |s|
    ensures forall k :: i <= k < j ==> drop(s[k])
    ensures j == |s| || !drop(s[j])
    decreases |s| - i
  {
    if i == |s| || !drop(s[i]) then i else LeadEnd(s, drop, i + 1)
  }

  /** Going down from `j` to no lower than `lo`, where the trailing run that `drop` holds of starts. */
  function TrailStart(s: string, drop: char -> bool, lo: nat, j: nat): (i: nat)
    requires lo <= j <= |s|
    ensures lo <= i <= j
    ensures forall k :: i <= k < j ==> drop(s[k])
    ensures i == lo || !drop(s[i - 1])
  {
    if j == lo || !drop(s[j - 1]) then j else TrailStart(s, drop, lo, j - 1)
  }

  /** Where Strip's result starts in its argument. */
  function StripStart(s: string, drop: char -> bool): nat {
    LeadEnd(s, drop, 0)
  }

  /** Where Strip's result ends in its argument. */
  function StripEnd(s: string, drop: char -> bool): nat {
    TrailStart(s, drop, StripStart(s, drop), |s|)
  }

  /**
   * str.strip: removes from both ends, and only from the ends, the
   * characters `drop` holds of; what is left neither starts nor ends with one.
   */
  function Strip(s: string, drop: char -> bool): (r: string)
    ensures StripStart(s, drop) <= StripEnd(s, drop) <= |s| && r == s[StripStart(s, drop)..StripEnd(s, drop)]
    ensures r == [] || (!drop(r[0]) && !drop(r[|r| - 1]))
    ensures forall k :: 0 <= k < StripStart(s, drop) ==> drop(s[k])
    ensures forall k :: StripEnd(s, drop) <= k < |s| ==> drop(s[k])
  {
    s[StripStart(s, drop)..StripEnd(s, drop)]
  }

  /** str.strip() with no argument: trims whitespace. */
  function Trim(s: string): (r: string)
    ensures StripStart(s, IsSpace) <= StripEnd(s, IsSpace) <= |s| && r == s[StripStart(s, IsSpace)..StripEnd(s, IsSpace)]
    ensures r == [] || (!IsSpace(r[0]) && !IsSpace(r[|r| - 1]))
    ensures forall k :: 0 <= k < StripStart(s, IsSpace) ==> IsSpace(s[k])
    ensures forall k :: StripEnd(s, IsSpace) <= k < |s| ==> IsSpace(s[k])
  {
    Strip(s, IsSpace)
  }

  /** A slice of a prefix of a slice is a slice of the whole. */
  lemma NestedSlice(s: string, a: nat, e: nat, f: nat, b: nat, c: nat)
    requires a <= e <= |s| && f <= e - a && b <= c <= f
    ensures s[a..e][..f][b..c] == s[a + b..a + c]
  {
    var t := s[a..e][..f][b..c];
    forall k | 0 <= k < c - b ensures t[k] == s[a + b + k] {
      assert t[k] == s[a..e][..f][b + k] == s[a..e][b + k];
    }
  }

  /** Stripping leaves alone a string whose ends are not stripped. */
  lemma StripUnchanged(s: string, drop: char -> bool)
    requires s == [] || (!drop(s[0]) && !drop(s[|s| - 1]))
    ensures Strip(s, drop) == s
  {
    assert StripStart(s, drop) == 0;
    assert StripEnd(s, drop) == |s|;
  }

  /** str.replace(from, to) for single characters. */
  function ReplaceChar(s: string, from: char, to: char): (r: string)
    ensures |r| == |s|
    ensures forall i :: 0 <= i < |s| && s[i] != from ==> r[i] == s[i]
    ensures forall i :: 0 <= i < |s| && s[i] == from ==> r[i] == to
  {
    seq(|s|, i requires 0 <= i < |s| => if s[i] == from then to else s[i])
  }

  /** Replacing a character that does not occur changes nothing. */
  lemma ReplaceAbsent(s: string, from: char, to: char)
    requires from !in s
    ensures ReplaceChar(s, from, to) == s
  {
  }

  /**
   * str.split(sep)[0]: the prefix of `s` up to, not including, the first
   * `sep` (all of `s` when there is none).
   */
  function FirstField(s: string, sep: char): (r: string)
    ensures r <= s
    ensures sep !in r
    ensures |r| < |s| ==> s[|r|] == sep
  {
    s[..FieldEnd(s, sep, 0)]
  }

  /** With no separator in it, the whole string is its first field. */
  lemma FirstFieldUnsplit(s: string, sep: char)
    requires sep !in s
    ensures FirstField(s, sep) == s
  {
    assert forall k :: 0 <= k < |s| ==> s[k] != sep;
  }

  /** The first index at or after `i` holding `sep` (|s| if none). */
  function FieldEnd(s: string, sep: char, i: nat): (j: nat)
    requires i <= |s|
    ensures i <= j <= |s|
    ensures forall k :: i <= k < j ==> s[k] != sep
    ensures j == |s| || s[j] == sep
    decreases |s| - i
  {
    if i == |s| || s[i] == sep then i else FieldEnd(s, sep, i + 1)
  }

  /** `needle` occurs in `hay` as a contiguous run of characters. */
  predicate Contains(hay: string, needle: string) {
    needle <= hay || (hay != [] && Contains(hay[1..], needle))
  }

  /** SQL `field ILIKE '%pat%'` with no wildcard inside `pat`: a case-insensitive substring test. */
  predicate ContainsIgnoringCase(field: string, pat: string) {
    Contains(Lower(field), Lower(pat))
  }

  /** Every slice of a string occurs in it. */
  lemma {:induction false} SliceIsContained(s: string, t: string, a: nat, b: nat)
    requires a <= b <= |s| && t == s[a..b]
    ensures Contains(s, t)
  {
    if a == 0 {
      assert t <= s;
    } else {
      assert s[1..][a - 1..b - 1] == s[a..b];
      SliceIsContained(s[1..], t, a - 1, b - 1);
    }
  }

  /** Lexicographic order on code points (the order used to sort by a text column). */
  predicate StrLe(a: string, b: string) {
    a == [] || (b != [] && (a[0] < b[0] || (a[0] == b[0] && StrLe(a[1..], b[1..]))))
  }

  lemma {:induction false} StrLeTotal(a: string, b: string)
    ensures StrLe(a, b) || StrLe(b, a)
  {
    if a != [] && b != [] && a[0] == b[0] {
      StrLeTotal(a[1..], b[1..]);
    }
  }

  lemma {:induction false} StrLeTransitive(a: string, b: string, c: string)
    requires StrLe(a, b) && StrLe(b, c)
    ensures StrLe(a, c)
  {
    if a != [] && b != [] && c != [] && a[0] == b[0] && b[0] == c[0] {
      StrLeTransitive(a[1..], b[1..], c[1..]);
    }
  }
}
