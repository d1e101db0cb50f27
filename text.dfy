/**
 * String helpers shared by the JavaScript and Python models: ECMAScript whitespace and trim,
 * ASCII case mapping, Array.prototype.join, ordinal string comparison, search and replace.
 */
module Text {
  import opened Seqs

  /** The ECMAScript WhiteSpace and LineTerminator code points: what `String.prototype.trim`
    * removes and what the regular-expression class `\s` matches. */
  predicate IsJsWhitespace(c: char) {
    || c == '\t' || c == '\n' || c == '\U{000B}' || c == '\U{000C}' || c == '\r' || c == ' '
    || c == '\U{00A0}' || c == '\U{1680}' || ('\U{2000}' <= c <= '\U{200A}')
    || c == '\U{2028}' || c == '\U{2029}' || c == '\U{202F}' || c == '\U{205F}'
    || c == '\U{3000}' || c == '\U{FEFF}'
  }

  predicate AllWhitespace(s: string) {
    forall i :: 0 <= i < |s| ==> IsJsWhitespace(s[i])
  }

  /** The length of the whitespace run that starts `s`. */
  function LeadingSpace(s: string): (k: nat)
    ensures k <= |s| && AllWhitespace(s[..k]) && (k == |s| || !IsJsWhitespace(s[k]))
  {
    if s != [] && IsJsWhitespace(s[0]) then
      var k := LeadingSpace(s[1..]);
      forall i | 0 < i < 1 + k ensures IsJsWhitespace(s[i]) {
        assert s[i] == s[1..][..k][i - 1];
      }
      1 + k
    else 0
  }

  /** Where the whitespace run that ends `s` starts. */
  function TrailingSpace(s: string): (k: nat)
    ensures k <= |s| && AllWhitespace(s[k..]) && (k == 0 || !IsJsWhitespace(s[k - 1]))
  {
    if s != [] && IsJsWhitespace(s[|s| - 1]) then
      var k := TrailingSpace(s[..|s| - 1]);
      forall i | k <= i < |s| - 1 ensures IsJsWhitespace(s[i]) {
        assert s[i] == s[..|s| - 1][k..][i - k];
      }
      k
    else |s|
  }

  /** Leading whitespace removed: the result is a suffix of `s`, what was cut is whitespace,
    * and the result does not start with whitespace. */
  function TrimStart(s: string): (r: string)
    ensures |r| <= |s| && r == s[|s| - |r|..]
    ensures AllWhitespace(s[..|s| - |r|])
    ensures r == [] || !IsJsWhitespace(r[0])
  {
    s[LeadingSpace(s)..]
  }

  /** Trailing whitespace removed: the result is a prefix of `s`, what was cut is whitespace,
    * and the result does not end with whitespace. */
  function TrimEnd(s: string): (r: string)
    ensures |r| <= |s| && r == s[..|r|]
    ensures AllWhitespace(s[|r|..])
    ensures r == [] || !IsJsWhitespace(r[|r| - 1])
  {
    s[..TrailingSpace(s)]
  }

  /** `s` is the whitespace `s[..k]`, then `r`, then whitespace. */
  predicate TrimmedAt(s: string, r: string, k: int) {
    0 <= k && k + |r| <= |s| && r == s[k..k + |r|] && AllWhitespace(s[..k]) && AllWhitespace(s[k + |r|..])
  }

  /** `String.prototype.trim`: `s` is whitespace, then the result, then whitespace, and the
    * result neither starts nor ends with whitespace. */
  function Trim(s: string): (r: string)
    ensures TrimmedAt(s, r, |s| - |TrimStart(s)|)
    ensures r == [] || (!IsJsWhitespace(r[0]) && !IsJsWhitespace(r[|r| - 1]))
  {
    var t := TrimStart(s);
    var r := TrimEnd(t);
    TrimComposes(s, t, r);
    r
  }

  lemma TrimComposes(s: string, t: string, r: string)
    requires |t| <= |s| && t == s[|s| - |t|..] && AllWhitespace(s[..|s| - |t|])
    requires |r| <= |t| && r == t[..|r|] && AllWhitespace(t[|r|..])
    ensures TrimmedAt(s, r, |s| - |t|)
  {
    var k := |s| - |t|;
    assert r == s[k..k + |r|];
    assert s[k + |r|..] == t[|r|..];
  }

  /** Trimming twice is trimming once. */
  lemma TrimIdempotent(s: string)
    ensures Trim(Trim(s)) == Trim(s)
  {
    var r := Trim(s);
    if r != [] {
      assert TrimStart(r) == r;
      assert TrimEnd(r) == r;
    }
  }

  predicate IsAsciiUpper(c: char) { 'A' <= c <= 'Z' }
  predicate IsAsciiLower(c: char) { 'a' <= c <= 'z' }
  predicate IsAsciiDigit(c: char) { '0' <= c <= '9' }

  function LowerChar(c: char): char {
    if IsAsciiUpper(c) then (c as int + 32) as char else c
  }

  function UpperChar(c: char): char {
    if IsAsciiLower(c) then (c as int - 32) as char else c
  }

  /** `toLowerCase`, restricted to the ASCII letters. */
  function ToLower(s: string): string {
    seq(|s|, i requires 0 <= i < |s| => LowerChar(s[i]))
  }

  /** Lower-casing only ever changes ASCII upper-case letters, and into their lower-case forms. */
  lemma ToLowerEquals(s: string, t: string)
    requires forall i :: 0 <= i < |t| ==> !IsAsciiUpper(t[i])
    ensures ToLower(s) == t <==>
      (|s| == |t| && forall i :: 0 <= i < |s| ==> s[i] == t[i] || (IsAsciiUpper(s[i]) && s[i] as int + 32 == t[i] as int))
  {
    if ToLower(s) == t {
      forall i | 0 <= i < |s|
        ensures s[i] == t[i] || (IsAsciiUpper(s[i]) && s[i] as int + 32 == t[i] as int)
      {
        assert ToLower(s)[i] == LowerChar(s[i]);
      }
    }
  }

  /** The JavaScript helper `capitalize` on a non-empty string: upper-case the first character. */
  function Capitalize(s: string): (r: string)
    ensures |r| == |s|
    ensures s != [] ==> r[0] == UpperChar(s[0]) && r[1..] == s[1..]
  {
    if s == [] then [] else [UpperChar(s[0])] + s[1..]
  }

  /** Python's `str.capitalize`: first character upper-cased, every other one lower-cased. */
  function PyCapitalize(s: string): (r: string)
    ensures |r| == |s|
    ensures s != [] ==> r[0] == UpperChar(s[0]) && r[1..] == ToLower(s[1..])
  {
    if s == [] then [] else [UpperChar(s[0])] + ToLower(s[1..])
  }

  /** `Array.prototype.join(sep)` over strings. */
  function Join(parts: seq<string>, sep: string): string {
    if |parts| == 0 then ""
    else if |parts| == 1 then parts[0]
    else Join(parts[..|parts| - 1], sep) + sep + parts[|parts| - 1]
  }

  lemma JoinAppend(parts: seq<string>, x: string, sep: string)
    requires parts != []
    ensures Join(parts + [x], sep) == Join(parts, sep) + sep + x
  {
    assert (parts + [x])[..|parts|] == parts;
  }

  lemma {:induction false} JoinConcat(a: seq<string>, b: seq<string>, sep: string)
    requires a != [] && b != []
    ensures Join(a + b, sep) == Join(a, sep) + sep + Join(b, sep)
    decreases |b|
  {
    if |b| == 1 {
      JoinAppend(a, b[0], sep);
    } else {
      var b' := b[..|b| - 1];
      assert a + b == (a + b') + [b[|b| - 1]];
      JoinAppend(a + b', b[|b| - 1], sep);
      JoinConcat(a, b', sep);
      JoinAppend(b', b[|b| - 1], sep);
    }
  }

  lemma JoinPrepend(x: string, parts: seq<string>, sep: string)
    requires parts != []
    ensures Join([x] + parts, sep) == x + sep + Join(parts, sep)
  {
    JoinConcat([x], parts, sep);
  }

  /** Ordinal comparison of UTF-16 strings (`localeCompare` on the fixed ASCII formats used here,
    * and Python's `<` on `str`): `a` is a proper prefix of `b`, or `a` is smaller at the first
    * difference. */
  predicate StrLess(a: string, b: string) {
    if a == [] then b != []
    else if b == [] then false
    else if a[0] != b[0] then a[0] < b[0]
    else StrLess(a[1..], b[1..])
  }

  lemma {:induction false} StrLessIrreflexive(a: string)
    ensures !StrLess(a, a)
  {
    if a != [] { StrLessIrreflexive(a[1..]); }
  }

  lemma {:induction false} StrLessTransitive(a: string, b: string, c: string)
    requires StrLess(a, b) && StrLess(b, c)
    ensures StrLess(a, c)
  {
    if a != [] && b != [] && c != [] && a[0] == b[0] && b[0] == c[0] {
      StrLessTransitive(a[1..], b[1..], c[1..]);
    }
  }

  lemma {:induction false} StrLessTotal(a: string, b: string)
    ensures a == b || StrLess(a, b) || StrLess(b, a)
  {
    if a != [] && b != [] && a[0] == b[0] {
      StrLessTotal(a[1..], b[1..]);
      if a[1..] == b[1..] {
        assert a == [a[0]] + a[1..] && b == [b[0]] + b[1..];
      }
    }
  }

  lemma StrLessAsymmetric(a: string, b: string)
    requires StrLess(a, b)
    ensures !StrLess(b, a)
  {
    if StrLess(b, a) {
      StrLessTransitive(a, b, a);
      StrLessIrreflexive(a);
    }
  }

  /** A common prefix does not change the comparison. */
  lemma {:induction false} StrLessCommonPrefix(p: string, x: string, y: string)
    ensures StrLess(p + x, p + y) <==> StrLess(x, y)
  {
    if p != [] {
      assert (p + x)[0] == p[0] == (p + y)[0];
      assert (p + x)[1..] == p[1..] + x;
      assert (p + y)[1..] == p[1..] + y;
      StrLessCommonPrefix(p[1..], x, y);
    } else {
      assert p + x == x && p + y == y;
    }
  }

  /** Between strings of equal length, the first piece decides whatever follows. */
  lemma {:induction false} StrLessEqualLength(a: string, b: string, x: string, y: string)
    requires |a| == |b| && StrLess(a, b)
    ensures StrLess(a + x, b + y)
  {
    if a[0] == b[0] {
      assert (a + x)[1..] == a[1..] + x;
      assert (b + y)[1..] == b[1..] + y;
      StrLessEqualLength(a[1..], b[1..], x, y);
    }
  }

  predicate StartsWith(s: string, p: string) {
    |p| <= |s| && s[..|p|] == p
  }

  predicate OccursAt(s: string, p: string, i: int) {
    0 <= i && i + |p| <= |s| && s[i..i + |p|] == p
  }

  /** Where the first `c` at or after `j` is, or the end: `s.indexOf(c, j)`, with the end
    * standing for -1. */
  function IndexFrom(s: string, j: int, c: char): (e: int)
    requires 0 <= j <= |s|
    ensures j <= e <= |s| && (e == |s| || s[e] == c)
    ensures forall i :: j <= i < e ==> s[i] != c
    decreases |s| - j
  {
    if j == |s| || s[j] == c then j else IndexFrom(s, j + 1, c)
  }

  /** `String.prototype.includes`: `p` occurs in `s` at some position. */
  function Contains(s: string, p: string): (r: bool)
    ensures r <==> exists i :: OccursAt(s, p, i)
    decreases |s|
  {
    if StartsWith(s, p) then
      assert OccursAt(s, p, 0);
      true
    else if s == [] then
      false
    else
      var r := Contains(s[1..], p);
      forall i ensures OccursAt(s[1..], p, i) <==> OccursAt(s, p, i + 1) {
        if 0 <= i && i + 1 + |p| <= |s| {
          assert s[1..][i..i + |p|] == s[i + 1..i + 1 + |p|];
        }
      }
      assert !OccursAt(s, p, 0);
      assert forall i :: OccursAt(s, p, i) ==> i == 0 || OccursAt(s[1..], p, i - 1);
      r
  }

  /** `s.replace(c, rep)` with a one-character string pattern: only the first occurrence. */
  function ReplaceFirst(s: string, c: char, rep: string): (r: string)
    ensures c !in s ==> r == s
  {
    if s == [] then []
    else if s[0] == c then rep + s[1..]
    else [s[0]] + ReplaceFirst(s[1..], c, rep)
  }

  /** Replacing the first `c` rewrites exactly that character when the text before it has none. */
  lemma {:induction false} ReplaceFirstAt(a: string, c: char, b: string, rep: string)
    requires c !in a
    ensures ReplaceFirst(a + [c] + b, c, rep) == a + rep + b
  {
    if a != [] {
      assert (a + [c] + b)[1..] == a[1..] + [c] + b;
      ReplaceFirstAt(a[1..], c, b, rep);
    } else {
      assert a + [c] + b == [c] + b;
    }
  }

  /** Replacing the first `c1` and then the first `c2` rewrites the two separators of
    * `y + d + [c1] + t + [c2]` when neither occurs earlier. */
  lemma ReplaceTwice(y: string, d: string, t: string, c1: char, c2: char, rep1: string, rep2: string)
    requires c1 !in y + d && c2 !in y + d && c2 !in t && c2 !in rep1
    ensures ReplaceFirst(ReplaceFirst(y + d + [c1] + t + [c2], c1, rep1), c2, rep2)
         == y + (d + (rep1 + (t + rep2)))
  {
    var a := y + d;
    AppendAssoc(a + [c1], t, [c2]);
    ReplaceFirstAt(a, c1, t + [c2], rep1);
    AppendAssoc(a + rep1, t, [c2]);
    assert a + rep1 + t + [c2] == (a + rep1 + t) + [c2] + [];
    ReplaceFirstAt(a + rep1 + t, c2, [], rep2);
    AppendAssoc(a + rep1, t, rep2);
    AppendAssoc(a, rep1, t + rep2);
    AppendAssoc(y, d, rep1 + (t + rep2));
  }

  /** Equal concatenations with equally long first parts have equal parts. */
  lemma ConcatCancel(a: string, b: string, c: string, d: string)
    requires a + b == c + d && |a| == |c|
    ensures a == c && b == d
  {
    assert a == (a + b)[..|a|];
    assert b == (a + b)[|a|..];
  }

  function DigitChar(d: int): char
    requires 0 <= d < 10
  {
    ('0' as int + d) as char
  }

  function Pow10(w: nat): nat {
    if w == 0 then 1 else 10 * Pow10(w - 1)
  }
}
