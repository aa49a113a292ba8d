/** The java.lang.String operations the services rely on: `trim`, `isBlank`,
    ASCII case folding, `contains`, `endsWith`, splitting on one character
    (keeping trailing empty parts, which `split` drops), and
    the ordering behind `compareToIgnoreCase`. */
module Text {

  /** Java's `Character.isWhitespace`: the Unicode space, line and paragraph
      separators except the non-breaking ones, plus U+0009..U+000D and
      U+001C..U+001F. */
  predicate IsWhitespace(c: char) {
    var n := c as int;
    || 9 <= n <= 13
    || 28 <= n <= 32
    || n == 0x1680
    || (0x2000 <= n <= 0x200A && n != 0x2007)
    || n == 0x2028 || n == 0x2029 || n == 0x205F || n == 0x3000
  }

  /** Java's `String.isBlank`: empty or whitespace only. */
  predicate IsBlank(s: string) {
    forall i | 0 <= i < |s| :: IsWhitespace(s[i])
  }

  /** The characters `String.trim` removes: every code point up to U+0020. */
  predicate IsTrimmable(c: char) {
    c <= ' '
  }

  /** A string with no trimmable character at either end. */
  predicate IsTrimmed(s: string) {
    s == [] || (!IsTrimmable(s[0]) && !IsTrimmable(s[|s| - 1]))
  }

  /** Length of the longest prefix made of trimmable characters. */
  function Lead(s: string): (k: nat)
    ensures k <= |s|
    ensures forall i | 0 <= i < k :: IsTrimmable(s[i])
    ensures k < |s| ==> !IsTrimmable(s[k])
  {
    if |s| > 0 && IsTrimmable(s[0]) then 1 + Lead(s[1..]) else 0
  }

  /** Length of the longest suffix made of trimmable characters. */
  function Trail(s: string): (k: nat)
    ensures k <= |s|
    ensures forall i | |s| - k <= i < |s| :: IsTrimmable(s[i])
    ensures k < |s| ==> !IsTrimmable(s[|s| - 1 - k])
  {
    if |s| > 0 && IsTrimmable(s[|s| - 1]) then 1 + Trail(s[..|s| - 1]) else 0
  }

  /** Java's `String.trim`. */
  function Trim(s: string): (r: string)
    ensures IsTrimmed(r)
    ensures |r| <= |s|
    ensures Lead(s) + |r| <= |s|
    ensures r == s[Lead(s)..Lead(s) + |r|]
    ensures forall i | 0 <= i < Lead(s) :: IsTrimmable(s[i])
    ensures forall i | Lead(s) + |r| <= i < |s| :: IsTrimmable(s[i])
    ensures IsTrimmed(s) ==> r == s
  {
    var a := Lead(s);
    var t := s[a..];
    var b := Trail(t);
    t[..|t| - b]
  }

  /** `s` is `r` surrounded by trimmable characters, `r` starting at `k`, and
      `r` itself has no trimmable character at either end. */
  predicate TrimSplit(s: string, r: string, k: nat) {
    && k + |r| <= |s|
    && s[k..k + |r|] == r
    && IsTrimmed(r)
    && (forall i | 0 <= i < k :: IsTrimmable(s[i]))
    && (forall i | k + |r| <= i < |s| :: IsTrimmable(s[i]))
  }

  /** `r` is what is left of `s` once the trimmable characters at both ends
      are removed. */
  predicate IsTrimOf(r: string, s: string) {
    exists k: nat | k <= |s| :: TrimSplit(s, r, k)
  }

  /** `Trim` gives the trimmed core of its argument. */
  lemma TrimIsTrimOf(s: string)
    ensures IsTrimOf(Trim(s), s)
  {
    assert TrimSplit(s, Trim(s), Lead(s));
  }

  /** A string has exactly one trimmed core, and `Trim` returns it. */
  lemma TrimUnique(s: string, r: string)
    requires IsTrimOf(r, s)
    ensures r == Trim(s)
  {
    var k: nat :| k <= |s| && TrimSplit(s, r, k);
    var t := Trim(s);
    var a := Lead(s);
    if r == [] {
      assert forall i | 0 <= i < |s| :: IsTrimmable(s[i]);
      assert t == [];
    } else {
      assert r[0] == s[k] && !IsTrimmable(s[k]);
      assert k <= a;
      assert a <= k;
      assert t != [];
      var e := k + |r| - 1;
      var f := a + |t| - 1;
      assert s[e] == r[|r| - 1] && !IsTrimmable(s[e]);
      assert s[f] == t[|t| - 1] && !IsTrimmable(s[f]);
      assert e <= f;
      assert f <= e;
    }
  }

  /** Java's `Character.toLowerCase`, restricted to the ASCII letters. */
  function LowerChar(c: char): (d: char)
    ensures 'A' <= c <= 'Z' ==> d as int == c as int + 32
    ensures !('A' <= c <= 'Z') ==> d == c
  {
    if 'A' <= c <= 'Z' then (c as int + 32) as char else c
  }

  /** Java's `String.toLowerCase`, restricted to the ASCII letters. */
  function Lower(s: string): (r: string)
    ensures |r| == |s|
    ensures forall i | 0 <= i < |s| :: r[i] == LowerChar(s[i])
  {
    if s == [] then [] else [LowerChar(s[0])] + Lower(s[1..])
  }

  lemma LowerAppend(a: string, b: string)
    ensures Lower(a + b) == Lower(a) + Lower(b)
  {
  }

  /** Lower-casing twice is lower-casing once. */
  lemma LowerIdempotent(s: string)
    ensures Lower(Lower(s)) == Lower(s)
  {
  }

  /** Lower-casing keeps trimmable characters and letters alike on their side
      of U+0020, so a trimmed string stays trimmed. */
  lemma LowerKeepsTrimmed(s: string)
    requires IsTrimmed(s)
    ensures IsTrimmed(Lower(s))
  {
  }

  /** Lower-casing changes only letters, so blankness is kept both ways. */
  lemma LowerKeepsBlank(s: string)
    ensures IsBlank(Lower(s)) <==> IsBlank(s)
  {
  }

  /** Equality up to ASCII case, as `equalsIgnoreCase` and the repository's
      `...IgnoreCase` queries use it. */
  predicate EqualsIgnoreCase(a: string, b: string) {
    Lower(a) == Lower(b)
  }

  /** Lexicographic order on code points, shorter prefix first. */
  predicate LexLeq(a: string, b: string) {
    if a == [] then true
    else if b == [] then false
    else if a[0] < b[0] then true
    else if b[0] < a[0] then false
    else LexLeq(a[1..], b[1..])
  }

  lemma {:induction false} LexLeqTotal(a: string, b: string)
    ensures LexLeq(a, b) || LexLeq(b, a)
  {
    if a != [] && b != [] && a[0] == b[0] {
      LexLeqTotal(a[1..], b[1..]);
    }
  }

  lemma {:induction false} LexLeqAntisymmetric(a: string, b: string)
    requires LexLeq(a, b) && LexLeq(b, a)
    ensures a == b
  {
    if a != [] && b != [] {
      LexLeqAntisymmetric(a[1..], b[1..]);
      assert a == [a[0]] + a[1..];
      assert b == [b[0]] + b[1..];
    }
  }

  lemma {:induction false} LexLeqTransitive(a: string, b: string, c: string)
    requires LexLeq(a, b) && LexLeq(b, c)
    ensures LexLeq(a, c)
  {
    if a != [] && b != [] && c != [] && a[0] == b[0] && b[0] == c[0] {
      LexLeqTransitive(a[1..], b[1..], c[1..]);
    }
  }

  /** `compareToIgnoreCase(a, b) <= 0`: the lexicographic order of the
      case-folded strings. */
  predicate IgnoreCaseLeq(a: string, b: string) {
    LexLeq(Lower(a), Lower(b))
  }

  lemma IgnoreCaseLeqTotal(a: string, b: string)
    ensures IgnoreCaseLeq(a, b) || IgnoreCaseLeq(b, a)
  {
    LexLeqTotal(Lower(a), Lower(b));
  }

  lemma IgnoreCaseLeqTransitive(a: string, b: string, c: string)
    requires IgnoreCaseLeq(a, b) && IgnoreCaseLeq(b, c)
    ensures IgnoreCaseLeq(a, c)
  {
    LexLeqTransitive(Lower(a), Lower(b), Lower(c));
  }

  /** Two keys compare equal under `compareToIgnoreCase` exactly when they are
      equal up to case. */
  lemma IgnoreCaseTies(a: string, b: string)
    ensures IgnoreCaseLeq(a, b) && IgnoreCaseLeq(b, a) <==> EqualsIgnoreCase(a, b)
  {
    if IgnoreCaseLeq(a, b) && IgnoreCaseLeq(b, a) {
      LexLeqAntisymmetric(Lower(a), Lower(b));
    }
    if EqualsIgnoreCase(a, b) {
      LexLeqReflexive(Lower(a));
    }
  }

  lemma {:induction false} LexLeqReflexive(a: string)
    ensures LexLeq(a, a)
  {
    if a != [] {
      LexLeqReflexive(a[1..]);
    }
  }

  /** `needle` occurs in `hay` starting at index `i`. */
  predicate OccursAt(hay: string, needle: string, i: int) {
    0 <= i <= |hay| - |needle| && hay[i..i + |needle|] == needle
  }

  /** Java's `String.contains`. */
  predicate Contains(hay: string, needle: string) {
    exists i | 0 <= i <= |hay| - |needle| :: OccursAt(hay, needle, i)
  }

  /** Java's `String.endsWith`. */
  predicate EndsWith(s: string, suffix: string) {
    |suffix| <= |s| && s[|s| - |suffix|..] == suffix
  }

  /** Java's `String.repeat` on a one-character string. */
  function Repeat(c: char, n: nat): (r: string)
    ensures |r| == n
    ensures forall i | 0 <= i < n :: r[i] == c
  {
    if n == 0 then [] else [c] + Repeat(c, n - 1)
  }

  /** The parts of `s` between occurrences of `sep`, keeping every empty part.
      Java's `String.split` also drops the trailing empty parts; the callers
      modelled here discard empty parts anyway, so the difference never
      shows. */
  function Split(s: string, sep: char): (parts: seq<string>)
    ensures |parts| >= 1
    ensures forall i | 0 <= i < |parts| :: sep !in parts[i]
    ensures Join(parts, sep) == s
  {
    if s == [] then [[]]
    else
      var rest := Split(s[1..], sep);
      if s[0] == sep then
        [[]] + rest
      else
        JoinHead(rest, sep);
        [[s[0]] + rest[0]] + rest[1..]
  }

  /** The parts separated by `sep`: the inverse of `Split`. */
  function Join(parts: seq<string>, sep: char): string
    requires |parts| >= 1
  {
    if |parts| == 1 then parts[0] else parts[0] + [sep] + Join(parts[1..], sep)
  }

  lemma JoinHead(parts: seq<string>, sep: char)
    requires |parts| >= 1
    ensures Join(parts, sep) == parts[0] + (if |parts| == 1 then [] else [sep] + Join(parts[1..], sep))
  {
  }

  /** Splitting a join of separator-free parts gives the parts back. */
  lemma {:induction false} SplitJoin(parts: seq<string>, sep: char)
    requires |parts| >= 1
    requires forall i | 0 <= i < |parts| :: sep !in parts[i]
    ensures Split(Join(parts, sep), sep) == parts
  {
    if |parts| == 1 {
      SplitNoSep(parts[0], sep);
    } else {
      SplitJoin(parts[1..], sep);
      SplitPrefix(parts[0], sep, Join(parts[1..], sep));
      assert parts == [parts[0]] + parts[1..];
    }
  }

  lemma {:induction false} SplitNoSep(s: string, sep: char)
    requires sep !in s
    ensures Split(s, sep) == [s]
  {
    if s != [] {
      SplitNoSep(s[1..], sep);
      assert s == [s[0]] + s[1..];
    }
  }

  lemma {:induction false} SplitPrefix(p: string, sep: char, rest: string)
    requires sep !in p
    ensures Split(p + [sep] + rest, sep) == [p] + Split(rest, sep)
  {
    if p == [] {
      assert p + [sep] + rest == [sep] + rest;
      assert ([sep] + rest)[1..] == rest;
    } else {
      var s := p + [sep] + rest;
      assert s[1..] == p[1..] + [sep] + rest;
      SplitPrefix(p[1..], sep, rest);
      assert [p[0]] + p[1..] == p;
    }
  }
}
