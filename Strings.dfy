/** The JavaScript string built-ins the dashboard relies on, over `seq<char>`: `includes`,
    `toLowerCase` restricted to ASCII, `trim` and the regular-expression class `\s`, `split`
    on one character, `join`, the relational `<` on strings, and the decimal rendering of an
    integer. A Dafny `char` is a Unicode scalar value (one code point), where JavaScript
    counts UTF-16 code units; the two agree on text without characters beyond U+FFFF. */
module Strings {

  /** JavaScript's WhiteSpace and LineTerminator code points: the set `trim` removes and
      the regular-expression class `\s` matches (ECMAScript sections 12.2 and 12.3). */
  const Whitespace: set<char> :=
    {'\t', '\n', '\U{000B}', '\U{000C}', '\r', ' ', '\U{00A0}', '\U{1680}',
     '\U{2000}', '\U{2001}', '\U{2002}', '\U{2003}', '\U{2004}', '\U{2005}',
     '\U{2006}', '\U{2007}', '\U{2008}', '\U{2009}', '\U{200A}', '\U{2028}',
     '\U{2029}', '\U{202F}', '\U{205F}', '\U{3000}', '\U{FEFF}'}

  predicate IsWhitespace(c: char) {
    c in Whitespace
  }

  predicate AllWhitespace(s: string) {
    forall i :: 0 <= i < |s| ==> IsWhitespace(s[i])
  }

  predicate NoWhitespace(s: string) {
    forall i :: 0 <= i < |s| ==> !IsWhitespace(s[i])
  }

  /** `s.includes(sub)`: `sub` occurs somewhere in `s` as a contiguous block. */
  predicate Includes(s: string, sub: string)
    decreases |s|
  {
    sub <= s || (|s| > 0 && Includes(s[1..], sub))
  }

  /** `sub` occurs in `s` starting at offset `k`. */
  predicate OccursAt(s: string, sub: string, k: int) {
    0 <= k && k + |sub| <= |s| && s[k..k + |sub|] == sub
  }

  /** `includes` holds exactly when the block occurs at some offset. */
  lemma {:induction false} IncludesIff(s: string, sub: string)
    ensures Includes(s, sub) <==> exists k :: OccursAt(s, sub, k)
    decreases |s|
  {
    if Includes(s, sub) {
      if sub <= s {
        assert OccursAt(s, sub, 0);
      } else {
        IncludesIff(s[1..], sub);
        var k :| OccursAt(s[1..], sub, k);
        assert s[k + 1..k + 1 + |sub|] == s[1..][k..k + |sub|];
        assert OccursAt(s, sub, k + 1);
      }
    }
    if exists k :: OccursAt(s, sub, k) {
      var k :| OccursAt(s, sub, k);
      IncludesAt(s, sub, k);
    }
  }

  /** A non-empty block that occurs is no longer than the string, and its first character
      is a character of the string. */
  lemma {:induction false} IncludesFirstChar(s: string, sub: string)
    requires Includes(s, sub) && sub != []
    ensures |sub| <= |s| && sub[0] in s
    decreases |s|
  {
    if !(sub <= s) {
      IncludesFirstChar(s[1..], sub);
      assert s == [s[0]] + s[1..];
    }
  }

  /** An occurrence at a known offset is found by `Includes`. */
  lemma {:induction false} IncludesAt(s: string, sub: string, k: nat)
    requires k + |sub| <= |s| && s[k..k + |sub|] == sub
    ensures Includes(s, sub)
  {
    if k > 0 {
      assert s[1..][k - 1..k - 1 + |sub|] == sub;
      IncludesAt(s[1..], sub, k - 1);
    }
  }

  function LowerChar(c: char): (r: char)
    ensures !('A' <= r <= 'Z')
  {
    if 'A' <= c <= 'Z' then (c as int + 32) as char else c
  }

  /** `s.toLowerCase()` on the ASCII range; other characters are kept. */
  function Lower(s: string): (r: string)
    ensures |r| == |s|
    ensures forall i :: 0 <= i < |s| ==> r[i] == LowerChar(s[i])
  {
    seq(|s|, i requires 0 <= i < |s| => LowerChar(s[i]))
  }

  /** Lower-casing twice is lower-casing once, so a search is case-insensitive in its
      query as well as in the text. */
  lemma LowerIdempotent(s: string)
    ensures Lower(Lower(s)) == Lower(s)
  {
  }

  /** `s.trimStart()` for the JavaScript whitespace set. */
  function TrimStart(s: string): (r: string)
    ensures |r| <= |s| && r == s[|s| - |r|..]
    ensures AllWhitespace(s[..|s| - |r|])
    ensures r == [] || !IsWhitespace(r[0])
  {
    if |s| > 0 && IsWhitespace(s[0]) then TrimStart(s[1..]) else s
  }

  /** `s.trimEnd()` for the JavaScript whitespace set. */
  function TrimEnd(s: string): (r: string)
    ensures |r| <= |s| && r == s[..|r|]
    ensures AllWhitespace(s[|r|..])
    ensures r == [] || !IsWhitespace(r[|r| - 1])
  {
    if |s| > 0 && IsWhitespace(s[|s| - 1]) then
      var r := TrimEnd(s[..|s| - 1]);
      assert s[..|s| - 1][..|r|] == s[..|r|];
      assert s[|r|..] == s[..|s| - 1][|r|..] + [s[|s| - 1]];
      r
    else
      assert s[..|s|] == s && s[|s|..] == [];
      s
  }

  /** `s.trim()`. */
  function Trim(s: string): string {
    TrimEnd(TrimStart(s))
  }

  /** `t` occurs in `s` at offset `k`, with only whitespace before and after it. */
  predicate Surrounded(s: string, k: int, t: string) {
    0 <= k <= |s| - |t| && s[k..k + |t|] == t
    && AllWhitespace(s[..k]) && AllWhitespace(s[k + |t|..])
  }

  /** `s.trim()` is the block of `s` that starts after the leading whitespace, and only
      whitespace surrounds it. */
  lemma TrimShape(s: string)
    ensures Surrounded(s, |s| - |TrimStart(s)|, Trim(s))
  {
    var u := TrimStart(s);
    var t := TrimEnd(u);
    BlockShape(s, u, t);
  }

  /** `s.trim()` neither starts nor ends with whitespace. */
  lemma TrimEnds(s: string)
    ensures Trim(s) == [] || (!IsWhitespace(Trim(s)[0]) && !IsWhitespace(Trim(s)[|Trim(s)| - 1]))
  {
    var u := TrimStart(s);
    var t := TrimEnd(u);
    if t != [] {
      assert t[0] == u[0];
    }
  }

  /** A suffix `u` of `s` after whitespace, and a prefix `t` of `u` before whitespace. */
  lemma BlockShape(s: string, u: string, t: string)
    requires |u| <= |s| && u == s[|s| - |u|..] && AllWhitespace(s[..|s| - |u|])
    requires |t| <= |u| && t == u[..|t|] && AllWhitespace(u[|t|..])
    ensures Surrounded(s, |s| - |u|, t)
  {
    var k := |s| - |u|;
    assert s[k..k + |t|] == u[..|t|];
    assert s[k + |t|..] == u[|t|..];
  }

  /** `s.trim()` is empty exactly when `s` consists of whitespace only. */
  lemma TrimEmptyIff(s: string)
    ensures Trim(s) == [] <==> AllWhitespace(s)
  {
    var u := TrimStart(s);
    if Trim(s) == [] {
      assert u[0..] == u;
      assert u == [];
      assert s[..|s|] == s;
    }
  }

  /** Trimming a trimmed string changes nothing. */
  lemma TrimIdempotent(s: string)
    ensures Trim(Trim(s)) == Trim(s)
  {
    TrimShape(s);
  }

  /** `s.replace(/\s+/g, '_')`: every maximal run of whitespace becomes one `_`. */
  function UnderscoreRuns(s: string): (r: string)
    ensures |r| <= |s|
    ensures NoWhitespace(r)
    decreases |s|
  {
    if s == [] then []
    else if IsWhitespace(s[0]) then
      var rest := TrimStart(s);
      "_" + UnderscoreRuns(rest)
    else [s[0]] + UnderscoreRuns(s[1..])
  }

  /** A string without whitespace is left alone. */
  lemma {:induction false} UnderscoreRunsNoWhitespace(s: string)
    requires NoWhitespace(s)
    ensures UnderscoreRuns(s) == s
  {
    if s != [] {
      UnderscoreRunsNoWhitespace(s[1..]);
    }
  }

  /** A word, then a run of whitespace, then text that starts with no whitespace: the word
      is kept, the run becomes exactly one `_`, and the rest is rewritten on its own. */
  lemma {:induction false} UnderscoreRunsStep(x: string, w: string, y: string)
    requires NoWhitespace(x) && w != [] && AllWhitespace(w)
    requires y == [] || !IsWhitespace(y[0])
    ensures UnderscoreRuns(x + w + y) == x + "_" + UnderscoreRuns(y)
  {
    if x == [] {
      assert x + w + y == w + y;
      UnderscoreRunsRun(w, y);
    } else {
      assert (x + w + y)[1..] == x[1..] + w + y;
      UnderscoreRunsStep(x[1..], w, y);
    }
  }

  lemma {:induction false} TrimStartRun(w: string, y: string)
    requires AllWhitespace(w)
    requires y == [] || !IsWhitespace(y[0])
    ensures TrimStart(w + y) == y
  {
    if w != [] {
      assert (w + y)[1..] == w[1..] + y;
      TrimStartRun(w[1..], y);
    } else {
      assert w + y == y;
    }
  }

  lemma UnderscoreRunsRun(w: string, y: string)
    requires w != [] && AllWhitespace(w)
    requires y == [] || !IsWhitespace(y[0])
    ensures UnderscoreRuns(w + y) == "_" + UnderscoreRuns(y)
  {
    TrimStartRun(w, y);
    assert (w + y)[0] == w[0];
  }

  /** `xs.join(sep)`. */
  function Join(xs: seq<string>, sep: string): string {
    if |xs| == 0 then ""
    else if |xs| == 1 then xs[0]
    else xs[0] + sep + Join(xs[1..], sep)
  }

  /** A character that occurs in no piece and not in the separator does not occur in the
      join. */
  lemma {:induction false} JoinExcludes(xs: seq<string>, sep: string, c: char)
    requires forall i :: 0 <= i < |xs| ==> c !in xs[i]
    requires c !in sep
    ensures c !in Join(xs, sep)
  {
    if |xs| > 1 {
      JoinExcludes(xs[1..], sep, c);
    }
  }

  /** `s.split(sep)` for a one-character separator: the pieces between separators. */
  function Split(s: string, sep: char): (r: seq<string>)
    ensures |r| >= 1
  {
    if s == [] then [""]
    else if s[0] == sep then [""] + Split(s[1..], sep)
    else
      var rest := Split(s[1..], sep);
      [[s[0]] + rest[0]] + rest[1..]
  }

  /** The first piece runs up to the first separator, or to the end when there is none. */
  lemma {:induction false} SplitHead(s: string, sep: char)
    ensures var h := Split(s, sep)[0];
      h <= s && sep !in h && (|h| < |s| ==> s[|h|] == sep)
  {
    if s != [] && s[0] != sep {
      SplitHead(s[1..], sep);
    }
  }

  /** A string without the separator is a single piece. */
  lemma SplitNone(s: string, sep: char)
    requires sep !in s
    ensures Split(s, sep) == [s]
  {
    SplitPrefix(s, "", sep);
    assert s + "" == s;
  }

  /** A piece without the separator ahead of the text is glued to the first piece. */
  lemma {:induction false} SplitPrefix(x: string, t: string, sep: char)
    requires sep !in x
    ensures Split(x + t, sep) == [x + Split(t, sep)[0]] + Split(t, sep)[1..]
  {
    if x != [] {
      assert (x + t)[0] == x[0];
      assert (x + t)[1..] == x[1..] + t;
      SplitPrefix(x[1..], t, sep);
      assert [x[0]] + (x[1..] + Split(t, sep)[0]) == x + Split(t, sep)[0];
    } else {
      assert x + t == t;
      assert x + Split(t, sep)[0] == Split(t, sep)[0];
      assert Split(t, sep) == [Split(t, sep)[0]] + Split(t, sep)[1..];
    }
  }

  /** Splitting a join recovers the pieces when no piece contains the separator. */
  lemma {:induction false} SplitJoin(xs: seq<string>, sep: char)
    requires |xs| >= 1
    requires forall i :: 0 <= i < |xs| ==> sep !in xs[i]
    ensures Split(Join(xs, [sep]), sep) == xs
  {
    if |xs| == 1 {
      SplitPrefix(xs[0], "", sep);
      assert xs[0] + "" == xs[0];
    } else {
      var tail := Join(xs[1..], [sep]);
      assert Join(xs, [sep]) == xs[0] + ([sep] + tail);
      SplitPrefix(xs[0], [sep] + tail, sep);
      assert ([sep] + tail)[1..] == tail;
      SplitJoin(xs[1..], sep);
      assert xs[0] + "" == xs[0];
      assert xs == [xs[0]] + xs[1..];
    }
  }

  /** `a < b` on strings: lexicographic order on character codes, a proper prefix first. */
  predicate Less(a: string, b: string) {
    if |a| == 0 then |b| > 0
    else if |b| == 0 then false
    else if a[0] != b[0] then a[0] < b[0]
    else Less(a[1..], b[1..])
  }

  lemma {:induction false} LessIrreflexive(a: string)
    ensures !Less(a, a)
  {
    if |a| > 0 {
      LessIrreflexive(a[1..]);
    }
  }

  lemma {:induction false} LessAsymmetric(a: string, b: string)
    ensures Less(a, b) ==> !Less(b, a)
  {
    if |a| > 0 && |b| > 0 && a[0] == b[0] {
      LessAsymmetric(a[1..], b[1..]);
    }
  }

  lemma {:induction false} LessTransitive(a: string, b: string, c: string)
    requires Less(a, b) && Less(b, c)
    ensures Less(a, c)
  {
    if |a| > 0 && a[0] == b[0] && b[0] == c[0] {
      LessTransitive(a[1..], b[1..], c[1..]);
    }
  }

  lemma {:induction false} LessTotal(a: string, b: string)
    requires a != b
    ensures Less(a, b) || Less(b, a)
  {
    if |a| > 0 && |b| > 0 && a[0] == b[0] {
      assert a == [a[0]] + a[1..] && b == [b[0]] + b[1..];
      LessTotal(a[1..], b[1..]);
    }
  }

  function DigitChar(d: int): (c: char)
    requires 0 <= d < 10
    ensures '0' <= c <= '9'
  {
    ('0' as int + d) as char
  }

  /** The decimal digits of a natural number, most significant first. */
  function NatToString(n: nat): (r: string)
    ensures |r| >= 1
    ensures forall i :: 0 <= i < |r| ==> '0' <= r[i] <= '9'
  {
    if n < 10 then [DigitChar(n)] else NatToString(n / 10) + [DigitChar(n % 10)]
  }

  predicate AllDigits(s: string) {
    forall i :: 0 <= i < |s| ==> '0' <= s[i] <= '9'
  }

  /** The number a string of decimal digits denotes, most significant first; an
      independent reading used to check the rendering. */
  function DecimalValue(s: string): (v: nat)
    requires AllDigits(s)
  {
    if s == [] then 0 else 10 * DecimalValue(s[..|s| - 1]) + (s[|s| - 1] as int - '0' as int)
  }

  /** Reading the digits back gives the number, and there is no leading zero except for
      zero itself. */
  lemma {:induction false} NatToStringValue(n: nat)
    ensures AllDigits(NatToString(n)) && DecimalValue(NatToString(n)) == n
    ensures NatToString(n)[0] == '0' <==> n == 0
  {
    var r := NatToString(n);
    if n >= 10 {
      NatToStringValue(n / 10);
      assert r[..|r| - 1] == NatToString(n / 10);
      assert r[0] == NatToString(n / 10)[0];
    }
  }

  /** `String(n)` for an integer: optional `-`, then the digits. */
  function IntToString(n: int): (r: string)
    ensures forall i :: 0 <= i < |r| ==> r[i] == '-' || '0' <= r[i] <= '9'
  {
    if n < 0 then "-" + NatToString(-n) else NatToString(n)
  }

  /** The string starts with `-` exactly for a negative number, and the digits after the
      sign read back as the number's absolute value. */
  lemma IntToStringValue(n: int)
    ensures var r := IntToString(n); |r| >= 1 && (r[0] == '-' <==> n < 0)
    ensures n < 0 ==> AllDigits(IntToString(n)[1..]) && DecimalValue(IntToString(n)[1..]) == -n
    ensures n >= 0 ==> AllDigits(IntToString(n)) && DecimalValue(IntToString(n)) == n
  {
    NatToStringValue(if n < 0 then -n else n);
    if n < 0 {
      assert IntToString(n)[1..] == NatToString(-n);
    }
  }
}
