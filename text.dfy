/** The pieces of Rust's `str` API the crawler relies on, stated over `seq<char>`:
    whitespace trimming, prefix/suffix tests, substring search, splitting, replacing,
    `u32` parsing and decimal printing, and the entity escapes used for HTML and XML. */
module Text {
  import opened Wrappers

  /** The Unicode White_Space property: U+0009 to U+000D, space, U+0085, U+00A0, U+1680,
      U+2000 to U+200A, U+2028, U+2029, U+202F, U+205F and U+3000. */
  const WHITESPACE: set<char> := {
    '\t', '\n', '\U{000B}', '\U{000C}', '\r', ' ', '\U{0085}', '\U{00A0}', '\U{1680}',
    '\U{2000}', '\U{2001}', '\U{2002}', '\U{2003}', '\U{2004}', '\U{2005}', '\U{2006}',
    '\U{2007}', '\U{2008}', '\U{2009}', '\U{200A}', '\U{2028}', '\U{2029}', '\U{202F}',
    '\U{205F}', '\U{3000}'}

  /** Rust's `char::is_whitespace`. */
  predicate IsWhitespace(c: char) {
    c in WHITESPACE
  }

  /** Visible ASCII characters are not whitespace. */
  lemma VisibleNotWhitespace(c: char)
    requires ' ' < c <= '~'
    ensures !IsWhitespace(c)
  {
  }

  predicate IsAsciiDigit(c: char) {
    '0' <= c <= '9'
  }

  predicate IsAsciiAlphanumeric(c: char) {
    IsAsciiDigit(c) || 'a' <= c <= 'z' || 'A' <= c <= 'Z'
  }

  function ToAsciiLower(c: char): char {
    if 'A' <= c <= 'Z' then (c as int + 32) as char else c
  }

  function ToAsciiLowerString(s: string): (r: string)
    ensures |r| == |s|
    ensures forall i :: 0 <= i < |s| ==> r[i] == ToAsciiLower(s[i])
  {
    seq(|s|, i requires 0 <= i < |s| => ToAsciiLower(s[i]))
  }

  /** Lowering twice is lowering once. */
  lemma ToAsciiLowerIdempotent(s: string)
    ensures ToAsciiLowerString(ToAsciiLowerString(s)) == ToAsciiLowerString(s)
  {
    var l := ToAsciiLowerString(s);
    assert forall i :: 0 <= i < |l| ==> ToAsciiLower(l[i]) == l[i];
  }

  // ---------------------------------------------------------------- trimming

  /** `str::trim_start`. */
  function TrimStart(s: string): (r: string)
    ensures |r| <= |s| && r == s[|s| - |r|..]
    ensures r == [] || !IsWhitespace(r[0])
  {
    if s != [] && IsWhitespace(s[0]) then
      var r := TrimStart(s[1..]);
      assert s[1..][|s| - 1 - |r|..] == s[|s| - |r|..];
      r
    else s
  }

  /** What `TrimStart` drops is whitespace. */
  lemma {:induction false} TrimStartDropsWhitespace(s: string)
    ensures forall i :: 0 <= i < |s| - |TrimStart(s)| ==> IsWhitespace(s[i])
    decreases |s|
  {
    if s != [] && IsWhitespace(s[0]) {
      TrimStartDropsWhitespace(s[1..]);
      forall i | 1 <= i < |s| - |TrimStart(s)| ensures IsWhitespace(s[i]) {
        assert s[i] == s[1..][i - 1];
      }
    }
  }

  /** `str::trim_end`. */
  function TrimEnd(s: string): (r: string)
    ensures |r| <= |s| && r == s[..|r|]
    ensures r == [] || !IsWhitespace(r[|r| - 1])
  {
    if s != [] && IsWhitespace(s[|s| - 1]) then
      var r := TrimEnd(s[..|s| - 1]);
      assert s[..|s| - 1][..|r|] == s[..|r|];
      r
    else s
  }

  /** `str::trim`: both ends. */
  function Trim(s: string): (r: string)
    ensures |r| <= |s|
    ensures r == [] || (!IsWhitespace(r[0]) && !IsWhitespace(r[|r| - 1]))
  {
    TrimEnd(TrimStart(s))
  }

  predicate IsBlank(s: string) {
    forall i :: 0 <= i < |s| ==> IsWhitespace(s[i])
  }

  lemma TrimEmptyIffBlank(s: string)
    ensures Trim(s) == [] <==> IsBlank(s)
  {
    var t := TrimStart(s);
    if Trim(s) == [] {
      TrimStartDropsWhitespace(s);
      TrimEndEmpty(t);
      forall i | 0 <= i < |s| ensures IsWhitespace(s[i]) {
        if i >= |s| - |t| {
          assert s[i] == t[i - (|s| - |t|)];
        }
      }
    }
    if IsBlank(s) {
      TrimStartBlank(s);
    }
  }

  lemma {:induction false} TrimEndEmpty(s: string)
    requires TrimEnd(s) == []
    ensures IsBlank(s)
    decreases |s|
  {
    if s != [] {
      var u := s[..|s| - 1];
      TrimEndEmpty(u);
      forall i | 0 <= i < |s| ensures IsWhitespace(s[i]) {
        if i < |u| {
          assert s[i] == u[i];
        }
      }
    }
  }

  lemma {:induction false} TrimStartBlank(s: string)
    requires IsBlank(s)
    ensures TrimStart(s) == []
    decreases |s|
  {
    if s != [] {
      TrimStartBlank(s[1..]);
    }
  }

  lemma TrimOfTrimmed(s: string)
    requires s == [] || (!IsWhitespace(s[0]) && !IsWhitespace(s[|s| - 1]))
    ensures Trim(s) == s
  {
  }

  /** `str::trim_start_matches(c)` for a single character. */
  function TrimStartChar(s: string, c: char): (r: string)
    ensures |r| <= |s| && r == s[|s| - |r|..]
    ensures r == [] || r[0] != c
    ensures forall i :: 0 <= i < |s| - |r| ==> s[i] == c
  {
    if s != [] && s[0] == c then TrimStartChar(s[1..], c) else s
  }

  /** `str::trim_end_matches(c)` for a single character. */
  function TrimEndChar(s: string, c: char): (r: string)
    ensures |r| <= |s| && r == s[..|r|]
    ensures r == [] || r[|r| - 1] != c
    ensures forall i :: |r| <= i < |s| ==> s[i] == c
  {
    if s != [] && s[|s| - 1] == c then TrimEndChar(s[..|s| - 1], c) else s
  }

  // ------------------------------------------------------- searching

  predicate StartsWith(s: string, p: string) {
    |p| <= |s| && s[..|p|] == p
  }

  predicate EndsWith(s: string, p: string) {
    |p| <= |s| && s[|s| - |p|..] == p
  }

  predicate OccursAt(s: string, t: string, i: nat) {
    i + |t| <= |s| && s[i..i + |t|] == t
  }

  /** `t` occurs nowhere in `s`. */
  ghost predicate Absent(s: string, t: string) {
    forall j: nat :: !OccursAt(s, t, j)
  }

  /** `str::contains` for a string pattern. */
  predicate Contains(s: string, t: string)
    decreases |s|
  {
    StartsWith(s, t) || (s != [] && Contains(s[1..], t))
  }

  lemma ContainsIff(s: string, t: string)
    ensures Contains(s, t) <==> exists i: nat :: OccursAt(s, t, i)
    decreases |s|
  {
    if StartsWith(s, t) {
      assert OccursAt(s, t, 0);
    } else if s != [] {
      ContainsIff(s[1..], t);
      if Contains(s[1..], t) {
        var i: nat :| OccursAt(s[1..], t, i);
        OccursShift(s, t, i + 1);
      }
      if i: nat :| OccursAt(s, t, i) {
        OccursShift(s, t, i);
      }
    }
  }

  /** An occurrence past the first position is an occurrence in the tail, one place earlier. */
  lemma OccursShift(s: string, t: string, j: nat)
    requires s != [] && j >= 1
    ensures OccursAt(s, t, j) <==> OccursAt(s[1..], t, j - 1)
  {
    if j + |t| <= |s| {
      assert s[1..][j - 1..j - 1 + |t|] == s[j..j + |t|];
    }
  }

  /** Index of the first occurrence of `t` in `s` (`str::find`). */
  function Find(s: string, t: string): (r: Option<nat>)
    ensures r.Some? ==> OccursAt(s, t, r.value)
    ensures r.Some? ==> forall j: nat :: j < r.value ==> !OccursAt(s, t, j)
    ensures r.None? ==> forall j: nat :: !OccursAt(s, t, j)
    decreases |s|
  {
    if StartsWith(s, t) then Some(0)
    else if s == [] then None
    else match Find(s[1..], t)
      case None =>
        FindNoneShift(s, t);
        None
      case Some(k) =>
        FindSomeShift(s, t, k);
        Some(k + 1)
  }

  lemma FindNoneShift(s: string, t: string)
    requires s != [] && !StartsWith(s, t)
    requires forall j: nat :: !OccursAt(s[1..], t, j)
    ensures forall j: nat :: !OccursAt(s, t, j)
  {
    forall j: nat ensures !OccursAt(s, t, j) {
      if j >= 1 {
        OccursShift(s, t, j);
      }
    }
  }

  lemma FindSomeShift(s: string, t: string, k: nat)
    requires s != [] && !StartsWith(s, t)
    requires OccursAt(s[1..], t, k) && forall j: nat :: j < k ==> !OccursAt(s[1..], t, j)
    ensures OccursAt(s, t, k + 1) && forall j: nat :: j < k + 1 ==> !OccursAt(s, t, j)
  {
    OccursShift(s, t, k + 1);
    forall j: nat | j < k + 1 ensures !OccursAt(s, t, j) {
      if j >= 1 {
        OccursShift(s, t, j);
      }
    }
  }

  /** `s[from..].find(t)` as a position in `s`: the first occurrence of `t` at or after
      `from`. Its contract only bounds the position; `FindFromFirst` says it is the first. */
  function FindFrom(s: string, t: string, from: nat): (r: Option<nat>)
    requires from <= |s|
    ensures r.Some? ==> from <= r.value && r.value + |t| <= |s|
    decreases |s| - from
  {
    if from + |t| > |s| then None
    else if OccursAt(s, t, from) then Some(from)
    else if from == |s| then None
    else FindFrom(s, t, from + 1)
  }

  /** `FindFrom` finds the first occurrence at or after `from`, and finds none only when
      there is none. */
  lemma {:induction false} FindFromFirst(s: string, t: string, from: nat)
    requires from <= |s|
    ensures FindFrom(s, t, from).Some? ==> OccursAt(s, t, FindFrom(s, t, from).value)
    ensures FindFrom(s, t, from).Some? ==>
      forall j: nat :: from <= j < FindFrom(s, t, from).value ==> !OccursAt(s, t, j)
    ensures FindFrom(s, t, from).None? ==> forall j: nat :: from <= j ==> !OccursAt(s, t, j)
    decreases |s| - from
  {
    if from + |t| <= |s| && s[from..from + |t|] != t && from < |s| {
      FindFromFirst(s, t, from + 1);
    }
  }

  /** An occurrence at `k` with none between `from` and `k` is what `FindFrom` finds. */
  lemma FindFromAt(s: string, t: string, from: nat, k: nat)
    requires from <= k && OccursAt(s, t, k)
    requires forall j: nat :: from <= j < k ==> !OccursAt(s, t, j)
    ensures FindFrom(s, t, from) == Some(k)
  {
    FindFromFirst(s, t, from);
  }

  /** Index of the first occurrence of character `c` (`str::find(char)`). */
  function FindChar(s: string, c: char): (r: Option<nat>)
    ensures r.Some? ==> r.value < |s| && s[r.value] == c && c !in s[..r.value]
    ensures r.None? ==> c !in s
  {
    if s == [] then None
    else if s[0] == c then Some(0)
    else match FindChar(s[1..], c)
      case None => None
      case Some(k) =>
        assert s[..k + 1] == [s[0]] + s[1..][..k];
        Some(k + 1)
  }

  // ------------------------------------------------------- splitting

  /** `str::split_once(c)`. */
  function SplitOnce(s: string, c: char): (r: Option<(string, string)>)
    ensures r.None? <==> c !in s
    ensures r.Some? ==> c !in r.value.0 && s == r.value.0 + [c] + r.value.1
  {
    match FindChar(s, c)
    case None => None
    case Some(i) =>
      assert s == s[..i] + [c] + s[i + 1..];
      Some((s[..i], s[i + 1..]))
  }

  /** `str::split(c)`: never empty, and the pieces never contain the separator. */
  function Split(s: string, c: char): (parts: seq<string>)
    ensures |parts| >= 1
    ensures forall k :: 0 <= k < |parts| ==> c !in parts[k]
    ensures Join(parts, c) == s
    decreases |s|
  {
    match SplitOnce(s, c)
    case None => [s]
    case Some((a, b)) => [a] + Split(b, c)
  }

  /** Inverse of `Split`: the pieces glued back with the separator. */
  function Join(parts: seq<string>, c: char): string
    requires |parts| >= 1
  {
    if |parts| == 1 then parts[0] else parts[0] + [c] + Join(parts[1..], c)
  }

  /** The first piece of `str::split` over a set of separator characters. */
  function TakeUntilAny(s: string, seps: set<char>): (r: string)
    ensures |r| <= |s| && r == s[..|r|]
    ensures forall i :: 0 <= i < |r| ==> r[i] !in seps
    ensures |r| < |s| ==> s[|r|] in seps
  {
    if s == [] || s[0] in seps then [] else [s[0]] + TakeUntilAny(s[1..], seps)
  }

  // ------------------------------------------------------- replacing

  /** `str::replace(c, rep)` for a character pattern. */
  function ReplaceChar(s: string, c: char, rep: string): string
  {
    if s == [] then [] else (if s[0] == c then rep else [s[0]]) + ReplaceChar(s[1..], c, rep)
  }

  lemma {:induction false} ReplaceCharAppend(a: string, b: string, c: char, rep: string)
    ensures ReplaceChar(a + b, c, rep) == ReplaceChar(a, c, rep) + ReplaceChar(b, c, rep)
    decreases |a|
  {
    if a != [] {
      assert (a + b)[1..] == a[1..] + b;
      ReplaceCharAppend(a[1..], b, c, rep);
    } else {
      assert a + b == b;
    }
  }

  /** `str::replace(pat, rep)` for a non-empty string pattern: left to right, non-overlapping. */
  function ReplaceAll(s: string, pat: string, rep: string): (r: string)
    requires |pat| > 0
    decreases |s|
  {
    if s == [] then []
    else if StartsWith(s, pat) then rep + ReplaceAll(s[|pat|..], pat, rep)
    else [s[0]] + ReplaceAll(s[1..], pat, rep)
  }

  // ------------------------------------------------------- numbers

  function DigitChar(d: nat): char
    requires d < 10
  {
    ('0' as int + d) as char
  }

  function DigitValue(c: char): nat
    requires IsAsciiDigit(c)
  {
    c as int - '0' as int
  }

  predicate AllDigits(s: string) {
    forall i :: 0 <= i < |s| ==> IsAsciiDigit(s[i])
  }

  /** Value of a run of decimal digits, most significant first. */
  function DecimalValue(s: string): nat
    requires AllDigits(s)
  {
    if s == [] then 0 else 10 * DecimalValue(s[..|s| - 1]) + DigitValue(s[|s| - 1])
  }

  /** `u32::to_string` / `format!("{}", n)` for a natural number. */
  function NatToString(n: nat): (s: string)
    ensures s != [] && AllDigits(s)
    ensures DecimalValue(s) == n
  {
    if n < 10 then [DigitChar(n)]
    else
      var s := NatToString(n / 10) + [DigitChar(n % 10)];
      assert s[..|s| - 1] == NatToString(n / 10);
      s
  }

  lemma NatToStringInjective(m: nat, n: nat)
    ensures NatToString(m) == NatToString(n) ==> m == n
  {
  }

  const U32_LIMIT: nat := 0x1_0000_0000

  /** `str::parse::<u32>()`: an optional leading '+', then at least one ASCII digit, no overflow. */
  function ParseU32(s: string): (r: Option<nat>)
    ensures r.Some? ==> r.value < U32_LIMIT
  {
    var digits := if s != [] && s[0] == '+' then s[1..] else s;
    if digits != [] && AllDigits(digits) && DecimalValue(digits) < U32_LIMIT
    then Some(DecimalValue(digits))
    else None
  }

  lemma ParsePrinted(n: nat)
    requires n < U32_LIMIT
    ensures ParseU32(NatToString(n)) == Some(n)
  {
    var s := NatToString(n);
    assert s[0] != '+' by { assert IsAsciiDigit(s[0]); }
  }

  // ------------------------------------------------------- entity escapes

  /** What the four-way HTML escape does to one character. */
  function HtmlEscapeChar(c: char): string {
    if c == '&' then "&amp;"
    else if c == '<' then "&lt;"
    else if c == '>' then "&gt;"
    else if c == '"' then "&quot;"
    else [c]
  }

  /** What the five-way XML escape does to one character. */
  function XmlEscapeChar(c: char): string {
    if c == '\'' then "&apos;" else HtmlEscapeChar(c)
  }

  function HtmlEscapeEach(s: string): string {
    if s == [] then [] else HtmlEscapeChar(s[0]) + HtmlEscapeEach(s[1..])
  }

  function XmlEscapeEach(s: string): string {
    if s == [] then [] else XmlEscapeChar(s[0]) + XmlEscapeEach(s[1..])
  }

  /** The chained `replace` calls of `html_escape_inner` / `html_escape_attr`: '&' first, then
      '<', '>' and '"'. */
  function HtmlEscape(s: string): string {
    ReplaceChar(ReplaceChar(ReplaceChar(ReplaceChar(s, '&', "&amp;"), '<', "&lt;"), '>', "&gt;"), '"', "&quot;")
  }

  /** The chained `replace` calls of `xml_escape`: as `HtmlEscape`, then '\''. */
  function XmlEscape(s: string): string {
    ReplaceChar(HtmlEscape(s), '\'', "&apos;")
  }

  lemma HtmlEscapeAppend(a: string, b: string)
    ensures HtmlEscape(a + b) == HtmlEscape(a) + HtmlEscape(b)
  {
    ReplaceCharAppend(a, b, '&', "&amp;");
    var a1, b1 := ReplaceChar(a, '&', "&amp;"), ReplaceChar(b, '&', "&amp;");
    ReplaceCharAppend(a1, b1, '<', "&lt;");
    var a2, b2 := ReplaceChar(a1, '<', "&lt;"), ReplaceChar(b1, '<', "&lt;");
    ReplaceCharAppend(a2, b2, '>', "&gt;");
    var a3, b3 := ReplaceChar(a2, '>', "&gt;"), ReplaceChar(b2, '>', "&gt;");
    ReplaceCharAppend(a3, b3, '"', "&quot;");
  }

  lemma {:induction false} ReplaceCharAbsent(s: string, c: char, rep: string)
    requires c !in s
    ensures ReplaceChar(s, c, rep) == s
    decreases |s|
  {
    if s != [] {
      assert s[1..] == s[|s| - |s[1..]|..];
      ReplaceCharAbsent(s[1..], c, rep);
    }
  }

  lemma ReplaceCharSingle(c: char, x: char, rep: string)
    ensures ReplaceChar([c], x, rep) == if c == x then rep else [c]
  {
    assert [c][1..] == [];
  }

  /** The chain applied to one character is that character's escape. */
  lemma HtmlEscapeSingle(c: char)
    ensures HtmlEscape([c]) == HtmlEscapeChar(c)
  {
    ReplaceCharSingle(c, '&', "&amp;");
    if c == '&' {
      HtmlEscapeAmpersand(HtmlEscapeChar(c));
    } else {
      HtmlEscapeAfterAmpersand(c);
    }
  }

  /** The three later passes leave "&amp;" alone. */
  lemma HtmlEscapeAmpersand(a: string)
    requires a == "&amp;"
    ensures ReplaceChar(ReplaceChar(ReplaceChar(a, '<', "&lt;"), '>', "&gt;"), '"', "&quot;") == a
  {
    ReplaceCharAbsent(a, '<', "&lt;");
    ReplaceCharAbsent(a, '>', "&gt;");
    ReplaceCharAbsent(a, '"', "&quot;");
  }

  lemma HtmlEscapeAfterAmpersand(c: char)
    requires c != '&'
    ensures ReplaceChar(ReplaceChar(ReplaceChar([c], '<', "&lt;"), '>', "&gt;"), '"', "&quot;") == HtmlEscapeChar(c)
  {
    ReplaceCharSingle(c, '<', "&lt;");
    if c == '<' {
      ReplaceCharAbsent("&lt;", '>', "&gt;");
      ReplaceCharAbsent("&lt;", '"', "&quot;");
    } else {
      ReplaceCharSingle(c, '>', "&gt;");
      if c == '>' {
        ReplaceCharAbsent("&gt;", '"', "&quot;");
      } else {
        ReplaceCharSingle(c, '"', "&quot;");
      }
    }
  }

  /** Because '&' is replaced first, the chain never re-escapes its own output: it is the
      same as escaping each character on its own. */
  lemma {:induction false} HtmlEscapeIsCharwise(s: string)
    ensures HtmlEscape(s) == HtmlEscapeEach(s)
    decreases |s|
  {
    if s != [] {
      assert s == [s[0]] + s[1..];
      HtmlEscapeAppend([s[0]], s[1..]);
      HtmlEscapeSingle(s[0]);
      HtmlEscapeIsCharwise(s[1..]);
    }
  }

  lemma XmlEscapeSingle(c: char)
    ensures XmlEscape([c]) == XmlEscapeChar(c)
  {
    HtmlEscapeSingle(c);
    if c == '\'' {
      ReplaceCharSingle(c, '\'', "&apos;");
    } else if c == '&' {
      ReplaceCharAbsent("&amp;", '\'', "&apos;");
    } else if c == '<' {
      ReplaceCharAbsent("&lt;", '\'', "&apos;");
    } else if c == '>' {
      ReplaceCharAbsent("&gt;", '\'', "&apos;");
    } else if c == '"' {
      ReplaceCharAbsent("&quot;", '\'', "&apos;");
    } else {
      ReplaceCharSingle(c, '\'', "&apos;");
    }
  }

  lemma {:induction false} XmlEscapeIsCharwise(s: string)
    ensures XmlEscape(s) == XmlEscapeEach(s)
    decreases |s|
  {
    if s != [] {
      assert s == [s[0]] + s[1..];
      HtmlEscapeAppend([s[0]], s[1..]);
      ReplaceCharAppend(HtmlEscape([s[0]]), HtmlEscape(s[1..]), '\'', "&apos;");
      XmlEscapeSingle(s[0]);
      XmlEscapeIsCharwise(s[1..]);
    }
  }

  /** Reference decoder for the five entities the escapes produce. */
  function Unescape(t: string): string
    decreases |t|
  {
    if t == [] then []
    else if t[0] != '&' then [t[0]] + Unescape(t[1..])
    else if StartsWith(t, "&amp;") then "&" + Unescape(t[5..])
    else if StartsWith(t, "&lt;") then "<" + Unescape(t[4..])
    else if StartsWith(t, "&gt;") then ">" + Unescape(t[4..])
    else if StartsWith(t, "&quot;") then "\"" + Unescape(t[6..])
    else if StartsWith(t, "&apos;") then "'" + Unescape(t[6..])
    else [t[0]] + Unescape(t[1..])
  }

  lemma UnescapeStep(c: char, rest: string)
    ensures Unescape(XmlEscapeChar(c) + rest) == [c] + Unescape(rest)
  {
    if c == '&' {
      UnescapeEntity("&amp;", '&', rest);
    } else if c == '<' {
      UnescapeEntity("&lt;", '<', rest);
    } else if c == '>' {
      UnescapeEntity("&gt;", '>', rest);
    } else if c == '"' {
      UnescapeEntity("&quot;", '"', rest);
    } else if c == '\'' {
      UnescapeEntity("&apos;", '\'', rest);
    } else {
      var t := [c] + rest;
      assert t[0] == c && t[1..] == rest;
    }
  }

  /** Each of the five entities decodes to its character. */
  lemma UnescapeEntity(e: string, c: char, rest: string)
    requires (e, c) in {("&amp;", '&'), ("&lt;", '<'), ("&gt;", '>'), ("&quot;", '"'), ("&apos;", '\'')}
    ensures Unescape(e + rest) == [c] + Unescape(rest)
  {
    var t := e + rest;
    assert t[..|e|] == e && t[|e|..] == rest;
    assert t[1] == e[1] && t[2] == e[2];
    if e != "&amp;" {
      NotStartsWith(t, "&amp;", if e == "&apos;" then 2 else 1);
    }
    if e != "&amp;" && e != "&lt;" {
      NotStartsWith(t, "&lt;", 1);
    }
    if e == "&quot;" || e == "&apos;" {
      NotStartsWith(t, "&gt;", 1);
    }
    if e == "&apos;" {
      NotStartsWith(t, "&quot;", 1);
    }
  }

  lemma NotStartsWith(t: string, p: string, i: nat)
    requires i < |p| && i < |t| && t[i] != p[i]
    ensures !StartsWith(t, p)
  {
    if |p| <= |t| {
      assert t[..|p|][i] != p[i];
    }
  }

  lemma UnescapeHtmlStep(c: char, rest: string)
    ensures Unescape(HtmlEscapeChar(c) + rest) == [c] + Unescape(rest)
  {
    if c == '\'' {
      var t := HtmlEscapeChar(c) + rest;
      assert t[0] == c && t[1..] == rest;
    } else {
      UnescapeStep(c, rest);
    }
  }

  /** `HtmlEscape` loses nothing: decoding its output gives the input back. */
  lemma {:induction false} HtmlEscapeRoundTrip(s: string)
    ensures Unescape(HtmlEscape(s)) == s
    decreases |s|
  {
    HtmlEscapeIsCharwise(s);
    if s != [] {
      HtmlEscapeIsCharwise(s[1..]);
      UnescapeHtmlStep(s[0], HtmlEscapeEach(s[1..]));
      HtmlEscapeRoundTrip(s[1..]);
    }
  }

  /** `XmlEscape` loses nothing: decoding its output gives the input back. */
  lemma {:induction false} XmlEscapeRoundTrip(s: string)
    ensures Unescape(XmlEscape(s)) == s
    decreases |s|
  {
    XmlEscapeIsCharwise(s);
    if s != [] {
      XmlEscapeIsCharwise(s[1..]);
      UnescapeStep(s[0], XmlEscapeEach(s[1..]));
      XmlEscapeRoundTrip(s[1..]);
    }
  }

  lemma XmlEscapeCharClean(c: char)
    ensures '<' !in XmlEscapeChar(c) && '>' !in XmlEscapeChar(c)
    ensures '"' !in XmlEscapeChar(c) && '\'' !in XmlEscapeChar(c)
    ensures c != '\'' ==> XmlEscapeChar(c) == HtmlEscapeChar(c)
  {
  }

  lemma {:induction false} EachClean(s: string)
    ensures '<' !in XmlEscapeEach(s) && '>' !in XmlEscapeEach(s)
    ensures '"' !in XmlEscapeEach(s) && '\'' !in XmlEscapeEach(s)
    ensures '<' !in HtmlEscapeEach(s) && '>' !in HtmlEscapeEach(s) && '"' !in HtmlEscapeEach(s)
    decreases |s|
  {
    if s != [] {
      XmlEscapeCharClean(s[0]);
      EachClean(s[1..]);
      if s[0] == '\'' {
        assert HtmlEscapeChar(s[0]) == [s[0]];
      }
    }
  }

  /** The HTML escape leaves no '<', '>' or '"' behind. */
  lemma HtmlEscapeRemovesSpecials(s: string)
    ensures '<' !in HtmlEscape(s) && '>' !in HtmlEscape(s) && '"' !in HtmlEscape(s)
  {
    HtmlEscapeIsCharwise(s);
    EachClean(s);
  }

  /** The XML escape leaves no '<', '>', '"' or '\'' behind. */
  lemma XmlEscapeRemovesSpecials(s: string)
    ensures '<' !in XmlEscape(s) && '>' !in XmlEscape(s) && '"' !in XmlEscape(s) && '\'' !in XmlEscape(s)
  {
    XmlEscapeIsCharwise(s);
    EachClean(s);
  }

  /** The escape never makes a string shorter. */
  lemma {:induction false} HtmlEscapeEachLength(s: string)
    ensures |HtmlEscapeEach(s)| >= |s|
    decreases |s|
  {
    if s != [] {
      HtmlEscapeEachLength(s[1..]);
    }
  }

  lemma HtmlEscapeLength(s: string)
    ensures |HtmlEscape(s)| >= |s|
  {
    HtmlEscapeIsCharwise(s);
    HtmlEscapeEachLength(s);
  }

  /** A string without any of the four special characters passes through unchanged. */
  lemma HtmlEscapePlain(s: string)
    requires '&' !in s && '<' !in s && '>' !in s && '"' !in s
    ensures HtmlEscape(s) == s
  {
    ReplaceCharAbsent(s, '&', "&amp;");
    ReplaceCharAbsent(s, '<', "&lt;");
    ReplaceCharAbsent(s, '>', "&gt;");
    ReplaceCharAbsent(s, '"', "&quot;");
  }

  lemma EscapeAround(x: string, y: string)
    requires '&' !in x && '<' !in x && '>' !in x && '"' !in x
    requires '&' !in y && '<' !in y && '>' !in y && '"' !in y
    ensures HtmlEscape(x + "&" + y) == x + "&amp;" + y
  {
    HtmlEscapeAppend(x + "&", y);
    HtmlEscapeAppend(x, "&");
    HtmlEscapePlain(x);
    HtmlEscapePlain(y);
    HtmlEscapeSingle('&');
  }

  /** The HTML escape is not idempotent: a second pass escapes the '&' of "&amp;" again. */
  lemma HtmlEscapeNotIdempotent()
    ensures HtmlEscape("a & b") == "a &amp; b"
    ensures HtmlEscape(HtmlEscape("a & b")) == "a &amp;amp; b"
  {
    HtmlEscapeOnce();
    HtmlEscapeTwice();
  }

  lemma HtmlEscapeOnce()
    ensures HtmlEscape("a & b") == "a &amp; b"
  {
    assert "a & b" == "a " + "&" + " b";
    EscapeAround("a ", " b");
    assert "a " + "&amp;" + " b" == "a &amp; b";
  }

  lemma HtmlEscapeTwice()
    ensures HtmlEscape("a &amp; b") == "a &amp;amp; b"
  {
    assert "a &amp; b" == "a " + "&" + "amp; b";
    EscapeAround("a ", "amp; b");
    assert "a " + "&amp;" + "amp; b" == "a &amp;amp; b";
  }
}
