/** The text scanners of the Royal Road adapter: the bracket matcher that cuts the
    `window.chapters` array out of a script, and the tag stripper used on descriptions. */
module RoyalRoadScan {
  import opened Wrappers
  import opened Text

  // ---------------------------------------------------------------- JSON array scanner

  /** The scanner's state between two characters: bracket depth outside strings, whether it
      is inside a string, and whether the previous string character was a backslash. */
  datatype ScanState = ScanState(depth: int, inString: bool, escape: bool)

  const SCAN_START := ScanState(0, false, false)

  /** One character of the scan, except for the closing bracket that ends it. */
  function ScanStep(st: ScanState, c: char): ScanState {
    if st.inString then
      if st.escape then st.(escape := false)
      else if c == '\\' then st.(escape := true)
      else if c == '"' then st.(inString := false)
      else st
    else if c == '[' then st.(depth := st.depth + 1)
    else if c == ']' then st.(depth := st.depth - 1)
    else if c == '"' then st.(inString := true)
    else st
  }

  /** The offset in `t` of the ']' that brings the depth back to zero outside a string. */
  function CloseAt(t: string, st: ScanState): (r: Option<nat>)
    ensures r.Some? ==> r.value < |t| && t[r.value] == ']'
    decreases |t|
  {
    if t == [] then None
    else if !st.inString && t[0] == ']' && st.depth - 1 == 0 then Some(0)
    else match CloseAt(t[1..], ScanStep(st, t[0]))
      case None => None
      case Some(k) => Some(k + 1)
  }

  /** `extract_json_array_with_strings`: from the first '[' to the bracket that closes it. */
  function JsonArraySpan(s: string): Option<string> {
    match FindChar(s, '[')
    case None => None
    case Some(start) =>
      match CloseAt(s[start..], SCAN_START)
      case None => None
      case Some(k) => Some(s[start..start + k + 1])
  }

  function Shifted(o: Option<nat>, n: nat): Option<nat> {
    if o.None? then None else Some(o.value + n)
  }

  /** One step of `CloseAt`. */
  lemma CloseAtStep(t: string, st: ScanState)
    requires t != []
    ensures CloseAt(t, st) == if !st.inString && t[0] == ']' && st.depth - 1 == 0 then Some(0)
                              else Shifted(CloseAt(t[1..], ScanStep(st, t[0])), 1)
  {
  }

  lemma ShiftedTwice(o: Option<nat>, a: nat, b: nat)
    ensures Shifted(Shifted(o, a), b) == Shifted(o, a + b)
  {
  }

  /** The loop invariant of the scan: what is left of the search from `start`, once the
      scan stands at `i` in state `st`. */
  predicate ScanFrom(s: string, start: nat, i: nat, st: ScanState)
    requires start <= i <= |s|
  {
    CloseAt(s[start..], SCAN_START) == Shifted(CloseAt(s[i..], st), i - start)
  }

  /** A character that does not close the array moves the scan one step on. */
  lemma ScanAdvance(s: string, start: nat, i: nat, st: ScanState)
    requires start <= i < |s| && ScanFrom(s, start, i, st)
    requires !(!st.inString && s[i] == ']' && st.depth - 1 == 0)
    ensures ScanFrom(s, start, i + 1, ScanStep(st, s[i]))
  {
    CloseAtStep(s[i..], st);
    assert s[i..][1..] == s[i + 1..];
    ShiftedTwice(CloseAt(s[i + 1..], ScanStep(st, s[i])), 1, i - start);
  }

  /** The character that closes the array ends the span at `i`. */
  lemma ScanClose(s: string, start: nat, i: nat, st: ScanState)
    requires start <= i < |s| && ScanFrom(s, start, i, st)
    requires !st.inString && s[i] == ']' && st.depth - 1 == 0
    ensures CloseAt(s[start..], SCAN_START) == Some(i - start)
  {
    CloseAtStep(s[i..], st);
  }

  /** The scanning loop, with the source's three state variables. */
  method ExtractJsonArrayWithStrings(s: string) returns (r: Option<string>)
    ensures r == JsonArraySpan(s)
  {
    var found := FindChar(s, '[');
    if found.None? {
      return None;
    }
    var start := found.value;
    var depth, inString, escape := 0, false, false;
    var i := start;
    assert s[start..][0..] == s[start..];
    while i < |s|
      invariant start <= i <= |s|
      invariant ScanFrom(s, start, i, ScanState(depth, inString, escape))
    {
      var c := s[i];
      ghost var st := ScanState(depth, inString, escape);
      if !inString && c == ']' && depth - 1 == 0 {
        ScanClose(s, start, i, st);
        return Some(s[start..i + 1]);
      }
      ScanAdvance(s, start, i, st);
      if inString {
        if escape {
          escape := false;
        } else if c == '\\' {
          escape := true;
        } else if c == '"' {
          inString := false;
        }
      } else if c == '[' {
        depth := depth + 1;
      } else if c == ']' {
        depth := depth - 1;
      } else if c == '"' {
        inString := true;
      }
      assert ScanState(depth, inString, escape) == ScanStep(st, c);
      i := i + 1;
    }
    assert s[i..] == [];
    return None;
  }

  /** The span starts at the first '[' of the input, ends with ']', and is at least "[]". */
  lemma SpanShape(s: string)
    requires JsonArraySpan(s).Some?
    ensures var a := JsonArraySpan(s).value; var start := FindChar(s, '[').value;
      2 <= |a| && a[0] == '[' && a[|a| - 1] == ']' && a == s[start..start + |a|]
  {
    var start := FindChar(s, '[').value;
    var k := CloseAt(s[start..], SCAN_START).value;
    assert s[start..][0] == '[';
    assert k != 0;
  }

  /** With no '[' in the input there is no span. */
  lemma NoBracketNoSpan(s: string)
    requires '[' !in s
    ensures JsonArraySpan(s) == None
  {
  }

  /** `count('[') - count(']')`. */
  function Balance(t: string): int {
    if t == [] then 0 else Balance(t[..|t| - 1]) + Delta(t[|t| - 1])
  }

  lemma BalanceSnoc(t: string, i: nat)
    requires i < |t|
    ensures Balance(t[..i + 1]) == Balance(t[..i]) + Delta(t[i])
  {
    assert t[..i + 1][..i] == t[..i];
  }

  /** What one character adds to the bracket count. */
  function Delta(c: char): int {
    if c == '[' then 1 else if c == ']' then -1 else 0
  }

  /** No ']' among the first `n` characters of `t` brings `d` plus the count to zero. */
  predicate NoCloseBefore(t: string, d: int, n: nat)
    requires n <= |t|
  {
    forall j :: 0 <= j < n && t[j] == ']' ==> d + Balance(t[..j + 1]) != 0
  }

  /** A first character that does not close extends the guarantee of the rest to `t`. */
  lemma NoCloseCons(t: string, d: int, n: nat)
    requires 1 <= n <= |t| && !(t[0] == ']' && d - 1 == 0)
    requires NoCloseBefore(t[1..], d + Delta(t[0]), n - 1)
    ensures NoCloseBefore(t, d, n)
  {
    forall j | 0 <= j < n && t[j] == ']' ensures d + Balance(t[..j + 1]) != 0 {
      BalanceShift(t, j + 1);
      if j > 0 {
        assert t[1..][j - 1] == t[j];
      }
    }
  }

  /** Without quotes the scanner is plain bracket counting: it stops at the first ']' at
      which the count of '[' minus ']' so far, added to the starting depth, is zero. */
  lemma {:induction false} QuoteFreeScanCounts(t: string, d: int)
    requires '"' !in t
    ensures var r := CloseAt(t, ScanState(d, false, false));
      (r.Some? ==> r.value < |t| && d + Balance(t[..r.value + 1]) == 0 && NoCloseBefore(t, d, r.value))
      && (r.None? ==> NoCloseBefore(t, d, |t|))
    decreases |t|
  {
    if t != [] {
      var d' := d + Delta(t[0]);
      CloseAtStep(t, ScanState(d, false, false));
      if t[0] == ']' && d - 1 == 0 {
        BalanceShift(t, 1);
      } else {
        assert ScanStep(ScanState(d, false, false), t[0]) == ScanState(d', false, false);
        assert t[0] != '"';
        QuoteFreeScanCounts(t[1..], d');
        var r' := CloseAt(t[1..], ScanState(d', false, false));
        if r'.Some? {
          BalanceShift(t, r'.value + 2);
          NoCloseCons(t, d, r'.value + 1);
        } else {
          NoCloseCons(t, d, |t|);
        }
      }
    }
  }

  /** Dropping the first character moves its contribution into the starting depth. */
  lemma {:induction false} BalanceShift(t: string, n: nat)
    requires 1 <= n <= |t|
    ensures Balance(t[..n]) == Delta(t[0]) + Balance(t[1..][..n - 1])
    decreases n
  {
    if n == 1 {
      assert t[..1] == [t[0]];
      assert Balance([t[0]]) == Balance([]) + Delta(t[0]);
      assert t[1..][..0] == [];
    } else {
      BalanceShift(t, n - 1);
      BalanceSnoc(t, n - 1);
      BalanceSnoc(t[1..], n - 2);
      assert t[1..][..n - 1] == t[1..][..n - 2 + 1];
    }
  }

  /** An input that starts with '[' closed by its last character is its own span. */
  lemma WholeSpan(s: string)
    requires s != [] && s[0] == '[' && CloseAt(s, SCAN_START) == Some(|s| - 1)
    ensures JsonArraySpan(s) == Some(s)
  {
    assert FindChar(s, '[') == Some(0);
    assert s[0..] == s && s[0..|s|] == s;
  }

  /** The content of a JSON string as the scanner reads it: no bare '"', and each '\\' takes
      the character after it, whatever that is. */
  predicate StringBody(t: string)
    decreases |t|
  {
    t == []
    || (t[0] == '\\' && |t| >= 2 && StringBody(t[2..]))
    || (t[0] != '\\' && t[0] != '"' && StringBody(t[1..]))
  }

  /** A backslash inside a string swallows the next character, a quote or a bracket
      included: the scan goes on two characters later, still inside the string. */
  lemma EscapedQuoteKept(c: char, rest: string, d: int)
    ensures CloseAt(['\\', c] + rest, ScanState(d, true, false))
            == Shifted(CloseAt(rest, ScanState(d, true, false)), 2)
  {
    var u := ['\\', c] + rest;
    CloseAtStep(u, ScanState(d, true, false));
    assert u[1..] == [c] + rest;
    CloseAtStep(u[1..], ScanState(d, true, true));
    assert u[1..][1..] == rest;
    ShiftedTwice(CloseAt(rest, ScanState(d, true, false)), 1, 1);
  }

  /** Inside a string nothing counts until the closing quote: brackets and escaped quotes in
      the content `u[..n]` leave the depth as it was, and the scan resumes after the quote at
      `n`. */
  lemma {:induction false} StringSkipped(u: string, n: nat, d: int)
    requires n < |u| && u[n] == '"' && StringBody(u[..n])
    ensures CloseAt(u, ScanState(d, true, false))
            == Shifted(CloseAt(u[n + 1..], ScanState(d, false, false)), n + 1)
    decreases n
  {
    CloseAtStep(u, ScanState(d, true, false));
    var after := CloseAt(u[n + 1..], ScanState(d, false, false));
    if n == 0 {
      assert u[1..] == u[n + 1..];
    } else if u[0] == '\\' {
      assert u[..n][2..] == u[2..][..n - 2];
      StringSkipped(u[2..], n - 2, d);
      assert u[2..][n - 2 + 1..] == u[n + 1..];
      CloseAtStep(u[1..], ScanState(d, true, true));
      assert u[1..][1..] == u[2..];
      ShiftedTwice(after, n - 1, 1);
      ShiftedTwice(after, n, 1);
    } else {
      assert u[..n][1..] == u[1..][..n - 1];
      StringSkipped(u[1..], n - 1, d);
      assert u[1..][n - 1 + 1..] == u[n + 1..];
      ShiftedTwice(after, n, 1);
    }
  }

  /** An array holding one string keeps all of it, whatever brackets and escaped quotes the
      string holds: a chapter title "]" or "\\"]" does not cut the array short. */
  lemma BracketInStringKept(s: string)
    requires |s| >= 4 && s[0] == '[' && s[1] == '"' && s[|s| - 2] == '"' && s[|s| - 1] == ']'
    requires StringBody(s[2..|s| - 2])
    ensures JsonArraySpan(s) == Some(s)
  {
    var u := s[2..];
    var n := |s| - 4;
    assert u[..n] == s[2..|s| - 2] && u[n] == '"';
    var last := u[n + 1..];
    assert last[0] == ']' && last[1..] == [];
    CloseAtStep(last, ScanState(1, false, false));
    StringSkipped(u, n, 1);
    CloseAtStep(s[1..], ScanState(1, false, false));
    assert s[1..][1..] == u;
    CloseAtStep(s, SCAN_START);
    WholeSpan(s);
  }

  /** Without quotes, there is no span exactly when no ']' after the first '[' brings the
      count of '[' minus ']' back to zero. */
  lemma UnclosedGivesNone(s: string)
    requires '"' !in s && FindChar(s, '[').Some?
    ensures var t := s[FindChar(s, '[').value..];
      JsonArraySpan(s) == None <==> NoCloseBefore(t, 0, |t|)
  {
    var t := s[FindChar(s, '[').value..];
    assert forall c :: c in t ==> c in s;
    QuoteFreeScanCounts(t, 0);
    var r := CloseAt(t, ScanState(0, false, false));
    if r.Some? {
      assert t[r.value] == ']' && 0 + Balance(t[..r.value + 1]) == 0;
    }
  }

  // ---------------------------------------------------------------- tags

  /** The characters outside `<…>`, given whether the scan starts inside a tag. */
  function TextOutsideTags(s: string, inTag: bool): (r: string)
    ensures |r| <= |s|
    decreases |s|
  {
    if s == [] then []
    else if s[0] == '<' then TextOutsideTags(s[1..], true)
    else if s[0] == '>' then TextOutsideTags(s[1..], false)
    else if !inTag then [s[0]] + TextOutsideTags(s[1..], inTag)
    else TextOutsideTags(s[1..], inTag)
  }

  /** `strip_html_tags`: drop the tags, replace each "\n\n\n" by "\n\n" in one pass, trim. */
  function StrippedTags(s: string): string {
    Trim(ReplaceAll(TextOutsideTags(s, false), "\n\n\n", "\n\n"))
  }

  method StripHtmlTags(s: string) returns (r: string)
    ensures r == StrippedTags(s)
  {
    var out := "";
    var inTag := false;
    var i := 0;
    assert s[0..] == s;
    while i < |s|
      invariant 0 <= i <= |s|
      invariant out + TextOutsideTags(s[i..], inTag) == TextOutsideTags(s, false)
    {
      var c := s[i];
      assert s[i..][1..] == s[i + 1..];
      if c == '<' {
        inTag := true;
      } else if c == '>' {
        inTag := false;
      } else if !inTag {
        AppendKept(out, c, TextOutsideTags(s[i + 1..], inTag));
        out := out + [c];
      }
      i := i + 1;
    }
    assert s[i..] == [] && out + [] == out;
    r := Trim(ReplaceAll(out, "\n\n\n", "\n\n"));
  }

  lemma AppendKept(out: string, c: char, rest: string)
    ensures out + ([c] + rest) == (out + [c]) + rest
  {
  }

  /** No angle bracket survives. */
  lemma {:induction false} NoAngleBrackets(s: string, inTag: bool)
    ensures '<' !in TextOutsideTags(s, inTag) && '>' !in TextOutsideTags(s, inTag)
    decreases |s|
  {
    if s != [] {
      NoAngleBrackets(s[1..], s[0] == '<' || (s[0] != '>' && inTag));
    }
  }

  /** Text without tags is kept as it is. */
  lemma {:induction false} PlainTextKept(s: string)
    requires '<' !in s && '>' !in s
    ensures TextOutsideTags(s, false) == s
    decreases |s|
  {
    if s != [] {
      PlainTextKept(s[1..]);
    }
  }

  /** Text inside a tag is dropped: "<p>Hi</p>" gives "Hi". */
  lemma TagsDropped()
    ensures TextOutsideTags("<p>Hi</p>", false) == "Hi"
  {
    var s := "<p>Hi</p>";
    assert s[1..] == "p>Hi</p>" && s[2..] == ">Hi</p>" && s[3..] == "Hi</p>";
    assert s[4..] == "i</p>" && s[5..] == "</p>" && s[6..] == "/p>" && s[7..] == "p>";
    assert s[8..] == ">" && s[9..] == [];
  }
}
