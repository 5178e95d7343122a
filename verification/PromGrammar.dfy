/**
 The two regular expressions of the text parser and the line breaks it knows, as a grammar over
 characters, and the proof that the scanning functions read exactly this grammar.
 */
module PromGrammar {
  import opened Text
  import opened TextLines
  import opened PromText
  import opened PromRoundTrip

  // ---------------------------------------------------------------------------------------
  // The grammar
  // ---------------------------------------------------------------------------------------

  predicate IsNameStart(c: char) {
    'a' <= c <= 'z' || 'A' <= c <= 'Z' || c == '_' || c == ':'
  }

  /** [a-zA-Z_:][a-zA-Z0-9_:]* */
  predicate IsName(n: string) {
    n != "" && IsNameStart(n[0]) && forall c :: c in n ==> IsNameStart(c) || '0' <= c <= '9'
  }

  /** [a-zA-Z_][a-zA-Z0-9_]* */
  predicate IsKey(k: string) {
    IsName(k) && ':' !in k
  }

  /** -?[0-9eE.+\-]+ or NaN or \+?Inf or -Inf */
  predicate IsNumber(v: string) {
    || v == "NaN" || v == "Inf" || v == "+Inf" || v == "-Inf"
    || (v != "" && forall c :: c in v ==> '0' <= c <= '9' || c == 'e' || c == 'E' || c == '.' || c == '+' || c == '-')
  }

  predicate IsGap(w: string) {
    w != "" && forall c :: c in w ==> IsSpace(c)
  }

  /** What follows the name: nothing, or labels in braces. */
  function Braced(labels: Option<string>): string {
    if labels.None? then "" else "{" + labels.value + "}"
  }

  /** name, optional {labels}, white space, value */
  ghost predicate IsSampleText(line: string, n: string, labels: Option<string>, v: string) {
    && IsName(n) && IsNumber(v) && (labels.Some? ==> '}' !in labels.value)
    && exists w :: IsGap(w) && line == n + Braced(labels) + w + v
  }

  function TextOf(labels: Option<string>): string {
    if labels.None? then "" else labels.value
  }

  // ---------------------------------------------------------------------------------------
  // The scanners read the grammar
  // ---------------------------------------------------------------------------------------

  lemma NamesAre(n: string)
    ensures IsName(n) <==> IsMetricName(n)
  {
    if n != "" {
      assert n[0] in n;
    }
  }

  lemma NumbersAre(v: string)
    ensures IsNumber(v) <==> IsValueLexeme(v)
  {
    assert AllIn(v, ValueChar) <==> forall c :: c in v ==> '0' <= c <= '9' || c == 'e' || c == 'E' || c == '.' || c == '+' || c == '-';
  }

  lemma KeysAre(k: string)
    ensures IsKey(k) <==> IsLabelName(k)
  {
    if k != "" {
      assert k[0] in k;
    }
  }

  lemma NumberHasNoSpace(v: string)
    requires IsNumber(v)
    ensures v != "" && !IsSpace(v[0])
  {
    if v != "" {
      assert v[0] in v;
    }
  }

  /** The value matcher takes white space, then a number up to the end. */
  lemma ValueMatchIff(n: string, l: string, rest: string, v: string)
    ensures MatchValue(n, l, rest) == Fields(n, l, v) <==> IsNumber(v) && exists w :: IsGap(w) && rest == w + v
  {
    var k := Span(rest, Space);
    SpanIsLongest(rest, Space);
    NumbersAre(rest[k..]);
    if MatchValue(n, l, rest) == Fields(n, l, v) {
      assert IsGap(rest[..k]) && rest == rest[..k] + v;
    }
    if w :| IsNumber(v) && IsGap(w) && rest == w + v {
      NumberHasNoSpace(v);
      SpanStopsAt(w, v, Space);
      assert rest[k..] == v;
    }
  }

  lemma Regroup(a: string, b: string, c: string, d: string)
    ensures a + b + c + d == a + (b + (c + d))
  {
  }

  lemma BracesSplit(rest: string, e: nat)
    requires rest != "" && rest[0] == '{' && e == Span(rest[1..], NotBrace) && 1 + e < |rest|
    ensures rest == Braced(Some(rest[1..1 + e])) + rest[2 + e..] && '}' !in rest[1..1 + e]
  {
    SpanIsLongest(rest[1..], NotBrace);
    assert rest[1..1 + e] == rest[1..][..e] && rest[1 + e] == rest[1..][e] == '}';
  }

  lemma MatchedRestIsSample(line: string, n: string, labels: Option<string>, tail: string, v: string)
    requires IsName(n) && (labels.Some? ==> '}' !in labels.value) && line == n + (Braced(labels) + tail)
    requires MatchValue(n, TextOf(labels), tail) == Fields(n, TextOf(labels), v)
    ensures IsSampleText(line, n, labels, v)
  {
    ValueMatchIff(n, TextOf(labels), tail, v);
    var w :| IsGap(w) && tail == w + v;
    Regroup(n, Braced(labels), w, v);
  }

  lemma MatchedLineIsSample(line: string, n: string, l: string, v: string)
    requires MatchSample(line) == Fields(n, l, v)
    ensures exists labels :: TextOf(labels) == l && IsSampleText(line, n, labels, v)
  {
    var k := Span(line, NameChar);
    SpanIsLongest(line, NameChar);
    NamesAre(line[..k]);
    var rest := line[k..];
    assert line == line[..k] + rest;
    if rest != "" && rest[0] == '{' {
      var e := Span(rest[1..], NotBrace);
      BracesSplit(rest, e);
      MatchedRestIsSample(line, n, Some(rest[1..1 + e]), rest[2 + e..], v);
    } else {
      assert Braced(None) + rest == rest;
      MatchedRestIsSample(line, n, None, rest, v);
    }
  }

  lemma NameIsFirst(n: string, rest: string)
    requires IsName(n) && rest != "" && !In(rest[0], NameChar)
    ensures var line := n + rest;
            Span(line, NameChar) == |n| && line[..|n|] == n && line[|n|..] == rest && line[0] == n[0] && !IsDigit(line[0])
  {
    NamesAre(n);
    SpanStopsAt(n, rest, NameChar);
  }

  lemma BracedIsMatched(n: string, l: string, tail: string)
    requires IsName(n) && '}' !in l
    ensures MatchSample(n + (Braced(Some(l)) + tail)) == MatchValue(n, l, tail)
  {
    var rest := Braced(Some(l)) + tail;
    NameIsFirst(n, rest);
    assert rest[1..] == l + ("}" + tail);
    SpanStopsAt(l, "}" + tail, NotBrace);
    assert rest[1..1 + |l|] == l && rest[2 + |l|..] == tail;
  }

  lemma BareIsMatched(n: string, tail: string)
    requires IsName(n) && tail != "" && IsSpace(tail[0])
    ensures MatchSample(n + tail) == MatchValue(n, "", tail)
  {
    NameIsFirst(n, tail);
  }

  lemma SampleLineMatches(line: string, n: string, labels: Option<string>, v: string)
    requires IsSampleText(line, n, labels, v)
    ensures MatchSample(line) == Fields(n, TextOf(labels), v)
  {
    var w :| IsGap(w) && line == n + Braced(labels) + w + v;
    Regroup(n, Braced(labels), w, v);
    ValueMatchIff(n, TextOf(labels), w + v, v);
    if labels.Some? {
      BracedIsMatched(n, labels.value, w + v);
    } else {
      assert w[0] in w;
      assert Braced(None) + (w + v) == w + v;
      BareIsMatched(n, w + v);
    }
  }

  /** The sample expression accepts a line with these fields exactly when the line has the sample form. */
  lemma SampleMatchIff(line: string, n: string, l: string, v: string)
    ensures MatchSample(line) == Fields(n, l, v) <==> exists labels :: TextOf(labels) == l && IsSampleText(line, n, labels, v)
  {
    if MatchSample(line) == Fields(n, l, v) {
      MatchedLineIsSample(line, n, l, v);
    }
    if labels :| TextOf(labels) == l && IsSampleText(line, n, labels, v) {
      SampleLineMatches(line, n, labels, v);
    }
  }

  /**
   A raw line contributes a sample exactly when, without surrounding white space, it has the sample
   form and `float` accepts its value; the sample then has its name, its labels and its value.
   */
  lemma LineIsReadIff(isFloat: string -> bool, raw: string, s: Sample)
    ensures ParseLine(isFloat, raw) == Some(s) <==>
            isFloat(s.value) && exists labels :: s.labels == LabelMap(FindLabels(TextOf(labels))) && IsSampleText(Strip(raw), s.name, labels, s.value)
  {
    var line := Strip(raw);
    if ParseLine(isFloat, raw) == Some(s) {
      var m := MatchSample(line);
      SampleMatchIff(line, m.name, m.labels, m.value);
    }
    if labels :| isFloat(s.value) && s.labels == LabelMap(FindLabels(TextOf(labels))) && IsSampleText(line, s.name, labels, s.value) {
      SampleLineMatches(line, s.name, labels, s.value);
      assert line[0] == s.name[0];
      assert s.name[0] in s.name;
    }
  }

  // ---------------------------------------------------------------------------------------
  // Labels
  // ---------------------------------------------------------------------------------------

  /** key="value" with the rest of the text after it. */
  predicate IsPairBefore(s: string, k: string, v: string, rest: string) {
    IsKey(k) && '"' !in v && s == RenderPair(k, v) + rest
  }

  /** A text cut at a key, the two characters after it, and a value with the closing quote. */
  lemma CutIsPair(s: string, n: nat, v: nat)
    requires n + v + 2 < |s| && s[n] == '=' && s[n + 1] == '"' && s[n + 2 + v] == '"'
    ensures s == RenderPair(s[..n], s[n + 2..n + 2 + v]) + s[n + v + 3..]
  {
    assert s == s[..n] + [s[n], s[n + 1]] + s[n + 2..n + 2 + v] + [s[n + 2 + v]] + s[n + v + 3..];
  }

  lemma MatchIsPair(s: string)
    requires MatchLabel(s).Match?
    ensures var m := MatchLabel(s); 0 < m.length <= |s| && IsPairBefore(s, m.key, m.val, s[m.length..])
  {
    var n := Span(s, LabelChar);
    SpanIsLongest(s, LabelChar);
    KeysAre(s[..n]);
    var after := s[n + 2..];
    var v := Span(after, NotQuote);
    SpanIsLongest(after, NotQuote);
    assert after[..v] == s[n + 2..n + 2 + v] && after[v] == s[n + 2 + v];
    CutIsPair(s, n, v);
  }

  /**
   The label search, from left to right: a pair at the front is taken with all that follows it
   searched on; where no pair starts, the search moves on by one character.
   */
  lemma LabelsAreFound(s: string, k: string, v: string, rest: string)
    ensures FindLabels("") == []
    ensures IsPairBefore(s, k, v, rest) ==> FindLabels(s) == [(k, v)] + FindLabels(rest)
    ensures s != "" && (forall a, b, c :: !IsPairBefore(s, a, b, c)) ==> FindLabels(s) == FindLabels(s[1..])
  {
    if IsPairBefore(s, k, v, rest) {
      KeysAre(k);
      FindFirstLabel(k, v, rest);
    }
    if MatchLabel(s).Match? {
      MatchIsPair(s);
    }
  }

  /** Later pairs win: the dictionary holds for each key the value of its last pair. */
  lemma {:induction false} LastPairWins(pairs: seq<(string, string)>, k: string)
    ensures k in LabelMap(pairs) <==> exists i :: 0 <= i < |pairs| && pairs[i].0 == k
    ensures forall i :: 0 <= i < |pairs| && pairs[i].0 == k && (forall j :: i < j < |pairs| ==> pairs[j].0 != k) ==>
              k in LabelMap(pairs) && LabelMap(pairs)[k] == pairs[i].1
  {
    if pairs != [] {
      var front := pairs[..|pairs| - 1];
      LastPairWins(front, k);
      assert forall i :: 0 <= i < |front| ==> front[i] == pairs[i];
    }
  }

  // ---------------------------------------------------------------------------------------
  // Numbers and line breaks
  // ---------------------------------------------------------------------------------------

  predicate AreDigits(s: string) {
    s != "" && forall c :: c in s ==> '0' <= c <= '9'
  }

  /** A number with sign, fraction and exponent is read as it stands. */
  lemma ScientificIsRead(isFloat: string -> bool, n: string, sign: string, a: string, b: string, e: string, c: string)
    requires IsName(n) && sign in {"", "-", "+"} && e in {"e", "E", "e+", "e-", "E+", "E-"}
    requires AreDigits(a) && AreDigits(b) && AreDigits(c) && isFloat(sign + a + "." + b + e + c)
    ensures var v := sign + a + "." + b + e + c; ParseLine(isFloat, n + " " + v) == Some(Sample(n, map[], v))
  {
    var v := sign + a + "." + b + e + c;
    assert IsNumber(v);
    BareLineIsRead(isFloat, n, v);
  }

  /** So are whole numbers and the four special values. */
  lemma WholeOrSpecialIsRead(isFloat: string -> bool, n: string, v: string)
    requires IsName(n) && isFloat(v) && (AreDigits(v) || v in {"NaN", "Inf", "+Inf", "-Inf"})
    ensures ParseLine(isFloat, n + " " + v) == Some(Sample(n, map[], v))
  {
    BareLineIsRead(isFloat, n, v);
  }

  lemma BareIsRendered(n: string, v: string)
    ensures RenderLine(Exposed(n, [], v)) == n + " " + v
    ensures SampleOf(Exposed(n, [], v)) == Sample(n, map[], v)
  {
  }

  lemma BareLineIsRead(isFloat: string -> bool, n: string, v: string)
    requires IsName(n) && IsNumber(v) && isFloat(v)
    ensures ParseLine(isFloat, n + " " + v) == Some(Sample(n, map[], v))
  {
    BareIsRendered(n, v);
    LineRoundTrip(isFloat, Exposed(n, [], v));
  }

  /** The line breaks of `str.splitlines`, one by one. */
  lemma BreaksAre(c: char)
    ensures IsBreak(c) <==>
            c in {'\n', '\r', '\U{0B}', '\U{0C}', '\U{1C}', '\U{1D}', '\U{1E}', '\U{85}', '\U{2028}', '\U{2029}'}
  {
  }

  /** Any of them ends a line; a carriage return takes a following line feed with it. */
  lemma BreakEndsLine(isFloat: string -> bool, line: string, c: char, rest: string)
    requires (forall x :: x in line ==> !IsBreak(x)) && IsBreak(c)
    ensures !(c == '\r' && rest != "" && rest[0] == '\n') ==>
              Parse(isFloat, line + [c] + rest) == One(LineParser(isFloat), line) + Parse(isFloat, rest)
    ensures Parse(isFloat, line + "\r\n" + rest) == One(LineParser(isFloat), line) + Parse(isFloat, rest)
  {
    BreakAfter(isFloat, line, [c], rest);
    BreakAfter(isFloat, line, "\r\n", rest);
  }

  lemma BreakAfter(isFloat: string -> bool, line: string, br: string, rest: string)
    requires AllIn(line, NotBreak) && ((|br| == 1 && IsBreak(br[0])) || br == "\r\n")
    ensures (br == "\r" && rest != "" && rest[0] == '\n')
         || Parse(isFloat, line + br + rest) == One(LineParser(isFloat), line) + Parse(isFloat, rest)
  {
    var text := line + br + rest;
    assert text == line + (br + rest);
    SpanStopsAt(line, br + rest, NotBreak);
    assert text[..|line|] == line && text[|line|] == br[0] && text[|line| + |br|..] == rest;
    if !(br == "\r" && rest != "" && rest[0] == '\n') {
      GatherFirstLine(LineParser(isFloat), text, |line|, rest);
    }
  }
}
