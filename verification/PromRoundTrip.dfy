/**
 Exposition text as it is rendered, the round trip through the parser, and the exact condition
 under which the operator's own /metrics page survives it.
 */
module PromRoundTrip {
  import opened Text
  import opened TextLines
  import opened PromText

  /** A sample to render, its labels in writing order. */
  datatype Exposed = Exposed(name: string, labels: seq<(string, string)>, value: string)

  function RenderPair(k: string, v: string): string {
    k + "=\"" + v + "\""
  }

  function RenderLabels(labels: seq<(string, string)>): string {
    if labels == [] then ""
    else RenderPair(labels[0].0, labels[0].1) + if |labels| == 1 then "" else "," + RenderLabels(labels[1..])
  }

  function RenderLine(x: Exposed): string {
    x.name + (if x.labels == [] then "" else "{" + RenderLabels(x.labels) + "}") + " " + x.value
  }

  function RenderLines(xs: seq<Exposed>): seq<string> {
    if xs == [] then [] else [RenderLine(xs[0])] + RenderLines(xs[1..])
  }

  function RenderText(xs: seq<Exposed>): string {
    JoinLines(RenderLines(xs))
  }

  function SampleOf(x: Exposed): Sample {
    Sample(x.name, LabelMap(x.labels), x.value)
  }

  function SamplesOf(xs: seq<Exposed>): seq<Sample> {
    if xs == [] then [] else [SampleOf(xs[0])] + SamplesOf(xs[1..])
  }

  /** The parser knows no escapes: these characters cannot be part of a label value. */
  predicate IsPlain(v: string) {
    AllIn(v, NotQuote) && AllIn(v, NotBrace) && AllIn(v, NotBreak)
  }

  predicate IsWellFormed(isFloat: string -> bool, x: Exposed) {
    && IsMetricName(x.name) && IsValueLexeme(x.value) && isFloat(x.value)
    && forall p :: p in x.labels ==> IsLabelName(p.0) && IsPlain(p.1)
  }

  // ---------------------------------------------------------------------------------------
  // One line
  // ---------------------------------------------------------------------------------------

  lemma AllInAppend(a: string, b: string, cls: Class)
    ensures AllIn(a + b, cls) <==> AllIn(a, cls) && AllIn(b, cls)
  {
    assert forall c :: c in a + b <==> c in a || c in b;
  }

  lemma FindFirstLabel(k: string, v: string, rest: string)
    requires IsLabelName(k) && AllIn(v, NotQuote)
    ensures FindLabels(RenderPair(k, v) + rest) == [(k, v)] + FindLabels(rest)
  {
    var s := RenderPair(k, v) + rest;
    PairShape(k, v, rest);
    SpanStopsAt(k, "=\"" + v + "\"" + rest, LabelChar);
    SpanStopsAt(v, "\"" + rest, NotQuote);
    assert MatchLabel(s) == Match(k, v, |k| + |v| + 3);
  }

  /** Where the pieces of key="val" lie. */
  lemma PairShape(k: string, v: string, rest: string)
    requires k != ""
    ensures var s := RenderPair(k, v) + rest;
            && s == k + ("=\"" + v + "\"" + rest) && s[0] == k[0] && s[|k|] == '=' && s[|k| + 1] == '"'
            && s[|k| + 2..] == v + ("\"" + rest) && s[..|k|] == k && s[|k| + 2..|k| + 2 + |v|] == v
            && s[|k| + |v| + 3..] == rest
  {
    var s := RenderPair(k, v) + rest;
    var head := k + "=\"";
    assert s == head + (v + ("\"" + rest));
    assert s[|head|..] == v + ("\"" + rest);
    assert s == head + v + "\"" + rest;
  }

  lemma SkipComma(rest: string)
    ensures FindLabels("," + rest) == FindLabels(rest)
  {
    var s := "," + rest;
    assert Span(s, LabelChar) == 0;
    assert s[1..] == rest;
  }

  lemma {:induction false} FindRendered(labels: seq<(string, string)>)
    requires forall p :: p in labels ==> IsLabelName(p.0) && AllIn(p.1, NotQuote)
    ensures FindLabels(RenderLabels(labels)) == labels
  {
    if labels != [] {
      var (k, v) := labels[0];
      assert labels[0] in labels;
      var rest := if |labels| == 1 then "" else "," + RenderLabels(labels[1..]);
      FindFirstLabel(k, v, rest);
      if |labels| > 1 {
        SkipComma(RenderLabels(labels[1..]));
        FindRendered(labels[1..]);
      }
      assert labels == [labels[0]] + labels[1..];
    }
  }

  /** Rendered labels hold only characters of the class, if names, values and punctuation do. */
  lemma {:induction false} RenderedLabelsAre(labels: seq<(string, string)>, cls: Class)
    requires cls.NotBrace? || cls.NotBreak?
    requires forall p :: p in labels ==> IsLabelName(p.0) && AllIn(p.1, cls)
    ensures AllIn(RenderLabels(labels), cls)
    ensures labels != [] ==> RenderLabels(labels) != ""
  {
    if labels != [] {
      var (k, v) := labels[0];
      assert labels[0] in labels;
      var rest := if |labels| == 1 then "" else "," + RenderLabels(labels[1..]);
      if |labels| > 1 {
        RenderedLabelsAre(labels[1..], cls);
        AllInAppend(",", RenderLabels(labels[1..]), cls);
      }
      RenderedPairIs(k, v, cls);
      AllInAppend(RenderPair(k, v), rest, cls);
    }
  }

  lemma RenderedPairIs(k: string, v: string, cls: Class)
    requires cls.NotBrace? || cls.NotBreak?
    requires IsLabelName(k) && AllIn(v, cls)
    ensures AllIn(RenderPair(k, v), cls)
  {
    AllInAppend(k, "=\"", cls);
    AllInAppend(k + "=\"", v, cls);
    AllInAppend(k + "=\"" + v, "\"", cls);
  }

  lemma LexemeEdges(v: string)
    requires IsValueLexeme(v)
    ensures v != "" && !IsSpace(v[0]) && !IsSpace(v[|v| - 1]) && AllIn(v, NotBreak)
  {
    if AllIn(v, ValueChar) {
      assert v[0] in v && v[|v| - 1] in v;
    }
  }

  lemma MatchRenderedValue(name: string, labels: string, v: string)
    requires IsValueLexeme(v)
    ensures MatchValue(name, labels, " " + v) == Fields(name, labels, v)
  {
    LexemeEdges(v);
    SpanStopsAt(" ", v, Space);
    assert (" " + v)[1..] == v;
  }

  lemma MatchBare(name: string, value: string)
    requires IsMetricName(name) && IsValueLexeme(value)
    ensures MatchSample(name + " " + value) == Fields(name, "", value)
  {
    MatchRenderedValue(name, "", value);
    var line := name + (" " + value);
    assert name + " " + value == line;
    SpanStopsAt(name, " " + value, NameChar);
    assert line[|name|..] == " " + value && line[..|name|] == name && line[0] == name[0];
  }

  lemma MatchLabelled(name: string, l: string, value: string)
    requires IsMetricName(name) && IsValueLexeme(value) && AllIn(l, NotBrace)
    ensures MatchSample(name + ("{" + l + "}") + " " + value) == Fields(name, l, value)
  {
    MatchRenderedValue(name, l, value);
    var inner := l + ("}" + (" " + value));
    var line := name + ("{" + inner);
    assert name + ("{" + l + "}") + " " + value == line;
    SpanStopsAt(name, "{" + inner, NameChar);
    SpanStopsAt(l, "}" + (" " + value), NotBrace);
    assert line[|name|..] == "{" + inner && line[..|name|] == name && line[0] == name[0];
    assert ("{" + inner)[1..] == inner;
  }

  lemma MatchRendered(isFloat: string -> bool, x: Exposed)
    requires IsWellFormed(isFloat, x)
    ensures MatchSample(RenderLine(x)) == Fields(x.name, RenderLabels(x.labels), x.value)
  {
    if x.labels == [] {
      assert x.name + "" == x.name;
      MatchBare(x.name, x.value);
    } else {
      RenderedLabelsAre(x.labels, NotBrace);
      MatchLabelled(x.name, RenderLabels(x.labels), x.value);
    }
  }

  lemma StripRendered(isFloat: string -> bool, x: Exposed)
    requires IsWellFormed(isFloat, x)
    ensures Strip(RenderLine(x)) == RenderLine(x) && RenderLine(x)[0] != '#'
  {
    var line := RenderLine(x);
    LexemeEdges(x.value);
    assert x.name[0] in x.name && line[0] == x.name[0];
    assert line[|line| - 1] == x.value[|x.value| - 1];
  }

  /** Round trip of one line. */
  lemma LineRoundTrip(isFloat: string -> bool, x: Exposed)
    requires IsWellFormed(isFloat, x)
    ensures ParseLine(isFloat, RenderLine(x)) == Some(SampleOf(x))
    ensures AllIn(RenderLine(x), NotBreak)
  {
    StripRendered(isFloat, x);
    MatchRendered(isFloat, x);
    FindRendered(x.labels);
    RenderedHasNoBreak(isFloat, x);
  }

  lemma RenderedHasNoBreak(isFloat: string -> bool, x: Exposed)
    requires IsWellFormed(isFloat, x)
    ensures AllIn(RenderLine(x), NotBreak)
  {
    LexemeEdges(x.value);
    var l := if x.labels == [] then "" else "{" + RenderLabels(x.labels) + "}";
    if x.labels != [] {
      RenderedLabelsAre(x.labels, NotBreak);
      AllInAppend("{", RenderLabels(x.labels), NotBreak);
      AllInAppend("{" + RenderLabels(x.labels), "}", NotBreak);
    }
  }

  lemma BlankIsNone(isFloat: string -> bool)
    ensures LineParser(isFloat)("") == None
  {
    assert Strip("") == "";
  }

  /** Well-formed samples, rendered one per line, contribute exactly themselves, in order. */
  lemma {:induction false} RenderedLinesContribute(isFloat: string -> bool, xs: seq<Exposed>)
    requires forall x :: x in xs ==> IsWellFormed(isFloat, x)
    ensures Gather(LineParser(isFloat), RenderLines(xs)) == SamplesOf(xs) && AreLines(RenderLines(xs))
  {
    if xs != [] {
      assert xs[0] in xs;
      LineRoundTrip(isFloat, xs[0]);
      RenderedLinesContribute(isFloat, xs[1..]);
      GatherFirst(LineParser(isFloat), RenderLine(xs[0]), RenderLines(xs[1..]));
    }
  }

  /** Round trip of a whole text: exactly the original samples, in order. */
  lemma TextRoundTrip(isFloat: string -> bool, xs: seq<Exposed>)
    requires forall x :: x in xs ==> IsWellFormed(isFloat, x)
    ensures Parse(isFloat, RenderText(xs)) == SamplesOf(xs)
  {
    BlankIsNone(isFloat);
    RenderedLinesContribute(isFloat, xs);
    GatherJoinedLines(LineParser(isFloat), RenderLines(xs));
  }

  /** Two texts joined by a line feed parse to what they parse to separately, whatever they contain. */
  lemma ParseDistributes(isFloat: string -> bool, a: string, b: string)
    ensures Parse(isFloat, a + "\n" + b) == Parse(isFloat, a) + Parse(isFloat, b)
  {
    BlankIsNone(isFloat);
    GatherDistributes(LineParser(isFloat), a, b);
  }

  /** Comments and blank lines contribute nothing, wherever they stand. */
  lemma CommentsAreIgnored(isFloat: string -> bool, a: string, line: string, b: string)
    requires AllIn(line, NotBreak) && (Strip(line) == "" || Strip(line)[0] == '#')
    ensures Parse(isFloat, a + "\n" + (line + "\n" + b)) == Parse(isFloat, a + "\n" + b)
  {
    BlankIsNone(isFloat);
    EmptyLineIsIgnored(LineParser(isFloat), a, line, b);
  }

  // ---------------------------------------------------------------------------------------
  // What no parse can contain
  // ---------------------------------------------------------------------------------------

  lemma {:induction false} FoundLabelsArePlain(s: string)
    requires AllIn(s, NotBrace) && AllIn(s, NotBreak)
    ensures forall p :: p in FindLabels(s) ==> IsPlain(p.1)
    decreases |s|
  {
    if s != "" {
      var m := MatchLabel(s);
      var next := if m.Match? then s[m.length..] else s[1..];
      assert s[|s| - |next|..|s|] == next;
      FoundLabelsArePlain(next);
      if m.Match? {
        MatchedValueIsPlain(s);
      }
    }
  }

  lemma MatchedValueIsPlain(s: string)
    requires AllIn(s, NotBrace) && AllIn(s, NotBreak) && MatchLabel(s).Match?
    ensures IsPlain(MatchLabel(s).val)
  {
    var n := Span(s, LabelChar);
    var v := Span(s[n + 2..], NotQuote);
    SpanIsLongest(s[n + 2..], NotQuote);
    assert s[n + 2..][..v] == s[n + 2..n + 2 + v];
  }

  lemma {:induction false} MapValues(pairs: seq<(string, string)>)
    requires forall p :: p in pairs ==> IsPlain(p.1)
    ensures forall k :: k in LabelMap(pairs) ==> IsPlain(LabelMap(pairs)[k])
  {
    if pairs != [] {
      assert pairs[|pairs| - 1] in pairs;
      MapValues(pairs[..|pairs| - 1]);
    }
  }

  lemma StripKeepsClass(s: string, cls: Class)
    requires AllIn(s, cls)
    ensures AllIn(Strip(s), cls)
  {
    TrimLeftRemovesSpace(s);
    var t := TrimLeft(s);
    assert s[|s| - |t|..|s|] == t;
    TrimRightRemovesSpace(t);
    assert t[0..|TrimRight(t)|] == TrimRight(t);
  }

  lemma LineLabelsArePlain(isFloat: string -> bool, raw: string)
    requires AllIn(raw, NotBreak) && ParseLine(isFloat, raw).Some?
    ensures forall k :: k in ParseLine(isFloat, raw).value.labels ==> IsPlain(ParseLine(isFloat, raw).value.labels[k])
  {
    var line := Strip(raw);
    StripKeepsClass(raw, NotBreak);
    MatchedLabelsAreBraceFree(line);
    var l := MatchSample(line).labels;
    FoundLabelsArePlain(l);
    MapValues(FindLabels(l));
  }

  lemma MatchedLabelsAreBraceFree(line: string)
    requires AllIn(line, NotBreak) && MatchSample(line).Fields?
    ensures AllIn(MatchSample(line).labels, NotBrace) && AllIn(MatchSample(line).labels, NotBreak)
  {
    var n := Span(line, NameChar);
    var rest := line[n..];
    if rest != "" && rest[0] == '{' {
      var e := Span(rest[1..], NotBrace);
      SpanIsLongest(rest[1..], NotBrace);
      assert rest[1..][..e] == rest[1..1 + e];
      assert rest[1..1 + e] == line[n + 1..n + 1 + e];
    }
  }

  /** Whatever the text: no label value of a parsed sample contains a quote, a closing brace or a line break. */
  lemma {:induction false} ParsedLabelsArePlain(isFloat: string -> bool, text: string)
    ensures forall s, k :: s in Parse(isFloat, text) && k in s.labels ==> IsPlain(s.labels[k])
    decreases |text|
  {
    var n := Span(text, NotBreak);
    SpanIsLongest(text, NotBreak);
    var f := LineParser(isFloat);
    var first := text[..n];
    assert n == |text| ==> first == text;
    if ParseLine(isFloat, first).Some? {
      LineLabelsArePlain(isFloat, first);
    }
    assert forall s :: s in One(f, first) ==> ParseLine(isFloat, first) == Some(s);
    if n < |text| {
      var rest := text[n + BreakLength(text, n)..];
      ParsedLabelsArePlain(isFloat, rest);
      assert Parse(isFloat, text) == One(f, first) + Parse(isFloat, rest);
    } else if text != "" {
      assert Parse(isFloat, text) == One(f, first);
    }
  }
}
