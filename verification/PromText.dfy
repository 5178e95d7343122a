/**
 The Prometheus text parser of the operator, and the exposition text it must invert.

 Sample values stay lexemes: `isFloat` says which lexemes the host's `float` accepts.
 Text format details: Prometheus text exposition format 0.0.4, section "Text format details".
 */
module PromText {
  import opened Text
  import opened TextLines

  datatype Sample = Sample(name: string, labels: map<string, string>, value: string)

  // ---------------------------------------------------------------------------------------
  // Labels
  // ---------------------------------------------------------------------------------------

  datatype LabelMatch = NoMatch | Match(key: string, val: string, length: nat)

  predicate IsLabelName(k: string) {
    k != "" && AllIn(k, LabelChar) && !IsDigit(k[0])
  }

  /** key="val" at the start of the string. */
  function MatchLabel(s: string): LabelMatch {
    var n := Span(s, LabelChar);
    if n == 0 || IsDigit(s[0]) || |s| < n + 2 || s[n] != '=' || s[n + 1] != '"' then NoMatch
    else
      var v := Span(s[n + 2..], NotQuote);
      if n + 2 + v == |s| then NoMatch else Match(s[..n], s[n + 2..n + 2 + v], n + v + 3)
  }

  /** All non-overlapping matches, left to right. */
  function FindLabels(s: string): seq<(string, string)>
    decreases |s|
  {
    if s == "" then []
    else
      var m := MatchLabel(s);
      if m.Match? then [(m.key, m.val)] + FindLabels(s[m.length..]) else FindLabels(s[1..])
  }

  /** The dictionary filled in that order. */
  function LabelMap(pairs: seq<(string, string)>): map<string, string> {
    if pairs == [] then map[]
    else LabelMap(pairs[..|pairs| - 1])[pairs[|pairs| - 1].0 := pairs[|pairs| - 1].1]
  }

  // ---------------------------------------------------------------------------------------
  // Lines
  // ---------------------------------------------------------------------------------------

  predicate IsValueLexeme(v: string) {
    (v != "" && AllIn(v, ValueChar)) || v in {"NaN", "Inf", "+Inf", "-Inf"}
  }

  predicate IsMetricName(n: string) {
    n != "" && AllIn(n, NameChar) && !IsDigit(n[0])
  }

  datatype LineMatch = NotASample | Fields(name: string, labels: string, value: string)

  /** The sample expression on a stripped line. */
  function MatchSample(line: string): LineMatch {
    var n := Span(line, NameChar);
    if n == 0 || IsDigit(line[0]) then NotASample
    else
      var rest := line[n..];
      if rest != "" && rest[0] == '{' then
        var e := Span(rest[1..], NotBrace);
        if 1 + e == |rest| then NotASample else MatchValue(line[..n], rest[1..1 + e], rest[2 + e..])
      else MatchValue(line[..n], "", rest)
  }

  function MatchValue(name: string, labels: string, rest: string): LineMatch {
    var w := Span(rest, Space);
    if w > 0 && IsValueLexeme(rest[w..]) then Fields(name, labels, rest[w..]) else NotASample
  }

  function ParseLine(isFloat: string -> bool, raw: string): Option<Sample> {
    var line := Strip(raw);
    if line == "" || line[0] == '#' then None
    else
      var m := MatchSample(line);
      if m.Fields? && isFloat(m.value) then Some(Sample(m.name, LabelMap(FindLabels(m.labels)), m.value)) else None
  }

  /** The line parser as a function of the line alone. */
  function LineParser(isFloat: string -> bool): string -> Option<Sample> {
    raw => ParseLine(isFloat, raw)
  }

  function Parse(isFloat: string -> bool, text: string): seq<Sample> {
    GatherText(LineParser(isFloat), text)
  }

  // ---------------------------------------------------------------------------------------
  // The code
  // ---------------------------------------------------------------------------------------

  method ParsePrometheusText(isFloat: string -> bool, text: string) returns (out: seq<Sample>)
    ensures out == Parse(isFloat, text)
  {
    GatherTextIsGather(LineParser(isFloat), text);
    out := ReadLines(isFloat, LineParser(isFloat), SplitLines(text));
  }

  /** `f` specifies what each line contributes. */
  ghost predicate IsLineParser(f: string -> Option<Sample>, isFloat: string -> bool) {
    forall raw {:trigger ParseLine(isFloat, raw)} :: f(raw) == ParseLine(isFloat, raw)
  }

  method ReadLines(isFloat: string -> bool, ghost f: string -> Option<Sample>, lines: seq<string>) returns (out: seq<Sample>)
    requires IsLineParser(f, isFloat)
    ensures out == Gather(f, lines)
  {
    out := [];
    for i := 0 to |lines|
      invariant out + Gather(f, lines[i..]) == Gather(f, lines)
    {
      GatherNext(f, lines, i);
      var sample := ReadSample(isFloat, lines[i]);
      if sample.Some? {
        out := out + [sample.value];
      }
    }
  }

  /** One line; None when it contributes no sample. */
  method ReadSample(isFloat: string -> bool, raw: string) returns (sample: Option<Sample>)
    ensures sample == ParseLine(isFloat, raw)
  {
    var line := Strip(raw);
    if line == "" || line[0] == '#' {
      return None;
    }
    var m := MatchSample(line);
    if m.NotASample? {
      return None;
    }
    var labels := ReadLabels(m.labels);
    if !isFloat(m.value) {
      return None;
    }
    return Some(Sample(m.name, labels, m.value));
  }

  method ReadLabels(text: string) returns (labels: map<string, string>)
    ensures labels == LabelMap(FindLabels(text))
  {
    labels := map[];
    var pairs := FindLabels(text);
    for i := 0 to |pairs|
      invariant labels == LabelMap(pairs[..i])
    {
      assert pairs[..i + 1][..i] == pairs[..i];
      labels := labels[pairs[i].0 := pairs[i].1];
    }
    assert pairs[..|pairs|] == pairs;
  }
}
