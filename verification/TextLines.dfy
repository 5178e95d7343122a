/**
 Scanning and line splitting shared by the text parsers, and the law that parsing line by line
 distributes over concatenation.
 */
module TextLines {
  import opened Text

  // ---------------------------------------------------------------------------------------
  // Character classes of the two regular expressions and of str.splitlines
  // ---------------------------------------------------------------------------------------

  datatype Class = NameChar | LabelChar | ValueChar | NotBrace | NotQuote | Space | NotBreak

  predicate IsLetter(c: char) {
    'a' <= c <= 'z' || 'A' <= c <= 'Z'
  }

  predicate IsDigit(c: char) {
    '0' <= c <= '9'
  }

  predicate IsBreak(c: char) {
    '\n' <= c <= '\r' || '\U{1C}' <= c <= '\U{1E}' || c == '\U{85}' || c == '\U{2028}' || c == '\U{2029}'
  }

  predicate In(c: char, cls: Class) {
    match cls
    case NameChar => IsLetter(c) || IsDigit(c) || c == '_' || c == ':'
    case LabelChar => IsLetter(c) || IsDigit(c) || c == '_'
    case ValueChar => IsDigit(c) || c == 'e' || c == 'E' || c == '.' || c == '+' || c == '-'
    case NotBrace => c != '}'
    case NotQuote => c != '"'
    case Space => IsSpace(c)
    case NotBreak => !IsBreak(c)
  }

  /** Length of the longest prefix whose characters all belong to the class. */
  function Span(s: string, cls: Class): (n: nat)
    ensures n <= |s|
  {
    if s != "" && In(s[0], cls) then 1 + Span(s[1..], cls) else 0
  }

  predicate AllIn(s: string, cls: Class) {
    forall c :: c in s ==> In(c, cls)
  }

  lemma {:induction false} SpanIsLongest(s: string, cls: Class)
    ensures AllIn(s[..Span(s, cls)], cls)
    ensures Span(s, cls) < |s| ==> !In(s[Span(s, cls)], cls)
  {
    if s != "" && In(s[0], cls) {
      SpanIsLongest(s[1..], cls);
      assert s[..Span(s, cls)] == [s[0]] + s[1..][..Span(s[1..], cls)];
    }
  }

  lemma {:induction false} SpanStopsAt(a: string, rest: string, cls: Class)
    requires AllIn(a, cls) && (rest == "" || !In(rest[0], cls))
    ensures Span(a + rest, cls) == |a|
  {
    if a == "" {
      assert a + rest == rest;
    } else {
      assert a[0] in a;
      SpanStopsAt(a[1..], rest, cls);
      assert (a + rest)[1..] == a[1..] + rest;
    }
  }

  function SplitLines(text: string): seq<string>
    decreases |text|
  {
    var n := Span(text, NotBreak);
    if text == "" then []
    else if n == |text| then [text]
    else
      [text[..n]] + SplitLines(text[n + BreakLength(text, n)..])
  }

  /** Carriage return and line feed together are one line break. */
  function BreakLength(text: string, n: nat): (k: nat)
    requires n < |text|
    ensures 1 <= k <= |text| - n
  {
    if text[n] == '\r' && n + 1 < |text| && text[n + 1] == '\n' then 2 else 1
  }

  /** What the lines contribute, in order. */
  function Gather<T>(f: string -> Option<T>, lines: seq<string>): seq<T> {
    if lines == [] then [] else One(f, lines[0]) + Gather(f, lines[1..])
  }

  function One<T>(f: string -> Option<T>, line: string): seq<T> {
    var r := f(line);
    if r.Some? then [r.value] else []
  }

  /** The same, straight from the text: the first line, then the rest. */
  function GatherText<T>(f: string -> Option<T>, text: string): seq<T>
    decreases |text|
  {
    var n := Span(text, NotBreak);
    if text == "" then []
    else if n == |text| then One(f, text)
    else One(f, text[..n]) + GatherText(f, text[n + BreakLength(text, n)..])
  }

  // ---------------------------------------------------------------------------------------
  // Line-wise parsing distributes over concatenation
  // ---------------------------------------------------------------------------------------

  /** Splitting first and then parsing line by line comes to the same. */
  lemma {:induction false} GatherTextIsGather<T>(f: string -> Option<T>, text: string)
    ensures GatherText(f, text) == Gather(f, SplitLines(text))
    decreases |text|
  {
    var n := Span(text, NotBreak);
    if n < |text| {
      var rest := text[n + BreakLength(text, n)..];
      GatherTextIsGather(f, rest);
      GatherFirst(f, text[..n], SplitLines(rest));
    } else if text != "" {
      GatherFirst(f, text, []);
      assert [text] + [] == [text];
    }
  }

  lemma GatherFirst<T>(f: string -> Option<T>, line: string, lines: seq<string>)
    ensures Gather(f, [line] + lines) == One(f, line) + Gather(f, lines)
  {
    assert ([line] + lines)[1..] == lines;
  }

  lemma GatherNext<T>(f: string -> Option<T>, lines: seq<string>, i: nat)
    requires i < |lines|
    ensures Gather(f, lines[i..]) == One(f, lines[i]) + Gather(f, lines[i + 1..])
  {
    assert lines[i..] == [lines[i]] + lines[i + 1..];
    GatherFirst(f, lines[i], lines[i + 1..]);
  }

  /** For every two texts: a line feed between them separates what they parse to. */
  lemma {:induction false} GatherDistributes<T>(f: string -> Option<T>, a: string, b: string)
    requires f("").None?
    ensures GatherText(f, a + "\n" + b) == GatherText(f, a) + GatherText(f, b)
    decreases |a|
  {
    var n := Span(a, NotBreak);
    if n == |a| {
      NoBreakBefore(f, a, b);
    } else if a[n] == '\r' && n + 1 == |a| {
      OnlyReturnBefore(f, a, b, n);
    } else {
      var rest := a[n + BreakLength(a, n)..];
      GatherDistributes(f, rest, b);
      BreakBefore(f, a, b, n, rest);
    }
  }

  lemma NoBreakBefore<T>(f: string -> Option<T>, a: string, b: string)
    requires f("").None? && Span(a, NotBreak) == |a|
    ensures GatherText(f, a + "\n" + b) == GatherText(f, a) + GatherText(f, b)
  {
    SpanAcrossFeed(a, b);
    assert (a + "\n" + b)[..|a|] == a;
    GatherJoined(f, a, b, |a|, b);
  }

  lemma OnlyReturnBefore<T>(f: string -> Option<T>, a: string, b: string, n: nat)
    requires n == Span(a, NotBreak) == |a| - 1 && a[n] == '\r'
    ensures GatherText(f, a + "\n" + b) == GatherText(f, a) + GatherText(f, b)
  {
    SpanAcrossFeed(a, b);
    assert (a + "\n" + b)[..n] == a[..n];
    GatherJoined(f, a, b, n, b);
    assert a[n + BreakLength(a, n)..] == "";
    assert GatherText(f, "") == [];
  }

  lemma BreakBefore<T>(f: string -> Option<T>, a: string, b: string, n: nat, rest: string)
    requires n == Span(a, NotBreak) < |a| && !(a[n] == '\r' && n + 1 == |a|)
    requires rest == a[n + BreakLength(a, n)..]
    requires GatherText(f, rest + "\n" + b) == GatherText(f, rest) + GatherText(f, b)
    ensures GatherText(f, a + "\n" + b) == GatherText(f, a) + GatherText(f, b)
  {
    FirstLineAcrossFeed(a, b, n);
    GatherJoined(f, a, b, n, rest + "\n" + b);
    var head := One(f, a[..n]);
    assert GatherText(f, a) == head + GatherText(f, rest);
    Associate(head, GatherText(f, rest), GatherText(f, b));
  }

  lemma FirstLineAcrossFeed(a: string, b: string, n: nat)
    requires n == Span(a, NotBreak)
    ensures n == Span(a + "\n" + b, NotBreak) && (a + "\n" + b)[..n] == a[..n]
  {
    SpanAcrossFeed(a, b);
  }

  lemma GatherJoined<T>(f: string -> Option<T>, a: string, b: string, n: nat, rest: string)
    requires n <= |a| && n == Span(a + "\n" + b, NotBreak)
    requires rest == if n == |a| || (a[n] == '\r' && n + 1 == |a|) then b else a[n + BreakLength(a, n)..] + "\n" + b
    ensures GatherText(f, a + "\n" + b) == One(f, (a + "\n" + b)[..n]) + GatherText(f, rest)
  {
    GatherFirstLine(f, a + "\n" + b, n, rest);
  }

  lemma GatherFirstLine<T>(f: string -> Option<T>, text: string, n: nat, rest: string)
    requires n == Span(text, NotBreak) < |text| && rest == text[n + BreakLength(text, n)..]
    ensures GatherText(f, text) == One(f, text[..n]) + GatherText(f, rest)
  {
  }

  lemma SpanAcrossFeed(a: string, b: string)
    ensures Span(a + "\n" + b, NotBreak) == Span(a, NotBreak)
  {
    var n := Span(a, NotBreak);
    SpanIsLongest(a, NotBreak);
    SpanStopsAt(a[..n], a[n..] + "\n" + b, NotBreak);
    assert a[..n] + (a[n..] + "\n" + b) == a + "\n" + b;
  }

  lemma GatherPlainLine<T>(f: string -> Option<T>, line: string)
    requires f("").None? && AllIn(line, NotBreak)
    ensures GatherText(f, line) == One(f, line)
  {
    SpanStopsAt(line, "", NotBreak);
    assert line + "" == line;
  }

  /** A line that parses to nothing can be dropped, wherever it stands. */
  lemma EmptyLineIsIgnored<T>(f: string -> Option<T>, a: string, line: string, b: string)
    requires f("").None? && AllIn(line, NotBreak) && f(line).None?
    ensures GatherText(f, a + "\n" + (line + "\n" + b)) == GatherText(f, a + "\n" + b)
  {
    GatherDistributes(f, a, line + "\n" + b);
    GatherDistributes(f, line, b);
    GatherDistributes(f, a, b);
    GatherPlainLine(f, line);
  }

  /** Lines as a text, each one ended by a line feed. */
  function JoinLines(lines: seq<string>): string {
    if lines == [] then "" else lines[0] + "\n" + JoinLines(lines[1..])
  }

  ghost predicate AreLines(lines: seq<string>) {
    forall l :: l in lines ==> AllIn(l, NotBreak)
  }

  lemma LineThen<T>(f: string -> Option<T>, line: string, rest: string)
    requires f("").None? && AllIn(line, NotBreak)
    ensures GatherText(f, line + "\n" + rest) == One(f, line) + GatherText(f, rest)
  {
    GatherDistributes(f, line, rest);
    GatherPlainLine(f, line);
  }

  /** Joining lines and parsing the text gives what the lines contribute one by one. */
  lemma {:induction false} GatherJoinedLines<T>(f: string -> Option<T>, lines: seq<string>)
    requires f("").None? && AreLines(lines)
    ensures GatherText(f, JoinLines(lines)) == Gather(f, lines)
  {
    if lines != [] {
      GatherJoinedLines(f, lines[1..]);
      LineThen(f, lines[0], JoinLines(lines[1..]));
    }
  }

  lemma {:induction false} GatherAppend<T>(f: string -> Option<T>, a: seq<string>, b: seq<string>)
    ensures Gather(f, a + b) == Gather(f, a) + Gather(f, b)
  {
    if a == [] {
      assert a + b == b;
    } else {
      assert (a + b)[1..] == a[1..] + b;
      GatherAppend(f, a[1..], b);
    }
  }
}
