/**
 The operator's own /metrics page, as the printer side of the parser's round trip.
 */
module OperatorMetrics {
  import opened Text
  import opened TextLines
  import opened PromText
  import opened PromRoundTrip

  /** One metric family: two comment lines, then its samples. */
  datatype Block = Block(name: string, help: string, kind: string, samples: seq<Exposed>)

  function BlockLines(b: Block): seq<string> {
    ["# HELP " + b.name + " " + b.help, "# TYPE " + b.name + " " + b.kind] + RenderLines(b.samples)
  }

  /** Families separated by a blank line. */
  function BlocksLines(bs: seq<Block>): seq<string> {
    if bs == [] then []
    else if |bs| == 1 then BlockLines(bs[0])
    else BlockLines(bs[0]) + ([""] + BlocksLines(bs[1..]))
  }

  function AllSamples(bs: seq<Block>): seq<Sample> {
    if bs == [] then [] else SamplesOf(bs[0].samples) + AllSamples(bs[1..])
  }

  predicate IsPrintable(s: string) {
    forall i :: 0 <= i < |s| ==> ' ' <= s[i] <= '~'
  }

  ghost predicate IsGoodBlock(isFloat: string -> bool, b: Block) {
    && IsMetricName(b.name) && IsPrintable(b.help) && IsPrintable(b.kind)
    && forall x :: x in b.samples ==> IsWellFormed(isFloat, x)
  }

  // ---------------------------------------------------------------------------------------
  // The page
  // ---------------------------------------------------------------------------------------

  function Digits(n: nat): string {
    if n < 10 then [('0' as int + n) as char] else Digits(n / 10) + [('0' as int + n % 10) as char]
  }

  /** A duration in milliseconds written with three decimals. */
  function Decimals(millis: nat): string {
    Digits(millis / 1000) + "." + Thousandths(millis)
  }

  function Thousandths(millis: nat): string {
    Digits(millis / 100 % 10) + Digits(millis / 10 % 10) + Digits(millis % 10)
  }

  /** The fields of the client object that the handler reads. */
  datatype View = View(connected: bool, uptime: nat, executed: nat, failed: nat, reconnects: nat,
                       averageMillis: nat, version: string, cluster: string)

  function Bare(name: string, value: string): Exposed {
    Exposed(name, [], value)
  }

  function Info(v: View): Exposed {
    Exposed(PREFIX + "info", [("version", v.version), ("cluster", v.cluster)], "1")
  }

  const PREFIX := "bnk_operator_"

  function UpBlock(): Block {
    Block(PREFIX + "up", "Whether the operator process is running.", "gauge", [Bare(PREFIX + "up", "1")])
  }

  function ConnectedBlock(v: View): Block {
    Block(PREFIX + "connected", "Whether connected to BNK-Forge control plane.", "gauge",
          [Bare(PREFIX + "connected", if v.connected then "1" else "0")])
  }

  function UptimeBlock(v: View): Block {
    Block(PREFIX + "uptime_seconds", "Operator uptime in seconds.", "gauge",
          [Bare(PREFIX + "uptime_seconds", Digits(v.uptime))])
  }

  function CommandsBlock(v: View): Block {
    Block(PREFIX + "commands_total", "Total commands executed.", "counter",
          [Exposed(PREFIX + "commands_total", [("status", "success")], Digits(v.executed)),
           Exposed(PREFIX + "commands_total", [("status", "failed")], Digits(v.failed))])
  }

  function DurationBlock(v: View): Block {
    Block(PREFIX + "command_duration_seconds", "Average command execution time.", "gauge",
          [Bare(PREFIX + "command_duration_seconds", Decimals(v.averageMillis))])
  }

  function ReconnectsBlock(v: View): Block {
    Block(PREFIX + "reconnects_total", "Total reconnection attempts.", "counter",
          [Bare(PREFIX + "reconnects_total", Digits(v.reconnects))])
  }

  function ChecksBlock(): Block {
    Block(PREFIX + "health_checks_total", "Total health checks performed.", "counter",
          [Bare(PREFIX + "health_checks_total", "0")])
  }

  function ErrorsBlock(): Block {
    Block(PREFIX + "health_check_errors_total", "Total health check errors.", "counter",
          [Bare(PREFIX + "health_check_errors_total", "0")])
  }

  function InfoBlock(v: View): Block {
    Block(PREFIX + "info", "Operator version and cluster information.", "gauge", [Info(v)])
  }

  function PageBlocks(v: View): seq<Block> {
    [UpBlock(), ConnectedBlock(v), UptimeBlock(v), CommandsBlock(v), DurationBlock(v), ReconnectsBlock(v),
     ChecksBlock(), ErrorsBlock(), InfoBlock(v)]
  }

  function PageText(v: View): string {
    JoinLines(BlocksLines(PageBlocks(v)))
  }

  // ---------------------------------------------------------------------------------------
  // Parsing blocks
  // ---------------------------------------------------------------------------------------

  lemma NameIsPrintable(name: string)
    requires IsMetricName(name)
    ensures IsPrintable(name)
  {
    assert forall i :: 0 <= i < |name| ==> name[i] in name;
  }

  lemma CommentIsSilent(isFloat: string -> bool, line: string)
    requires IsPrintable(line) && line != "" && line[0] == '#'
    ensures One(LineParser(isFloat), line) == [] && AllIn(line, NotBreak)
  {
    StripKeepsHead(line);
  }

  lemma StripKeepsHead(line: string)
    requires line != "" && !IsSpace(line[0])
    ensures Strip(line) != "" && Strip(line)[0] == line[0]
  {
    TrimRightRemovesSpace(line);
  }

  lemma HeaderIsSilent(isFloat: string -> bool, b: Block)
    requires IsGoodBlock(isFloat, b)
    ensures var header := ["# HELP " + b.name + " " + b.help, "# TYPE " + b.name + " " + b.kind];
            Gather(LineParser(isFloat), header) == [] && AreLines(header)
  {
    var help, kind := "# HELP " + b.name + " " + b.help, "# TYPE " + b.name + " " + b.kind;
    NameIsPrintable(b.name);
    CommentIsSilent(isFloat, help);
    CommentIsSilent(isFloat, kind);
    TwoSilentLines(LineParser(isFloat), help, kind);
  }

  lemma TwoSilentLines(f: string -> Option<Sample>, a: string, b: string)
    requires One(f, a) == [] && One(f, b) == []
    ensures Gather(f, [a, b]) == []
  {
    GatherFirst(f, a, [b]);
    GatherFirst(f, b, []);
    assert [a] + [b] == [a, b] && [b] + [] == [b];
  }

  lemma BlockContributes(isFloat: string -> bool, b: Block)
    requires IsGoodBlock(isFloat, b)
    ensures Gather(LineParser(isFloat), BlockLines(b)) == SamplesOf(b.samples) && AreLines(BlockLines(b))
  {
    HeaderIsSilent(isFloat, b);
    RenderedLinesContribute(isFloat, b.samples);
    GatherAppend(LineParser(isFloat), BlockLines(b)[..2], RenderLines(b.samples));
    assert BlockLines(b) == BlockLines(b)[..2] + RenderLines(b.samples);
  }

  /** Any page made of good blocks contributes exactly its samples, in order. */
  lemma {:induction false} BlocksContribute(isFloat: string -> bool, bs: seq<Block>)
    requires forall b :: b in bs ==> IsGoodBlock(isFloat, b)
    ensures Gather(LineParser(isFloat), BlocksLines(bs)) == AllSamples(bs) && AreLines(BlocksLines(bs))
  {
    if bs != [] {
      assert bs[0] in bs;
      BlockContributes(isFloat, bs[0]);
      if |bs| > 1 {
        BlocksContribute(isFloat, bs[1..]);
        BlankIsNone(isFloat);
        BlankBetween(LineParser(isFloat), BlockLines(bs[0]), BlocksLines(bs[1..]));
      } else {
        assert AllSamples(bs[1..]) == [];
      }
    }
  }

  lemma BlankBetween(f: string -> Option<Sample>, a: seq<string>, b: seq<string>)
    requires f("").None?
    ensures Gather(f, a + ([""] + b)) == Gather(f, a) + Gather(f, b)
  {
    GatherAppend(f, a, [""] + b);
    GatherFirst(f, "", b);
  }

  /** Any page made of good blocks parses to exactly its samples, in order. */
  lemma PageRoundTrip(isFloat: string -> bool, bs: seq<Block>)
    requires forall b :: b in bs ==> IsGoodBlock(isFloat, b)
    ensures Parse(isFloat, JoinLines(BlocksLines(bs))) == AllSamples(bs)
  {
    BlankIsNone(isFloat);
    BlocksContribute(isFloat, bs);
    GatherJoinedLines(LineParser(isFloat), BlocksLines(bs));
  }

  // ---------------------------------------------------------------------------------------
  // The operator's page
  // ---------------------------------------------------------------------------------------

  predicate IsNumeral(s: string) {
    s != "" && forall c :: c in s ==> IsDigit(c)
  }

  /** What `float` is known to accept: digits, optionally one point and more digits. */
  ghost predicate IsDecimal(s: string) {
    IsNumeral(s) || exists i :: 0 < i < |s| && IsPointAt(s, i)
  }

  predicate IsPointAt(s: string, i: nat)
    requires i < |s|
  {
    s[i] == '.' && IsNumeral(s[..i]) && IsNumeral(s[i + 1..])
  }

  lemma {:induction false} DigitsAreNumeral(n: nat)
    ensures IsNumeral(Digits(n))
  {
    if n >= 10 {
      DigitsAreNumeral(n / 10);
    }
  }

  lemma NumeralsJoin(a: string, b: string)
    requires IsNumeral(a) && IsNumeral(b)
    ensures IsNumeral(a + b)
  {
  }

  lemma NumeralIsLexeme(a: string)
    requires IsNumeral(a)
    ensures IsDecimal(a) && IsValueLexeme(a)
  {
  }

  lemma PointedIsLexeme(a: string, b: string)
    requires IsNumeral(a) && IsNumeral(b)
    ensures IsDecimal(a + "." + b) && IsValueLexeme(a + "." + b)
  {
    var s := a + "." + b;
    assert s[..|a|] == a && s[|a| + 1..] == b;
    assert IsPointAt(s, |a|);
  }

  lemma ThousandthsAreNumeral(n: nat)
    ensures IsNumeral(Thousandths(n))
  {
    var tenths, hundredths, last := Digits(n / 100 % 10), Digits(n / 10 % 10), Digits(n % 10);
    DigitsAreNumeral(n / 100 % 10);
    DigitsAreNumeral(n / 10 % 10);
    DigitsAreNumeral(n % 10);
    NumeralsJoin(tenths, hundredths);
    NumeralsJoin(tenths + hundredths, last);
  }

  lemma LexemesAreGood(isFloat: string -> bool, n: nat)
    requires forall s :: IsDecimal(s) ==> isFloat(s)
    ensures IsValueLexeme(Digits(n)) && isFloat(Digits(n))
    ensures IsValueLexeme(Decimals(n)) && isFloat(Decimals(n))
  {
    DigitsAreNumeral(n);
    NumeralIsLexeme(Digits(n));
    DigitsAreNumeral(n / 1000);
    ThousandthsAreNumeral(n);
    PointedIsLexeme(Digits(n / 1000), Thousandths(n));
  }

  lemma PrefixedName(suffix: string)
    requires AllIn(suffix, NameChar)
    ensures IsMetricName(PREFIX + suffix)
  {
    assert AllIn(PREFIX, NameChar) && PREFIX[0] == 'b';
    AllInAppend(PREFIX, suffix, NameChar);
  }

  /** Longer texts are shown printable half by half. */
  lemma JoinPrintable(a: string, b: string)
    requires IsPrintable(a) && IsPrintable(b)
    ensures IsPrintable(a + b)
  {
  }

  lemma GoodBlock(isFloat: string -> bool, suffix: string, b: Block)
    requires AllIn(suffix, NameChar) && b.name == PREFIX + suffix
    requires IsPrintable(b.help) && b.kind in {"gauge", "counter"}
    requires forall x :: x in b.samples ==> x.name == b.name && IsValueLexeme(x.value) && isFloat(x.value)
    requires forall x, p :: x in b.samples && p in x.labels ==> IsLabelName(p.0) && IsPlain(p.1)
    ensures IsGoodBlock(isFloat, b)
  {
    PrefixedName(suffix);
  }

  lemma OneDigit(isFloat: string -> bool, d: string)
    requires |d| == 1 && IsDigit(d[0]) && forall s :: IsDecimal(s) ==> isFloat(s)
    ensures IsValueLexeme(d) && isFloat(d)
  {
    NumeralIsLexeme(d);
  }

  lemma UpBlockIsGood(isFloat: string -> bool)
    requires forall s :: IsDecimal(s) ==> isFloat(s)
    ensures IsGoodBlock(isFloat, UpBlock())
  {
    OneDigit(isFloat, "1");
    GoodBlock(isFloat, "up", UpBlock());
  }

  lemma ConnectedHelpIsPrintable(v: View)
    ensures IsPrintable(ConnectedBlock(v).help)
  {
    JoinPrintable("Whether connected to ", "BNK-Forge control plane.");
    assert ConnectedBlock(v).help == "Whether connected to " + "BNK-Forge control plane.";
  }

  lemma ConnectedBlockIsGood(isFloat: string -> bool, v: View)
    requires forall s :: IsDecimal(s) ==> isFloat(s)
    ensures IsGoodBlock(isFloat, ConnectedBlock(v))
  {
    OneDigit(isFloat, if v.connected then "1" else "0");
    ConnectedHelpIsPrintable(v);
    GoodBlock(isFloat, "connected", ConnectedBlock(v));
  }

  lemma UptimeBlockIsGood(isFloat: string -> bool, v: View)
    requires forall s :: IsDecimal(s) ==> isFloat(s)
    ensures IsGoodBlock(isFloat, UptimeBlock(v))
  {
    LexemesAreGood(isFloat, v.uptime);
    GoodBlock(isFloat, "uptime_seconds", UptimeBlock(v));
  }

  lemma StatusLabelsAreGood()
    ensures IsLabelName("status") && IsPlain("success") && IsPlain("failed")
  {
  }

  lemma CommandsHelpIsPrintable(v: View)
    ensures IsPrintable(CommandsBlock(v).help)
  {
  }

  lemma CommandsBlockIsGood(isFloat: string -> bool, v: View)
    requires forall s :: IsDecimal(s) ==> isFloat(s)
    ensures IsGoodBlock(isFloat, CommandsBlock(v))
  {
    LexemesAreGood(isFloat, v.executed);
    LexemesAreGood(isFloat, v.failed);
    StatusLabelsAreGood();
    CommandsHelpIsPrintable(v);
    GoodBlock(isFloat, "commands_total", CommandsBlock(v));
  }

  lemma DurationHelpIsPrintable(v: View)
    ensures IsPrintable(DurationBlock(v).help)
  {
  }

  lemma DurationBlockIsGood(isFloat: string -> bool, v: View)
    requires forall s :: IsDecimal(s) ==> isFloat(s)
    ensures IsGoodBlock(isFloat, DurationBlock(v))
  {
    LexemesAreGood(isFloat, v.averageMillis);
    DurationHelpIsPrintable(v);
    GoodBlock(isFloat, "command_duration_seconds", DurationBlock(v));
  }

  lemma ReconnectsBlockIsGood(isFloat: string -> bool, v: View)
    requires forall s :: IsDecimal(s) ==> isFloat(s)
    ensures IsGoodBlock(isFloat, ReconnectsBlock(v))
  {
    LexemesAreGood(isFloat, v.reconnects);
    GoodBlock(isFloat, "reconnects_total", ReconnectsBlock(v));
  }

  lemma ChecksBlockIsGood(isFloat: string -> bool)
    requires forall s :: IsDecimal(s) ==> isFloat(s)
    ensures IsGoodBlock(isFloat, ChecksBlock())
  {
    OneDigit(isFloat, "0");
    GoodBlock(isFloat, "health_checks_total", ChecksBlock());
  }

  lemma ErrorsHelpIsPrintable()
    ensures IsPrintable(ErrorsBlock().help)
  {
  }

  lemma ErrorsBlockIsGood(isFloat: string -> bool)
    requires forall s :: IsDecimal(s) ==> isFloat(s)
    ensures IsGoodBlock(isFloat, ErrorsBlock())
  {
    OneDigit(isFloat, "0");
    ErrorsHelpIsPrintable();
    GoodBlock(isFloat, "health_check_errors_total", ErrorsBlock());
  }

  lemma InfoLabelNamesAreGood()
    ensures IsLabelName("version") && IsLabelName("cluster")
  {
  }

  lemma InfoHelpIsPrintable(v: View)
    ensures IsPrintable(InfoBlock(v).help)
  {
    JoinPrintable("Operator version and ", "cluster information.");
    assert InfoBlock(v).help == "Operator version and " + "cluster information.";
  }

  lemma InfoBlockIsGood(isFloat: string -> bool, v: View)
    requires (forall s :: IsDecimal(s) ==> isFloat(s)) && IsPlain(v.version) && IsPlain(v.cluster)
    ensures IsGoodBlock(isFloat, InfoBlock(v))
  {
    OneDigit(isFloat, "1");
    InfoLabelNamesAreGood();
    InfoHelpIsPrintable(v);
    GoodBlock(isFloat, "info", InfoBlock(v));
  }

  // ---------------------------------------------------------------------------------------
  // What the page says
  // ---------------------------------------------------------------------------------------

  /** The number that a string of decimal digits stands for. */
  function NumberOf(s: string): int {
    if s == "" then 0 else 10 * NumberOf(s[..|s| - 1]) + (s[|s| - 1] as int - '0' as int)
  }

  lemma {:induction false} DigitsDenote(n: nat)
    ensures NumberOf(Digits(n)) == n
  {
    var d := [('0' as int + n % 10) as char];
    assert d[..0] == "" && NumberOf(d) == n % 10;
    if n >= 10 {
      DigitsDenote(n / 10);
      assert Digits(n)[..|Digits(n)| - 1] == Digits(n / 10);
    }
  }

  /** A duration is whole seconds, a point, and three digits for the thousandths. */
  lemma DecimalsDenote(millis: nat)
    ensures Decimals(millis) == Digits(millis / 1000) + "." + Thousandths(millis)
    ensures |Thousandths(millis)| == 3
    ensures NumberOf(Digits(millis / 1000)) * 1000 + NumberOf(Thousandths(millis)) == millis
  {
    DigitsDenote(millis / 1000);
    ThreeDigits(millis / 100 % 10, millis / 10 % 10, millis % 10);
    ThousandSplits(millis);
  }

  lemma ThousandSplits(n: nat)
    ensures n == n / 1000 * 1000 + 100 * (n / 100 % 10) + 10 * (n / 10 % 10) + n % 10
  {
    var tens := n / 10;
    var hundreds := tens / 10;
    assert n / 100 == hundreds && n / 1000 == hundreds / 10;
  }

  lemma ThreeDigits(a: nat, b: nat, c: nat)
    requires a < 10 && b < 10 && c < 10
    ensures var s := Digits(a) + Digits(b) + Digits(c); |s| == 3 && NumberOf(s) == 100 * a + 10 * b + c
  {
    var s := Digits(a) + Digits(b) + Digits(c);
    assert s[..2] == Digits(a) + Digits(b) && s[..2][..1] == Digits(a) && Digits(a)[..0] == "";
    assert NumberOf(s[..2][..1]) == a && NumberOf(s[..2]) == 10 * a + b;
  }

  function Plainly(suffix: string, value: string): Sample {
    Sample("bnk_operator_" + suffix, map[], value)
  }

  lemma FirstBlock(b: Block, rest: seq<Block>)
    ensures AllSamples([b] + rest) == SamplesOf(b.samples) + AllSamples(rest)
  {
    assert ([b] + rest)[1..] == rest;
  }

  lemma OneSample(x: Exposed)
    ensures SamplesOf([x]) == [SampleOf(x)]
  {
    assert [x][1..] == [];
  }

  lemma CommandSamples(v: View)
    ensures SamplesOf(CommandsBlock(v).samples) ==
            [Sample("bnk_operator_" + "commands_total", map["status" := "success"], Digits(v.executed)),
             Sample("bnk_operator_" + "commands_total", map["status" := "failed"], Digits(v.failed))]
  {
    var xs := CommandsBlock(v).samples;
    assert xs[1..] == [xs[1]];
    OneSample(xs[1]);
    assert xs[0].labels[..0] == [] && xs[1].labels[..0] == [];
  }

  lemma FirstSamples(v: View)
    ensures AllSamples([UpBlock(), ConnectedBlock(v), UptimeBlock(v)]) ==
            [Plainly("up", "1"), Plainly("connected", if v.connected then "1" else "0"), Plainly("uptime_seconds", Digits(v.uptime))]
  {
    ThreeBlocks(UpBlock(), ConnectedBlock(v), UptimeBlock(v));
    OneSample(UpBlock().samples[0]);
    OneSample(ConnectedBlock(v).samples[0]);
    OneSample(UptimeBlock(v).samples[0]);
  }

  lemma MiddleSamples(v: View)
    ensures AllSamples([CommandsBlock(v), DurationBlock(v), ReconnectsBlock(v)]) ==
            [Sample("bnk_operator_" + "commands_total", map["status" := "success"], Digits(v.executed)),
             Sample("bnk_operator_" + "commands_total", map["status" := "failed"], Digits(v.failed)),
             Plainly("command_duration_seconds", Decimals(v.averageMillis)), Plainly("reconnects_total", Digits(v.reconnects))]
  {
    ThreeBlocks(CommandsBlock(v), DurationBlock(v), ReconnectsBlock(v));
    CommandSamples(v);
    OneSample(DurationBlock(v).samples[0]);
    OneSample(ReconnectsBlock(v).samples[0]);
  }

  lemma LastSamples(v: View)
    ensures AllSamples([ChecksBlock(), ErrorsBlock(), InfoBlock(v)]) ==
            [Plainly("health_checks_total", "0"), Plainly("health_check_errors_total", "0"),
             Sample("bnk_operator_" + "info", map["version" := v.version, "cluster" := v.cluster], "1")]
  {
    ThreeBlocks(ChecksBlock(), ErrorsBlock(), InfoBlock(v));
    OneSample(ChecksBlock().samples[0]);
    OneSample(ErrorsBlock().samples[0]);
    OneSample(Info(v));
    InfoLabels(v);
  }

  /** Which sample of the page carries which field: ten samples, in this order. */
  lemma PageShows(v: View)
    ensures AllSamples(PageBlocks(v)) ==
            [Plainly("up", "1"), Plainly("connected", if v.connected then "1" else "0"), Plainly("uptime_seconds", Digits(v.uptime))]
            + [Sample("bnk_operator_" + "commands_total", map["status" := "success"], Digits(v.executed)),
               Sample("bnk_operator_" + "commands_total", map["status" := "failed"], Digits(v.failed)),
               Plainly("command_duration_seconds", Decimals(v.averageMillis)), Plainly("reconnects_total", Digits(v.reconnects))]
            + [Plainly("health_checks_total", "0"), Plainly("health_check_errors_total", "0"),
               Sample("bnk_operator_" + "info", map["version" := v.version, "cluster" := v.cluster], "1")]
  {
    FirstSamples(v);
    MiddleSamples(v);
    LastSamples(v);
    var a, b, c := [UpBlock(), ConnectedBlock(v), UptimeBlock(v)], [CommandsBlock(v), DurationBlock(v), ReconnectsBlock(v)],
                   [ChecksBlock(), ErrorsBlock(), InfoBlock(v)];
    SamplesAppend(a, b);
    SamplesAppend(a + b, c);
    assert PageBlocks(v) == a + b + c;
  }

  lemma ThreeBlocks(a: Block, b: Block, c: Block)
    ensures AllSamples([a, b, c]) == SamplesOf(a.samples) + SamplesOf(b.samples) + SamplesOf(c.samples)
  {
    FirstBlock(a, [b, c]);
    FirstBlock(b, [c]);
    FirstBlock(c, []);
    assert [a] + [b, c] == [a, b, c] && [b] + [c] == [b, c] && [c] + [] == [c];
  }

  lemma {:induction false} SamplesAppend(a: seq<Block>, b: seq<Block>)
    ensures AllSamples(a + b) == AllSamples(a) + AllSamples(b)
  {
    if a == [] {
      assert a + b == b;
    } else {
      SamplesAppend(a[1..], b);
      assert (a + b)[1..] == a[1..] + b;
      Associate(SamplesOf(a[0].samples), AllSamples(a[1..]), AllSamples(b));
    }
  }

  /** The info sample comes back only if its two label values are plain. */
  lemma InfoNeedsPlainLabels(isFloat: string -> bool, v: View, text: string)
    requires SampleOf(Info(v)) in Parse(isFloat, text)
    ensures IsPlain(v.version) && IsPlain(v.cluster)
  {
    ParsedLabelsArePlain(isFloat, text);
    InfoLabels(v);
    var s := SampleOf(Info(v));
    assert "version" in s.labels && "cluster" in s.labels;
  }

  lemma InfoLabels(v: View)
    ensures SampleOf(Info(v)).labels == map["version" := v.version, "cluster" := v.cluster]
  {
    var pairs := Info(v).labels;
    assert pairs[..1] == [pairs[0]] && pairs[..1][..0] == [];
    assert LabelMap(pairs[..1][..0]) == map[];
    assert LabelMap(pairs[..1]) == map["version" := v.version];
  }

  lemma {:induction false} InfoIsOnPage(v: View, k: nat)
    requires k < 9
    ensures SampleOf(Info(v)) in AllSamples(PageBlocks(v)[k..])
    decreases 9 - k
  {
    var bs := PageBlocks(v)[k..];
    if k == 8 {
      assert bs[0].samples == [Info(v)];
      assert SamplesOf(bs[0].samples) == [SampleOf(Info(v))] + SamplesOf(bs[0].samples[1..]);
    } else {
      InfoIsOnPage(v, k + 1);
      assert bs[1..] == PageBlocks(v)[k + 1..];
    }
  }

  /**
   The operator's page parses back to exactly the samples it shows, in order, if and only if the
   version and the cluster name contain no quote, closing brace or line break.
   */
  lemma PageSurvivesIff(isFloat: string -> bool, v: View)
    requires forall s :: IsDecimal(s) ==> isFloat(s)
    ensures Parse(isFloat, PageText(v)) == AllSamples(PageBlocks(v)) <==> IsPlain(v.version) && IsPlain(v.cluster)
  {
    if IsPlain(v.version) && IsPlain(v.cluster) {
      PageIsGood(isFloat, v);
      PageRoundTrip(isFloat, PageBlocks(v));
    }
    if Parse(isFloat, PageText(v)) == AllSamples(PageBlocks(v)) {
      InfoIsOnPage(v, 0);
      assert PageBlocks(v)[0..] == PageBlocks(v);
      InfoNeedsPlainLabels(isFloat, v, PageText(v));
    }
  }

  ghost predicate AreGood(isFloat: string -> bool, bs: seq<Block>) {
    forall b :: b in bs ==> IsGoodBlock(isFloat, b)
  }

  lemma ThreeAreGood(isFloat: string -> bool, a: Block, b: Block, c: Block)
    requires IsGoodBlock(isFloat, a) && IsGoodBlock(isFloat, b) && IsGoodBlock(isFloat, c)
    ensures AreGood(isFloat, [a, b, c])
  {
  }

  lemma JoinGood(isFloat: string -> bool, a: seq<Block>, b: seq<Block>)
    requires AreGood(isFloat, a) && AreGood(isFloat, b)
    ensures AreGood(isFloat, a + b)
  {
  }

  lemma PageIsGood(isFloat: string -> bool, v: View)
    requires (forall s :: IsDecimal(s) ==> isFloat(s)) && IsPlain(v.version) && IsPlain(v.cluster)
    ensures AreGood(isFloat, PageBlocks(v))
  {
    UpBlockIsGood(isFloat);
    ConnectedBlockIsGood(isFloat, v);
    UptimeBlockIsGood(isFloat, v);
    ThreeAreGood(isFloat, UpBlock(), ConnectedBlock(v), UptimeBlock(v));
    CommandsBlockIsGood(isFloat, v);
    DurationBlockIsGood(isFloat, v);
    ReconnectsBlockIsGood(isFloat, v);
    ThreeAreGood(isFloat, CommandsBlock(v), DurationBlock(v), ReconnectsBlock(v));
    ChecksBlockIsGood(isFloat);
    ErrorsBlockIsGood(isFloat);
    InfoBlockIsGood(isFloat, v);
    ThreeAreGood(isFloat, ChecksBlock(), ErrorsBlock(), InfoBlock(v));
    var a, b, c := [UpBlock(), ConnectedBlock(v), UptimeBlock(v)], [CommandsBlock(v), DurationBlock(v), ReconnectsBlock(v)],
                   [ChecksBlock(), ErrorsBlock(), InfoBlock(v)];
    JoinGood(isFloat, a, b);
    JoinGood(isFloat, a + b, c);
    assert PageBlocks(v) == a + b + c;
  }
}
