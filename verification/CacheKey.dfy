/**
 The cache key built from a call's arguments: it does not depend on keyword order, two calls share
 it exactly when their texts agree cut at every ':', and `prefix:*` matches it exactly when the
 prefix, cut the same way, begins it.
 */
module CacheKey {
  import opened Text
  import Cache = ReadThroughCache

  /** An argument as the key builder sees it: a simple value by type and text, or any other object by its text. */
  datatype Arg = Simple(kind: Kind, text: string) | Other(text: string)

  datatype Kind = IntKind | StrKind | FloatKind | BoolKind | NoneKind

  /** A keyword argument as passed. */
  datatype Keyword = Keyword(name: string, value: Arg)

  // ---------------------------------------------------------------------------------------
  // Sorting keyword arguments by name
  // ---------------------------------------------------------------------------------------

  /** String comparison by code point. */
  predicate Less(a: string, b: string) {
    b != "" && (a == "" || a[0] < b[0] || (a[0] == b[0] && Less(a[1..], b[1..])))
  }

  lemma {:induction false} LessIsTotal(a: string, b: string)
    ensures Less(a, b) || Less(b, a) || a == b
  {
    if a != "" && b != "" && a[0] == b[0] {
      LessIsTotal(a[1..], b[1..]);
      assert a == [a[0]] + a[1..] && b == [b[0]] + b[1..];
    }
  }

  lemma {:induction false} LessIsIrreflexive(a: string)
    ensures !Less(a, a)
  {
    if a != "" {
      LessIsIrreflexive(a[1..]);
    }
  }

  lemma {:induction false} LessIsTransitive(a: string, b: string, c: string)
    requires Less(a, b) && Less(b, c)
    ensures Less(a, c)
  {
    if a != "" && a[0] == b[0] == c[0] {
      LessIsTransitive(a[1..], b[1..], c[1..]);
    }
  }

  function Insert(k: Keyword, sorted: seq<Keyword>): seq<Keyword> {
    if sorted == [] || Less(k.name, sorted[0].name) then [k] + sorted
    else [sorted[0]] + Insert(k, sorted[1..])
  }

  function SortByName(ks: seq<Keyword>): seq<Keyword> {
    if ks == [] then [] else Insert(ks[0], SortByName(ks[1..]))
  }

  /** Strictly increasing names: distinct and in order. */
  ghost predicate IsSorted(ks: seq<Keyword>) {
    forall i, j :: 0 <= i < j < |ks| ==> Less(ks[i].name, ks[j].name)
  }

  ghost predicate HasDistinctNames(ks: seq<Keyword>) {
    forall i, j :: 0 <= i < j < |ks| ==> ks[i].name != ks[j].name
  }

  lemma {:induction false} InsertSorts(k: Keyword, sorted: seq<Keyword>)
    requires IsSorted(sorted) && forall x :: x in sorted ==> x.name != k.name
    ensures IsSorted(Insert(k, sorted)) && forall x :: x in Insert(k, sorted) <==> x == k || x in sorted
  {
    if sorted != [] {
      assert sorted[0] in sorted;
      if Less(k.name, sorted[0].name) {
        forall j | 0 < j < |sorted|
          ensures Less(k.name, sorted[j].name)
        {
          LessIsTransitive(k.name, sorted[0].name, sorted[j].name);
        }
      } else {
        LessIsTotal(k.name, sorted[0].name);
        var rest := Insert(k, sorted[1..]);
        InsertSorts(k, sorted[1..]);
        forall j | 0 <= j < |rest|
          ensures Less(sorted[0].name, rest[j].name)
        {
          assert rest[j] in rest;
        }
        assert sorted == [sorted[0]] + sorted[1..];
      }
    }
  }

  lemma {:induction false} SortSorts(ks: seq<Keyword>)
    requires HasDistinctNames(ks)
    ensures IsSorted(SortByName(ks)) && forall x :: x in SortByName(ks) <==> x in ks
  {
    if ks != [] {
      SortSorts(ks[1..]);
      assert ks == [ks[0]] + ks[1..];
      forall x | x in ks[1..]
        ensures x.name != ks[0].name
      {
        var j :| 0 <= j < |ks[1..]| && ks[1..][j] == x;
        assert ks[j + 1] == x;
      }
      InsertSorts(ks[0], SortByName(ks[1..]));
    }
  }

  /** A strictly sorted list is determined by its elements. */
  lemma {:induction false} SortedIsUnique(a: seq<Keyword>, b: seq<Keyword>)
    requires IsSorted(a) && IsSorted(b) && forall x :: x in a <==> x in b
    ensures a == b
  {
    if a == [] {
      if b != [] {
        FirstIsElement(b);
      }
    } else {
      assert a[0] in b;
      assert b[0] in a;
      SameFirst(a, b);
      forall x
        ensures x in a[1..] <==> x in b[1..]
      {
        RestOfSorted(a, x);
        RestOfSorted(b, x);
      }
      SortedIsUnique(a[1..], b[1..]);
      assert a == [a[0]] + a[1..] && b == [b[0]] + b[1..];
    }
  }

  lemma FirstIsElement(b: seq<Keyword>)
    requires b != []
    ensures b[0] in b
  {
  }

  lemma RestOfSorted(a: seq<Keyword>, x: Keyword)
    requires IsSorted(a) && a != []
    ensures x in a[1..] <==> x in a && x != a[0]
  {
    assert a == [a[0]] + a[1..];
    LessIsIrreflexive(a[0].name);
    forall j | 0 <= j < |a[1..]|
      ensures a[1..][j] != a[0]
    {
      assert Less(a[0].name, a[j + 1].name);
    }
  }

  lemma SameFirst(a: seq<Keyword>, b: seq<Keyword>)
    requires IsSorted(a) && IsSorted(b) && a != [] && b != [] && a[0] in b && b[0] in a
    ensures a[0] == b[0]
  {
    var i :| 0 <= i < |b| && b[i] == a[0];
    var j :| 0 <= j < |a| && a[j] == b[0];
    if i > 0 && j > 0 {
      LessIsTransitive(a[0].name, b[0].name, a[0].name);
      LessIsIrreflexive(a[0].name);
    }
  }

  // ---------------------------------------------------------------------------------------
  // The key
  // ---------------------------------------------------------------------------------------

  /** The texts of the simple positional arguments; other objects are dropped. */
  function Positional(args: seq<Arg>): seq<string> {
    if args == [] then []
    else (if args[0].Simple? then [args[0].text] else []) + Positional(args[1..])
  }

  function WithoutSessions(ks: seq<Keyword>): seq<Keyword> {
    if ks == [] then []
    else (if ks[0].name in {"db", "session"} then [] else [ks[0]]) + WithoutSessions(ks[1..])
  }

  /** The keywords as they enter the key. */
  function Prepared(ks: seq<Keyword>): seq<Keyword> {
    SortByName(WithoutSessions(ks))
  }

  function Assignments(ks: seq<Keyword>): seq<string> {
    if ks == [] then [] else [ks[0].name + "=" + ks[0].value.text] + Assignments(ks[1..])
  }

  function Join(parts: seq<string>): string {
    if parts == [] then ""
    else if |parts| == 1 then parts[0]
    else parts[0] + ":" + Join(parts[1..])
  }

  /** A section is added to the key only when it has parts. */
  function Section(parts: seq<string>): string {
    if parts == [] then "" else ":" + Join(parts)
  }

  /** The same text, part by part. */
  function Chain(parts: seq<string>): string {
    if parts == [] then "" else ":" + parts[0] + Chain(parts[1..])
  }

  lemma {:induction false} SectionIsChain(parts: seq<string>)
    ensures Section(parts) == Chain(parts)
  {
    if |parts| > 1 {
      SectionIsChain(parts[1..]);
      assert ":" + (parts[0] + ":" + Join(parts[1..])) == ":" + parts[0] + (":" + Join(parts[1..]));
    } else if |parts| == 1 {
      assert parts[1..] == [];
    }
  }

  /** `custom` is the suffix of an explicit key function, when the wrapper has one. */
  function BuildKey(prefix: string, func: string, args: seq<Arg>, ks: seq<Keyword>, custom: Option<string>): string {
    if custom.Some? then prefix + ":" + func + ":" + custom.value
    else prefix + ":" + func + Section(Positional(args)) + Section(Assignments(Prepared(ks)))
  }

  /** Keyword order is irrelevant: the same keywords in any order give the same key. */
  lemma KeyIgnoresKeywordOrder(prefix: string, func: string, args: seq<Arg>, ks: seq<Keyword>, ls: seq<Keyword>)
    requires HasDistinctNames(ks) && HasDistinctNames(ls) && forall x :: x in ks <==> x in ls
    ensures BuildKey(prefix, func, args, ks, None) == BuildKey(prefix, func, args, ls, None)
  {
    FilterKeeps(ks);
    FilterKeeps(ls);
    SortSorts(WithoutSessions(ks));
    SortSorts(WithoutSessions(ls));
    SortedIsUnique(SortByName(WithoutSessions(ks)), SortByName(WithoutSessions(ls)));
  }

  /** String order is by the first character that differs; a proper prefix comes first. */
  lemma {:induction false} LessIff(a: string, b: string)
    ensures Less(a, b) <==> exists k: nat :: DiffersAt(a, b, k)
  {
    if a != "" && b != "" && a[0] == b[0] {
      LessIff(a[1..], b[1..]);
      if k: nat :| DiffersAt(a[1..], b[1..], k) {
        assert a[..k + 1] == [a[0]] + a[1..][..k] && b[..k + 1] == [b[0]] + b[1..][..k];
        assert DiffersAt(a, b, k + 1);
      }
      if k: nat :| DiffersAt(a, b, k) {
        assert k > 0 && a[1..][..k - 1] == a[..k][1..] && b[1..][..k - 1] == b[..k][1..];
        assert DiffersAt(a[1..], b[1..], k - 1);
      }
    } else if Less(a, b) {
      assert DiffersAt(a, b, 0);
    }
  }

  /** `a` and `b` agree up to `k`, where `a` ends or has the smaller character. */
  predicate DiffersAt(a: string, b: string, k: nat) {
    k <= |a| && k < |b| && a[..k] == b[..k] && (k == |a| || a[k] < b[k])
  }

  /** What a key looks like: simple arguments in order, other objects and sessions left out, keywords by name. */
  lemma KeyShows(p: string, f: string, x: string, y: string, o: Arg, n: string, m: string, v: Arg, w: Arg, c: string)
    requires o.Other? && n !in {"db", "session"} && m !in {"db", "session"} && Less(n, m)
    ensures BuildKey(p, f, [], [], None) == p + ":" + f
    ensures BuildKey(p, f, [o], [Keyword("db", v)], Some(c)) == p + ":" + f + ":" + c
    ensures BuildKey(p, f, [Simple(IntKind, x), o, Simple(StrKind, y)], [], None) == p + ":" + f + (":" + (x + ":" + y))
    ensures BuildKey(p, f, [], [Keyword("db", v), Keyword(m, w), Keyword("session", w), Keyword(n, v)], None)
         == p + ":" + f + (":" + (n + "=" + v.text + ":" + (m + "=" + w.text)))
  {
    PositionalShows(x, y, o);
    KeywordsShow(n, m, v, w);
    SectionOfTwo(x, y);
    SectionOfTwo(n + "=" + v.text, m + "=" + w.text);
    KeyWithoutArguments(p, f, [Keyword("db", v), Keyword(m, w), Keyword("session", w), Keyword(n, v)],
                        [n + "=" + v.text, m + "=" + w.text]);
    assert Section([]) == "" && p + ":" + f + "" == p + ":" + f;
  }

  lemma KeyWithoutArguments(p: string, f: string, ks: seq<Keyword>, texts: seq<string>)
    requires Assignments(Prepared(ks)) == texts
    ensures BuildKey(p, f, [], ks, None) == p + ":" + f + Section(texts)
  {
    assert Positional([]) == [];
  }

  lemma SectionOfTwo(x: string, y: string)
    ensures Section([x, y]) == ":" + (x + ":" + y)
  {
    assert [x, y][1..] == [y] && Join([y]) == y;
  }

  lemma PositionalShows(x: string, y: string, o: Arg)
    requires o.Other?
    ensures Positional([Simple(IntKind, x), o, Simple(StrKind, y)]) == [x, y]
  {
    var a, b := Simple(IntKind, x), Simple(StrKind, y);
    assert [a, o, b][1..] == [o, b] && [o, b][1..] == [b] && [b][1..] == [];
    assert Positional([b]) == [y] && Positional([o, b]) == [y];
  }

  lemma SessionsLeft(d: Keyword, b: Keyword, t: Keyword, a: Keyword)
    requires d.name in {"db", "session"} && t.name in {"db", "session"} && a.name !in {"db", "session"} && b.name !in {"db", "session"}
    ensures WithoutSessions([d, b, t, a]) == [b, a]
  {
    assert [d, b, t, a][1..] == [b, t, a] && [b, t, a][1..] == [t, a] && [t, a][1..] == [a] && [a][1..] == [];
    assert WithoutSessions([a]) == [a] && WithoutSessions([t, a]) == [a] && WithoutSessions([b, t, a]) == [b, a];
  }

  lemma KeywordsShow(n: string, m: string, v: Arg, w: Arg)
    requires n !in {"db", "session"} && m !in {"db", "session"} && Less(n, m)
    ensures Assignments(Prepared([Keyword("db", v), Keyword(m, w), Keyword("session", w), Keyword(n, v)]))
         == [n + "=" + v.text, m + "=" + w.text]
  {
    var d, b, t, a := Keyword("db", v), Keyword(m, w), Keyword("session", w), Keyword(n, v);
    SessionsLeft(d, b, t, a);
    SortsTwo(a, b);
    AssignmentsOfTwo(a, b);
  }

  lemma AssignmentsOfTwo(a: Keyword, b: Keyword)
    ensures Assignments([a, b]) == [a.name + "=" + a.value.text, b.name + "=" + b.value.text]
  {
    assert [a, b][1..] == [b] && [b][1..] == [];
    assert Assignments([b]) == [b.name + "=" + b.value.text];
  }

  lemma SortsTwo(a: Keyword, b: Keyword)
    requires Less(a.name, b.name)
    ensures SortByName([b, a]) == [a, b]
  {
    assert [b, a][1..] == [a] && [a][1..] == [];
    assert SortByName([a]) == [a];
    if Less(b.name, a.name) {
      LessIsTransitive(a.name, b.name, a.name);
      LessIsIrreflexive(a.name);
    }
    assert Insert(b, [a]) == [a] + Insert(b, [a][1..]);
  }

  lemma {:induction false} FilterKeeps(ks: seq<Keyword>)
    requires HasDistinctNames(ks)
    ensures HasDistinctNames(WithoutSessions(ks))
    ensures forall x :: x in WithoutSessions(ks) <==> x in ks && x.name !in {"db", "session"}
  {
    if ks != [] {
      FilterKeeps(ks[1..]);
      assert ks == [ks[0]] + ks[1..];
      var rest := WithoutSessions(ks[1..]);
      forall j | 0 <= j < |rest|
        ensures rest[j].name != ks[0].name
      {
        assert rest[j] in rest;
        var i :| 0 <= i < |ks[1..]| && ks[1..][i] == rest[j];
        assert ks[i + 1] == rest[j];
      }
    }
  }

  // ---------------------------------------------------------------------------------------
  // Which calls share a key
  // ---------------------------------------------------------------------------------------

  predicate Lacks(s: string, c: char) {
    c !in s
  }

  ghost predicate AllLack(parts: seq<string>, c: char) {
    forall t :: t in parts ==> Lacks(t, c)
  }

  lemma {:induction false} ChainsMerge(a: seq<string>, b: seq<string>)
    ensures Chain(a) + Chain(b) == Chain(a + b)
  {
    if a == [] {
      assert a + b == b;
    } else {
      ChainsMerge(a[1..], b);
      assert (a + b)[1..] == a[1..] + b;
      Associate(":" + a[0], Chain(a[1..]), Chain(b));
    }
  }

  /** Equal chains without separators inside the parts come from equal parts. */
  lemma {:induction false} ChainIsInjective(a: seq<string>, b: seq<string>)
    requires Chain(a) == Chain(b)
    requires AllLack(a, ':') && AllLack(b, ':')
    ensures a == b
    decreases |a|
  {
    if a != [] && b != [] {
      assert a[0] in a && b[0] in b;
      SameFirstPart(a[0], Chain(a[1..]), b[0], Chain(b[1..]));
      ChainIsInjective(a[1..], b[1..]);
      assert a == [a[0]] + a[1..] && b == [b[0]] + b[1..];
    }
  }

  lemma SameFirstPart(x: string, xs: string, y: string, ys: string)
    requires ":" + x + xs == ":" + y + ys && Lacks(x, ':') && Lacks(y, ':')
    requires (xs == "" || xs[0] == ':') && (ys == "" || ys[0] == ':')
    ensures x == y && xs == ys
  {
    assert (":" + x + xs)[1..] == x + xs && (":" + y + ys)[1..] == y + ys;
    CutAtSeparator(x, xs, y, ys, ':');
  }

  lemma LongerHoldsSeparator(x: string, xs: string, y: string, ys: string, sep: char)
    requires x + xs == y + ys && |x| < |y| && (xs == "" || xs[0] == sep)
    ensures sep in y
  {
    assert (x + xs)[|x|] == xs[0] && (y + ys)[|x|] == y[|x|];
  }

  /** Two readings of one text, each up to the first separator or the end, are the same reading. */
  lemma CutAtSeparator(x: string, xs: string, y: string, ys: string, sep: char)
    requires x + xs == y + ys && Lacks(x, sep) && Lacks(y, sep)
    requires (xs == "" || xs[0] == sep) && (ys == "" || ys[0] == sep)
    ensures x == y && xs == ys
  {
    if |x| < |y| {
      LongerHoldsSeparator(x, xs, y, ys, sep);
    } else if |y| < |x| {
      LongerHoldsSeparator(y, ys, x, xs, sep);
    } else {
      SameLengthParts(x, xs, y, ys);
    }
  }

  lemma SameLengthParts<T>(a: seq<T>, b: seq<T>, c: seq<T>, d: seq<T>)
    requires a + b == c + d && |a| == |c|
    ensures a == c && b == d
  {
    assert (a + b)[..|a|] == a && (c + d)[..|c|] == c;
    assert (a + b)[|a|..] == b && (c + d)[|c|..] == d;
  }

  /** The texts that the key joins: prefix, function name, then the custom suffix or the printed arguments. */
  function Parts(prefix: string, func: string, args: seq<Arg>, ks: seq<Keyword>, custom: Option<string>): seq<string> {
    [prefix, func] + if custom.Some? then [custom.value] else Positional(args) + Assignments(Prepared(ks))
  }

  /** All texts cut at every separator. */
  function Pieces(parts: seq<string>): seq<string> {
    if parts == [] then [] else Split(parts[0], ':') + Pieces(parts[1..])
  }

  lemma {:induction false} PiecesAppend(a: seq<string>, b: seq<string>)
    ensures Pieces(a + b) == Pieces(a) + Pieces(b)
  {
    if a == [] {
      assert a + b == b;
    } else {
      PiecesAppend(a[1..], b);
      assert (a + b)[1..] == a[1..] + b;
      Associate(Split(a[0], ':'), Pieces(a[1..]), Pieces(b));
    }
  }

  lemma {:induction false} SplitIsFaithful(s: string)
    ensures Chain(Split(s, ':')) == ":" + s && AllLack(Split(s, ':'), ':')
  {
    if s != "" {
      SplitIsFaithful(s[1..]);
      var rest := Split(s[1..], ':');
      assert s == [s[0]] + s[1..];
      if s[0] == ':' {
        assert ([""] + rest)[1..] == rest;
      } else {
        assert rest[0] in rest;
        assert ([[s[0]] + rest[0]] + rest[1..])[1..] == rest[1..];
        assert (":" + s[1..])[1..] == (":" + rest[0] + Chain(rest[1..]))[1..] == rest[0] + Chain(rest[1..]);
        assert ":" + ([s[0]] + rest[0]) + Chain(rest[1..]) == ":" + ([s[0]] + (rest[0] + Chain(rest[1..])));
      }
    }
  }

  lemma {:induction false} PiecesAreFaithful(parts: seq<string>)
    ensures Chain(Pieces(parts)) == Chain(parts) && AllLack(Pieces(parts), ':')
  {
    if parts != [] {
      SplitIsFaithful(parts[0]);
      PiecesAreFaithful(parts[1..]);
      ChainsMerge(Split(parts[0], ':'), Pieces(parts[1..]));
    }
  }

  lemma ChainOfTwo(x: string, y: string, rest: seq<string>)
    ensures Chain([x, y] + rest) == ":" + x + (":" + y) + Chain(rest)
  {
    ChainsMerge([x, y], rest);
    assert [x, y][1..] == [y] && [y][1..] == [];
    assert Chain([y]) == ":" + y;
  }

  lemma Regroup(x: string, y: string, z: string)
    ensures ":" + (x + ":" + y + z) == ":" + x + (":" + y) + z
  {
  }

  lemma KeyIsChain(prefix: string, func: string, args: seq<Arg>, ks: seq<Keyword>, custom: Option<string>)
    ensures ":" + BuildKey(prefix, func, args, ks, custom) == Chain(Parts(prefix, func, args, ks, custom))
  {
    if custom.Some? {
      ChainOfTwo(prefix, func, [custom.value]);
      Regroup(prefix, func, ":" + custom.value);
      assert Chain([custom.value]) == ":" + custom.value;
      Associate(prefix + ":" + func, ":", custom.value);
    } else {
      var x, y := Positional(args), Assignments(Prepared(ks));
      SectionIsChain(x);
      SectionIsChain(y);
      ChainsMerge(x, y);
      ChainOfTwo(prefix, func, x + y);
      Regroup(prefix, func, Chain(x + y));
      Associate(prefix + ":" + func, Section(x), Section(y));
    }
  }

  /**
   Any two calls of any two wrappers share a key exactly when their texts, cut at every ':', are the
   same pieces in the same order.
   */
  lemma KeysCollideIff(p: string, f: string, a: seq<Arg>, ks: seq<Keyword>, c: Option<string>,
                       q: string, g: string, b: seq<Arg>, ls: seq<Keyword>, d: Option<string>)
    ensures BuildKey(p, f, a, ks, c) == BuildKey(q, g, b, ls, d)
       <==> Pieces(Parts(p, f, a, ks, c)) == Pieces(Parts(q, g, b, ls, d))
  {
    var x, y := Parts(p, f, a, ks, c), Parts(q, g, b, ls, d);
    KeyIsChain(p, f, a, ks, c);
    KeyIsChain(q, g, b, ls, d);
    PiecesAreFaithful(x);
    PiecesAreFaithful(y);
    if BuildKey(p, f, a, ks, c) == BuildKey(q, g, b, ls, d) {
      ChainIsInjective(Pieces(x), Pieces(y));
    } else {
      SameRest(":", BuildKey(p, f, a, ks, c), BuildKey(q, g, b, ls, d));
    }
  }

  lemma SameRest<T>(base: seq<T>, x: seq<T>, y: seq<T>)
    ensures base + x == base + y <==> x == y
  {
    assert (base + x)[|base|..] == x && (base + y)[|base|..] == y;
  }

  /** Two calls of one wrapped function share a key exactly when their arguments are the same pieces. */
  lemma ArgumentsCollideIff(prefix: string, func: string, a: seq<Arg>, ks: seq<Keyword>, b: seq<Arg>, ls: seq<Keyword>)
    ensures BuildKey(prefix, func, a, ks, None) == BuildKey(prefix, func, b, ls, None)
       <==> Pieces(Positional(a) + Assignments(Prepared(ks))) == Pieces(Positional(b) + Assignments(Prepared(ls)))
  {
    var x, y := Positional(a) + Assignments(Prepared(ks)), Positional(b) + Assignments(Prepared(ls));
    KeysCollideIff(prefix, func, a, ks, None, prefix, func, b, ls, None);
    PiecesAppend([prefix, func], x);
    PiecesAppend([prefix, func], y);
    SameRest(Pieces([prefix, func]), Pieces(x), Pieces(y));
  }

  /** Calls with one simple argument never collide, whatever separators it contains. */
  lemma OneArgumentCollidesIff(prefix: string, func: string, x: Arg, y: Arg)
    requires x.Simple? && y.Simple?
    ensures BuildKey(prefix, func, [x], [], None) == BuildKey(prefix, func, [y], [], None) <==> x.text == y.text
  {
    ArgumentsCollideIff(prefix, func, [x], [], [y], []);
    assert Positional([x]) + Assignments(Prepared([])) == [x.text];
    assert Positional([y]) + Assignments(Prepared([])) == [y.text];
    PiecesAreFaithful([x.text]);
    PiecesAreFaithful([y.text]);
    assert Chain([x.text]) == ":" + x.text && Chain([y.text]) == ":" + y.text;
    SameRest(":", x.text, y.text);
  }

  // ---------------------------------------------------------------------------------------
  // Clean arguments
  // ---------------------------------------------------------------------------------------

  /** Positional texts without ':' and '=', keyword names without either, keyword texts without ':'. */
  ghost predicate IsClean(args: seq<Arg>, ks: seq<Keyword>) {
    && AllLack(Positional(args), ':') && AllLack(Positional(args), '=')
    && (forall k :: k in ks ==> Lacks(k.name, ':') && Lacks(k.name, '=') && Lacks(k.value.text, ':'))
  }

  /** What the key shows of the keywords: names and texts, in name order. */
  function Shown(ks: seq<Keyword>): seq<(string, string)> {
    if ks == [] then [] else [(ks[0].name, ks[0].value.text)] + Shown(ks[1..])
  }

  /** Texts without separators are their own pieces. */
  lemma {:induction false} CleanPieces(parts: seq<string>)
    requires AllLack(parts, ':')
    ensures Pieces(parts) == parts
  {
    PiecesAreFaithful(parts);
    ChainIsInjective(Pieces(parts), parts);
  }

  lemma LongerHoldsAssignment(a: seq<string>, b: seq<string>, c: seq<string>, d: seq<string>)
    requires a + b == c + d && |a| < |c| && forall t :: t in b ==> !Lacks(t, '=')
    ensures exists t :: t in c && !Lacks(t, '=')
  {
    assert (a + b)[|a|] == b[0] && (c + d)[|a|] == c[|a|];
    assert c[|a|] in c;
  }

  /** Positional parts carry no '=' and assignments do, so the boundary between them is visible. */
  lemma BoundaryIsVisible(a: seq<string>, b: seq<string>, c: seq<string>, d: seq<string>)
    requires a + b == c + d
    requires (forall t :: t in a ==> Lacks(t, '=')) && (forall t :: t in c ==> Lacks(t, '='))
    requires (forall t :: t in b ==> !Lacks(t, '=')) && (forall t :: t in d ==> !Lacks(t, '='))
    ensures a == c && b == d
  {
    if |a| < |c| {
      LongerHoldsAssignment(a, b, c, d);
    } else if |c| < |a| {
      LongerHoldsAssignment(c, d, a, b);
    } else {
      SameLengthParts(a, b, c, d);
    }
  }

  lemma {:induction false} AssignmentsShow(ks: seq<Keyword>, ls: seq<Keyword>)
    requires Assignments(ks) == Assignments(ls)
    requires (forall k :: k in ks ==> Lacks(k.name, '=')) && (forall k :: k in ls ==> Lacks(k.name, '='))
    ensures Shown(ks) == Shown(ls)
    decreases |ks|
  {
    if ks != [] && ls != [] {
      var k, l := ks[0], ls[0];
      assert k in ks && l in ls;
      assert Assignments(ks)[0] == Assignments(ls)[0];
      assert Assignments(ks)[1..] == Assignments(ks[1..]) && Assignments(ls)[1..] == Assignments(ls[1..]);
      assert k.name + "=" + k.value.text == k.name + ("=" + k.value.text);
      assert l.name + "=" + l.value.text == l.name + ("=" + l.value.text);
      CutAtSeparator(k.name, "=" + k.value.text, l.name, "=" + l.value.text, '=');
      assert ("=" + k.value.text)[1..] == k.value.text && ("=" + l.value.text)[1..] == l.value.text;
      AssignmentsShow(ks[1..], ls[1..]);
    }
  }

  lemma {:induction false} AssignmentsAre(ks: seq<Keyword>)
    requires forall k :: k in ks ==> Lacks(k.name, ':') && Lacks(k.value.text, ':')
    ensures forall t :: t in Assignments(ks) ==> Lacks(t, ':') && !Lacks(t, '=')
  {
    if ks != [] {
      var k := ks[0];
      assert k in ks;
      var t := k.name + "=" + k.value.text;
      assert t[|k.name|] == '=';
      AssignmentsAre(ks[1..]);
    }
  }

  /**
   Two clean calls of one wrapped function share a key exactly when the printed simple positional
   arguments agree and the keywords, other than sessions, agree by name and printed value.
   */
  lemma CleanCallsCollideIff(prefix: string, func: string, a: seq<Arg>, ks: seq<Keyword>, b: seq<Arg>, ls: seq<Keyword>)
    requires HasDistinctNames(ks) && HasDistinctNames(ls) && IsClean(a, ks) && IsClean(b, ls)
    ensures BuildKey(prefix, func, a, ks, None) == BuildKey(prefix, func, b, ls, None)
       <==> Positional(a) == Positional(b) && Shown(Prepared(ks)) == Shown(Prepared(ls))
  {
    var x, y := Positional(a), Assignments(Prepared(ks));
    var u, v := Positional(b), Assignments(Prepared(ls));
    PreparedIsClean(a, ks);
    PreparedIsClean(b, ls);
    ArgumentsCollideIff(prefix, func, a, ks, b, ls);
    CleanPieces(x + y);
    CleanPieces(u + v);
    if x + y == u + v {
      BoundaryIsVisible(x, y, u, v);
      AssignmentsShow(Prepared(ks), Prepared(ls));
    }
    if Shown(Prepared(ks)) == Shown(Prepared(ls)) {
      ShownDetermines(Prepared(ks), Prepared(ls));
    }
  }

  lemma PreparedIsClean(a: seq<Arg>, ks: seq<Keyword>)
    requires HasDistinctNames(ks) && IsClean(a, ks)
    ensures forall k :: k in Prepared(ks) ==> k in ks
    ensures forall t :: t in Assignments(Prepared(ks)) ==> Lacks(t, ':') && !Lacks(t, '=')
  {
    FilterKeeps(ks);
    SortSorts(WithoutSessions(ks));
    AssignmentsAre(Prepared(ks));
  }

  lemma {:induction false} ShownDetermines(ks: seq<Keyword>, ls: seq<Keyword>)
    requires Shown(ks) == Shown(ls)
    ensures Assignments(ks) == Assignments(ls)
  {
    if ks != [] && ls != [] {
      assert Shown(ks)[0] == Shown(ls)[0];
      assert Shown(ks)[1..] == Shown(ks[1..]) && Shown(ls)[1..] == Shown(ls[1..]);
      ShownDetermines(ks[1..], ls[1..]);
    }
  }

  /** A separator inside an argument makes it the same pieces as two arguments. */
  lemma SeparatorCollides(prefix: string, func: string, x: string, y: string)
    ensures BuildKey(prefix, func, [Simple(StrKind, x + ":" + y)], [], None)
         == BuildKey(prefix, func, [Simple(StrKind, x), Simple(StrKind, y)], [], None)
  {
    var one, two := [Simple(StrKind, x + ":" + y)], [Simple(StrKind, x), Simple(StrKind, y)];
    assert one[1..] == [] && two[1..] == [Simple(StrKind, y)] && two[1..][1..] == [];
    assert Positional(one) == [x + ":" + y];
    assert Positional(two[1..]) == [y];
    assert Positional(two) == [x, y];
    assert [x, y][1..] == [y];
    assert Join([y]) == y;
    assert Join([x, y]) == x + ":" + y == Join([x + ":" + y]);
  }

  // ---------------------------------------------------------------------------------------
  // Pattern invalidation
  // ---------------------------------------------------------------------------------------

  /** The keys that `prefix:*` selects. */
  predicate Selects(prefix: string, key: string) {
    prefix + ":" <= key
  }

  /**
   `prefix:*` selects a key exactly when the pieces of the prefix are the first of several pieces of
   the key, whichever wrapper built it.
   */
  lemma PatternSelectsIff(prefix: string, other: string, func: string, args: seq<Arg>, ks: seq<Keyword>, custom: Option<string>)
    ensures Selects(prefix, BuildKey(other, func, args, ks, custom))
       <==> Split(prefix, ':') < Pieces(Parts(other, func, args, ks, custom))
  {
    var key, all := BuildKey(other, func, args, ks, custom), Pieces(Parts(other, func, args, ks, custom));
    KeyIsChain(other, func, args, ks, custom);
    PiecesAreFaithful(Parts(other, func, args, ks, custom));
    StartsIff(prefix, key, all);
  }

  lemma StartsIff(prefix: string, key: string, all: seq<string>)
    requires Chain(all) == ":" + key && AllLack(all, ':')
    ensures prefix + ":" <= key <==> Split(prefix, ':') < all
  {
    SplitIsFaithful(prefix);
    if prefix + ":" <= key {
      BeginsWithPieces(prefix, key[|prefix| + 1..], key, all);
    }
    if Split(prefix, ':') < all {
      BeginsWithText(prefix, all[|Split(prefix, ':')|..], key, all);
    }
  }

  lemma BeginsWithPieces(prefix: string, tail: string, key: string, all: seq<string>)
    requires Chain(all) == ":" + key && AllLack(all, ':') && key == prefix + ":" + tail
    ensures Split(prefix, ':') < all
  {
    var first, rest := Split(prefix, ':'), Split(tail, ':');
    SplitIsFaithful(prefix);
    SplitIsFaithful(tail);
    ChainsMerge(first, rest);
    Regroup(prefix, tail, "");
    assert prefix + ":" + tail + "" == key && ":" + prefix + (":" + tail) + "" == Chain(first) + Chain(rest);
    ChainIsInjective(all, first + rest);
  }

  lemma BeginsWithText(prefix: string, rest: seq<string>, key: string, all: seq<string>)
    requires Chain(all) == ":" + key && rest != [] && all == Split(prefix, ':') + rest
    ensures prefix + ":" <= key
  {
    SplitIsFaithful(prefix);
    ChainsMerge(Split(prefix, ':'), rest);
    var tail := Chain(rest)[1..];
    assert Chain(rest) == ":" + tail;
    Associate(":", prefix, ":" + tail);
    SameRest(":", key, prefix + (":" + tail));
    Associate(prefix, ":", tail);
  }

  /** Every key of a wrapper is selected exactly when the pieces of the prefix begin those of the wrapper's prefix. */
  lemma PatternSelectsWrapperIff(prefix: string, other: string)
    ensures (forall func, args, ks, custom :: Selects(prefix, BuildKey(other, func, args, ks, custom)))
       <==> Split(prefix, ':') <= Split(other, ':')
  {
    var first, theirs := Split(prefix, ':'), Split(other, ':');
    forall func, args, ks, custom | first <= theirs
      ensures Selects(prefix, BuildKey(other, func, args, ks, custom))
    {
      PatternSelectsIff(prefix, other, func, args, ks, custom);
    }
    if Selects(prefix, BuildKey(other, "", [], [], None)) {
      PatternSelectsIff(prefix, other, "", [], [], None);
      assert Parts(other, "", [], [], None) == [other, ""];
      assert [other, ""][1..] == [""] && [""][1..] == [];
      assert Pieces([other, ""]) == theirs + [""];
    }
  }

  /** Among wrappers whose prefixes contain no ':', `prefix:*` selects exactly the keys of the wrappers with that prefix. */
  lemma CleanPatternSelectsIff(prefix: string, other: string, func: string, args: seq<Arg>, ks: seq<Keyword>, custom: Option<string>)
    requires Lacks(prefix, ':') && Lacks(other, ':')
    ensures Selects(prefix, BuildKey(other, func, args, ks, custom)) <==> prefix == other
  {
    PatternSelectsIff(prefix, other, func, args, ks, custom);
    CleanPieces([prefix]);
    CleanPieces([other]);
    assert Pieces([prefix]) == Split(prefix, ':') && Pieces([other]) == Split(other, ':');
  }

  /** A wrapper whose prefix goes on after a ':' loses its entries to the pattern of the shorter prefix. */
  lemma ShorterPrefixSelects(prefix: string, rest: string, func: string, args: seq<Arg>, ks: seq<Keyword>, custom: Option<string>)
    ensures Selects(prefix, BuildKey(prefix + ":" + rest, func, args, ks, custom))
  {
    var other := prefix + ":" + rest;
    assert other + ":" <= BuildKey(other, func, args, ks, custom) by {
      PatternSelectsIff(other, other, func, args, ks, custom);
    }
  }

  /**
   A completed deletion of `prefix:*`, with a SCAN that reports every matching key, removes the entry
   of a call exactly when the pieces of the prefix begin its key.
   */
  lemma InvalidationRemovesExactly(store: Cache.Store, replies: seq<Cache.Reply>, prefix: string,
                                   other: string, func: string, args: seq<Arg>, ks: seq<Keyword>, custom: Option<string>)
    requires BuildKey(other, func, args, ks, custom) in store
    requires forall k :: k in Cache.Reported(replies) ==> Cache.Matches(prefix + ":", k)
    requires forall k :: k in store && Cache.Matches(prefix + ":", k) ==> k in Cache.Reported(replies)
    ensures BuildKey(other, func, args, ks, custom) !in Cache.SweptStore(store, replies)
       <==> Split(prefix, ':') < Pieces(Parts(other, func, args, ks, custom))
    ensures Lacks(prefix, ':') && Lacks(other, ':') ==>
              (BuildKey(other, func, args, ks, custom) !in Cache.SweptStore(store, replies) <==> other == prefix)
  {
    Cache.CompleteScanRemovesPattern(store, prefix + ":", replies);
    PatternSelectsIff(prefix, other, func, args, ks, custom);
    if Lacks(prefix, ':') && Lacks(other, ':') {
      CleanPatternSelectsIff(prefix, other, func, args, ks, custom);
    }
  }
}
