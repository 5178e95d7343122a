/**
 The migration-chain checker itself: the loops that build its indexes and collect errors, a
 declarative account of which errors they report, and what an empty report means.
 */
module MigrationCheck {
  import opened RevisionGraph

  datatype Migration = Migration(revision: RevId, down: Down)

  datatype ChainError =
    | NoMigrations
    | DuplicateRevision(rev: RevId)
    | NoBase
    | MultipleBases(bases: seq<RevId>)
    | OrphanParent(rev: RevId, missing: RevId)
    | UnresolvedBranch(rev: RevId, children: seq<RevId>)

  // ---------------------------------------------------------------------------------------
  // Specification: when an error belongs in the report
  // ---------------------------------------------------------------------------------------

  /** The dictionary {revision: down_revision}; a later file overrides an earlier one. */
  function GraphOf(migs: seq<Migration>): Graph {
    if migs == [] then map[]
    else GraphOf(migs[..|migs| - 1])[Last(migs).revision := Last(migs).down]
  }

  predicate Declared(migs: seq<Migration>, r: RevId) {
    exists m :: m in migs && m.revision == r
  }

  /** The revisions without a parent, in file order. */
  function BasesOf(migs: seq<Migration>): seq<RevId> {
    if migs == [] then []
    else BasesOf(migs[..|migs| - 1]) + if Last(migs).down.NoParent? then [Last(migs).revision] else []
  }

  /** `rev` once for every occurrence of `x` among its targets. */
  function Links(rev: RevId, targets: seq<RevId>, x: RevId): seq<RevId> {
    if targets == [] then []
    else Links(rev, targets[..|targets| - 1], x) + if Last(targets) == x then [rev] else []
  }

  /** Every file that names `x` as a parent, in file order, as often as it names it. */
  function ChildrenOf(migs: seq<Migration>, x: RevId): seq<RevId> {
    if migs == [] then []
    else ChildrenOf(migs[..|migs| - 1], x) + Links(Last(migs).revision, Targets(Last(migs).down), x)
  }

  /** The list a children-by-parent dictionary holds for `x`. */
  function Listed(children: map<RevId, seq<RevId>>, x: RevId): seq<RevId> {
    if x in children then children[x] else []
  }

  predicate Covers(d: Down, children: seq<RevId>) {
    IsMerge(d) && forall c :: c in children ==> c in d.ids
  }

  ghost predicate Violates(migs: seq<Migration>, e: ChainError) {
    match e
    case NoMigrations => migs == []
    case DuplicateRevision(r) => exists i, j :: 0 <= i < j < |migs| && migs[i].revision == r && migs[j].revision == r
    case NoBase => migs != [] && BasesOf(migs) == []
    case MultipleBases(bs) => bs == BasesOf(migs) && |bs| > 1
    case OrphanParent(r, d) => OrphanIn(migs, migs, r, d)
    case UnresolvedBranch(x, cs) => UnresolvedAt(migs, x, cs)
  }

  ghost predicate OrphanIn(migs: seq<Migration>, files: seq<Migration>, r: RevId, d: RevId) {
    (exists m :: m in files && m.revision == r && d in Targets(m.down)) && !Declared(migs, d)
  }

  ghost predicate UnresolvedAt(migs: seq<Migration>, x: RevId, cs: seq<RevId>) {
    cs == ChildrenOf(migs, x) && |cs| > 1 && forall m :: m in migs ==> !Covers(m.down, cs)
  }

  /** An empty report. */
  ghost predicate Accepted(migs: seq<Migration>) {
    forall e :: !Violates(migs, e)
  }

  // ---------------------------------------------------------------------------------------
  // The checker
  // ---------------------------------------------------------------------------------------

  method CheckChain(migrations: seq<Migration>) returns (errors: seq<ChainError>)
    ensures forall e :: e in errors <==> Violates(migrations, e)
    ensures errors == [] <==>
            && HasDistinctIds(migrations) && HasOneRoot(migrations) && ParentsAreDeclared(migrations)
            && forall x :: IsNamedTwice(migrations, x) ==> IsRejoined(migrations, x)
  {
    AcceptedIff(migrations);
    if |migrations| == 0 {
      assert Violates(migrations, NoMigrations);
      return [NoMigrations];
    }
    var revs, order, children, duplicates := IndexMigrations(migrations);
    var bases := CheckBases(migrations);
    var orphans := CheckOrphans(migrations, revs);
    var branches := CheckBranches(migrations, order, children);
    errors := duplicates + bases + orphans + branches;
    assert errors != [] ==> errors[0] in errors;
  }

  /** The first loop: dictionary of revisions, children by parent, duplicate ids. */
  method IndexMigrations(migrations: seq<Migration>)
    returns (revs: set<RevId>, order: seq<RevId>, children: map<RevId, seq<RevId>>, errors: seq<ChainError>)
    ensures forall r :: r in revs <==> Declared(migrations, r)
    ensures forall x :: ChildrenOf(migrations, x) == Listed(children, x)
    ensures forall x :: x in order <==> x in children
    ensures forall e :: e in errors <==> e.DuplicateRevision? && Violates(migrations, e)
  {
    revs, order, children, errors := {}, [], map[], [];
    for i := 0 to |migrations|
      invariant forall r :: r in revs <==> Declared(migrations[..i], r)
      invariant forall x :: ChildrenOf(migrations[..i], x) == Listed(children, x)
      invariant forall x :: x in order <==> x in children
      invariant forall e :: e in errors <==> e.DuplicateRevision? && Violates(migrations[..i], e)
    {
      var m := migrations[i];
      ghost var before := migrations[..i];
      assert migrations[..i + 1] == before + [m];
      DuplicateStep(before, m);
      if m.revision in revs {
        errors := errors + [DuplicateRevision(m.revision)];
      }
      revs := revs + {m.revision};
      order, children := AddLinks(m, order, children);
      assert migrations[..i + 1][..i] == before;
    }
    assert migrations[..|migrations|] == migrations;
  }

  lemma DuplicateStep(before: seq<Migration>, m: Migration)
    ensures forall e: ChainError :: e.DuplicateRevision? ==>
              (Violates(before + [m], e) <==> Violates(before, e) || (e.rev == m.revision && Declared(before, m.revision)))
    ensures forall r :: Declared(before + [m], r) <==> Declared(before, r) || r == m.revision
  {
    var after := before + [m];
    forall r
      ensures Declared(after, r) <==> Declared(before, r) || r == m.revision
    {
      assert m in after;
    }
    forall e: ChainError | e.DuplicateRevision?
      ensures Violates(after, e) <==> Violates(before, e) || (e.rev == m.revision && Declared(before, m.revision))
    {
      if Violates(before, e) {
        var i, j :| 0 <= i < j < |before| && before[i].revision == e.rev && before[j].revision == e.rev;
        assert after[i] == before[i] && after[j] == before[j];
      }
      if e.rev == m.revision && Declared(before, m.revision) {
        var i :| 0 <= i < |before| && before[i].revision == e.rev;
        assert after[i] == before[i] && after[|before|] == m;
      }
    }
  }

  lemma LinksLast(rev: RevId, targets: seq<RevId>, d: RevId, x: RevId)
    ensures Links(rev, targets + [d], x) == Links(rev, targets, x) + if d == x then [rev] else []
  {
    assert (targets + [d])[..|targets|] == targets;
  }

  /** One more file: what it adds to the dictionary, the bases and the children. */
  lemma LastFile(front: seq<Migration>, m: Migration)
    ensures GraphOf(front + [m]) == GraphOf(front)[m.revision := m.down]
    ensures BasesOf(front + [m]) == BasesOf(front) + if m.down.NoParent? then [m.revision] else []
    ensures forall x :: ChildrenOf(front + [m], x) == ChildrenOf(front, x) + Links(m.revision, Targets(m.down), x)
  {
    assert (front + [m])[..|front|] == front;
  }

  /** The inner loop: append the revision to the children of each of its targets. */
  method AddLinks(m: Migration, order0: seq<RevId>, children0: map<RevId, seq<RevId>>)
    returns (order: seq<RevId>, children: map<RevId, seq<RevId>>)
    requires forall x :: x in order0 <==> x in children0
    ensures forall x :: x in order <==> x in children
    ensures forall x :: Listed(children, x) == Listed(children0, x) + Links(m.revision, Targets(m.down), x)
  {
    order, children := order0, children0;
    var targets := Targets(m.down);
    for k := 0 to |targets|
      invariant forall x :: x in order <==> x in children
      invariant forall x :: Listed(children, x) == Listed(children0, x) + Links(m.revision, targets[..k], x)
    {
      var d := targets[k];
      ghost var before := children;
      order, children := AddLink(m.revision, d, order, children);
      assert targets[..k + 1] == targets[..k] + [d];
      forall x
        ensures Listed(children, x) == Listed(children0, x) + Links(m.revision, targets[..k + 1], x)
      {
        LinksLast(m.revision, targets[..k], d, x);
      }
    }
    assert targets[..|targets|] == targets;
  }

  /** `setdefault(d, []).append(rev)`; `order` keeps the insertion order of the keys. */
  method AddLink(rev: RevId, d: RevId, order0: seq<RevId>, children0: map<RevId, seq<RevId>>)
    returns (order: seq<RevId>, children: map<RevId, seq<RevId>>)
    requires forall x :: x in order0 <==> x in children0
    ensures forall x :: x in order <==> x in children
    ensures forall x :: Listed(children, x) == Listed(children0, x) + if x == d then [rev] else []
  {
    order, children := order0, children0;
    if d !in children {
      order := order + [d];
      children := children[d := []];
    }
    children := children[d := children[d] + [rev]];
  }

  method CheckBases(migrations: seq<Migration>) returns (errors: seq<ChainError>)
    requires migrations != []
    ensures forall e :: e in errors <==> (e.NoBase? || e.MultipleBases?) && Violates(migrations, e)
  {
    var bases: seq<RevId> := [];
    for i := 0 to |migrations|
      invariant bases == BasesOf(migrations[..i])
    {
      assert migrations[..i + 1][..i] == migrations[..i];
      if migrations[i].down.NoParent? {
        bases := bases + [migrations[i].revision];
      }
    }
    assert migrations[..|migrations|] == migrations;
    if |bases| == 0 {
      errors := [NoBase];
    } else if |bases| > 1 {
      errors := [MultipleBases(bases)];
    } else {
      errors := [];
    }
  }

  method CheckOrphans(migrations: seq<Migration>, revs: set<RevId>) returns (errors: seq<ChainError>)
    requires forall r :: r in revs <==> Declared(migrations, r)
    ensures forall e :: e in errors <==> e.OrphanParent? && Violates(migrations, e)
  {
    errors := [];
    for i := 0 to |migrations|
      invariant forall e :: e in errors <==> e.OrphanParent? && OrphanIn(migrations, migrations[..i], e.rev, e.missing)
    {
      var m := migrations[i];
      assert migrations[..i + 1] == migrations[..i] + [m];
      var targets := Targets(m.down);
      ghost var before := errors;
      for k := 0 to |targets|
        invariant forall e :: e in errors <==>
                    (e in before || (e.OrphanParent? && e.rev == m.revision && e.missing in targets[..k] && e.missing !in revs))
      {
        if targets[k] !in revs {
          errors := errors + [OrphanParent(m.revision, targets[k])];
        }
      }
    }
    assert migrations[..|migrations|] == migrations;
  }

  method AnyMergeCovers(migrations: seq<Migration>, children: seq<RevId>) returns (resolved: bool)
    ensures resolved <==> exists m :: m in migrations && Covers(m.down, children)
  {
    for k := 0 to |migrations|
      invariant forall m :: m in migrations[..k] ==> !Covers(m.down, children)
    {
      if Covers(migrations[k].down, children) {
        return true;
      }
    }
    return false;
  }

  method CheckBranches(migrations: seq<Migration>, order: seq<RevId>, children: map<RevId, seq<RevId>>)
    returns (errors: seq<ChainError>)
    requires forall x :: ChildrenOf(migrations, x) == Listed(children, x)
    requires forall x :: x in order <==> x in children
    ensures forall e :: e in errors <==> e.UnresolvedBranch? && Violates(migrations, e)
    ensures forall x :: UnresolvedBranch(x, ChildrenOf(migrations, x)) in errors <==> IsNamedTwice(migrations, x) && !IsRejoined(migrations, x)
  {
    errors := [];
    for i := 0 to |order|
      invariant forall e :: e in errors <==> e.UnresolvedBranch? && e.rev in order[..i] && UnresolvedAt(migrations, e.rev, e.children)
    {
      var x := order[i];
      if |children[x]| > 1 {
        var resolved := AnyMergeCovers(migrations, children[x]);
        if !resolved {
          errors := errors + [UnresolvedBranch(x, children[x])];
        }
      }
    }
    BranchesReported(migrations, errors);
  }

  // ---------------------------------------------------------------------------------------
  // What an empty report means for the graph
  // ---------------------------------------------------------------------------------------

  lemma {:induction false} GraphDeclares(migs: seq<Migration>, r: RevId)
    ensures r in GraphOf(migs) <==> Declared(migs, r)
    ensures r in GraphOf(migs) ==> Migration(r, GraphOf(migs)[r]) in migs
  {
    if migs != [] {
      var front := migs[..|migs| - 1];
      assert migs == front + [Last(migs)];
      GraphDeclares(front, r);
    }
  }

  /** Without duplicate ids the dictionary keeps every file's own declaration. */
  lemma GraphKeeps(migs: seq<Migration>, m: Migration)
    requires m in migs && !Violates(migs, DuplicateRevision(m.revision))
    ensures m.revision in GraphOf(migs) && GraphOf(migs)[m.revision] == m.down
  {
    GraphDeclares(migs, m.revision);
    var k := Migration(m.revision, GraphOf(migs)[m.revision]);
    var i :| 0 <= i < |migs| && migs[i] == m;
    var j :| 0 <= j < |migs| && migs[j] == k;
    assert i < j ==> Violates(migs, DuplicateRevision(m.revision));
    assert j < i ==> Violates(migs, DuplicateRevision(m.revision));
  }

  lemma LinksOne(rev: RevId, target: RevId, x: RevId)
    ensures Links(rev, [target], x) == if target == x then [rev] else []
  {
    assert [target][..0] == [];
    assert Links(rev, [], x) == [];
  }

  lemma {:induction false} LinksAre(rev: RevId, targets: seq<RevId>, x: RevId)
    ensures forall c :: c in Links(rev, targets, x) <==> c == rev && x in targets
  {
    if targets != [] {
      LinksAre(rev, targets[..|targets| - 1], x);
      assert targets == targets[..|targets| - 1] + [Last(targets)];
    }
  }

  lemma {:induction false} ChildrenAre(migs: seq<Migration>, x: RevId, c: RevId)
    ensures c in ChildrenOf(migs, x) <==> exists m :: m in migs && m.revision == c && x in Targets(m.down)
  {
    if migs != [] {
      var front, m := migs[..|migs| - 1], Last(migs);
      assert migs == front + [m];
      ChildrenAre(front, x, c);
      LinksAre(m.revision, Targets(m.down), x);
      assert c in Links(m.revision, Targets(m.down), x) ==> m in migs;
    }
  }

  lemma {:induction false} BasesAre(migs: seq<Migration>, r: RevId)
    ensures r in BasesOf(migs) <==> Migration(r, NoParent) in migs
  {
    if migs != [] {
      BasesAre(migs[..|migs| - 1], r);
      assert migs == migs[..|migs| - 1] + [Last(migs)];
    }
  }

  lemma AcceptedEdge(migs: seq<Migration>, x: RevId, c: RevId)
    requires Accepted(migs)
    ensures Edge(GraphOf(migs), x, c) <==> c in ChildrenOf(migs, x)
  {
    GraphDeclares(migs, c);
    ChildrenAre(migs, x, c);
    if c in ChildrenOf(migs, x) {
      var m :| m in migs && m.revision == c && x in Targets(m.down);
      GraphKeeps(migs, m);
    }
  }

  lemma AcceptedOneBase(migs: seq<Migration>)
    requires Accepted(migs)
    ensures OneBase(GraphOf(migs))
  {
    var g := GraphOf(migs);
    assert !Violates(migs, NoMigrations) && !Violates(migs, NoBase) && !Violates(migs, MultipleBases(BasesOf(migs)));
    var b := BasesOf(migs)[0];
    BasesAre(migs, b);
    GraphKeeps(migs, Migration(b, NoParent));
    assert IsBase(g, b);
    forall c | IsBase(g, c)
      ensures c == b
    {
      GraphDeclares(migs, c);
      BasesAre(migs, c);
    }
  }

  lemma AcceptedNoOrphans(migs: seq<Migration>)
    requires Accepted(migs)
    ensures NoOrphans(GraphOf(migs))
  {
    var g := GraphOf(migs);
    forall x, y | Edge(g, x, y)
      ensures x in g
    {
      GraphDeclares(migs, y);
      GraphDeclares(migs, x);
      assert !Violates(migs, OrphanParent(y, x));
    }
  }

  /** The branch rule is the diamond property; without merge revisions it forbids branching. */
  lemma AcceptedDiamond(migs: seq<Migration>)
    requires Accepted(migs)
    ensures Diamond(GraphOf(migs))
    ensures NoMerges(GraphOf(migs)) ==> OneChild(GraphOf(migs))
  {
    var g := GraphOf(migs);
    forall x, y, z | Edge(g, x, y) && Edge(g, x, z) && y != z
      ensures exists m :: Edge(g, y, m) && Edge(g, z, m) && IsMerge(g[m])
    {
      var m := ResolvingMerge(migs, x, y, z);
    }
  }

  lemma ResolvingMerge(migs: seq<Migration>, x: RevId, y: RevId, z: RevId) returns (m: RevId)
    requires Accepted(migs) && Edge(GraphOf(migs), x, y) && Edge(GraphOf(migs), x, z) && y != z
    ensures Edge(GraphOf(migs), y, m) && Edge(GraphOf(migs), z, m) && IsMerge(GraphOf(migs)[m])
  {
    AcceptedEdge(migs, x, y);
    AcceptedEdge(migs, x, z);
    var merge := BranchIsCovered(migs, x);
    GraphKeeps(migs, merge);
    m := merge.revision;
  }

  lemma BranchIsCovered(migs: seq<Migration>, x: RevId) returns (merge: Migration)
    requires Accepted(migs) && |ChildrenOf(migs, x)| > 1
    ensures merge in migs && Covers(merge.down, ChildrenOf(migs, x)) && !Violates(migs, DuplicateRevision(merge.revision))
  {
    assert !Violates(migs, UnresolvedBranch(x, ChildrenOf(migs, x)));
    merge :| merge in migs && Covers(merge.down, ChildrenOf(migs, x));
  }

  lemma AcceptedIsLocallyValid(migs: seq<Migration>)
    requires Accepted(migs)
    ensures LocallyValid(GraphOf(migs))
    ensures NoMerges(GraphOf(migs)) ==> OneChild(GraphOf(migs))
  {
    AcceptedOneBase(migs);
    AcceptedNoOrphans(migs);
    AcceptedDiamond(migs);
  }

  // ---------------------------------------------------------------------------------------
  // The verdict, read off the files alone
  // ---------------------------------------------------------------------------------------

  /** The declaration gives `x` as its parent, or as its k-th one. */
  predicate NamesAt(d: Down, k: nat, x: RevId) {
    (d == OneParent(x) && k == 0) || (d.Parents? && k < |d.ids| && d.ids[k] == x)
  }

  ghost predicate Names(d: Down, x: RevId) {
    exists k: nat :: NamesAt(d, k, x)
  }

  /** Two different declarations, or two places of one, name `x`. */
  ghost predicate IsNamedTwice(migs: seq<Migration>, x: RevId) {
    || (exists i, j :: 0 <= i < j < |migs| && Names(migs[i].down, x) && Names(migs[j].down, x))
    || (exists i, k: nat, l: nat :: 0 <= i < |migs| && k < l && NamesAt(migs[i].down, k, x) && NamesAt(migs[i].down, l, x))
  }

  /** Some file with several parents has every file that names `x` among them, in any order. */
  ghost predicate IsRejoined(migs: seq<Migration>, x: RevId) {
    exists m :: m in migs && m.down.Parents? && |m.down.ids| > 1
             && forall c :: c in migs && Names(c.down, x) ==> c.revision in m.down.ids
  }

  ghost predicate HasDistinctIds(migs: seq<Migration>) {
    forall i, j :: 0 <= i < j < |migs| ==> migs[i].revision != migs[j].revision
  }

  predicate IsRoot(migs: seq<Migration>, i: nat) {
    i < |migs| && migs[i].down == NoParent
  }

  ghost predicate IsOnlyRoot(migs: seq<Migration>, i: nat) {
    IsRoot(migs, i) && forall j: nat :: IsRoot(migs, j) ==> j == i
  }

  ghost predicate HasOneRoot(migs: seq<Migration>) {
    exists i: nat :: IsOnlyRoot(migs, i)
  }

  ghost predicate ParentsAreDeclared(migs: seq<Migration>) {
    forall m, x :: m in migs && Names(m.down, x) ==> exists d :: d in migs && d.revision == x
  }

  lemma TargetsAreNamed(d: Down, x: RevId)
    ensures x in Targets(d) <==> Names(d, x)
    ensures forall k :: 0 <= k < |Targets(d)| && Targets(d)[k] == x <==> 0 <= k && NamesAt(d, k, x)
  {
    assert forall k :: 0 <= k < |Targets(d)| && Targets(d)[k] == x <==> 0 <= k && NamesAt(d, k, x);
    if x in Targets(d) {
      var k :| 0 <= k < |Targets(d)| && Targets(d)[k] == x;
      assert NamesAt(d, k, x);
    }
  }

  lemma {:induction false} LinksCount(rev: RevId, targets: seq<RevId>, x: RevId)
    ensures |Links(rev, targets, x)| > 0 <==> x in targets
    ensures |Links(rev, targets, x)| > 1 <==> exists k, l :: 0 <= k < l < |targets| && targets[k] == x && targets[l] == x
  {
    if targets != [] {
      var front := targets[..|targets| - 1];
      LinksCount(rev, front, x);
      assert targets == front + [Last(targets)];
      if |Links(rev, targets, x)| > 1 && |Links(rev, front, x)| <= 1 {
        var k :| 0 <= k < |front| && front[k] == x;
        assert targets[k] == x && targets[|front|] == x;
      }
      if |Links(rev, front, x)| > 1 {
        var k, l :| 0 <= k < l < |front| && front[k] == x && front[l] == x;
        assert targets[k] == x && targets[l] == x;
      }
      if k, l :| 0 <= k < l < |targets| && targets[k] == x && targets[l] == x {
        assert front[k] == x;
        assert l < |front| ==> front[l] == x;
      }
    }
  }

  lemma NamedTwiceStep(front: seq<Migration>, m: Migration, x: RevId)
    ensures IsNamedTwice(front + [m], x) <==>
            || IsNamedTwice(front, x)
            || ((exists n :: n in front && Names(n.down, x)) && Names(m.down, x))
            || (exists k: nat, l: nat :: k < l && NamesAt(m.down, k, x) && NamesAt(m.down, l, x))
  {
    var all := front + [m];
    assert forall i :: 0 <= i < |front| ==> all[i] == front[i];
    assert all[|front|] == m;
    if n :| n in front && Names(n.down, x) && Names(m.down, x) {
      var i :| 0 <= i < |front| && front[i] == n;
      assert Names(all[i].down, x) && Names(all[|front|].down, x);
    }
    if IsNamedTwice(front, x) {
      NamedTwiceGrows(front, m, x);
    }
  }

  lemma NamedTwiceGrows(front: seq<Migration>, m: Migration, x: RevId)
    requires IsNamedTwice(front, x)
    ensures IsNamedTwice(front + [m], x)
  {
    var all := front + [m];
    if i, j :| 0 <= i < j < |front| && Names(front[i].down, x) && Names(front[j].down, x) {
      assert Names(all[i].down, x) && Names(all[j].down, x);
    } else {
      var i, k: nat, l: nat :| 0 <= i < |front| && k < l && NamesAt(front[i].down, k, x) && NamesAt(front[i].down, l, x);
      assert NamesAt(all[i].down, k, x) && NamesAt(all[i].down, l, x);
    }
  }

  lemma {:induction false} ChildrenCount(migs: seq<Migration>, x: RevId)
    ensures |ChildrenOf(migs, x)| > 0 <==> exists n :: n in migs && Names(n.down, x)
    ensures |ChildrenOf(migs, x)| > 1 <==> IsNamedTwice(migs, x)
  {
    if migs != [] {
      var front, m := migs[..|migs| - 1], Last(migs);
      assert migs == front + [m];
      ChildrenCount(front, x);
      LinksCount(m.revision, Targets(m.down), x);
      TargetsAreNamed(m.down, x);
      NamedTwiceStep(front, m, x);
      assert m in migs;
      SeveralPlaces(m.down, x);
    }
  }

  lemma SeveralPlaces(d: Down, x: RevId)
    ensures (exists k, l :: 0 <= k < l < |Targets(d)| && Targets(d)[k] == x && Targets(d)[l] == x)
       <==> exists k: nat, l: nat :: k < l && NamesAt(d, k, x) && NamesAt(d, l, x)
  {
    TargetsAreNamed(d, x);
    if k: nat, l: nat :| k < l && NamesAt(d, k, x) && NamesAt(d, l, x) {
      assert Targets(d)[k] == x && Targets(d)[l] == x;
    }
    if k, l :| 0 <= k < l < |Targets(d)| && Targets(d)[k] == x && Targets(d)[l] == x {
      assert NamesAt(d, k, x) && NamesAt(d, l, x);
    }
  }

  /** A branch is reported exactly when a revision is named twice and its children are nowhere rejoined. */
  lemma BranchReportedIff(migs: seq<Migration>, x: RevId)
    ensures Violates(migs, UnresolvedBranch(x, ChildrenOf(migs, x))) <==> IsNamedTwice(migs, x) && !IsRejoined(migs, x)
    ensures forall cs :: Violates(migs, UnresolvedBranch(x, cs)) ==>
              forall c :: c in cs <==> exists m :: m in migs && m.revision == c && Names(m.down, x)
  {
    var cs := ChildrenOf(migs, x);
    ChildrenCount(migs, x);
    forall c
      ensures c in cs <==> exists m :: m in migs && m.revision == c && Names(m.down, x)
    {
      ChildrenAre(migs, x, c);
      forall m: Migration {
        TargetsAreNamed(m.down, x);
      }
    }
    forall m | m in migs
      ensures Covers(m.down, cs) <==>
              m.down.Parents? && |m.down.ids| > 1 && forall c :: c in migs && Names(c.down, x) ==> c.revision in m.down.ids
    {
    }
  }

  lemma BranchesReported(migs: seq<Migration>, errors: seq<ChainError>)
    requires forall e :: e in errors <==> e.UnresolvedBranch? && Violates(migs, e)
    ensures forall x :: UnresolvedBranch(x, ChildrenOf(migs, x)) in errors <==> IsNamedTwice(migs, x) && !IsRejoined(migs, x)
  {
    forall x
      ensures UnresolvedBranch(x, ChildrenOf(migs, x)) in errors <==> IsNamedTwice(migs, x) && !IsRejoined(migs, x)
    {
      BranchReportedIff(migs, x);
    }
  }

  /** An orphan is reported for exactly the pairs of a file and a parent it names that no file declares. */
  lemma OrphanReportedIff(migs: seq<Migration>, r: RevId, d: RevId)
    ensures Violates(migs, OrphanParent(r, d)) <==>
            (exists m :: m in migs && m.revision == r && Names(m.down, d)) && forall n :: n in migs ==> n.revision != d
  {
    forall m: Migration {
      TargetsAreNamed(m.down, d);
    }
  }

  ghost predicate HasNoRoot(migs: seq<Migration>) {
    forall i: nat :: !IsRoot(migs, i)
  }

  lemma RootsStep(front: seq<Migration>, m: Migration)
    ensures HasNoRoot(front + [m]) <==> HasNoRoot(front) && m.down != NoParent
    ensures HasOneRoot(front + [m]) <==> if m.down == NoParent then HasNoRoot(front) else HasOneRoot(front)
  {
    var all := front + [m];
    forall i: nat
      ensures IsRoot(all, i) <==> IsRoot(front, i) || (i == |front| && m.down == NoParent)
    {
    }
    if m.down == NoParent {
      assert IsRoot(all, |front|);
      if HasNoRoot(front) {
        assert IsOnlyRoot(all, |front|);
      } else {
        var i: nat :| IsRoot(front, i);
        assert IsRoot(all, i) && i != |front|;
      }
    } else {
      assert forall i: nat :: IsOnlyRoot(all, i) <==> IsOnlyRoot(front, i);
    }
  }

  lemma {:induction false} RootsCount(migs: seq<Migration>)
    ensures BasesOf(migs) == [] <==> HasNoRoot(migs)
    ensures |BasesOf(migs)| == 1 <==> HasOneRoot(migs)
  {
    if migs != [] {
      assert migs == migs[..|migs| - 1] + [Last(migs)];
      RootsCount(migs[..|migs| - 1]);
      RootsStep(migs[..|migs| - 1], Last(migs));
    }
  }

  lemma RootReportedIff(migs: seq<Migration>)
    ensures !Violates(migs, NoMigrations) && !Violates(migs, NoBase) && !Violates(migs, MultipleBases(BasesOf(migs))) <==> HasOneRoot(migs)
  {
    RootsCount(migs);
    assert migs == [] ==> BasesOf(migs) == [];
  }

  /**
   The verdict without the checker's indexes: a directory is accepted exactly when ids are distinct,
   one file has no parent, every named parent is declared, and every revision named more than once
   is rejoined by a file with several parents.
   */
  lemma AcceptedIff(migs: seq<Migration>)
    ensures Accepted(migs) <==>
            && HasDistinctIds(migs) && HasOneRoot(migs) && ParentsAreDeclared(migs)
            && forall x :: IsNamedTwice(migs, x) ==> IsRejoined(migs, x)
  {
    RootReportedIff(migs);
    forall x {
      BranchReportedIff(migs, x);
    }
    forall r, d {
      OrphanReportedIff(migs, r, d);
    }
    if Accepted(migs) {
      forall i, j | 0 <= i < j < |migs|
        ensures migs[i].revision != migs[j].revision
      {
        assert !Violates(migs, DuplicateRevision(migs[i].revision));
      }
      forall m, x | m in migs && Names(m.down, x)
        ensures exists d :: d in migs && d.revision == x
      {
        assert !Violates(migs, OrphanParent(m.revision, x));
      }
      forall x | IsNamedTwice(migs, x)
        ensures IsRejoined(migs, x)
      {
        assert !Violates(migs, UnresolvedBranch(x, ChildrenOf(migs, x)));
      }
    } else {
      var e :| Violates(migs, e);
    }
  }

  /** A base, two files on it, and a merge of both; `ids` is the merge's tuple. */
  function DiamondFiles(a: RevId, b: RevId, c: RevId, m: RevId, ids: seq<RevId>): seq<Migration> {
    [Migration(a, NoParent), Migration(b, OneParent(a)), Migration(c, OneParent(a)), Migration(m, Parents(ids))]
  }

  /** A diamond is accepted exactly when its tuple names both branches, in whatever order. */
  lemma DiamondIsAcceptedIff(a: RevId, b: RevId, c: RevId, m: RevId, ids: seq<RevId>)
    requires a != b && a != c && a != m && b != c && b != m && c != m
    requires (forall x :: x in ids ==> x in {b, c}) && forall i, j :: 0 <= i < j < |ids| ==> ids[i] != ids[j]
    ensures Accepted(DiamondFiles(a, b, c, m, ids)) <==> b in ids && c in ids
  {
    var migs := DiamondFiles(a, b, c, m, ids);
    AcceptedIff(migs);
    DiamondNames(a, b, c, m, ids);
    DiamondRoot(a, b, c, m, ids);
    DiamondRejoined(a, b, c, m, ids);
  }

  lemma DiamondRoot(a: RevId, b: RevId, c: RevId, m: RevId, ids: seq<RevId>)
    requires a != b && a != c && a != m && b != c && b != m && c != m && forall x :: x in ids ==> x in {b, c}
    ensures var migs := DiamondFiles(a, b, c, m, ids); HasDistinctIds(migs) && HasOneRoot(migs) && ParentsAreDeclared(migs)
  {
    var migs := DiamondFiles(a, b, c, m, ids);
    assert IsOnlyRoot(migs, 0);
    forall f, x | f in migs && Names(f.down, x)
      ensures exists d :: d in migs && d.revision == x
    {
      TargetsAreNamed(f.down, x);
      assert migs[0].revision == a && migs[1].revision == b && migs[2].revision == c;
      assert migs[0] in migs && migs[1] in migs && migs[2] in migs;
    }
  }

  lemma DiamondRejoined(a: RevId, b: RevId, c: RevId, m: RevId, ids: seq<RevId>)
    requires a != b && a != c && a != m && b != c && b != m && c != m
    requires (forall x :: x in ids ==> x in {b, c}) && forall i, j :: 0 <= i < j < |ids| ==> ids[i] != ids[j]
    ensures var migs := DiamondFiles(a, b, c, m, ids);
            IsNamedTwice(migs, a) && (IsRejoined(migs, a) <==> b in ids && c in ids)
  {
    var migs := DiamondFiles(a, b, c, m, ids);
    DiamondNames(a, b, c, m, ids);
    assert migs[1] in migs && migs[2] in migs && migs[3] in migs;
    assert Names(migs[1].down, a) && Names(migs[2].down, a);
    if b in ids && c in ids {
      assert migs[3].down.Parents?;
    }
  }

  lemma DiamondNames(a: RevId, b: RevId, c: RevId, m: RevId, ids: seq<RevId>)
    requires a != b && a != c && a != m && b != c && b != m && c != m
    requires (forall x :: x in ids ==> x in {b, c}) && forall i, j :: 0 <= i < j < |ids| ==> ids[i] != ids[j]
    ensures var migs := DiamondFiles(a, b, c, m, ids);
            && (forall x :: !Names(migs[0].down, x))
            && (forall x :: Names(migs[1].down, x) <==> x == a)
            && (forall x :: Names(migs[2].down, x) <==> x == a)
            && (forall x :: Names(migs[3].down, x) <==> x in ids)
            && forall x :: IsNamedTwice(migs, x) ==> x == a
  {
    var migs := DiamondFiles(a, b, c, m, ids);
    assert NamesAt(OneParent(a), 0, a);
    forall x
      ensures Names(Parents(ids), x) <==> x in ids
    {
      TargetsAreNamed(Parents(ids), x);
    }
  }

  // ---------------------------------------------------------------------------------------
  // Main results about the checker's verdict
  // ---------------------------------------------------------------------------------------

  /** Any two heads reachable from the base coincide, cycles or not. */
  lemma AcceptedHeadsCoincide(migs: seq<Migration>, b: RevId, h: RevId, k: RevId)
    requires Accepted(migs) && IsBase(GraphOf(migs), b)
    requires IsHead(GraphOf(migs), h) && IsHead(GraphOf(migs), k)
    requires Reaches(GraphOf(migs), b, h) && Reaches(GraphOf(migs), b, k)
    ensures h == k
  {
    AcceptedIsLocallyValid(migs);
    ReachableHeadsCoincide(GraphOf(migs), b, h, k);
  }

  /** An accepted directory is one history up to a single head exactly when it is acyclic and has no empty tuple. */
  lemma AcceptedIsOneHistoryIff(migs: seq<Migration>)
    requires Accepted(migs)
    ensures AllReachable(GraphOf(migs)) && OneHead(GraphOf(migs)) <==> Acyclic(GraphOf(migs)) && NoEmptyTuple(GraphOf(migs))
  {
    AcceptedIsLocallyValid(migs);
    SingleHistoryIff(GraphOf(migs));
  }

  /** The success message "single linear chain" is true of an accepted directory exactly under three conditions. */
  lemma AcceptedIsLinearIff(migs: seq<Migration>)
    requires Accepted(migs)
    ensures LinearChain(GraphOf(migs)) <==> NoMerges(GraphOf(migs)) && NoEmptyTuple(GraphOf(migs)) && Acyclic(GraphOf(migs))
  {
    AcceptedIsLocallyValid(migs);
    LinearChainIff(GraphOf(migs));
  }

  /** Without merges (and acyclicity), one list from the base to the head, and disjoint cycles of all other revisions. */
  lemma AcceptedIsListPlusCycles(migs: seq<Migration>)
    requires Accepted(migs) && NoMerges(GraphOf(migs)) && NoEmptyTuple(GraphOf(migs))
    ensures exists p :: IsListPlusCycles(GraphOf(migs), p)
  {
    AcceptedIsLocallyValid(migs);
    OneListPlusCycles(GraphOf(migs));
  }

  /** In an accepted directory with a reachable head, all routes between two revisions apply equally many migrations. */
  lemma AcceptedIsGraded(migs: seq<Migration>, b: RevId, v: RevId, h: RevId, p: seq<RevId>, q: seq<RevId>)
    requires Accepted(migs) && IsHead(GraphOf(migs), h) && Reaches(GraphOf(migs), b, h)
    requires Connects(GraphOf(migs), p, b, v) && Connects(GraphOf(migs), q, b, v)
    ensures |p| == |q|
  {
    AcceptedIsLocallyValid(migs);
    Graded(GraphOf(migs), b, v, h, p, q);
  }

  // ---------------------------------------------------------------------------------------
  // The two hypotheses are necessary
  // ---------------------------------------------------------------------------------------

  /** A base, and two files that name each other. */
  function DetachedPair(a: RevId, b: RevId, c: RevId): seq<Migration> {
    [Migration(a, NoParent), Migration(b, OneParent(c)), Migration(c, OneParent(b))]
  }

  /** Three files: a base, and two that name each other.  Accepted, yet the pair is cut off. */
  lemma DetachedCycleIsAccepted(a: RevId, b: RevId, c: RevId)
    requires a != b && b != c && c != a
    ensures Accepted(DetachedPair(a, b, c))
    ensures !Acyclic(GraphOf(DetachedPair(a, b, c))) && !AllReachable(GraphOf(DetachedPair(a, b, c)))
  {
    DetachedPairIndexes(a, b, c);
    DetachedPairGraph(a, b, c);
    var migs := DetachedPair(a, b, c);
    assert migs[1] in migs && migs[2] in migs;
    assert Declared(migs, b) && Declared(migs, c);
    forall e
      ensures !Violates(migs, e)
    {
    }
  }

  lemma DetachedPairIndexes(a: RevId, b: RevId, c: RevId)
    requires a != b && b != c && c != a
    ensures var migs := DetachedPair(a, b, c);
            && GraphOf(migs) == map[a := NoParent, b := OneParent(c), c := OneParent(b)]
            && BasesOf(migs) == [a]
            && forall x :: |ChildrenOf(migs, x)| <= 1
  {
    var m0, m1, m2 := Migration(a, NoParent), Migration(b, OneParent(c)), Migration(c, OneParent(b));
    LastFile([], m0);
    LastFile([m0], m1);
    LastFile([m0, m1], m2);
    assert [] + [m0] == [m0] && [m0] + [m1] == [m0, m1] && [m0, m1] + [m2] == DetachedPair(a, b, c);
    forall x
      ensures |ChildrenOf(DetachedPair(a, b, c), x)| <= 1
    {
      LinksOne(b, c, x);
      LinksOne(c, b, x);
    }
  }

  lemma DetachedPairGraph(a: RevId, b: RevId, c: RevId)
    requires a != b && b != c && c != a
    ensures var g := map[a := NoParent, b := OneParent(c), c := OneParent(b)];
            !Acyclic(g) && !AllReachable(g)
  {
    var g := map[a := NoParent, b := OneParent(c), c := OneParent(b)];
    var p := [b, c, b];
    assert IsCycle(g, p);
    assert IsBase(g, a);
    if Reaches(g, a, b) {
      var q :| Connects(g, q, a, b);
      NoWalkLeavesHead(g, q);
    }
  }

  /** Two files: a base, and one with an empty tuple, which is neither a base nor an orphan.  Accepted with two heads. */
  lemma EmptyTupleIsAccepted(a: RevId, b: RevId)
    requires a != b
    ensures var migs := [Migration(a, NoParent), Migration(b, Parents([]))];
            Accepted(migs) && Acyclic(GraphOf(migs)) && !OneHead(GraphOf(migs))
  {
    var migs := [Migration(a, NoParent), Migration(b, Parents([]))];
    EmptyTupleIndexes(a, b);
    EmptyTupleGraph(a, b);
    forall e
      ensures !Violates(migs, e)
    {
    }
  }

  lemma EmptyTupleIndexes(a: RevId, b: RevId)
    requires a != b
    ensures var migs := [Migration(a, NoParent), Migration(b, Parents([]))];
            GraphOf(migs) == map[a := NoParent, b := Parents([])] && BasesOf(migs) == [a] && forall x :: ChildrenOf(migs, x) == []
  {
    var m0, m1 := Migration(a, NoParent), Migration(b, Parents([]));
    LastFile([], m0);
    LastFile([m0], m1);
    assert [] + [m0] == [m0] && [m0] + [m1] == [m0, m1];
  }

  lemma EmptyTupleGraph(a: RevId, b: RevId)
    requires a != b
    ensures var g := map[a := NoParent, b := Parents([])]; Acyclic(g) && !OneHead(g)
  {
    var g := map[a := NoParent, b := Parents([])];
    forall p
      ensures !IsCycle(g, p)
    {
      assert |p| > 1 && IsPath(g, p) ==> Edge(g, p[0], p[1]);
    }
    assert IsHead(g, a) && IsHead(g, b);
  }
}
