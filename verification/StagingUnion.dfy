/**
 The second half of the migration-chain checker: the branch's files are laid over the files of
 the staging branch, and the combined graph must have at most one head.
 */
module StagingUnion {
  import opened RevisionGraph
  import opened MigrationCheck

  datatype CollisionError =
    | DuplicateAcross(rev: RevId, stagingDown: Down, branchDown: Down)
    | MultipleHeads(heads: set<RevId>)

  /** The merged dictionary: the branch's declaration wins. */
  function Union(s: Graph, b: Graph): Graph {
    s + b
  }

  ghost predicate Agree(s: Graph, b: Graph) {
    forall r :: r in s && r in b ==> s[r] == b[r]
  }

  predicate IsReferenced(g: Graph, r: RevId) {
    exists c :: c in g && r in Targets(g[c])
  }

  function Heads(g: Graph): set<RevId> {
    set r | r in g && !IsReferenced(g, r)
  }

  ghost predicate Collides(s: Graph, b: Graph, e: CollisionError) {
    match e
    case DuplicateAcross(r, sd, bd) => r in s && r in b && s[r] == sd && b[r] == bd && sd != bd
    case MultipleHeads(hs) => hs == Heads(Union(s, b)) && |hs| > 1
  }

  // ---------------------------------------------------------------------------------------
  // The checker
  // ---------------------------------------------------------------------------------------

  method CheckStagingCollision(staging: seq<Migration>, branch: seq<Migration>) returns (errors: seq<CollisionError>)
    ensures staging == [] ==> errors == []
    ensures staging != [] ==> forall e :: e in errors <==> Collides(GraphOf(staging), GraphOf(branch), e)
    ensures staging != [] ==> forall e :: e in errors <==> IsCollision(staging, branch, e)
  {
    forall e {
      CollidesIff(staging, branch, e);
    }
    if |staging| == 0 {
      return [];
    }
    var stagingMap := ReadMap(staging);
    var branchMap := ReadMap(branch);
    errors := CompareShared(stagingMap, branchMap);
    var union := stagingMap + branchMap;
    var heads := FindHeads(union);
    if |heads| > 1 {
      errors := errors + [MultipleHeads(heads)];
    }
  }

  method ReadMap(migs: seq<Migration>) returns (g: Graph)
    ensures g == GraphOf(migs)
  {
    g := map[];
    for i := 0 to |migs|
      invariant g == GraphOf(migs[..i])
    {
      LastFile(migs[..i], migs[i]);
      assert migs[..i + 1] == migs[..i] + [migs[i]];
      g := g[migs[i].revision := migs[i].down];
    }
    assert migs[..|migs|] == migs;
  }

  method CompareShared(s: Graph, b: Graph) returns (errors: seq<CollisionError>)
    ensures forall e :: e in errors <==> e.DuplicateAcross? && Collides(s, b, e)
  {
    errors := [];
    var todo := b.Keys;
    while todo != {}
      invariant todo <= b.Keys
      invariant forall e :: e in errors <==> e.DuplicateAcross? && Collides(s, b, e) && e.rev !in todo
      decreases |todo|
    {
      var r :| r in todo;
      todo := todo - {r};
      if r in s && b[r] != s[r] {
        errors := errors + [DuplicateAcross(r, s[r], b[r])];
      }
    }
  }

  method FindHeads(g: Graph) returns (heads: set<RevId>)
    ensures heads == Heads(g)
  {
    var referenced: set<RevId> := {};
    var todo := g.Keys;
    while todo != {}
      invariant todo <= g.Keys
      invariant forall r :: r in referenced <==> exists c :: c in g && c !in todo && r in Targets(g[c])
      decreases |todo|
    {
      var c :| c in todo;
      todo := todo - {c};
      referenced := referenced + set t | t in Targets(g[c]);
    }
    heads := set r | r in g && r !in referenced;
  }

  // ---------------------------------------------------------------------------------------
  // The report, read off the two lists of files
  // ---------------------------------------------------------------------------------------

  /** The last file that declares `r` declares it with `d`. */
  ghost predicate Declares(migs: seq<Migration>, r: RevId, d: Down) {
    exists i :: 0 <= i < |migs| && migs[i] == Migration(r, d) && forall j :: i < j < |migs| ==> migs[j].revision != r
  }

  /** With the branch merged in, `r` is declared with `d`: by the branch, or by staging alone. */
  ghost predicate DeclaresMerged(staging: seq<Migration>, branch: seq<Migration>, r: RevId, d: Down) {
    Declares(branch, r, d) || (Declares(staging, r, d) && forall m :: m in branch ==> m.revision != r)
  }

  ghost predicate IsMergedHead(staging: seq<Migration>, branch: seq<Migration>, r: RevId) {
    && (exists d :: DeclaresMerged(staging, branch, r, d))
    && !exists c, d :: DeclaresMerged(staging, branch, c, d) && Names(d, r)
  }

  ghost predicate IsCollision(staging: seq<Migration>, branch: seq<Migration>, e: CollisionError) {
    match e
    case DuplicateAcross(r, sd, bd) => Declares(staging, r, sd) && Declares(branch, r, bd) && sd != bd
    case MultipleHeads(hs) => |hs| > 1 && forall r :: r in hs <==> IsMergedHead(staging, branch, r)
  }

  lemma DeclaresStep(front: seq<Migration>, m: Migration, r: RevId, d: Down)
    ensures Declares(front + [m], r, d) <==> if m.revision == r then m.down == d else Declares(front, r, d)
  {
    var all := front + [m];
    assert all[|front|] == m;
    if m.revision != r && Declares(front, r, d) {
      var i :| 0 <= i < |front| && front[i] == Migration(r, d) && forall j :: i < j < |front| ==> front[j].revision != r;
      assert all[i] == Migration(r, d);
    }
    if m.revision != r && Declares(all, r, d) {
      var i :| 0 <= i < |all| && all[i] == Migration(r, d) && forall j :: i < j < |all| ==> all[j].revision != r;
      assert front[i] == all[i];
      assert forall j :: i < j < |front| ==> front[j] == all[j];
    }
  }

  lemma {:induction false} GraphIsLastFile(migs: seq<Migration>, r: RevId, d: Down)
    ensures r in GraphOf(migs) && GraphOf(migs)[r] == d <==> Declares(migs, r, d)
  {
    if migs != [] {
      assert migs == migs[..|migs| - 1] + [Last(migs)];
      GraphIsLastFile(migs[..|migs| - 1], r, d);
      DeclaresStep(migs[..|migs| - 1], Last(migs), r, d);
    }
  }

  lemma UnionIsMerged(staging: seq<Migration>, branch: seq<Migration>, r: RevId, d: Down)
    ensures var u := Union(GraphOf(staging), GraphOf(branch));
            r in u && u[r] == d <==> DeclaresMerged(staging, branch, r, d)
  {
    GraphIsLastFile(staging, r, d);
    GraphIsLastFile(branch, r, d);
    GraphDeclares(branch, r);
  }

  lemma HeadIsMergedHead(staging: seq<Migration>, branch: seq<Migration>, r: RevId)
    ensures r in Heads(Union(GraphOf(staging), GraphOf(branch))) <==> IsMergedHead(staging, branch, r)
  {
    var u := Union(GraphOf(staging), GraphOf(branch));
    forall c, d {
      UnionIsMerged(staging, branch, c, d);
    }
    forall c | c in u
      ensures r in Targets(u[c]) <==> Names(u[c], r)
    {
      TargetsAreNamed(u[c], r);
    }
    if IsReferenced(u, r) {
      var c :| c in u && r in Targets(u[c]);
      assert DeclaresMerged(staging, branch, c, u[c]);
    }
    if r in u {
      assert DeclaresMerged(staging, branch, r, u[r]);
    }
  }

  /** The report depends on the files alone: redeclared shared ids, and the heads of the merged declarations. */
  lemma CollidesIff(staging: seq<Migration>, branch: seq<Migration>, e: CollisionError)
    ensures Collides(GraphOf(staging), GraphOf(branch), e) <==> IsCollision(staging, branch, e)
  {
    match e
    case DuplicateAcross(r, sd, bd) =>
      GraphIsLastFile(staging, r, sd);
      GraphIsLastFile(branch, r, bd);
    case MultipleHeads(hs) =>
      forall r
        ensures r in Heads(Union(GraphOf(staging), GraphOf(branch))) <==> IsMergedHead(staging, branch, r)
      {
        HeadIsMergedHead(staging, branch, r);
      }
  }

  // ---------------------------------------------------------------------------------------
  // When the union is accepted
  // ---------------------------------------------------------------------------------------

  /** A complete history: parents declared, no cycle, one head. */
  ghost predicate Complete(g: Graph) {
    NoOrphans(g) && Acyclic(g) && OneHead(g)
  }

  lemma HeadsAre(g: Graph, r: RevId)
    ensures r in Heads(g) <==> IsHead(g, r)
  {
    if IsHead(g, r) && IsReferenced(g, r) {
      var c :| c in g && r in Targets(g[c]);
      assert Edge(g, r, c);
    }
  }

  /** In a complete history every revision is an ancestor of the head. */
  lemma AllUnderHead(g: Graph, h: RevId, r: RevId)
    requires Complete(g) && IsHead(g, h) && r in g
    ensures Reaches(g, r, h)
  {
    var p := ClimbToHead(g, [r]);
    assert Connects(g, p, r, h);
  }

  /** A set of revisions that declares its parents is closed under going back in the union. */
  lemma {:induction false} BackwardStaysIn(g: Graph, u: Graph, p: seq<RevId>)
    requires NoOrphans(g) && (forall r :: r in g ==> r in u && u[r] == g[r])
    requires IsPath(u, p) && Last(p) in g
    ensures IsPath(g, p)
  {
    if |p| > 1 {
      var front := p[..|p| - 1];
      SlicePath(u, p, 0, |p| - 1);
      assert p[0..|p| - 1] == front;
      assert Edge(u, p[|p| - 2], p[|p| - 1]);
      assert Edge(g, p[|p| - 2], p[|p| - 1]);
      BackwardStaysIn(g, u, front);
      forall i, j | 0 <= i < |p| && 0 <= j < |p| && j == i + 1
        ensures Edge(g, p[i], p[j])
      {
        if j < |p| - 1 {
          assert front[i] == p[i] && front[j] == p[j];
        }
      }
    }
  }

  lemma CycleIsOneSided(s: Graph, b: Graph, c: seq<RevId>)
    requires NoOrphans(s) && NoOrphans(b) && Agree(s, b) && IsCycle(Union(s, b), c)
    ensures IsCycle(s, c) || IsCycle(b, c)
  {
    if c[0] in s {
      BackwardStaysIn(s, Union(s, b), c);
    } else {
      BackwardStaysIn(b, Union(s, b), c);
    }
  }

  /** Overlaying two acyclic graphs that agree never creates a cycle, whatever their heads. */
  lemma UnionIsAcyclic(s: Graph, b: Graph)
    requires NoOrphans(s) && NoOrphans(b) && Acyclic(s) && Acyclic(b) && Agree(s, b)
    ensures Acyclic(Union(s, b)) && NoOrphans(Union(s, b))
  {
    var u := Union(s, b);
    forall c
      ensures !IsCycle(u, c)
    {
      if IsCycle(u, c) {
        CycleIsOneSided(s, b, c);
      }
    }
    forall x, y | Edge(u, x, y)
      ensures x in u
    {
      assert Edge(s, x, y) || Edge(b, x, y);
    }
  }

  /** If the head of one history is known to the other, the whole history is. */
  lemma KnownHeadMeansContained(s: Graph, b: Graph, h: RevId)
    requires Complete(s) && NoOrphans(b) && Agree(s, b) && IsHead(s, h) && h in b
    ensures s.Keys <= b.Keys
  {
    forall r | r in s
      ensures r in b
    {
      AllUnderHead(s, h, r);
      var p :| Connects(s, p, r, h);
      var u := Union(s, b);
      forall i, j | 0 <= i < |p| && 0 <= j < |p| && j == i + 1
        ensures Edge(u, p[i], p[j])
      {
        assert Edge(s, p[i], p[j]);
      }
      BackwardStaysIn(b, u, p);
    }
  }

  lemma ContainedUnion(s: Graph, b: Graph)
    requires Agree(s, b)
    ensures s.Keys <= b.Keys ==> Union(s, b) == b
    ensures b.Keys <= s.Keys ==> Union(s, b) == s
  {
  }

  lemma FewHeads(g: Graph)
    requires OneHead(g)
    ensures |Heads(g)| <= 1
  {
    var h :| IsHead(g, h);
    forall r | r in Heads(g)
      ensures r == h
    {
      HeadsAre(g, r);
    }
    if |Heads(g)| > 1 {
      assert Heads(g) <= {h};
      DistinctSubset(Heads(g), h);
    }
  }

  lemma DistinctSubset(heads: set<RevId>, h: RevId)
    requires heads <= {h}
    ensures |heads| <= 1
  {
    if h in heads {
      assert heads == {h};
    } else {
      assert heads == {};
    }
  }

  /** Two histories each holding a revision the other lacks leave two heads in the union. */
  lemma DivergedHasTwoHeads(s: Graph, b: Graph)
    requires Complete(s) && Complete(b) && Agree(s, b) && !(s.Keys <= b.Keys) && !(b.Keys <= s.Keys)
    ensures |Heads(Union(s, b))| > 1
  {
    var u := Union(s, b);
    var h :| IsHead(s, h);
    var k :| IsHead(b, k);
    if h in b {
      KnownHeadMeansContained(s, b, h);
    }
    if k in s {
      KnownHeadMeansContained(b, s, k);
    }
    StaysHead(s, b, h);
    StaysHead(b, s, k);
    assert Union(b, s) == u;
    HeadsAre(u, h);
    HeadsAre(u, k);
    assert |{h, k}| == 2;
    SubsetSize({h, k}, Heads(u));
  }

  lemma StaysHead(s: Graph, b: Graph, h: RevId)
    requires NoOrphans(b) && Agree(s, b) && IsHead(s, h) && h !in b
    ensures IsHead(Union(s, b), h)
  {
    var u := Union(s, b);
    forall c
      ensures !Edge(u, h, c)
    {
      assert Edge(u, h, c) ==> Edge(s, h, c) || Edge(b, h, c);
    }
  }

  lemma {:induction false} SubsetSize<T>(a: set<T>, b: set<T>)
    requires a <= b
    ensures |a| <= |b|
  {
    if a != {} {
      var x :| x in a;
      SubsetSize(a - {x}, b - {x});
    }
  }

  /**
   The main theorem: two complete histories overlay without an error exactly when they agree on
   every shared revision and one of them contains the other.
   */
  lemma UnionAcceptedIff(s: Graph, b: Graph)
    requires Complete(s) && Complete(b)
    ensures (forall e :: !Collides(s, b, e)) <==> Agree(s, b) && (s.Keys <= b.Keys || b.Keys <= s.Keys)
  {
    if !Agree(s, b) {
      var r :| r in s && r in b && s[r] != b[r];
      assert Collides(s, b, DuplicateAcross(r, s[r], b[r]));
    } else if s.Keys <= b.Keys || b.Keys <= s.Keys {
      ContainedUnion(s, b);
      FewHeads(Union(s, b));
    } else {
      DivergedHasTwoHeads(s, b);
      assert Collides(s, b, MultipleHeads(Heads(Union(s, b))));
    }
  }

  /** The verdict does not depend on which side is laid over the other. */
  lemma VerdictIsSymmetric(s: Graph, b: Graph)
    ensures (forall e :: !Collides(s, b, e)) <==> (forall e :: !Collides(b, s, e))
  {
    if !Agree(s, b) {
      var r :| r in s && r in b && s[r] != b[r];
      assert Collides(s, b, DuplicateAcross(r, s[r], b[r]));
      assert Collides(b, s, DuplicateAcross(r, b[r], s[r]));
    } else {
      assert Union(s, b) == Union(b, s);
      var e := MultipleHeads(Heads(Union(s, b)));
      assert Collides(s, b, e) <==> Collides(b, s, e);
    }
  }

  /**
   End to end: when both directories pass the chain checks (and are acyclic, with no empty tuple)
   and the collision check is silent, merging them yields one of the two directories' graphs, so
   the merged history again has one base, one head and no unreachable revision.
   */
  lemma SilentMergeIsOneHistory(staging: seq<Migration>, branch: seq<Migration>)
    requires Accepted(staging) && Acyclic(GraphOf(staging)) && NoEmptyTuple(GraphOf(staging))
    requires Accepted(branch) && Acyclic(GraphOf(branch)) && NoEmptyTuple(GraphOf(branch))
    requires forall e :: !Collides(GraphOf(staging), GraphOf(branch), e)
    ensures var u := Union(GraphOf(staging), GraphOf(branch));
            && (u == GraphOf(staging) || u == GraphOf(branch))
            && LocallyValid(u) && AllReachable(u) && OneHead(u) && Acyclic(u)
  {
    var s, b := GraphOf(staging), GraphOf(branch);
    AcceptedIsLocallyValid(staging);
    AcceptedIsLocallyValid(branch);
    SingleHistoryIff(s);
    SingleHistoryIff(b);
    UnionAcceptedIff(s, b);
    ContainedUnion(s, b);
  }
}
