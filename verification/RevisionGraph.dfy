/**
 The revision graph that a directory of migrations declares, and the global facts that follow
 from the purely local checks of the migration-chain checker.

 Parsed metadata is the starting point: a revision id and a `down_revision` that is missing, a
 single id, or a tuple of ids.  An edge runs from a parent to the child that names it.
 */
module RevisionGraph {

  datatype RevId = RevId(name: string)

  datatype Down = NoParent | OneParent(id: RevId) | Parents(ids: seq<RevId>)

  type Graph = map<RevId, Down>

  function Targets(d: Down): seq<RevId> {
    match d
    case NoParent => []
    case OneParent(id) => [id]
    case Parents(ids) => ids
  }

  /** A merge revision names more than one parent. */
  predicate IsMerge(d: Down) {
    d.Parents? && |d.ids| > 1
  }

  predicate Edge(g: Graph, x: RevId, y: RevId) {
    y in g && x in Targets(g[y])
  }

  ghost predicate IsHead(g: Graph, h: RevId) {
    h in g && forall c :: !Edge(g, h, c)
  }

  ghost predicate IsBase(g: Graph, b: RevId) {
    b in g && g[b].NoParent?
  }

  ghost predicate OneBase(g: Graph) {
    (exists b :: IsBase(g, b)) && forall b, c :: IsBase(g, b) && IsBase(g, c) ==> b == c
  }

  ghost predicate OneHead(g: Graph) {
    (exists h :: IsHead(g, h)) && forall h, k :: IsHead(g, h) && IsHead(g, k) ==> h == k
  }

  ghost predicate NoOrphans(g: Graph) {
    forall x, y :: Edge(g, x, y) ==> x in g
  }

  ghost predicate NoEmptyTuple(g: Graph) {
    forall r :: r in g ==> g[r] != Parents([])
  }

  /** Two different children of one revision have a common child. */
  ghost predicate Diamond(g: Graph) {
    forall x, y, z :: Edge(g, x, y) && Edge(g, x, z) && y != z ==> exists m :: Edge(g, y, m) && Edge(g, z, m)
  }

  /** A non-empty walk from parent to child, given by the revisions it visits. */
  ghost predicate IsPath(g: Graph, p: seq<RevId>) {
    && |p| > 0
    && p[0] in g
    && forall i, j :: 0 <= i < |p| && 0 <= j < |p| && j == i + 1 ==> Edge(g, p[i], p[j])
  }

  function Last<T>(p: seq<T>): T
    requires |p| > 0
  {
    p[|p| - 1]
  }

  ghost predicate Connects(g: Graph, p: seq<RevId>, x: RevId, y: RevId) {
    IsPath(g, p) && p[0] == x && Last(p) == y
  }

  ghost predicate Reaches(g: Graph, x: RevId, y: RevId) {
    exists p :: Connects(g, p, x, y)
  }

  ghost predicate IsCycle(g: Graph, p: seq<RevId>) {
    IsPath(g, p) && |p| > 1 && p[0] == Last(p)
  }

  ghost predicate Acyclic(g: Graph) {
    forall p :: !IsCycle(g, p)
  }

  ghost predicate AllReachable(g: Graph) {
    forall b, r :: IsBase(g, b) && r in g ==> Reaches(g, b, r)
  }

  /** What the local checks establish about the graph. */
  ghost predicate LocallyValid(g: Graph) {
    OneBase(g) && NoOrphans(g) && Diamond(g)
  }

  // ---------------------------------------------------------------------------------------
  // Walks
  // ---------------------------------------------------------------------------------------

  lemma JoinPaths(g: Graph, p: seq<RevId>, q: seq<RevId>)
    requires IsPath(g, p) && IsPath(g, q) && Last(p) == q[0]
    ensures Connects(g, p + q[1..], p[0], Last(q))
  {
    var r := p + q[1..];
    forall i, j | 0 <= i < |r| && 0 <= j < |r| && j == i + 1
      ensures Edge(g, r[i], r[j])
    {
      if j >= |p| {
        assert r[j] == q[j - |p| + 1] && r[i] == q[j - |p|];
      }
    }
    assert Last(r) == Last(q);
  }

  lemma PathNodes(g: Graph, p: seq<RevId>)
    requires IsPath(g, p)
    ensures forall r :: r in p ==> r in g
  {
    forall i | 0 <= i < |p|
      ensures p[i] in g
    {
      if i > 0 {
        assert Edge(g, p[i - 1], p[i]);
      }
    }
  }

  lemma SlicePath(g: Graph, p: seq<RevId>, i: nat, j: nat)
    requires IsPath(g, p) && i < j <= |p|
    ensures Connects(g, p[i..j], p[i], p[j - 1])
  {
    PathNodes(g, p);
    var q := p[i..j];
    assert p[i] in p;
    forall k, l | 0 <= k < |q| && 0 <= l < |q| && l == k + 1
      ensures Edge(g, q[k], q[l])
    {
      assert q[k] == p[i + k] && q[l] == p[i + l];
    }
  }

  ghost predicate Distinct<T>(s: seq<T>) {
    forall i, j :: 0 <= i < j < |s| ==> s[i] != s[j]
  }

  lemma {:induction false} DistinctFits<T>(s: seq<T>, nodes: set<T>)
    requires Distinct(s) && forall x :: x in s ==> x in nodes
    ensures |s| <= |nodes|
  {
    if |s| > 0 {
      var x := Last(s);
      DistinctFits(s[..|s| - 1], nodes - {x});
    }
  }

  /** In an acyclic graph no walk repeats a revision, so a walk is no longer than the graph. */
  lemma AcyclicPathIsShort(g: Graph, p: seq<RevId>)
    requires Acyclic(g) && IsPath(g, p)
    ensures Distinct(p) && |p| <= |g.Keys|
  {
    forall i, j | 0 <= i < j < |p|
      ensures p[i] != p[j]
    {
      SlicePath(g, p, i, j + 1);
      assert !IsCycle(g, p[i..j + 1]);
    }
    PathNodes(g, p);
    DistinctFits(p, g.Keys);
  }

  // ---------------------------------------------------------------------------------------
  // Random descent: the diamond makes all maximal walks from a revision equally long
  // ---------------------------------------------------------------------------------------

  /**
   If a walk `p` from x ends at a head, then any other walk `q` from x can be continued to that
   same head, and the total length is the length of `p`.  No acyclicity is assumed.
   */
  lemma {:induction false} RandomDescent(g: Graph, p: seq<RevId>, q: seq<RevId>) returns (r: seq<RevId>)
    requires Diamond(g)
    requires IsPath(g, p) && IsPath(g, q) && p[0] == q[0] && IsHead(g, Last(p))
    ensures Connects(g, r, Last(q), Last(p)) && |q| + |r| == |p| + 1
    decreases |p|
  {
    if |q| == 1 {
      return p;
    }
    Tail(g, q);
    assert |p| > 1;
    Tail(g, p);
    if p[1] == q[1] {
      r := RandomDescent(g, p[1..], q[1..]);
    } else {
      var m := CommonChild(g, p[0], p[1], q[1]);
      var tail := RandomDescent(g, p[1..], [p[1], m]);
      StepThen(g, q[1], tail);
      r := RandomDescent(g, [q[1]] + tail, q[1..]);
    }
  }

  lemma CommonChild(g: Graph, x: RevId, y: RevId, z: RevId) returns (m: RevId)
    requires Diamond(g) && Edge(g, x, y) && Edge(g, x, z) && y != z
    ensures Edge(g, y, m) && Edge(g, z, m)
  {
    m :| Edge(g, y, m) && Edge(g, z, m);
  }

  lemma Tail(g: Graph, p: seq<RevId>)
    requires IsPath(g, p) && |p| > 1
    ensures Edge(g, p[0], p[1]) && p[1] in g && Connects(g, p[1..], p[1], Last(p))
  {
    assert Edge(g, p[0], p[1]);
    SlicePath(g, p, 1, |p|);
  }

  lemma StepThen(g: Graph, x: RevId, p: seq<RevId>)
    requires IsPath(g, p) && x in g && Edge(g, x, p[0])
    ensures Connects(g, [x] + p, x, Last(p))
  {
    JoinPaths(g, [x, p[0]], p);
    assert [x, p[0]] + p[1..] == [x] + p;
  }

  lemma NoWalkLeavesHead(g: Graph, p: seq<RevId>)
    requires IsPath(g, p) && |p| > 1
    ensures !IsHead(g, p[0])
  {
    assert Edge(g, p[0], p[1]);
  }

  /** Heads reachable from one revision coincide; cycles elsewhere do not matter. */
  lemma ReachableHeadsCoincide(g: Graph, x: RevId, h: RevId, k: RevId)
    requires Diamond(g) && Reaches(g, x, h) && Reaches(g, x, k) && IsHead(g, h) && IsHead(g, k)
    ensures h == k
  {
    var p :| Connects(g, p, x, h);
    var q :| Connects(g, q, x, k);
    var r := RandomDescent(g, p, q);
    if |r| > 1 {
      NoWalkLeavesHead(g, r);
    }
  }

  /** Every walk from x to a given revision has the same length once x reaches a head. */
  lemma Graded(g: Graph, x: RevId, v: RevId, h: RevId, p: seq<RevId>, q: seq<RevId>)
    requires Diamond(g) && IsHead(g, h) && Reaches(g, x, h)
    requires Connects(g, p, x, v) && Connects(g, q, x, v)
    ensures |p| == |q|
  {
    var top :| Connects(g, top, x, h);
    var r := RandomDescent(g, top, p);
    var s := RandomDescent(g, top, q);
    var t := RandomDescent(g, r, s);
    if |t| > 1 {
      NoWalkLeavesHead(g, t);
    }
  }

  /** A revision from which a head can be reached lies on no cycle. */
  lemma HeadwardIsAcyclic(g: Graph, h: RevId, c: seq<RevId>)
    requires Diamond(g) && IsHead(g, h) && IsCycle(g, c)
    ensures !Reaches(g, c[0], h)
  {
    if Reaches(g, c[0], h) {
      SlicePath(g, c, 0, 1);
      assert Connects(g, [c[0]], c[0], c[0]) by { assert c[0..1] == [c[0]]; }
      Graded(g, c[0], c[0], h, [c[0]], c);
    }
  }

  // ---------------------------------------------------------------------------------------
  // Acyclic graphs: upward to a head, downward to a base
  // ---------------------------------------------------------------------------------------

  lemma {:induction false} ClimbToHead(g: Graph, p: seq<RevId>) returns (q: seq<RevId>)
    requires Acyclic(g) && IsPath(g, p)
    ensures IsPath(g, q) && q[0] == p[0] && IsHead(g, Last(q))
    decreases |g.Keys| - |p|
  {
    PathNodes(g, p);
    AcyclicPathIsShort(g, p);
    if IsHead(g, Last(p)) {
      return p;
    }
    assert Last(p) in p;
    var c :| Edge(g, Last(p), c);
    AcyclicPathIsShort(g, p + [c]);
    q := ClimbToHead(g, p + [c]);
  }

  lemma {:induction false} DescendToBase(g: Graph, p: seq<RevId>) returns (q: seq<RevId>)
    requires Acyclic(g) && NoOrphans(g) && NoEmptyTuple(g) && IsPath(g, p)
    ensures IsPath(g, q) && Last(q) == Last(p) && IsBase(g, q[0])
    decreases |g.Keys| - |p|
  {
    AcyclicPathIsShort(g, p);
    if g[p[0]].NoParent? {
      return p;
    }
    var x := Targets(g[p[0]])[0];
    assert Edge(g, x, p[0]);
    StepThen(g, x, p);
    AcyclicPathIsShort(g, [x] + p);
    q := DescendToBase(g, [x] + p);
  }

  /**
   The main theorem.  For a graph that passes the local checks, being one connected history (every
   revision reachable from the base, exactly one head) is equivalent to the two conditions the
   checker does not look at: no cycle and no empty tuple.
   */
  lemma SingleHistoryIff(g: Graph)
    requires LocallyValid(g)
    ensures AllReachable(g) && OneHead(g) <==> Acyclic(g) && NoEmptyTuple(g)
  {
    if Acyclic(g) && NoEmptyTuple(g) {
      AcyclicIsSingleHistory(g);
    }
    if AllReachable(g) && OneHead(g) {
      SingleHistoryIsAcyclic(g);
    }
  }

  lemma AcyclicIsSingleHistory(g: Graph)
    requires LocallyValid(g) && Acyclic(g) && NoEmptyTuple(g)
    ensures AllReachable(g) && OneHead(g)
  {
    var b :| IsBase(g, b);
    forall r | r in g
      ensures Reaches(g, b, r)
    {
      var p := DescendToBase(g, [r]);
      assert Connects(g, p, b, r);
    }
    var p := ClimbToHead(g, [b]);
    forall h, k | IsHead(g, h) && IsHead(g, k)
      ensures h == k
    {
      ReachableHeadsCoincide(g, b, h, k);
    }
  }

  lemma SingleHistoryIsAcyclic(g: Graph)
    requires LocallyValid(g) && AllReachable(g) && OneHead(g)
    ensures Acyclic(g) && NoEmptyTuple(g)
  {
    var b :| IsBase(g, b);
    var h :| IsHead(g, h);
    forall c
      ensures !IsCycle(g, c)
    {
      if IsCycle(g, c) {
        HeadwardIsAcyclic(g, h, c);
        var top :| Connects(g, top, b, h);
        assert Reaches(g, b, c[0]);
        var q :| Connects(g, q, b, c[0]);
        var r := RandomDescent(g, top, q);
      }
    }
    forall r | r in g && r != b
      ensures Targets(g[r]) != []
    {
      var q :| Connects(g, q, b, r);
      assert Edge(g, q[|q| - 2], q[|q| - 1]);
    }
  }

  // ---------------------------------------------------------------------------------------
  // Linear histories
  // ---------------------------------------------------------------------------------------

  ghost predicate NoMerges(g: Graph) {
    forall r :: r in g ==> !IsMerge(g[r])
  }

  /** `p` lists the revisions from the base on, each one naming exactly its predecessor. */
  ghost predicate Lists(g: Graph, p: seq<RevId>) {
    && |p| > 0
    && IsBase(g, p[0])
    && Distinct(p)
    && forall i, j :: 0 <= i < |p| && 0 <= j < |p| && j == i + 1 ==> p[j] in g && Targets(g[p[j]]) == [p[i]]
  }

  /** The whole graph is one list: what the success message calls a single linear chain. */
  ghost predicate LinearChain(g: Graph) {
    exists p :: Lists(g, p) && forall r :: r in g ==> r in p
  }

  /** A parent never has two children unless a merge revision exists. */
  ghost predicate OneChild(g: Graph) {
    forall x, y, z :: Edge(g, x, y) && Edge(g, x, z) ==> y == z
  }

  lemma NothingFollowsLast(g: Graph, p: seq<RevId>, c: RevId)
    requires Lists(g, p) && c in p
    ensures !Edge(g, Last(p), c)
  {
    PathNodes(g, p);
    var i :| 0 <= i < |p| && p[i] == c;
    assert i > 0 ==> Targets(g[p[i]]) == [p[i - 1]];
  }

  lemma ChildrenStayListed(g: Graph, p: seq<RevId>, x: RevId, c: RevId)
    requires Lists(g, p) && OneChild(g) && IsHead(g, Last(p)) && x in p && Edge(g, x, c)
    ensures c in p
  {
    var i :| 0 <= i < |p| && p[i] == x;
    assert Edge(g, p[i], p[i + 1]);
  }

  lemma OnlyChildOnWalk(g: Graph, w: seq<RevId>, i: nat, c: RevId)
    requires IsPath(g, w) && OneChild(g) && i + 1 < |w| && Edge(g, w[i], c)
    ensures c == w[i + 1]
  {
    assert Edge(g, w[i], w[i + 1]);
  }

  lemma {:induction false} ExtendList(g: Graph, p: seq<RevId>) returns (q: seq<RevId>)
    requires Lists(g, p) && OneBase(g) && NoMerges(g) && OneChild(g)
    ensures Lists(g, q) && IsHead(g, Last(q))
    decreases |g.Keys| - |p|
  {
    PathNodes(g, p);
    DistinctFits(p, g.Keys);
    assert Last(p) in p;
    if IsHead(g, Last(p)) {
      return p;
    }
    var c :| Edge(g, Last(p), c);
    assert Targets(g[c]) == [Last(p)];
    assert c !in p by {
      if c in p {
        NothingFollowsLast(g, p, c);
      }
    }
    DistinctFits(p + [c], g.Keys);
    q := ExtendList(g, p + [c]);
  }

  lemma CycleHoldsChild(g: Graph, c: seq<RevId>, x: RevId, y: RevId)
    requires OneChild(g) && IsCycle(g, c) && x in c && Edge(g, x, y)
    ensures y in c
  {
    var i :| 0 <= i < |c| && c[i] == x;
    if i + 1 < |c| {
      OnlyChildOnWalk(g, c, i, y);
    } else {
      OnlyChildOnWalk(g, c, 0, y);
    }
  }

  lemma CycleHasChild(g: Graph, c: seq<RevId>, x: RevId) returns (y: RevId)
    requires IsCycle(g, c) && x in c
    ensures Edge(g, x, y)
  {
    var i :| 0 <= i < |c| && c[i] == x;
    y := if i + 1 < |c| then c[i + 1] else c[1];
    assert Edge(g, c[0], c[1]);
  }

  /** A walk that enters a cycle stays on it. */
  lemma {:induction false} WalkStaysOnCycle(g: Graph, c: seq<RevId>, w: seq<RevId>, i: nat, j: nat)
    requires OneChild(g) && IsCycle(g, c) && IsPath(g, w) && i <= j < |w| && w[i] in c
    ensures w[j] in c
    decreases j - i
  {
    if i < j {
      assert Edge(g, w[i], w[i + 1]);
      CycleHoldsChild(g, c, w[i], w[i + 1]);
      WalkStaysOnCycle(g, c, w, i + 1, j);
    }
  }

  /** Cycles that share a revision visit the same revisions. */
  lemma CyclesAreDisjointOrSame(g: Graph, c: seq<RevId>, d: seq<RevId>, r: RevId)
    requires OneChild(g) && IsCycle(g, c) && IsCycle(g, d) && r in c && r in d
    ensures forall x :: x in c <==> x in d
  {
    CycleInside(g, c, d, r);
    CycleInside(g, d, c, r);
  }

  lemma CycleInside(g: Graph, c: seq<RevId>, d: seq<RevId>, r: RevId)
    requires OneChild(g) && IsCycle(g, c) && IsCycle(g, d) && r in c && r in d
    ensures forall x :: x in c ==> x in d
  {
    var i :| 0 <= i < |c| && c[i] == r;
    WalkStaysOnCycle(g, d, c, i, |c| - 1);
    forall j | 0 <= j < |c|
      ensures c[j] in d
    {
      WalkStaysOnCycle(g, d, c, 0, j);
    }
  }

  /** The list that ends in a head meets no cycle. */
  lemma ListMeetsNoCycle(g: Graph, p: seq<RevId>, c: seq<RevId>, r: RevId)
    requires OneChild(g) && Lists(g, p) && IsHead(g, Last(p)) && IsCycle(g, c) && r in p
    ensures r !in c
  {
    if r in c {
      var i :| 0 <= i < |p| && p[i] == r;
      WalkStaysOnCycle(g, c, p, i, |p| - 1);
      var y := CycleHasChild(g, c, Last(p));
    }
  }

  /** One list from the base to a head, and everything else on cycles that meet neither it nor each other. */
  ghost predicate IsListPlusCycles(g: Graph, p: seq<RevId>) {
    && Lists(g, p) && IsHead(g, Last(p))
    && (forall r :: r in g && r !in p ==> exists c :: IsCycle(g, c) && c[0] == r)
    && (forall c, r :: IsCycle(g, c) && r in p ==> r !in c)
    && (forall c, d, r :: IsCycle(g, c) && IsCycle(g, d) && r in c && r in d ==> forall x :: x in c <==> x in d)
  }

  /**
   With no merge revision, an accepted graph is a list from the base to the only reachable head plus
   disjoint cycles.
   */
  lemma OneListPlusCycles(g: Graph)
    requires LocallyValid(g) && NoMerges(g) && OneChild(g) && NoEmptyTuple(g)
    ensures exists p :: IsListPlusCycles(g, p)
  {
    var b :| IsBase(g, b);
    var p := ExtendList(g, [b]);
    forall r | r in g && r !in p
      ensures exists c :: IsCycle(g, c) && c[0] == r
    {
      var c := BackIntoCycle(g, p, [r]);
    }
    forall c, r | IsCycle(g, c) && r in p
      ensures r !in c
    {
      ListMeetsNoCycle(g, p, c, r);
    }
    forall c, d, r | IsCycle(g, c) && IsCycle(g, d) && r in c && r in d
      ensures forall x :: x in c <==> x in d
    {
      CyclesAreDisjointOrSame(g, c, d, r);
    }
    assert IsListPlusCycles(g, p);
  }

  /** Walking down from a revision off the list must come back to where it started. */
  lemma {:induction false} BackIntoCycle(g: Graph, p: seq<RevId>, w: seq<RevId>) returns (c: seq<RevId>)
    requires OneBase(g) && NoOrphans(g) && NoMerges(g) && OneChild(g) && NoEmptyTuple(g)
    requires Lists(g, p) && IsHead(g, Last(p))
    requires IsPath(g, w) && Distinct(w) && forall r :: r in w ==> r !in p
    ensures IsCycle(g, c) && c[0] == Last(w)
    decreases |g.Keys| - |w|
  {
    PathNodes(g, w);
    DistinctFits(w, g.Keys);
    assert w[0] in w;
    assert p[0] in p && !IsBase(g, w[0]);
    var x := Targets(g[w[0]])[0];
    assert Edge(g, x, w[0]);
    if x in p {
      ChildrenStayListed(g, p, x, w[0]);
    }
    if x in w {
      var i :| 0 <= i < |w| && w[i] == x;
      if i + 1 < |w| {
        OnlyChildOnWalk(g, w, i, w[0]);
      }
      c := [x] + w;
      StepThen(g, x, w);
    } else {
      StepThen(g, x, w);
      DistinctFits([x] + w, g.Keys);
      c := BackIntoCycle(g, p, [x] + w);
    }
  }

  /** Exactly when an accepted graph is the single linear chain the checker announces. */
  lemma LinearChainIff(g: Graph)
    requires LocallyValid(g) && (NoMerges(g) ==> OneChild(g))
    ensures LinearChain(g) <==> NoMerges(g) && NoEmptyTuple(g) && Acyclic(g)
  {
    if NoMerges(g) && NoEmptyTuple(g) && Acyclic(g) {
      OneListPlusCycles(g);
      var p :| IsListPlusCycles(g, p);
      assert forall r :: r in g ==> r in p;
    }
    if LinearChain(g) {
      var p :| Lists(g, p) && forall r :: r in g ==> r in p;
      LinearIsPlain(g, p);
    }
  }

  lemma LinearIsPlain(g: Graph, p: seq<RevId>)
    requires LocallyValid(g) && Lists(g, p) && forall r :: r in g ==> r in p
    ensures NoMerges(g) && NoEmptyTuple(g) && Acyclic(g)
  {
    forall r | r in g
      ensures !IsMerge(g[r]) && g[r] != Parents([])
    {
      var i :| 0 <= i < |p| && p[i] == r;
      assert i > 0 ==> Targets(g[p[i]]) == [p[i - 1]];
    }
    forall c
      ensures !IsCycle(g, c)
    {
      if IsCycle(g, c) {
        PathNodes(g, c);
        var i :| 0 <= i < |p| && p[i] == c[0];
        WalkFollowsList(g, p, c, i);
      }
    }
  }

  /** A walk inside a list advances one position at a time. */
  lemma {:induction false} WalkFollowsList(g: Graph, p: seq<RevId>, w: seq<RevId>, i: nat)
    requires Lists(g, p) && (forall r :: r in g ==> r in p) && IsPath(g, w) && i < |p| && p[i] == w[0]
    ensures i + |w| <= |p| && p[i + |w| - 1] == Last(w)
    decreases |w|
  {
    if |w| > 1 {
      assert Edge(g, w[0], w[1]);
      var j :| 0 <= j < |p| && p[j] == w[1];
      assert Targets(g[p[j]]) == [p[j - 1]];
      SlicePath(g, w, 1, |w|);
      WalkFollowsList(g, p, w[1..], i + 1);
    }
  }
}
