/** Which queries report a cycle.

  The order of the direct dependencies decides.  From a node that can reach a cycle the search
  goes on to the first dependency that can, and so on, until it is back at a node of this walk.
  The error raised there is dropped by the node just before that one, unless the query was made
  on that very node.
 */
module LibdepsReports {
  import opened Wrappers
  import opened Libdeps
  import opened LibdepsTheorems

  // ------------------------------------------------------- where the search leads

  /** A cycle can be reached from `n`, or `n` is on one. */
  ghost predicate Sees(g: Graph, n: Node) {
    !CycleFree(g, n)
  }

  ghost function FirstSeeing(g: Graph, children: seq<Option<Node>>): Option<Node> {
    if children == [] then None
    else if children[0].Some? && Sees(g, children[0].value) then children[0]
    else FirstSeeing(g, children[1..])
  }

  /** `c` is the first direct dependency of `n` that sees a cycle. */
  ghost predicate LeadsTo(g: Graph, n: Node, c: Node) {
    FirstSeeing(g, Direct(g, n)) == Some(c)
  }

  lemma {:induction false} FirstSeeingIff(g: Graph, children: seq<Option<Node>>)
    ensures var c := FirstSeeing(g, children); c.Some? ==> c in children && Sees(g, c.value)
    ensures FirstSeeing(g, children).None? ==> forall m :: Some(m) in children ==> CycleFree(g, m)
  {
    if children != [] {
      FirstSeeingIff(g, children[1..]);
    }
  }

  lemma SeesBelow(g: Graph, n: Node, c: Node)
    requires Edge(g, n, c) && Sees(g, c)
    ensures Sees(g, n)
  {
    CycleFreeChild(g, n, c);
  }

  lemma SeesChild(g: Graph, n: Node) returns (c: Node)
    requires Sees(g, n)
    ensures Edge(g, n, c) && Sees(g, c)
  {
    if Reaches(g, n, n) {
      c := FirstEdge(g, n, n);
      if c != n {
        EdgeReaches(g, n, c);
        ReachesTransitive(g, c, n, c);
      }
    } else {
      var m :| Reaches(g, n, m) && Reaches(g, m, m);
      c := FirstEdge(g, n, m);
    }
  }

  lemma LeadExists(g: Graph, n: Node) returns (c: Node)
    requires Sees(g, n)
    ensures LeadsTo(g, n, c)
  {
    var m := SeesChild(g, n);
    FirstSeeingIff(g, Direct(g, n));
    c := FirstSeeing(g, Direct(g, n)).value;
  }

  lemma LeadSees(g: Graph, n: Node, c: Node)
    requires LeadsTo(g, n, c)
    ensures Edge(g, n, c) && Sees(g, c) && Sees(g, n)
  {
    FirstSeeingIff(g, Direct(g, n));
    SeesBelow(g, n, c);
  }

  /** The leads from `m` go along `rest` until they are back at `e`, which is in `met` or on the way. */
  ghost predicate Walk(g: Graph, met: seq<Node>, m: Node, e: Node, rest: seq<Node>)
    decreases |rest|
  {
    if rest == [] then
      m == e && e in met
    else
      m !in met && LeadsTo(g, m, rest[0]) && Walk(g, met + [m], rest[0], e, rest[1..])
  }

  /** Following the leads from `n` comes back to `n`. */
  ghost predicate OnLoop(g: Graph, n: Node) {
    exists rest :: Walk(g, [], n, n, rest)
  }

  /** All leads come back somewhere, as there are but the nodes `left` to go to. */
  lemma {:induction false} WalkExists(g: Graph, met: seq<Node>, m: Node, left: set<Node>)
    returns (e: Node, rest: seq<Node>)
    requires Sees(g, m) && forall k :: k in g ==> k in left || k in met
    ensures Walk(g, met, m, e, rest)
    decreases left
  {
    if m in met {
      e, rest := m, [];
    } else {
      var c := LeadExists(g, m);
      LeadSees(g, m, c);
      var further;
      e, further := WalkExists(g, met + [m], c, left - {m});
      rest := [c] + further;
    }
  }

  lemma WalkSees(g: Graph, met: seq<Node>, m: Node, e: Node, rest: seq<Node>)
    requires Walk(g, met, m, e, rest) && rest != []
    ensures Sees(g, m) && Sees(g, rest[0]) && Edge(g, m, rest[0])
  {
    LeadSees(g, m, rest[0]);
  }

  /** What was met before does not matter to a walk that comes back elsewhere. */
  lemma {:induction false} WalkForgets(g: Graph, base: seq<Node>, met: seq<Node>, m: Node, e: Node, rest: seq<Node>)
    requires Walk(g, base + met, m, e, rest) && e !in base
    ensures Walk(g, met, m, e, rest)
    decreases |rest|
  {
    if rest != [] {
      assert (base + met) + [m] == base + (met + [m]);
      WalkForgets(g, base, met + [m], rest[0], e, rest[1..]);
    }
  }

  // --------------------------------------------------------- the search on a loop

  /** No node that sees a cycle is cached. */
  ghost predicate Clean(g: Graph, cached: map<Node, set<Node>>) {
    forall m :: m in cached ==> CycleFree(g, m)
  }

  lemma CycleFreeBelow(g: Graph, n: Node, m: Node)
    requires CycleFree(g, n) && Reaches(g, n, m)
    ensures CycleFree(g, m)
  {
    forall k | Reaches(g, m, k) ensures Reaches(g, n, k) {
      ReachesTransitive(g, n, m, k);
    }
  }

  /** A node that sees no cycle is answered by a set, and only such nodes are cached for it. */
  lemma QuietChild(g: Graph, a: Attributes, stack: seq<Node>, c: Node)
    requires Asking(g, a, stack, c) && CycleFree(g, c)
    ensures Get(g, a, c).outcome.Deps?
    ensures forall m :: m in Get(g, a, c).after.cached ==> m in a.cached || CycleFree(g, m)
  {
    var r := Get(g, a, c);
    GetTrail(g, a, stack, c);
    if r.outcome.CycleError? {
      TrailMeansCycle(g, a, stack, c, r.outcome.trail);
    }
    GetCachesBelow(g, a, c);
    forall m | Reaches(g, c, m) ensures CycleFree(g, m) {
      CycleFreeBelow(g, c, m);
    }
  }

  /** The children are direct dependencies of `n`. */
  ghost predicate Among(g: Graph, n: Node, children: seq<Option<Node>>) {
    forall o :: o in children ==> o in Direct(g, n)
  }

  /** The loop over the children gets to the first one that sees a cycle. */
  lemma {:induction false} ToLead(g: Graph, a: Attributes, stack: seq<Node>, children: seq<Option<Node>>,
                                  deps: set<Node>, lead: Node) returns (b: Attributes)
    requires stack != [] && Frames(g, a, stack) && Clean(g, a.cached) && Among(g, stack[|stack| - 1], children)
    requires FirstSeeing(g, children) == Some(lead)
    ensures b.exploring == a.exploring && Clean(g, b.cached)
    ensures var r := Get(g, b, lead);
            r.outcome.CycleError? ==>
              var p := Explore(g, a, children, deps);
              p.error == Some(r.outcome.trail) && p.after == r.after
    decreases |children|
  {
    var rest := children[1..];
    assert children[0] in children && forall o :: o in rest ==> o in children;
    if children[0].None? {
      b := ToLead(g, a, stack, rest, deps, lead);
    } else {
      var c := children[0].value;
      if Sees(g, c) {
        b := a;
      } else {
        var r := Get(g, a, c);
        assert Asking(g, a, stack, c);
        QuietChild(g, a, stack, c);
        b := ToLead(g, r.after, stack, rest, deps + {c} + r.outcome.deps, lead);
      }
    }
  }

  /** The frame of `m` passes on an error that its lead `c` raises, if the re-entered node is `m` or a
      frame below; otherwise it drops it. */
  ghost predicate FrameOver(g: Graph, a: Attributes, stack: seq<Node>, m: Node, b: Attributes, c: Node) {
    var r, q := Get(g, a, m), Get(g, b, c);
    q.outcome.CycleError? ==>
      && Trail(g, stack + [m], c, q.outcome.trail)
      && if q.outcome.trail[0] in stack + [m] then
           r.outcome == CycleError(q.outcome.trail + [m]) && r.after.cached == q.after.cached
         else
           r.outcome.Deps? && r.after.cached == q.after.cached[m := r.outcome.deps]
  }

  lemma LeadFrame(g: Graph, a: Attributes, stack: seq<Node>, m: Node, c: Node) returns (b: Attributes)
    requires Asking(g, a, stack, m) && m !in stack && LeadsTo(g, m, c) && Clean(g, a.cached)
    ensures Asking(g, b, stack + [m], c) && Clean(g, b.cached)
    ensures FrameOver(g, a, stack, m, b, c)
  {
    var s, f := stack + [m], Flag(a, m);
    LeadSees(g, m, c);
    Push(g, a, stack, m);
    b := ToLead(g, f, s, Direct(g, m), {}, c);
    GetTrail(g, b, s, c);
    ComputeUnfolds(g, a, m);
    var q := Get(g, b, c);
    if q.outcome.CycleError? {
      ErrorPassesIff(g, stack, m, c, q.outcome.trail);
    }
  }

  /** If the walk is back at a frame, or at `m` itself, the search raises there. */
  lemma {:induction false} WalkRaises(g: Graph, a: Attributes, stack: seq<Node>, m: Node, e: Node, rest: seq<Node>)
    requires Walk(g, stack, m, e, rest) && (m == e || e in stack) && Sees(g, m)
    requires Asking(g, a, stack, m) && Clean(g, a.cached)
    ensures var r := Get(g, a, m);
            r.outcome.CycleError? && r.outcome.trail[0] == e && Clean(g, r.after.cached)
    decreases |rest|
  {
    if rest != [] {
      var b := LeadFrame(g, a, stack, m, rest[0]);
      WalkSees(g, stack, m, e, rest);
      WalkRaises(g, b, stack + [m], rest[0], e, rest[1..]);
    }
  }

  /** If the walk is back at the node just after `m`, frame `m` drops the error. */
  lemma WalkDrops(g: Graph, a: Attributes, stack: seq<Node>, m: Node, e: Node, rest: seq<Node>)
    requires Walk(g, stack, m, e, rest) && rest != [] && rest[0] == e && m != e && e !in stack
    requires Asking(g, a, stack, m) && Clean(g, a.cached)
    ensures var r := Get(g, a, m);
            r.outcome.Deps? && m in r.after.cached &&
            forall k :: k in r.after.cached ==> k == m || CycleFree(g, k)
  {
    var b := LeadFrame(g, a, stack, m, e);
    WalkSees(g, stack, m, e, rest);
    WalkRaises(g, b, stack + [m], e, e, rest[1..]);
  }

  // ---------------------------------------------------------------- over all runs

  /** A query on a node whose leads come back to it reports a cycle, unless a node that sees a
      cycle has been cached. */
  lemma OnLoopReported(g: Graph, a: Attributes, n: Node)
    requires a.exploring == {} && Clean(g, a.cached) && OnLoop(g, n)
    ensures var r := Get(g, a, n); r.outcome.CycleError? && Clean(g, r.after.cached)
  {
    var rest :| Walk(g, [], n, n, rest);
    WalkSees(g, [], n, n, rest);
    assert Asking(g, a, [], n);
    WalkRaises(g, a, [], n, n, rest);
  }

  /** Every query on a node that sees a cycle is answered by an error. */
  ghost predicate AllReported(g: Graph, a: Attributes, queries: seq<Node>) {
    forall i :: 0 <= i < |queries| && Sees(g, queries[i]) ==> Run(g, a, queries).0[i].CycleError?
  }

  ghost predicate AllOnLoops(g: Graph) {
    forall n :: Sees(g, n) ==> OnLoop(g, n)
  }

  lemma NextReported(g: Graph, a: Attributes, n: Node)
    requires a.exploring == {} && Clean(g, a.cached) && AllOnLoops(g)
    ensures Sees(g, n) ==> Get(g, a, n).outcome.CycleError?
    ensures Clean(g, Get(g, a, n).after.cached)
  {
    if Sees(g, n) {
      OnLoopReported(g, a, n);
    } else {
      assert Asking(g, a, [], n);
      QuietChild(g, a, [], n);
    }
  }

  lemma {:induction false} LoopsReported(g: Graph, a: Attributes, queries: seq<Node>, i: nat)
    requires a.exploring == {} && Clean(g, a.cached) && AllOnLoops(g)
    requires i < |queries| && Sees(g, queries[i])
    ensures Run(g, a, queries).0[i].CycleError?
    decreases i
  {
    var first := Get(g, a, queries[0]);
    NextReported(g, a, queries[0]);
    if i > 0 {
      LoopsReported(g, first.after, queries[1..], i - 1);
    }
  }

  /** Some node on the walk is just before the one the walk comes back to. */
  lemma {:induction false} DropperOf(g: Graph, base: seq<Node>, m: Node, e: Node, rest: seq<Node>)
    returns (p: Node, after: seq<Node>)
    requires Walk(g, base, m, e, rest) && m != e && e !in base
    ensures p != e && after != [] && after[0] == e && Walk(g, [], p, e, after)
    decreases |rest|
  {
    if rest[0] == e {
      p, after := m, rest;
      assert base + [] == base;
      WalkForgets(g, base, [], m, e, rest);
    } else {
      p, after := DropperOf(g, base + [m], rest[0], e, rest[1..]);
    }
  }

  /** No reachable cycle ever goes unreported, in any sequence of queries, if and only if from every
      node that sees a cycle the leads come back to that node. */
  lemma AllReportedIff(g: Graph)
    ensures (forall queries :: AllReported(g, START, queries)) <==> AllOnLoops(g)
  {
    if AllOnLoops(g) {
      forall queries ensures AllReported(g, START, queries) {
        forall i | 0 <= i < |queries| && Sees(g, queries[i]) ensures Run(g, START, queries).0[i].CycleError? {
          LoopsReported(g, START, queries, i);
        }
      }
    }
    if n :| Sees(g, n) && !OnLoop(g, n) {
      var e, rest := WalkExists(g, [], n, g.Keys);
      var p, after := DropperOf(g, [], n, e, rest);
      WalkSees(g, [], p, e, after);
      assert Asking(g, START, [], p);
      WalkDrops(g, START, [], p, e, after);
      assert Run(g, START, [p]).0[0] == Get(g, START, p).outcome;
      assert [p][0] == p && !AllReported(g, START, [p]);
    }
  }

  // ---------------------------------------------------------- one query, any cache

  /** The node on the walk just before the one the walk comes back to. */
  function Dropper(m: Node, e: Node, rest: seq<Node>): Node
    decreases |rest|
  {
    if rest == [] || rest[0] == e then m else Dropper(rest[0], e, rest[1..])
  }

  /** The leads from `n` come back to `n`; or they do so after the node that drops the error has
      been made a leaf, as a cached node is one to the search. */
  ghost predicate Reports(g: Graph, n: Node)
    decreases g.Keys
  {
    exists e, rest :: Walk(g, [], n, e, rest) &&
      (n == e || var p := Dropper(n, e, rest); p in g && assert (g - {p}).Keys == g.Keys - {p}; Reports(g - {p}, n))
  }

  /** What is cached might as well have no direct dependencies. */
  lemma {:induction false} GetLeaves(g: Graph, a: Attributes, n: Node, k: set<Node>)
    requires k <= a.cached.Keys
    ensures Get(g - k, a, n) == Get(g, a, n)
    decreases Unexplored(g, a), 2
  {
    if n !in a.cached && n !in a.exploring {
      FlagShrinks(g, a, n);
      ComputeUnfolds(g, a, n);
      ComputeUnfolds(g - k, a, n);
      assert Direct(g - k, n) == Direct(g, n);
      ExploreLeaves(g, Flag(a, n), Direct(g, n), {}, k);
    }
  }

  lemma {:induction false} ExploreLeaves(g: Graph, a: Attributes, children: seq<Option<Node>>, deps: set<Node>,
                                         k: set<Node>)
    requires k <= a.cached.Keys
    ensures Explore(g - k, a, children, deps) == Explore(g, a, children, deps)
    decreases Unexplored(g, a), if children == [] then 0 else 2 + |children|
  {
    if children != [] {
      if children[0].None? {
        ExploreLeaves(g, a, children[1..], deps, k);
      } else {
        var c := children[0].value;
        var r := Get(g, a, c);
        GetLeaves(g, a, c, k);
        GetExtends(g, a, c);
        if r.outcome.Deps? {
          ExploreLeaves(g, r.after, children[1..], deps + {c} + r.outcome.deps, k);
        }
      }
    }
  }

  lemma FewerEdges(g: Graph, k: set<Node>, l: set<Node>, m: Node)
    requires k <= l && CycleFree(g - k, m)
    ensures CycleFree(g - l, m)
  {
    forall x, y | Reaches(g - l, x, y) ensures Reaches(g - k, x, y) {
      var p :| IsPath(g - l, p) && p[0] == x && p[|p| - 1] == y;
      assert forall i :: 0 <= i < |p| - 1 ==> Edge(g - l, p[i], p[i + 1]) && Edge(g - k, p[i], p[i + 1]);
      assert IsPath(g - k, p);
    }
  }

  lemma LeafSeesNothing(g: Graph, m: Node)
    requires m !in g
    ensures CycleFree(g, m)
  {
    if Sees(g, m) {
      var c := SeesChild(g, m);
    }
  }

  ghost predicate Alive(a: Attributes) {
    a.exploring !! a.cached.Keys
  }

  ghost function Common(a: Attributes, b: Attributes): set<Node> {
    a.cached.Keys * b.cached.Keys
  }

  /** Two states in which every query ends alike: a node cached in one of them only sees no cycle. */
  ghost predicate Twins(g: Graph, a: Attributes, b: Attributes) {
    && a.exploring == b.exploring && Alive(a) && Alive(b)
    && forall m :: m in a.cached.Keys + b.cached.Keys ==> m in Common(a, b) || CycleFree(g - Common(a, b), m)
  }

  ghost predicate SameAnswer(g: Graph, r: Answer, q: Answer) {
    && Twins(g, r.after, q.after)
    && (r.outcome.CycleError? <==> q.outcome.CycleError?)
    && (r.outcome.CycleError? ==> r.outcome == q.outcome)
  }

  /** A query on a node from which no cycle can be reached but through cached nodes. */
  lemma QuietQuery(g: Graph, a: Attributes, stack: seq<Node>, m: Node, k: set<Node>)
    requires Asking(g, a, stack, m) && Alive(a) && k <= a.cached.Keys && CycleFree(g - k, m)
    ensures var r := Get(g, a, m);
            && r.outcome.Deps? && Alive(r.after)
            && forall x :: x in r.after.cached ==> x in a.cached || CycleFree(g - k, x)
  {
    var h := g - k;
    var r := Get(g, a, m);
    assert Asking(h, a, stack, m);
    GetLeaves(g, a, m, k);
    QuietChild(h, a, stack, m);
    GetCachesBelow(h, a, m);
    forall x | x in stack && x in r.after.cached && x !in a.cached ensures false {
      StackReaches(h, a, stack, m, x);
      if x != m {
        ReachesTransitive(h, m, x, m);
      }
    }
  }

  lemma TwinsGrow(g: Graph, a: Attributes, b: Attributes, c: Attributes, d: Attributes)
    requires Twins(g, a, b) && c.exploring == d.exploring && Alive(c) && Alive(d)
    requires a.cached.Keys <= c.cached.Keys && b.cached.Keys <= d.cached.Keys
    requires forall x :: x in c.cached ==> x in a.cached || CycleFree(g - Common(a, b), x)
    requires forall x :: x in d.cached ==> x in b.cached || CycleFree(g - Common(a, b), x)
    ensures Twins(g, c, d)
  {
    forall m | m in c.cached.Keys + d.cached.Keys && m !in Common(c, d) ensures CycleFree(g - Common(c, d), m) {
      FewerEdges(g, Common(a, b), Common(c, d), m);
    }
  }

  /** Both frames of `m` end in the same way. */
  lemma TwinsFinish(g: Graph, a: Attributes, b: Attributes, m: Node, p: Progress, q: Progress)
    requires Twins(g, p.after, q.after) && p.error == q.error && m !in a.cached && m !in b.cached
    requires m !in a.exploring && a.exploring == b.exploring && p.after.exploring == Flag(a, m).exploring
    requires p == Explore(g, Flag(a, m), Direct(g, m), {}) && q == Explore(g, Flag(b, m), Direct(g, m), {})
    ensures SameAnswer(g, Get(g, a, m), Get(g, b, m))
  {
    ComputeUnfolds(g, a, m);
    ComputeUnfolds(g, b, m);
    var c, d := Get(g, a, m).after, Get(g, b, m).after;
    forall x | x in c.cached.Keys + d.cached.Keys && x !in Common(c, d) ensures CycleFree(g - Common(c, d), x) {
      assert x != m;
      FewerEdges(g, Common(p.after, q.after), Common(c, d), x);
    }
  }

  lemma TwinsQuiet(g: Graph, a: Attributes, b: Attributes, stack: seq<Node>, m: Node)
    requires Asking(g, a, stack, m) && Twins(g, a, b) && CycleFree(g - Common(a, b), m)
    ensures SameAnswer(g, Get(g, a, m), Get(g, b, m))
  {
    var k := Common(a, b);
    QuietQuery(g, a, stack, m, k);
    QuietQuery(g, b, stack, m, k);
    GetExtends(g, a, m);
    GetExtends(g, b, m);
    TwinsGrow(g, a, b, Get(g, a, m).after, Get(g, b, m).after);
  }

  lemma TwinsFlag(g: Graph, a: Attributes, b: Attributes, m: Node)
    requires Twins(g, a, b) && Sees(g - Common(a, b), m)
    ensures m !in a.cached && m !in b.cached && Twins(g, Flag(a, m), Flag(b, m))
  {
    if m in Common(a, b) {
      LeafSeesNothing(g - Common(a, b), m);
    }
    assert m !in a.cached.Keys + b.cached.Keys;
    assert Common(Flag(a, m), Flag(b, m)) == Common(a, b);
  }

  lemma TwinsBack(g: Graph, a: Attributes, b: Attributes, m: Node)
    requires Twins(g, a, b) && m in a.exploring
    ensures SameAnswer(g, Get(g, a, m), Get(g, b, m))
  {
  }

  lemma {:induction false} TwinsGet(g: Graph, a: Attributes, b: Attributes, stack: seq<Node>, m: Node)
    requires Asking(g, a, stack, m) && Twins(g, a, b)
    ensures SameAnswer(g, Get(g, a, m), Get(g, b, m))
    decreases Unexplored(g, a), 2
  {
    if CycleFree(g - Common(a, b), m) {
      TwinsQuiet(g, a, b, stack, m);
    } else if m in a.exploring {
      TwinsBack(g, a, b, m);
    } else {
      TwinsFrame(g, a, b, stack, m);
    }
  }

  lemma {:induction false} TwinsFrame(g: Graph, a: Attributes, b: Attributes, stack: seq<Node>, m: Node)
    requires Asking(g, a, stack, m) && Twins(g, a, b) && Sees(g - Common(a, b), m) && m !in a.exploring
    ensures SameAnswer(g, Get(g, a, m), Get(g, b, m))
    decreases Unexplored(g, a), 1
  {
    var f, h, children := Flag(a, m), Flag(b, m), Direct(g, m);
    TwinsFlag(g, a, b, m);
    FlagShrinks(g, a, m);
    Push(g, a, stack, m);
    TwinsExplore(g, f, h, stack + [m], children, {}, {});
    TwinsFinish(g, a, b, m, Explore(g, f, children, {}), Explore(g, h, children, {}));
  }

  lemma {:induction false} TwinsExplore(g: Graph, a: Attributes, b: Attributes, stack: seq<Node>,
                                        children: seq<Option<Node>>, deps: set<Node>, deps': set<Node>)
    requires stack != [] && Frames(g, a, stack) && Among(g, stack[|stack| - 1], children) && Twins(g, a, b)
    ensures var p, q := Explore(g, a, children, deps), Explore(g, b, children, deps');
            Twins(g, p.after, q.after) && p.error == q.error
    decreases Unexplored(g, a), if children == [] then 0 else 2 + |children|
  {
    if children != [] {
      var rest := children[1..];
      assert children[0] in children && forall o :: o in rest ==> o in children;
      if children[0].None? {
        TwinsExplore(g, a, b, stack, rest, deps, deps');
      } else {
        var c := children[0].value;
        var r, q := Get(g, a, c), Get(g, b, c);
        TwinsGet(g, a, b, stack, c);
        if r.outcome.Deps? {
          TwinsExplore(g, r.after, q.after, stack, rest, deps + {c} + r.outcome.deps, deps' + {c} + q.outcome.deps);
        }
      }
    }
  }

  lemma {:induction false} DropperLater(g: Graph, met: seq<Node>, m: Node, e: Node, rest: seq<Node>)
    requires Walk(g, met, m, e, rest) && m != e && e !in met
    ensures var p := Dropper(m, e, rest); p !in met && p in g && Sees(g, p)
    decreases |rest|
  {
    WalkSees(g, met, m, e, rest);
    if rest[0] != e {
      DropperLater(g, met + [m], rest[0], e, rest[1..]);
    }
  }

  /** Only `p`, which is cached, and nodes that see no cycle are cached. */
  ghost predicate CleanBut(g: Graph, cached: map<Node, set<Node>>, p: Node) {
    p in cached && forall k :: k in cached ==> k == p || CycleFree(g, k)
  }

  /** The state in which the error has been dropped by `p`, and the one with `p` cached beforehand. */
  lemma DroppedTwins(g: Graph, a: Attributes, b: Attributes, p: Node)
    requires a.exploring == b.exploring && CleanBut(g, a.cached, p) && CleanBut(g, b.cached, p)
    requires p !in a.exploring && forall s :: s in a.exploring ==> Sees(g, s)
    ensures Twins(g, a, b)
  {
    assert g - {} == g;
    forall m | m in a.cached.Keys + b.cached.Keys && m !in Common(a, b) ensures CycleFree(g - Common(a, b), m) {
      assert p in Common(a, b);
      FewerEdges(g, {}, Common(a, b), m);
    }
  }

  /** A query ends in the same way if the dropper is cached beforehand. */
  lemma {:induction false} DropSame(g: Graph, a: Attributes, b: Attributes, stack: seq<Node>, m: Node, e: Node,
                                    rest: seq<Node>)
    requires Walk(g, stack, m, e, rest) && m != e && e !in stack && forall s :: s in stack ==> Sees(g, s)
    requires Asking(g, a, stack, m) && Clean(g, a.cached)
    requires a.exploring == b.exploring && CleanBut(g, b.cached, Dropper(m, e, rest))
    ensures SameAnswer(g, Get(g, a, m), Get(g, b, m))
    decreases |rest|, 1, 0
  {
    var p := Dropper(m, e, rest);
    DropperLater(g, stack, m, e, rest);
    WalkSees(g, stack, m, e, rest);
    if rest[0] == e {
      WalkDrops(g, a, stack, m, e, rest);
      DroppedTwins(g, Get(g, a, m).after, b, m);
    } else {
      DropperLater(g, stack + [m], rest[0], e, rest[1..]);
      Push(g, a, stack, m);
      var f, h, children := Flag(a, m), Flag(b, m), Direct(g, m);
      DropScan(g, f, h, stack + [m], children, {}, {}, rest[0], e, rest[1..]);
      TwinsFinish(g, a, b, m, Explore(g, f, children, {}), Explore(g, h, children, {}));
    }
  }

  lemma {:induction false} DropScan(g: Graph, a: Attributes, b: Attributes, stack: seq<Node>,
                                    children: seq<Option<Node>>, deps: set<Node>, deps': set<Node>,
                                    lead: Node, e: Node, rest: seq<Node>)
    requires Walk(g, stack, lead, e, rest) && lead != e && e !in stack && forall s :: s in stack ==> Sees(g, s)
    requires stack != [] && Frames(g, a, stack) && Clean(g, a.cached) && Among(g, stack[|stack| - 1], children)
    requires a.exploring == b.exploring && CleanBut(g, b.cached, Dropper(lead, e, rest))
    requires FirstSeeing(g, children) == Some(lead)
    ensures var p, q := Explore(g, a, children, deps), Explore(g, b, children, deps');
            Twins(g, p.after, q.after) && p.error == q.error
    decreases |rest|, 2, |children|
  {
    var later := children[1..];
    assert children[0] in children && forall o :: o in later ==> o in children;
    if children[0].None? {
      DropScan(g, a, b, stack, later, deps, deps', lead, e, rest);
    } else {
      var c := children[0].value;
      var r, q := Get(g, a, c), Get(g, b, c);
      assert Asking(g, a, stack, c);
      if Sees(g, c) {
        DropSame(g, a, b, stack, c, e, rest);
        if r.outcome.Deps? {
          TwinsExplore(g, r.after, q.after, stack, later, deps + {c} + r.outcome.deps, deps' + {c} + q.outcome.deps);
        }
      } else {
        QuietChild(g, a, stack, c);
        assert Asking(g, b, stack, c);
        QuietChild(g, b, stack, c);
        GetExtends(g, b, c);
        DropScan(g, r.after, q.after, stack, later, deps + {c} + r.outcome.deps, deps' + {c} + q.outcome.deps,
                 lead, e, rest);
      }
    }
  }

  /** Making the dropper a leaf makes no difference to the query. */
  lemma PeelSame(g: Graph, a: Attributes, n: Node, e: Node, rest: seq<Node>) returns (b: Attributes)
    requires Walk(g, [], n, e, rest) && n != e && a.exploring == {} && Clean(g, a.cached)
    ensures var p := Dropper(n, e, rest);
            && p in g && b.exploring == {} && Clean(g - {p}, b.cached)
            && (Get(g, a, n).outcome.CycleError? <==> Get(g - {p}, b, n).outcome.CycleError?)
  {
    var p := Dropper(n, e, rest);
    DropperLater(g, [], n, e, rest);
    b := a.(cached := a.cached[p := {}]);
    assert Asking(g, a, [], n);
    DropSame(g, a, b, [], n, e, rest);
    GetLeaves(g, b, n, {p});
    assert g - {} == g;
    forall m | m in b.cached ensures CycleFree(g - {p}, m) {
      if m == p {
        LeafSeesNothing(g - {p}, m);
      } else {
        FewerEdges(g, {}, {p}, m);
      }
    }
  }

  lemma {:induction false} CleanReportedIff(g: Graph, a: Attributes, n: Node)
    requires a.exploring == {} && Clean(g, a.cached)
    ensures Get(g, a, n).outcome.CycleError? <==> Reports(g, n)
    decreases g.Keys
  {
    assert Asking(g, a, [], n);
    if Sees(g, n) {
      var e, rest := WalkExists(g, [], n, g.Keys);
      if Reports(g, n) {
        e, rest :| Walk(g, [], n, e, rest) &&
          (n == e || var p := Dropper(n, e, rest); p in g && Reports(g - {p}, n));
      }
      if n == e {
        assert OnLoop(g, n);
        OnLoopReported(g, a, n);
      } else {
        var b := PeelSame(g, a, n, e, rest);
        assert (g - {Dropper(n, e, rest)}).Keys == g.Keys - {Dropper(n, e, rest)};
        CleanReportedIff(g - {Dropper(n, e, rest)}, b, n);
      }
    } else {
      QuietChild(g, a, [], n);
      if Reports(g, n) {
        var e, rest :| Walk(g, [], n, e, rest);
        WalkSees(g, [], n, e, rest);
      }
    }
  }

  /** Whatever is cached, an outermost query reports a cycle if and only if, cached nodes counting
      as leaves, the leads come back to its node, after peeling off the droppers one by one. */
  lemma ReportedIff(g: Graph, a: Attributes, n: Node)
    requires a.exploring == {}
    ensures Get(g, a, n).outcome.CycleError? <==> Reports(g - a.cached.Keys, n)
  {
    var h := g - a.cached.Keys;
    GetLeaves(g, a, n, a.cached.Keys);
    forall m | m in a.cached ensures CycleFree(h, m) {
      LeafSeesNothing(h, m);
    }
    CleanReportedIff(h, a, n);
  }
}
