/** What every run of library-dependency queries keeps, and what a cycle error means. */
module LibdepsTheorems {
  import opened Wrappers
  import opened Libdeps

  // -------------------------------------------------------------- reachability

  ghost predicate IsPath(g: Graph, p: seq<Node>) {
    |p| >= 2 && forall i :: 0 <= i < |p| - 1 ==> Edge(g, p[i], p[i + 1])
  }

  /** `m` can be reached from `n` by one or more edges. */
  ghost predicate Reaches(g: Graph, n: Node, m: Node) {
    exists p :: IsPath(g, p) && p[0] == n && p[|p| - 1] == m
  }

  /** No cycle can be reached from `n`, and `n` is on none. */
  ghost predicate CycleFree(g: Graph, n: Node) {
    !Reaches(g, n, n) && forall m :: Reaches(g, n, m) ==> !Reaches(g, m, m)
  }

  lemma EdgeReaches(g: Graph, n: Node, m: Node)
    requires Edge(g, n, m)
    ensures Reaches(g, n, m)
  {
    assert IsPath(g, [n, m]);
  }

  lemma ReachesTransitive(g: Graph, n: Node, m: Node, k: Node)
    requires Reaches(g, n, m) && Reaches(g, m, k)
    ensures Reaches(g, n, k)
  {
    var p :| IsPath(g, p) && p[0] == n && p[|p| - 1] == m;
    var q :| IsPath(g, q) && q[0] == m && q[|q| - 1] == k;
    var r := p + q[1..];
    forall i | 0 <= i < |r| - 1 ensures Edge(g, r[i], r[i + 1]) {
      if i >= |p| - 1 {
        var j := i - (|p| - 1);
        assert r[i] == q[j] && r[i + 1] == q[j + 1];
      }
    }
    assert IsPath(g, r);
  }

  lemma FirstEdge(g: Graph, n: Node, m: Node) returns (c: Node)
    requires Reaches(g, n, m)
    ensures Edge(g, n, c) && (c == m || Reaches(g, c, m))
  {
    var p :| IsPath(g, p) && p[0] == n && p[|p| - 1] == m;
    c := p[1];
    if |p| > 2 {
      assert IsPath(g, p[1..]);
    }
  }

  lemma CycleFreeChild(g: Graph, n: Node, c: Node)
    requires Edge(g, n, c)
    ensures CycleFree(g, n) ==> CycleFree(g, c)
  {
    EdgeReaches(g, n, c);
    forall m | Reaches(g, c, m) ensures Reaches(g, n, m) {
      ReachesTransitive(g, n, c, m);
    }
  }

  // ------------------------------------------------------- the exploring stack

  ghost function Elements(s: seq<Node>): set<Node> {
    set n | n in s
  }

  ghost predicate Distinct(s: seq<Node>) {
    forall i, j :: 0 <= i < j < |s| ==> s[i] != s[j]
  }

  /** The flagged nodes are the frames `stack`, each a direct dependency of the frame below. */
  ghost predicate Frames(g: Graph, a: Attributes, stack: seq<Node>) {
    && a.exploring == Elements(stack)
    && Distinct(stack)
    && (forall i :: 0 <= i < |stack| - 1 ==> Edge(g, stack[i], stack[i + 1]))
  }

  /** The topmost frame is asking about `n`. */
  ghost predicate Asking(g: Graph, a: Attributes, stack: seq<Node>, n: Node) {
    Frames(g, a, stack) && (stack != [] ==> Edge(g, stack[|stack| - 1], n))
  }

  lemma ComputeUnfolds(g: Graph, a: Attributes, n: Node)
    requires n !in a.exploring
    ensures Compute(g, a, n) == Finish(Explore(g, Flag(a, n), Direct(g, n), {}), n)
  {
  }

  lemma Push(g: Graph, a: Attributes, stack: seq<Node>, n: Node)
    requires Asking(g, a, stack, n) && n !in a.exploring
    ensures Frames(g, Flag(a, n), stack + [n])
  {
    var s := stack + [n];
    assert Elements(s) == Elements(stack) + {n};
  }

  lemma StackReaches(g: Graph, a: Attributes, stack: seq<Node>, n: Node, e: Node)
    requires Asking(g, a, stack, n) && e in stack
    ensures Reaches(g, e, n)
  {
    var i :| 0 <= i < |stack| && stack[i] == e;
    var p := StackPath(g, a, stack, n, i);
  }

  // ------------------------------------------------------------ the cycle trail

  /** What the trail of an error leaving the query on `n` looks like.  Every entry depends
      directly on the one before it and the last is `n`; everything after the first entry
      is distinct and off the stack; the first entry is the re-entered node, which is
      still being explored, or is `n` itself, and then the cycle is complete. */
  ghost predicate Trail(g: Graph, stack: seq<Node>, n: Node, t: seq<Node>) {
    && t != []
    && t[|t| - 1] == n
    && (forall i :: 0 <= i < |t| - 1 ==> Edge(g, t[i + 1], t[i]))
    && Distinct(t[1..])
    && (forall i :: 1 <= i < |t| ==> t[i] !in stack)
    && (t[0] in stack || (|t| >= 2 && t[0] == n))
  }

  /** Starts and ends at `n`, each entry depends directly on the one before it, and no
      node but `n` is met twice. */
  ghost predicate SimpleCycle(g: Graph, n: Node, t: seq<Node>) {
    && |t| >= 2
    && t[0] == n && t[|t| - 1] == n
    && (forall i :: 0 <= i < |t| - 1 ==> Edge(g, t[i + 1], t[i]))
    && Distinct(t[1..])
  }

  lemma {:induction false} GetTrail(g: Graph, a: Attributes, stack: seq<Node>, n: Node)
    requires Asking(g, a, stack, n)
    ensures var r := Get(g, a, n);
            r.outcome.CycleError? ==> Trail(g, stack, n, r.outcome.trail)
    decreases Unexplored(g, a), 2
  {
    if n !in a.cached && n !in a.exploring {
      FlagShrinks(g, a, n);
      Push(g, a, stack, n);
      ExploreTrail(g, Flag(a, n), stack, n, Direct(g, n), {});
      ComputeUnfolds(g, a, n);
    }
  }

  /** An error that stops the loop of frame `n` came out of one of its children.  Passed on,
      it is a trail for `n`; otherwise that child is where a complete cycle starts and ends. */
  lemma {:induction false} ExploreTrail(g: Graph, a: Attributes, stack: seq<Node>, n: Node,
                                        children: seq<Option<Node>>, deps: set<Node>)
    requires n !in stack && Frames(g, a, stack + [n])
    requires forall o :: o in children ==> o in Direct(g, n)
    ensures var p := Explore(g, a, children, deps);
            p.error.Some? ==>
              if Open(p.error.value) then
                Trail(g, stack, n, p.error.value + [n])
              else
                exists c :: Edge(g, n, c) && c in p.deps && c !in stack + [n] && SimpleCycle(g, c, p.error.value)
    decreases Unexplored(g, a), if children == [] then 0 else 2 + |children|
  {
    if children != [] {
      var rest := children[1..];
      if children[0].None? {
        ExploreTrail(g, a, stack, n, rest, deps);
      } else {
        var c := children[0].value;
        var r := Get(g, a, c);
        GetTrail(g, a, stack + [n], c);
        match r.outcome {
          case CycleError(t) => ErrorPassesIff(g, stack, n, c, t);
          case Deps(more) => ExploreTrail(g, r.after, stack, n, rest, deps + {c} + more);
        }
      }
    }
  }

  /** Frame `n`, having pushed itself on `stack`, lets the error of its child `c` through
      exactly when the re-entered node is still being explored, as `n` or as a frame below. */
  lemma ErrorPassesIff(g: Graph, stack: seq<Node>, n: Node, c: Node, t: seq<Node>)
    requires n !in stack && Edge(g, n, c) && Trail(g, stack + [n], c, t)
    ensures Open(t) <==> t[0] in stack + [n]
    ensures Open(t) ==> Trail(g, stack, n, t + [n])
  {
    var inner := stack + [n];
    if |t| >= 2 {
      assert t[|t| - 1] == c && c !in inner;
    }
    if Open(t) {
      var u := t + [n];
      assert u[1..] == t[1..] + [n];
      forall i | 1 <= i < |t| ensures t[i] != n && t[i] !in stack {
        assert t[i] !in inner;
        assert n in inner;
      }
      assert forall i :: 0 <= i < |t[1..]| ==> t[1..][i] == t[i + 1];
    }
  }

  /** Behind every trail there is a cycle that `n` can reach. */
  lemma TrailMeansCycle(g: Graph, a: Attributes, stack: seq<Node>, n: Node, t: seq<Node>)
    requires Asking(g, a, stack, n) && Trail(g, stack, n, t)
    ensures !CycleFree(g, n)
  {
    var r := t[0];
    if |t| >= 2 {
      Backwards(g, t);
    }
    if r in stack {
      StackReaches(g, a, stack, n, r);
      if |t| >= 2 {
        ReachesTransitive(g, r, n, r);
      }
    }
  }

  lemma {:induction false} Backwards(g: Graph, t: seq<Node>)
    requires |t| >= 2
    requires forall i :: 0 <= i < |t| - 1 ==> Edge(g, t[i + 1], t[i])
    ensures Reaches(g, t[|t| - 1], t[0])
  {
    var k := |t| - 1;
    EdgeReaches(g, t[k], t[k - 1]);
    if |t| > 2 {
      Backwards(g, t[..k]);
      ReachesTransitive(g, t[k], t[k - 1], t[0]);
    }
  }

  /** The frame just above a complete cycle returns and caches the set it has so far, which
      holds the child where that cycle starts; no other frame meets a complete trail. */
  lemma FrameAboveCycle(g: Graph, a: Attributes, stack: seq<Node>, n: Node)
    requires Asking(g, a, stack, n) && n !in a.cached && n !in a.exploring
    ensures var p, r := Explore(g, Flag(a, n), Direct(g, n), {}), Get(g, a, n);
            p.error.Some? && r.outcome.Deps? ==>
              && r.outcome.deps == p.deps == r.after.cached[n]
              && exists c :: Edge(g, n, c) && c in p.deps && SimpleCycle(g, c, p.error.value)
  {
    Push(g, a, stack, n);
    var b, children := Flag(a, n), Direct(g, n);
    ExploreTrail(g, b, stack, n, children, {});
    assert Compute(g, a, n) == Finish(Explore(g, b, children, {}), n);
  }

  /** The error that reaches the frame of an outermost query leaves it exactly when the re-entered
      node is the queried one. */
  lemma EscapesIff(g: Graph, a: Attributes, n: Node)
    requires a.exploring == {} && n !in a.cached
    ensures var p := Explore(g, Flag(a, n), Direct(g, n), {});
            p.error.Some? ==> (Get(g, a, n).outcome.CycleError? <==> p.error.value[0] == n)
  {
    assert Asking(g, a, [], n);
    Push(g, a, [], n);
    var p := Explore(g, Flag(a, n), Direct(g, n), {});
    ExploreTrail(g, Flag(a, n), [], n, Direct(g, n), {});
    ComputeUnfolds(g, a, n);
    if p.error.Some? && !Open(p.error.value) {
      var c :| Edge(g, n, c) && c in p.deps && c !in [] + [n] && SimpleCycle(g, c, p.error.value);
    }
  }

  // ------------------------------------------------------- cache against closure

  /** `d` holds only nodes reachable from `n`, and all of them if no cycle can be reached. */
  ghost predicate Closure(g: Graph, n: Node, d: set<Node>) {
    && (forall m :: m in d ==> Reaches(g, n, m))
    && (CycleFree(g, n) ==> forall m :: Reaches(g, n, m) ==> m in d)
  }

  ghost predicate CacheOk(g: Graph, cached: map<Node, set<Node>>) {
    forall n :: n in cached ==> Closure(g, n, cached[n])
  }

  lemma {:induction false} GetClosure(g: Graph, a: Attributes, stack: seq<Node>, n: Node)
    requires Asking(g, a, stack, n) && CacheOk(g, a.cached)
    ensures var r := Get(g, a, n);
            CacheOk(g, r.after.cached) && (r.outcome.Deps? ==> Closure(g, n, r.outcome.deps))
    decreases Unexplored(g, a), 2
  {
    if n !in a.cached {
      ComputeClosure(g, a, stack, n);
    }
  }

  lemma {:induction false} ComputeClosure(g: Graph, a: Attributes, stack: seq<Node>, n: Node)
    requires Asking(g, a, stack, n) && CacheOk(g, a.cached)
    ensures var r := Compute(g, a, n);
            CacheOk(g, r.after.cached) && (r.outcome.Deps? ==> Closure(g, n, r.outcome.deps))
    decreases Unexplored(g, a), 1
  {
    if n !in a.exploring {
      var b, children := Flag(a, n), Direct(g, n);
      var p := Explore(g, b, children, {});
      assert CacheOk(g, p.after.cached) && Closure(g, n, p.deps) by {
        FlagShrinks(g, a, n);
        Push(g, a, stack, n);
        ExploreClosure(g, b, stack, n, children, {});
        ChildrenClosure(g, n, p.deps);
      }
      ComputeUnfolds(g, a, n);
    }
  }

  /** `d` accounts for the children listed: it has each of them and, if no cycle is about,
      everything they reach. */
  ghost predicate Accounts(g: Graph, n: Node, children: seq<Option<Node>>, d: set<Node>) {
    forall c :: Some(c) in children ==> c in d && forall m :: Reaches(g, c, m) ==> m in d
  }

  lemma ChildrenClosure(g: Graph, n: Node, d: set<Node>)
    requires forall m :: m in d ==> Reaches(g, n, m)
    requires CycleFree(g, n) ==> Accounts(g, n, Direct(g, n), d)
    ensures Closure(g, n, d)
  {
    if CycleFree(g, n) {
      forall m | Reaches(g, n, m) ensures m in d {
        var c := FirstEdge(g, n, m);
        assert Some(c) in Direct(g, n);
      }
    }
  }

  lemma ChildSound(g: Graph, n: Node, c: Node, d: set<Node>)
    requires Edge(g, n, c) && Closure(g, c, d)
    ensures forall m :: m in {c} + d ==> Reaches(g, n, m)
    ensures CycleFree(g, n) ==> forall m :: Reaches(g, c, m) ==> m in d
  {
    EdgeReaches(g, n, c);
    CycleFreeChild(g, n, c);
    forall m | m in d ensures Reaches(g, n, m) {
      ReachesTransitive(g, n, c, m);
    }
  }

  lemma {:induction false} ExploreClosure(g: Graph, a: Attributes, stack: seq<Node>, n: Node,
                                          children: seq<Option<Node>>, deps: set<Node>)
    requires Frames(g, a, stack + [n]) && CacheOk(g, a.cached)
    requires forall o :: o in children ==> o in Direct(g, n)
    requires forall m :: m in deps ==> Reaches(g, n, m)
    ensures var p := Explore(g, a, children, deps);
            && CacheOk(g, p.after.cached)
            && deps <= p.deps
            && (forall m :: m in p.deps ==> Reaches(g, n, m))
            && (CycleFree(g, n) ==> p.error.None? && Accounts(g, n, children, p.deps))
    decreases Unexplored(g, a), if children == [] then 0 else 2 + |children|
  {
    if children != [] {
      var rest := children[1..];
      if children[0].None? {
        ExploreClosure(g, a, stack, n, rest, deps);
      } else {
        var c := children[0].value;
        var r := Get(g, a, c);
        GetClosure(g, a, stack + [n], c);
        match r.outcome {
          case CycleError(t) =>
            GetTrail(g, a, stack + [n], c);
            TrailMeansCycle(g, a, stack + [n], c, t);
            EdgeReaches(g, n, c);
            CycleFreeChild(g, n, c);
          case Deps(more) =>
            ChildSound(g, n, c, more);
            ExploreClosure(g, r.after, stack, n, rest, deps + {c} + more);
        }
      }
    }
  }

  // ------------------------------------------------------------------ whole runs

  /** Between outermost queries no node is flagged and the cache is sound. */
  ghost predicate Quiet(g: Graph, a: Attributes) {
    a.exploring == {} && CacheOk(g, a.cached)
  }

  ghost predicate Exact(g: Graph, n: Node, o: Outcome) {
    o.Deps? && forall m :: m in o.deps <==> Reaches(g, n, m)
  }

  /** What an outermost query answers, whatever the cache holds. */
  ghost predicate Answers(g: Graph, n: Node, o: Outcome) {
    && (o.Deps? ==> Closure(g, n, o.deps))
    && (o.CycleError? ==> SimpleCycle(g, n, o.trail))
    && (CycleFree(g, n) ==> Exact(g, n, o))
  }

  lemma OutermostQuery(g: Graph, a: Attributes, n: Node)
    requires Quiet(g, a)
    ensures var r := Get(g, a, n); Quiet(g, r.after) && Answers(g, n, r.outcome)
  {
    var r := Get(g, a, n);
    assert Asking(g, a, [], n);
    GetTrail(g, a, [], n);
    GetClosure(g, a, [], n);
    if r.outcome.CycleError? {
      TrailMeansCycle(g, a, [], n, r.outcome.trail);
    }
  }

  /** Over every sequence of queries: the cache stays sound and every answer is right. */
  lemma {:induction false} EveryRun(g: Graph, a: Attributes, queries: seq<Node>)
    requires Quiet(g, a)
    ensures var r := Run(g, a, queries);
            Quiet(g, r.1) && forall i :: 0 <= i < |queries| ==> Answers(g, queries[i], r.0[i])
    decreases queries
  {
    if queries != [] {
      var first := Get(g, a, queries[0]);
      OutermostQuery(g, a, queries[0]);
      EveryRun(g, first.after, queries[1..]);
      var rest := Run(g, first.after, queries[1..]);
      forall i | 0 <= i < |queries| ensures Answers(g, queries[i], Run(g, a, queries).0[i]) {
        if i > 0 {
          assert queries[i] == queries[1..][i - 1];
          assert Run(g, a, queries).0[i] == rest.0[i - 1];
        }
      }
    }
  }

  // --------------------------------------------------------- the cache over a run

  /** Every entry of `a` is in `b`, unchanged. */
  ghost predicate Extends(a: map<Node, set<Node>>, b: map<Node, set<Node>>) {
    forall n :: n in a ==> n in b && b[n] == a[n]
  }

  /** What is cached stays cached. */
  lemma {:induction false} GetExtends(g: Graph, a: Attributes, n: Node)
    ensures Extends(a.cached, Get(g, a, n).after.cached)
    decreases Unexplored(g, a), 2
  {
    if n !in a.cached && n !in a.exploring {
      var b, children := Flag(a, n), Direct(g, n);
      var p := Explore(g, b, children, {});
      assert Extends(a.cached, p.after.cached) by {
        FlagShrinks(g, a, n);
        ExploreExtends(g, b, children, {});
      }
      assert Compute(g, a, n) == Finish(p, n);
    }
  }

  lemma {:induction false} ExploreExtends(g: Graph, a: Attributes, children: seq<Option<Node>>, deps: set<Node>)
    ensures Extends(a.cached, Explore(g, a, children, deps).after.cached)
    decreases Unexplored(g, a), if children == [] then 0 else 2 + |children|
  {
    if children != [] {
      if children[0].None? {
        ExploreExtends(g, a, children[1..], deps);
      } else {
        var c := children[0].value;
        var r := Get(g, a, c);
        GetExtends(g, a, c);
        if r.outcome.Deps? {
          ExploreExtends(g, r.after, children[1..], deps + {c} + r.outcome.deps);
        }
      }
    }
  }

  lemma {:induction false} RunExtends(g: Graph, a: Attributes, queries: seq<Node>)
    ensures Extends(a.cached, Run(g, a, queries).1.cached)
    decreases queries
  {
    if queries != [] {
      GetExtends(g, a, queries[0]);
      RunExtends(g, Get(g, a, queries[0]).after, queries[1..]);
    }
  }

  /** A set once given as an answer is the answer from then on, whatever is asked in between. */
  lemma AnswerStays(g: Graph, a: Attributes, n: Node, between: seq<Node>)
    requires Get(g, a, n).outcome.Deps?
    ensures var later := Run(g, Get(g, a, n).after, between).1;
            Get(g, later, n) == Answer(Get(g, a, n).outcome, later)
  {
    RunExtends(g, Get(g, a, n).after, between);
  }

  // ------------------------------------------- what a node on a cycle can expect

  ghost predicate Unknown(cached: map<Node, set<Node>>, n: Node) {
    n !in cached && forall x :: x in cached ==> n !in cached[x]
  }

  /** While `n` is being explored no set that is returned or cached comes to hold `n`. */
  lemma {:induction false} GetLeavesOut(g: Graph, a: Attributes, n: Node, c: Node)
    requires n in a.exploring && Unknown(a.cached, n)
    ensures var r := Get(g, a, c);
            Unknown(r.after.cached, n) && (r.outcome.Deps? ==> c != n && n !in r.outcome.deps)
    decreases Unexplored(g, a), 2
  {
    if c !in a.cached {
      ComputeLeavesOut(g, a, n, c);
    }
  }

  lemma {:induction false} ComputeLeavesOut(g: Graph, a: Attributes, n: Node, c: Node)
    requires n in a.exploring && Unknown(a.cached, n)
    ensures Unknown(Compute(g, a, c).after.cached, n)
    ensures Compute(g, a, c).outcome.Deps? ==> c != n && n !in Compute(g, a, c).outcome.deps
    decreases Unexplored(g, a), 1
  {
    if c !in a.exploring {
      FlagShrinks(g, a, c);
      var b, children := Flag(a, c), Direct(g, c);
      ExploreLeavesOut(g, b, n, children, {});
      assert Compute(g, a, c) == Finish(Explore(g, b, children, {}), c);
    }
  }

  lemma {:induction false} ExploreLeavesOut(g: Graph, a: Attributes, n: Node,
                                            children: seq<Option<Node>>, deps: set<Node>)
    requires n in a.exploring && Unknown(a.cached, n) && n !in deps
    ensures var p := Explore(g, a, children, deps);
            Unknown(p.after.cached, n) && (p.error.None? || !Open(p.error.value) ==> n !in p.deps)
    decreases Unexplored(g, a), if children == [] then 0 else 2 + |children|
  {
    if children != [] {
      if children[0].None? {
        ExploreLeavesOut(g, a, n, children[1..], deps);
      } else {
        var c := children[0].value;
        var r := Get(g, a, c);
        GetLeavesOut(g, a, n, c);
        if r.outcome.Deps? {
          ExploreLeavesOut(g, r.after, n, children[1..], deps + {c} + r.outcome.deps);
        }
      }
    }
  }

  /** Asked about before anything else, a node on a cycle is never given its exact closure:
      the answer is an error or a set without the node itself. */
  lemma CyclicNodeNotExact(g: Graph, n: Node)
    requires Reaches(g, n, n)
    ensures !Exact(g, n, Get(g, START, n).outcome)
  {
    ExploreLeavesOut(g, Flag(START, n), n, Direct(g, n), {});
  }

  ghost predicate AllExact(g: Graph, queries: seq<Node>) {
    forall i :: 0 <= i < |queries| ==> Exact(g, queries[i], Run(g, START, queries).0[i])
  }

  /** Every answer of every run is the exact closure if and only if the graph has no cycle. */
  lemma AllExactIffAcyclic(g: Graph)
    ensures (forall queries :: AllExact(g, queries)) <==> (forall n :: !Reaches(g, n, n))
  {
    if forall queries :: AllExact(g, queries) {
      forall n ensures !Reaches(g, n, n) {
        assert AllExact(g, [n]);
        assert Run(g, START, [n]).0[0] == Get(g, START, n).outcome;
        if Reaches(g, n, n) {
          CyclicNodeNotExact(g, n);
        }
      }
    }
    if forall n :: !Reaches(g, n, n) {
      forall queries ensures AllExact(g, queries) {
        EveryRun(g, START, queries);
        forall i | 0 <= i < |queries| ensures Exact(g, queries[i], Run(g, START, queries).0[i]) {
          assert Answers(g, queries[i], Run(g, START, queries).0[i]);
        }
      }
    }
  }

  // ----------------------------------------------------- which set is answered

  /** Each of these direct dependencies with its cached set. */
  ghost function Gathered(cached: map<Node, set<Node>>, children: seq<Option<Node>>): set<Node> {
    if children == [] then {}
    else
      Gathered(cached, children[1..]) +
      match children[0]
      case None => {}
      case Some(d) => {d} + if d in cached then cached[d] else {}
  }

  ghost predicate AllCached(cached: map<Node, set<Node>>, children: seq<Option<Node>>) {
    forall d :: Some(d) in children ==> d in cached
  }

  lemma {:induction false} GatheredSame(a: map<Node, set<Node>>, b: map<Node, set<Node>>, children: seq<Option<Node>>)
    requires AllCached(a, children) && forall d :: Some(d) in children ==> d in b && b[d] == a[d]
    ensures Gathered(b, children) == Gathered(a, children)
  {
    if children != [] {
      assert children[0] in children;
      GatheredSame(a, b, children[1..]);
    }
  }

  lemma {:induction false} ExploringUncached(g: Graph, a: Attributes, n: Node, m: Node)
    requires m in a.exploring && m !in a.cached
    ensures m !in Get(g, a, n).after.cached
    decreases Unexplored(g, a), 2
  {
    if n !in a.cached && n !in a.exploring {
      FlagShrinks(g, a, n);
      ComputeUnfolds(g, a, n);
      ExploreUncached(g, Flag(a, n), Direct(g, n), {}, m);
    }
  }

  lemma {:induction false} ExploreUncached(g: Graph, a: Attributes, children: seq<Option<Node>>, deps: set<Node>, m: Node)
    requires m in a.exploring && m !in a.cached
    ensures m !in Explore(g, a, children, deps).after.cached
    decreases Unexplored(g, a), if children == [] then 0 else 2 + |children|
  {
    if children != [] {
      if children[0].None? {
        ExploreUncached(g, a, children[1..], deps, m);
      } else {
        var c := children[0].value;
        var r := Get(g, a, c);
        ExploringUncached(g, a, c, m);
        if r.outcome.Deps? {
          ExploreUncached(g, r.after, children[1..], deps + {c} + r.outcome.deps, m);
        }
      }
    }
  }

  /** The loop over the children gathers the whole list, or it stops at child `k`, whose query
      raised, and gathers the children before it, and of child `k` only the node itself. */
  ghost predicate GathersTo(p: Progress, children: seq<Option<Node>>, deps: set<Node>, k: nat) {
    && k <= |children| && AllCached(p.after.cached, children[..k])
    && match p.error
       case None => k == |children| && p.deps == deps + Gathered(p.after.cached, children)
       case Some(t) =>
         && k < |children| && t != [] && children[k] == Some(t[|t| - 1])
         && p.deps == deps + Gathered(p.after.cached, children[..k]) + {t[|t| - 1]}
  }

  lemma TrailEnds(g: Graph, a: Attributes, n: Node)
    ensures var o := Get(g, a, n).outcome; o.CycleError? ==> o.trail != [] && o.trail[|o.trail| - 1] == n
  {
  }

  lemma GatherOne(a: map<Node, set<Node>>, c: Node, rest: seq<Option<Node>>)
    requires c in a
    ensures Gathered(a, [Some(c)] + rest) == {c} + a[c] + Gathered(a, rest)
  {
    assert ([Some(c)] + rest)[1..] == rest;
  }

  lemma {:induction false} GetCaches(g: Graph, a: Attributes, n: Node)
    ensures var r := Get(g, a, n); r.outcome.Deps? ==> n in r.after.cached && r.after.cached[n] == r.outcome.deps
  {
  }

  lemma GatherMore(g: Graph, p: Progress, children: seq<Option<Node>>, deps: set<Node>, c: Node, d: set<Node>, i: nat)
    requires children != [] && children[0] == Some(c) && c in p.after.cached && p.after.cached[c] == d
    requires GathersTo(p, children[1..], deps + {c} + d, i)
    ensures GathersTo(p, children, deps, i + 1)
  {
    var rest := children[1..];
    assert children[..i + 1] == [Some(c)] + rest[..i] && children == [Some(c)] + rest;
    GatherOne(p.after.cached, c, rest[..i]);
    GatherOne(p.after.cached, c, rest);
  }

  lemma GatherNone(p: Progress, children: seq<Option<Node>>, deps: set<Node>, i: nat)
    requires children != [] && children[0].None? && GathersTo(p, children[1..], deps, i)
    ensures GathersTo(p, children, deps, i + 1)
  {
    var rest := children[1..];
    assert children[..i + 1] == [None] + rest[..i];
    assert ([None] + rest[..i])[1..] == rest[..i];
  }

  lemma {:induction false} ExploreGathers(g: Graph, a: Attributes, children: seq<Option<Node>>, deps: set<Node>)
    returns (k: nat)
    ensures GathersTo(Explore(g, a, children, deps), children, deps, k)
    decreases |children|
  {
    k := 0;
    if children != [] {
      var rest := children[1..];
      if children[0].None? {
        var i := ExploreGathers(g, a, rest, deps);
        GatherNone(Explore(g, a, rest, deps), children, deps, i);
        k := i + 1;
      } else {
        var c := children[0].value;
        var r := Get(g, a, c);
        TrailEnds(g, a, c);
        if r.outcome.Deps? {
          var more := deps + {c} + r.outcome.deps;
          var p := Explore(g, r.after, rest, more);
          var i := ExploreGathers(g, r.after, rest, more);
          GetCaches(g, a, c);
          ExploreExtends(g, r.after, rest, more);
          GatherMore(g, p, children, deps, c, r.outcome.deps, i);
          k := i + 1;
        }
      }
    }
  }

  /** The set cached for `n` is made of its first `k` direct dependencies and their cached sets.
      If there are more, the next one is on a cycle, and that node alone is added. */
  ghost predicate MadeOf(g: Graph, cached: map<Node, set<Node>>, n: Node, k: nat) {
    var children := Direct(g, n);
    && n in cached && k <= |children| && AllCached(cached, children[..k])
    && if k == |children| then
         cached[n] == Gathered(cached, children)
       else
         && children[k].Some? && (exists t :: SimpleCycle(g, children[k].value, t))
         && cached[n] == Gathered(cached, children[..k]) + {children[k].value}
  }

  /** Every query that is not answered from the cache: its set is made of all direct dependencies if
      the loop met no error, and otherwise of those before the one where the dropped cycle starts. */
  lemma AnswerMadeOf(g: Graph, a: Attributes, stack: seq<Node>, n: Node) returns (k: nat)
    requires Asking(g, a, stack, n) && n !in a.cached && Get(g, a, n).outcome.Deps?
    ensures var r, p := Get(g, a, n), Explore(g, Flag(a, n), Direct(g, n), {});
            && MadeOf(g, r.after.cached, n, k) && r.after.cached[n] == r.outcome.deps
            && (p.error.None? <==> k == |Direct(g, n)|)
            && (p.error.Some? ==> Direct(g, n)[k] == Some(p.error.value[0]))
  {
    var r, f, children := Get(g, a, n), Flag(a, n), Direct(g, n);
    var p := Explore(g, f, children, {});
    ComputeUnfolds(g, a, n);
    Push(g, a, stack, n);
    k := ExploreGathers(g, f, children, {});
    ExploreTrail(g, f, stack, n, children, {});
    ExploreUncached(g, f, children, {}, n);
    assert children[..|children|] == children;
    GatheredSame(p.after.cached, r.after.cached, children[..k]);
  }

  ghost predicate AllMadeOf(g: Graph, cached: map<Node, set<Node>>) {
    forall n :: n in cached ==> exists k :: MadeOf(g, cached, n, k)
  }

  lemma MadeOfStays(g: Graph, a: map<Node, set<Node>>, b: map<Node, set<Node>>, n: Node, k: nat)
    requires MadeOf(g, a, n, k) && Extends(a, b)
    ensures MadeOf(g, b, n, k)
  {
    var children := Direct(g, n);
    assert children[..|children|] == children;
    GatheredSame(a, b, children[..k]);
  }

  lemma FrameMadeOf(g: Graph, a: Attributes, stack: seq<Node>, n: Node)
    requires Asking(g, a, stack, n) && n !in a.cached && n !in a.exploring
    requires AllMadeOf(g, Explore(g, Flag(a, n), Direct(g, n), {}).after.cached)
    ensures AllMadeOf(g, Get(g, a, n).after.cached)
  {
    var r, p := Get(g, a, n), Explore(g, Flag(a, n), Direct(g, n), {});
    ComputeUnfolds(g, a, n);
    if r.outcome.Deps? {
      var k := AnswerMadeOf(g, a, stack, n);
      ExploreUncached(g, Flag(a, n), Direct(g, n), {}, n);
      OneMoreMade(g, p.after.cached, r.after.cached, n, k);
    }
  }

  lemma {:induction false} GetMadeOf(g: Graph, a: Attributes, stack: seq<Node>, n: Node)
    requires Asking(g, a, stack, n) && AllMadeOf(g, a.cached)
    ensures AllMadeOf(g, Get(g, a, n).after.cached)
    decreases Unexplored(g, a), 2
  {
    if n !in a.cached && n !in a.exploring {
      FlagShrinks(g, a, n);
      Push(g, a, stack, n);
      ExploreMadeOf(g, Flag(a, n), stack + [n], Direct(g, n), {});
      FrameMadeOf(g, a, stack, n);
    }
  }

  lemma OneMoreMade(g: Graph, a: map<Node, set<Node>>, b: map<Node, set<Node>>, n: Node, k: nat)
    requires AllMadeOf(g, a) && Extends(a, b) && b.Keys == a.Keys + {n} && MadeOf(g, b, n, k)
    ensures AllMadeOf(g, b)
  {
    forall m | m in b ensures exists i :: MadeOf(g, b, m, i) {
      if m != n {
        var i :| MadeOf(g, a, m, i);
        MadeOfStays(g, a, b, m, i);
      }
    }
  }

  lemma {:induction false} ExploreMadeOf(g: Graph, a: Attributes, stack: seq<Node>, children: seq<Option<Node>>,
                                         deps: set<Node>)
    requires stack != [] && Frames(g, a, stack) && AllMadeOf(g, a.cached)
    requires forall o :: o in children ==> o in Direct(g, stack[|stack| - 1])
    ensures AllMadeOf(g, Explore(g, a, children, deps).after.cached)
    decreases Unexplored(g, a), if children == [] then 0 else 2 + |children|
  {
    if children != [] {
      var rest := children[1..];
      assert children[0] in children && forall o :: o in rest ==> o in children;
      if children[0].None? {
        ExploreMadeOf(g, a, stack, rest, deps);
      } else {
        var c := children[0].value;
        var r := Get(g, a, c);
        GetMadeOf(g, a, stack, c);
        if r.outcome.Deps? {
          ExploreMadeOf(g, r.after, stack, rest, deps + {c} + r.outcome.deps);
        }
      }
    }
  }

  /** Over every sequence of queries, each set in the cache is made of direct dependencies and their
      own cached sets in this way. */
  lemma {:induction false} EveryRunMadeOf(g: Graph, a: Attributes, queries: seq<Node>)
    requires a.exploring == {} && AllMadeOf(g, a.cached)
    ensures AllMadeOf(g, Run(g, a, queries).1.cached)
    decreases queries
  {
    if queries != [] {
      assert Asking(g, a, [], queries[0]);
      GetMadeOf(g, a, [], queries[0]);
      EveryRunMadeOf(g, Get(g, a, queries[0]).after, queries[1..]);
    }
  }

  // ------------------------------------------------------ what a query touches

  /** A query only caches its node and what that node reaches. */
  lemma {:induction false} GetCachesBelow(g: Graph, a: Attributes, n: Node)
    ensures forall m :: m in Get(g, a, n).after.cached ==> m in a.cached || m == n || Reaches(g, n, m)
    decreases Unexplored(g, a), 2
  {
    if n !in a.cached && n !in a.exploring {
      FlagShrinks(g, a, n);
      var b, children := Flag(a, n), Direct(g, n);
      ExploreCachesBelow(g, b, n, children, {});
      assert Compute(g, a, n) == Finish(Explore(g, b, children, {}), n);
    }
  }

  lemma {:induction false} ExploreCachesBelow(g: Graph, a: Attributes, n: Node,
                                              children: seq<Option<Node>>, deps: set<Node>)
    requires forall o :: o in children ==> o in Direct(g, n)
    ensures forall m :: m in Explore(g, a, children, deps).after.cached ==> m in a.cached || Reaches(g, n, m)
    decreases Unexplored(g, a), if children == [] then 0 else 2 + |children|
  {
    if children != [] {
      if children[0].None? {
        ExploreCachesBelow(g, a, n, children[1..], deps);
      } else {
        var c := children[0].value;
        var r := Get(g, a, c);
        GetCachesBelow(g, a, c);
        EdgeReaches(g, n, c);
        forall m | Reaches(g, c, m) ensures Reaches(g, n, m) {
          ReachesTransitive(g, n, c, m);
        }
        if r.outcome.Deps? {
          ExploreCachesBelow(g, r.after, n, children[1..], deps + {c} + r.outcome.deps);
        }
      }
    }
  }

  /** From a frame up to the node being asked about there is a path along the stack. */
  lemma StackPath(g: Graph, a: Attributes, stack: seq<Node>, m: Node, i: nat) returns (p: seq<Node>)
    requires Asking(g, a, stack, m) && i < |stack|
    ensures IsPath(g, p) && p[0] == stack[i] && p[|p| - 1] == m
    ensures |p| == |stack| - i + 1 && forall j :: 0 <= j < |p| - 1 ==> p[j] == stack[i + j]
  {
    p := stack[i..] + [m];
    forall j | 0 <= j < |p| - 1 ensures Edge(g, p[j], p[j + 1]) {
      if j + 1 < |p| - 1 {
        assert Edge(g, stack[i + j], stack[i + j + 1]);
      }
    }
  }

  // ------------------------------------------------------ a cycle unreported

  /** A cycle can go unreported: `a` is on the cycle through `b`, but the search meets the cycle of
      `b` and `c` first, and frame `a` drops that error. */
  lemma CycleMissed()
    ensures exists g, n, d :: Reaches(g, n, n) && Get(g, START, n).outcome == Deps(d) && n !in d
  {
    var a, b, c := Node("a"), Node("b"), Node("c");
    var g: Graph := map[a := [Some(b)], b := [Some(c), Some(a)], c := [Some(b)]];
    assert IsPath(g, [a, b, a]);
    var atA := Flag(START, a);
    var atB := Flag(atA, b);
    var atC := Flag(atB, c);
    assert Get(g, atC, b) == Answer(CycleError([b]), atC);
    assert Explore(g, atC, Direct(g, c), {}) == Progress({b}, Some([b]), atC);
    assert Compute(g, atB, c) == Finish(Progress({b}, Some([b]), atC), c);
    assert atC.exploring - {c} == atB.exploring;
    assert Get(g, atB, c) == Answer(CycleError([b, c]), atB);
    assert Explore(g, atB, Direct(g, b), {}) == Progress({c}, Some([b, c]), atB);
    assert Compute(g, atA, b) == Finish(Progress({c}, Some([b, c]), atB), b);
    assert atB.exploring - {b} == atA.exploring;
    assert Get(g, atA, b) == Answer(CycleError([b, c, b]), atA);
    assert Explore(g, atA, Direct(g, a), {}) == Progress({b}, Some([b, c, b]), atA);
    assert Compute(g, START, a) == Finish(Progress({b}, Some([b, c, b]), atA), a);
    assert Get(g, START, a).outcome == Deps({b});
  }
}
