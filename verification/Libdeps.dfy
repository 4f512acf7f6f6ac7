/** Library dependency closure: a memoised depth-first search over SCons nodes.

  A node carries three attributes: its direct dependencies, a cached closure and
  a flag saying that it is being explored.  They are kept here as three tables
  indexed by node.  `Get`, `Compute` and `Explore` say what one query does to the
  tables; class `NodeAttributes` holds the tables and runs the query in place.
 */
module Libdeps {
  import opened Wrappers

  datatype Node = Node(path: string)

  /** Direct dependencies by node; `None` stands for a falsy entry, which the search skips. */
  type Graph = map<Node, seq<Option<Node>>>

  datatype Attributes = Attributes(cached: map<Node, set<Node>>, exploring: set<Node>)

  /** Either a dependency set or an escaping cycle error with its trail. */
  datatype Outcome = Deps(deps: set<Node>) | CycleError(trail: seq<Node>)

  datatype Answer = Answer(outcome: Outcome, after: Attributes)

  /** State of the loop over the children: the set so far and the error that stopped it, if any. */
  datatype Progress = Progress(deps: set<Node>, error: Option<seq<Node>>, after: Attributes)

  const START := Attributes(map[], {})

  function Direct(g: Graph, n: Node): seq<Option<Node>> {
    if n in g then g[n] else []
  }

  ghost predicate Edge(g: Graph, n: Node, m: Node) {
    Some(m) in Direct(g, n)
  }

  /** A trail is open until its last entry repeats its first one. */
  predicate Open(trail: seq<Node>)
    requires trail != []
  {
    |trail| == 1 || trail[0] != trail[|trail| - 1]
  }

  // ---------------------------------------------------------------- the search

  ghost function Unexplored(g: Graph, a: Attributes): nat {
    |g.Keys - a.exploring|
  }

  function Flag(a: Attributes, n: Node): Attributes {
    a.(exploring := a.exploring + {n})
  }

  /** One call of the cached query.  The flags are left as they were found, on both exits. */
  function Get(g: Graph, a: Attributes, n: Node): (r: Answer)
    ensures r.after.exploring == a.exploring
    ensures r.outcome.CycleError? ==> r.outcome.trail != []
    decreases Unexplored(g, a), 2
  {
    if n in a.cached then
      Answer(Deps(a.cached[n]), a)
    else
      var r := Compute(g, a, n);
      if r.outcome.Deps? then
        Answer(r.outcome, r.after.(cached := r.after.cached[n := r.outcome.deps]))
      else
        r
  }

  function Compute(g: Graph, a: Attributes, n: Node): (r: Answer)
    ensures r.after.exploring == a.exploring
    ensures r.outcome.CycleError? ==> r.outcome.trail != []
    decreases Unexplored(g, a), 1
  {
    if n in a.exploring then
      Answer(CycleError([n]), a)
    else
      FlagShrinks(g, a, n);
      Finish(Explore(g, Flag(a, n), Direct(g, n), {}), n)
  }

  /** How frame `n` ends: an open trail gets `n` appended and is raised again, a closed one
      is dropped and the partial set returned; the flag is cleared either way. */
  function Finish(p: Progress, n: Node): (r: Answer)
    requires p.error.Some? ==> p.error.value != []
  {
    var after := p.after.(exploring := p.after.exploring - {n});
    if p.error.Some? && Open(p.error.value) then
      Answer(CycleError(p.error.value + [n]), after)
    else
      Answer(Deps(p.deps), after)
  }

  /** The loop over the remaining children of the node being explored. */
  function Explore(g: Graph, a: Attributes, children: seq<Option<Node>>, deps: set<Node>): (p: Progress)
    ensures p.after.exploring == a.exploring
    ensures p.error.Some? ==> p.error.value != []
    decreases Unexplored(g, a), if children == [] then 0 else 2 + |children|
  {
    if children == [] then
      Progress(deps, None, a)
    else if children[0].None? then
      Explore(g, a, children[1..], deps)
    else
      var child := children[0].value;
      var r := Get(g, a, child);
      match r.outcome
      case Deps(more) => Explore(g, r.after, children[1..], deps + {child} + more)
      case CycleError(trail) => Progress(deps + {child}, Some(trail), r.after)
  }

  lemma FlagShrinks(g: Graph, a: Attributes, n: Node)
    requires n !in a.exploring
    ensures Unexplored(g, Flag(a, n)) <= Unexplored(g, a)
    ensures n in g ==> Unexplored(g, Flag(a, n)) < Unexplored(g, a)
  {
    var before, now := g.Keys - a.exploring, g.Keys - Flag(a, n).exploring;
    assert now == before - {n};
    if n !in g {
      assert now == before;
    }
  }

  /** Queries made one after another, from outside. */
  function Run(g: Graph, a: Attributes, queries: seq<Node>): (r: (seq<Outcome>, Attributes))
    ensures |r.0| == |queries|
    decreases queries
  {
    if queries == [] then
      ([], a)
    else
      var first := Get(g, a, queries[0]);
      var rest := Run(g, first.after, queries[1..]);
      ([first.outcome] + rest.0, rest.1)
  }

  // --------------------------------------------------------- the tables in place

  class NodeAttributes {
    const direct: Graph
    var cached: map<Node, set<Node>>
    var exploring: set<Node>

    ghost function Tables(): Attributes
      reads this
    {
      Attributes(cached, exploring)
    }

    constructor (direct: Graph)
      ensures this.direct == direct && Tables() == START
    {
      this.direct := direct;
      cached := map[];
      exploring := {};
    }

    method GetLibdeps(n: Node) returns (o: Outcome)
      modifies this
      ensures Answer(o, Tables()) == Get(direct, old(Tables()), n)
      decreases Unexplored(direct, Tables()), 2
    {
      if n !in cached {
        o := ComputeLibdeps(n);
        if o.CycleError? {
          return;
        }
        cached := cached[n := o.deps];
      }
      o := Deps(cached[n]);
    }

    method ComputeLibdeps(n: Node) returns (o: Outcome)
      modifies this
      ensures Answer(o, Tables()) == Compute(direct, old(Tables()), n)
      decreases Unexplored(direct, Tables()), 1
    {
      if n in exploring {
        return CycleError([n]);
      }
      FlagShrinks(direct, Tables(), n);
      exploring := exploring + {n};
      var deps, error := ExploreChildren(Direct(direct, n));
      o := Deps(deps);
      if error.Some? && Open(error.value) {
        o := CycleError(error.value + [n]);
      }
      exploring := exploring - {n};
    }

    /** The guarded loop of `ComputeLibdeps`. */
    method ExploreChildren(children: seq<Option<Node>>) returns (deps: set<Node>, error: Option<seq<Node>>)
      modifies this
      ensures Progress(deps, error, Tables()) == Explore(direct, old(Tables()), children, {})
      decreases Unexplored(direct, Tables()), if children == [] then 0 else 2 + |children|
    {
      deps, error := {}, None;
      var i := 0;
      while i < |children| && error.None?
        invariant 0 <= i <= |children| && exploring == old(exploring)
        invariant Explore(direct, old(Tables()), children, {}) ==
                  if error.None? then
                    Explore(direct, Tables(), children[i..], deps)
                  else
                    Progress(deps, error, Tables())
      {
        assert children[i..][1..] == children[i + 1..];
        if children[i].Some? {
          var child := children[i].value;
          deps := deps + {child};
          var more := GetLibdeps(child);
          match more {
            case Deps(d) => deps := deps + d;
            case CycleError(trail) => error := Some(trail);
          }
        }
        i := i + 1;
      }
    }
  }
}
