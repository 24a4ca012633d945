/** The protocol generator's ordering of struct definitions.

    A C++ struct must be defined before another one holds it by value.
    `topological_classes` is a depth-first search over those hard dependencies,
    with `done`, `visiting` and `ordered` updated in place and an exception on a
    cycle.  Dependencies of a node are taken here in any order, which covers the
    sorted order of the source. */
module TopologicalSort {
  import opened Wrappers

  type Graph = map<string, set<string>>

  /** Hard dependencies of each class, restricted to classes and without self-references. */
  function HardDependencies(classes: seq<string>, uses: map<string, set<string>>): (g: Graph)
    ensures Closed(g)
    ensures g.Keys == set c | c in classes
  {
    map c | c in classes :: (if c in uses then (set d | d in uses[c] && d in classes && d != c) else {})
  }

  predicate Closed(g: Graph) {
    forall n :: n in g ==> forall d :: d in g[n] ==> d in g && d != n
  }

  // ----- Cycles -----

  predicate IsPath(g: Graph, p: seq<string>) {
    && (forall i :: 0 <= i < |p| ==> p[i] in g)
    && (forall i :: 0 <= i < |p| - 1 ==> p[i + 1] in g[p[i]])
  }

  predicate IsCycle(g: Graph, p: seq<string>) {
    IsPath(g, p) && |p| >= 2 && p[0] == p[|p| - 1]
  }

  ghost predicate HasCycle(g: Graph) {
    exists p: seq<string> :: IsCycle(g, p)
  }

  // ----- Orders -----

  function Elements(s: seq<string>): set<string> {
    set x | x in s
  }

  ghost predicate Distinct(s: seq<string>) {
    forall i, j :: 0 <= i < j < |s| ==> s[i] != s[j]
  }

  /** Every class comes after everything it depends on. */
  ghost predicate Ordered(g: Graph, s: seq<string>) {
    && Distinct(s)
    && (forall i :: 0 <= i < |s| ==> s[i] in g && g[s[i]] <= Elements(s[..i]))
  }

  /** Along a path, positions in an order go down. */
  lemma {:induction false} PathGoesDown(g: Graph, s: seq<string>, p: seq<string>, a: nat) returns (b: nat)
    requires Ordered(g, s) && IsPath(g, p) && p != []
    requires a < |s| && s[a] == p[0]
    ensures b < |s| && s[b] == p[|p| - 1] && b + |p| - 1 <= a
    decreases |p|
  {
    if |p| == 1 {
      b := a;
    } else {
      assert p[1] in g[p[0]] && p[1] in Elements(s[..a]);
      var c :| 0 <= c < a && s[c] == p[1];
      b := PathGoesDown(g, s, p[1..], c);
    }
  }

  /** A graph that can be ordered completely has no cycle. */
  lemma {:induction false} OrderedIsAcyclic(g: Graph, s: seq<string>)
    requires Ordered(g, s) && Elements(s) == g.Keys
    ensures !HasCycle(g)
  {
    forall p: seq<string> | IsPath(g, p) && |p| >= 2
      ensures p[0] != p[|p| - 1]
    {
      assert p[0] in Elements(s);
      var a :| 0 <= a < |s| && s[a] == p[0];
      var b := PathGoesDown(g, s, p, a);
    }
  }

  class Search {
    const graph: Graph
    var ordered: seq<string>
    var done: set<string>
    var visiting: set<string>

    ghost predicate Valid()
      reads this
    {
      && Closed(graph)
      && Ordered(graph, ordered) && done == Elements(ordered)
      && visiting <= graph.Keys && done !! visiting
    }

    constructor (g: Graph)
      requires Closed(g)
      ensures Valid() && graph == g && ordered == [] && visiting == {}
    {
      graph := g;
      ordered, done, visiting := [], {}, {};
    }

    /** Visits one class.  On success the class and all it needs are in the order; on failure the
        returned trail, as in the exception's message, runs into itself. */
    method Visit(node: string, stack: seq<string>) returns (trail: Option<seq<string>>)
      requires Valid() && node in graph
      requires IsPath(graph, stack + [node]) && Elements(stack) == visiting
      modifies this
      ensures trail.None? ==> Valid() && visiting == old(visiting) && node in done
      ensures trail.None? ==> old(ordered) <= ordered && old(done) <= done
      ensures trail.Some? ==> HasCycle(graph)
      ensures trail.Some? ==> IsPath(graph, trail.value) && exists k :: 0 <= k < |trail.value| - 1 && trail.value[k] == trail.value[|trail.value| - 1]
      decreases graph.Keys - visiting
    {
      hide Ordered, IsPath, HasCycle;
      if node in done {
        return None;
      }
      if node in visiting {
        var k :| 0 <= k < |stack| && stack[k] == node;
        CycleInTrail(graph, stack + [node], k);
        return Some(stack + [node]);
      }
      ghost var before := visiting;
      visiting := visiting + {node};
      var rest := graph[node];
      while rest != {}
        invariant Valid() && visiting == before + {node} && rest <= graph[node]
        invariant graph[node] - rest <= done && old(ordered) <= ordered && old(done) <= done
        decreases |rest|
      {
        var dependency :| dependency in rest;
        ExtendPath(graph, stack + [node], dependency);
        trail := Visit(dependency, stack + [node]);
        if trail.Some? {
          return;
        }
        rest := rest - {dependency};
      }
      visiting := visiting - {node};
      done := done + {node};
      AppendOrdered(graph, ordered, node);
      ordered := ordered + [node];
      return None;
    }
  }

  lemma {:induction false} CycleInTrail(g: Graph, trail: seq<string>, k: nat)
    requires IsPath(g, trail) && k < |trail| - 1 && trail[k] == trail[|trail| - 1]
    ensures HasCycle(g)
  {
    assert IsCycle(g, trail[k..]);
  }

  lemma {:induction false} ExtendPath(g: Graph, p: seq<string>, d: string)
    requires Closed(g) && IsPath(g, p) && p != [] && d in g[p[|p| - 1]]
    ensures IsPath(g, p + [d])
  {
  }

  lemma {:induction false} AppendOrdered(g: Graph, s: seq<string>, n: string)
    requires Ordered(g, s) && n in g && n !in s && g[n] <= Elements(s)
    ensures Ordered(g, s + [n]) && Elements(s + [n]) == Elements(s) + {n}
  {
    var t := s + [n];
    forall i | 0 <= i < |t|
      ensures t[i] in g && g[t[i]] <= Elements(t[..i])
    {
      assert t[..i] == s[..i];
      assert s[..|s|] == s;
    }
  }

  // ----- In terms of the classes and what they hold -----

  /** Class c holds class d, another one, by value. */
  predicate Holds(classes: seq<string>, uses: map<string, set<string>>, c: string, d: string) {
    c in classes && d in classes && c != d && c in uses && d in uses[c]
  }

  /** Classes each holding the next, back to where they began. */
  predicate HoldsInCircle(classes: seq<string>, uses: map<string, set<string>>, p: seq<string>) {
    && |p| >= 2 && p[0] == p[|p| - 1]
    && forall i :: 0 <= i < |p| - 1 ==> Holds(classes, uses, p[i], p[i + 1])
  }

  lemma {:induction false} CircleIsCycle(classes: seq<string>, uses: map<string, set<string>>, p: seq<string>)
    ensures IsCycle(HardDependencies(classes, uses), p) <==> HoldsInCircle(classes, uses, p)
  {
    var g := HardDependencies(classes, uses);
    if HoldsInCircle(classes, uses, p) {
      forall i | 0 <= i < |p| ensures p[i] in g {
        if i < |p| - 1 {
          assert Holds(classes, uses, p[i], p[i + 1]);
        } else {
          assert Holds(classes, uses, p[0], p[1]);
        }
      }
      forall i | 0 <= i < |p| - 1 ensures p[i + 1] in g[p[i]] {
        assert Holds(classes, uses, p[i], p[i + 1]);
      }
    }
    if IsCycle(g, p) {
      forall i | 0 <= i < |p| - 1 ensures Holds(classes, uses, p[i], p[i + 1]) {
        assert p[i + 1] in g[p[i]];
      }
    }
  }

  /** `topological_classes`: each class exactly once and after every other class it holds by value, or the
      exception (None), raised exactly when classes hold each other in a circle. */
  method TopologicalClasses(classes: seq<string>, uses: map<string, set<string>>) returns (r: Option<seq<string>>)
    ensures r.None? <==> exists p: seq<string> :: HoldsInCircle(classes, uses, p)
    ensures r.Some? ==>
              && (forall i, j :: 0 <= i < j < |r.value| ==> r.value[i] != r.value[j])
              && (forall c :: c in r.value <==> c in classes)
              && (forall i, d :: 0 <= i < |r.value| && Holds(classes, uses, r.value[i], d) ==> d in r.value[..i])
  {
    var g := HardDependencies(classes, uses);
    r := TopologicalOrder(classes, g);
    forall p: seq<string> ensures IsCycle(g, p) <==> HoldsInCircle(classes, uses, p) {
      CircleIsCycle(classes, uses, p);
    }
    if r.None? {
      var p: seq<string> :| IsCycle(g, p);
      assert HoldsInCircle(classes, uses, p);
    } else {
      forall c ensures c in r.value <==> c in classes {
        assert c in r.value <==> c in Elements(r.value);
        assert c in classes <==> c in Elements(classes);
      }
      forall i, d | 0 <= i < |r.value| && Holds(classes, uses, r.value[i], d) ensures d in r.value[..i] {
        assert d in g[r.value[i]];
        assert d in Elements(r.value[..i]);
      }
    }
  }

  /** The search itself, on the graph of hard dependencies. */
  method TopologicalOrder(classes: seq<string>, g: Graph) returns (r: Option<seq<string>>)
    requires Closed(g) && g.Keys == Elements(classes)
    ensures r.None? <==> HasCycle(g)
    ensures r.Some? ==> Ordered(g, r.value) && Elements(r.value) == Elements(classes)
  {
    var search := new Search(g);
    for i := 0 to |classes|
      invariant search.Valid() && search.visiting == {} && search.graph == g
      invariant Elements(classes[..i]) <= search.done
    {
      var trail := search.Visit(classes[i], []);
      if trail.Some? {
        return None;
      }
      assert classes[..i + 1] == classes[..i] + [classes[i]];
    }
    assert classes[..|classes|] == classes;
    OrderedIsAcyclic(search.graph, search.ordered);
    return Some(search.ordered);
  }
}
