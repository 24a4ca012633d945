/** Publishing variables.

    A client sees variables one container at a time: a variable with children
    carries a `variablesReference`, and a `variables` request turns a reference
    into the children.  The server allocates references while it walks the locals
    tree.  The reference is the client's view: unfolding references through the
    map must give back the tree that was published. */
module VariableTree {
  import opened Wrappers
  import opened LocalsTree

  datatype Variable = Variable(
    name: string, value: string, typeName: string, address: nat,
    evaluateName: string, namedVariables: nat, reference: nat)

  datatype Kind = Locals | Registers | Structure

  datatype Frame = Frame(threadId: int, frameNumber: nat)

  datatype Container = Container(frame: Frame, kind: Kind, variables: seq<Variable>)

  /** What the client is meant to see: the tree with every node's full access path. */
  datatype View = View(name: string, value: string, typeName: string, address: nat, path: string, children: seq<View>)

  /** A field appends ".field" to its parent's path, an array element "[0]" appends directly, and a
      child without a name inherits the path. */
  function AccessPath(parent: string, name: string): string {
    if name == "" then parent
    else if parent == "" || name[0] == '[' then parent + name
    else parent + "." + name
  }

  function ViewOf(n: Node, parent: string): View
    decreases n, 0
  {
    var path := AccessPath(parent, n.info.name);
    View(n.info.name, n.info.value, n.info.typeName, n.info.address, path, ViewsOf(n.children, path))
  }

  function ViewsOf(ns: seq<Node>, parent: string): (vs: seq<View>)
    ensures |vs| == |ns|
    decreases ns, 1
  {
    if ns == [] then [] else [ViewOf(ns[0], parent)] + ViewsOf(ns[1..], parent)
  }

  type References = map<nat, Container>

  /** References point to earlier entries of the map (0 means no children), so unfolding ends. */
  ghost predicate Grounded(refs: References) {
    forall r, i :: r in refs && 0 <= i < |refs[r].variables| ==>
      refs[r].variables[i].reference < r && Known(refs, refs[r].variables[i])
  }

  predicate Known(refs: References, v: Variable) {
    v.reference == 0 || v.reference in refs
  }

  /** The client's unfolding of one variable.  The bound only serves termination: in a grounded map
      the children of a reference lie below it. */
  function Unfold(refs: References, v: Variable, bound: nat): View
    decreases bound, 0
  {
    View(v.name, v.value, v.typeName, v.address, v.evaluateName,
         if v.reference == 0 || v.reference !in refs || v.reference >= bound then []
         else UnfoldAll(refs, refs[v.reference].variables, v.reference))
  }

  function UnfoldAll(refs: References, vs: seq<Variable>, bound: nat): (r: seq<View>)
    ensures |r| == |vs|
    decreases bound, |vs| + 1
  {
    if vs == [] then [] else [Unfold(refs, vs[0], bound)] + UnfoldAll(refs, vs[1..], bound)
  }

  /** b has everything a has: allocation never disturbs an earlier container. */
  ghost predicate Extends(a: References, b: References) {
    forall r :: r in a ==> r in b && b[r] == a[r]
  }

  lemma {:induction false} UnfoldIsStable(a: References, b: References, v: Variable, m: nat, n: nat)
    requires Grounded(a) && Extends(a, b) && Known(a, v) && v.reference < m && v.reference < n
    ensures Unfold(a, v, m) == Unfold(b, v, n)
    decreases m, 0
  {
    if v.reference != 0 {
      UnfoldAllIsStable(a, b, a[v.reference].variables, v.reference, v.reference);
    }
  }

  lemma {:induction false} UnfoldAllIsStable(a: References, b: References, vs: seq<Variable>, m: nat, n: nat)
    requires Grounded(a) && Extends(a, b)
    requires forall i :: 0 <= i < |vs| ==> Known(a, vs[i]) && vs[i].reference < m && vs[i].reference < n
    ensures UnfoldAll(a, vs, m) == UnfoldAll(b, vs, n)
    decreases m, |vs| + 1
  {
    if vs != [] {
      UnfoldIsStable(a, b, vs[0], m, n);
      UnfoldAllIsStable(a, b, vs[1..], m, n);
    }
  }

  lemma {:induction false} UnfoldAllAppend(refs: References, vs: seq<Variable>, v: Variable, bound: nat)
    ensures UnfoldAll(refs, vs + [v], bound) == UnfoldAll(refs, vs, bound) + [Unfold(refs, v, bound)]
    decreases |vs|
  {
    if vs == [] {
      assert vs + [v] == [v];
    } else {
      assert (vs + [v])[1..] == vs[1..] + [v];
      UnfoldAllAppend(refs, vs[1..], v, bound);
    }
  }

  lemma {:induction false} ViewsAppend(ns: seq<Node>, k: nat, parent: string)
    requires k < |ns|
    ensures ViewsOf(ns[..k + 1], parent) == ViewsOf(ns[..k], parent) + [ViewOf(ns[k], parent)]
    decreases k
  {
    if k > 0 {
      assert ns[..k + 1][1..] == ns[1..][..k] && ns[..k][1..] == ns[1..][..k - 1];
      ViewsAppend(ns[1..], k - 1, parent);
    } else {
      assert ns[..1][1..] == [] && ns[..1][0] == ns[0];
    }
  }

  // ----- Access paths -----

  predicate NoNames(names: seq<string>, k: nat)
    requires k <= |names|
  {
    forall j :: 0 <= j < k ==> names[j] == ""
  }

  /** What a name adds to the path of the names before it. */
  function Piece(names: seq<string>, i: nat): string
    requires i < |names|
  {
    if names[i] == "" then ""
    else if names[i][0] == '[' || NoNames(names, i) then names[i]
    else "." + names[i]
  }

  /** The names of a node and its ancestors, outermost first, joined: a dot before each but the first, none
      before an index, and nothing for a node without a name. */
  function JoinedNames(names: seq<string>, k: nat): string
    requires k <= |names|
  {
    if k == 0 then "" else JoinedNames(names, k - 1) + Piece(names, k - 1)
  }

  lemma {:induction false} JoinedIsEmpty(names: seq<string>, k: nat)
    requires k <= |names|
    ensures |JoinedNames(names, k)| == 0 <==> NoNames(names, k)
  {
    hide Piece, NoNames, JoinedNames;
    if k == 0 {
      NothingJoined(names);
    } else {
      JoinedIsEmpty(names, k - 1);
      PieceIsEmpty(names, k - 1);
      NoNamesStep(names, k);
      JoinedUnfold(names, k);
    }
  }

  lemma {:induction false} NothingJoined(names: seq<string>)
    ensures |JoinedNames(names, 0)| == 0 && NoNames(names, 0)
  {
  }

  lemma {:induction false} JoinedUnfold(names: seq<string>, k: nat)
    requires 0 < k <= |names|
    ensures JoinedNames(names, k) == JoinedNames(names, k - 1) + Piece(names, k - 1)
  {
    hide Piece;
  }

  lemma {:induction false} NoNamesStep(names: seq<string>, k: nat)
    requires 0 < k <= |names|
    ensures NoNames(names, k) <==> NoNames(names, k - 1) && |names[k - 1]| == 0
  {
  }

  lemma {:induction false} PieceIsEmpty(names: seq<string>, i: nat)
    requires i < |names|
    ensures |Piece(names, i)| == 0 <==> |names[i]| == 0
  {
    hide NoNames;
  }

  lemma {:induction false} JoinedStep(names: seq<string>, k: nat)
    requires k < |names|
    ensures AccessPath(JoinedNames(names, k), names[k]) == JoinedNames(names, k + 1)
  {
    JoinedIsEmpty(names, k);
    hide NoNames;
  }

  lemma {:induction false} ViewOfSibling(ns: seq<Node>, parent: string, i: nat)
    requires i < |ns|
    ensures ViewsOf(ns, parent)[i] == ViewOf(ns[i], parent)
    decreases i
  {
    if i > 0 {
      ViewOfSibling(ns[1..], parent, i - 1);
    }
  }

  /** A way down into a tree: at each step the number of a child. */
  predicate IsRoute(n: Node, route: seq<nat>)
    decreases route
  {
    route == [] || (route[0] < |n.children| && IsRoute(n.children[route[0]], route[1..]))
  }

  function NamesAlong(n: Node, route: seq<nat>): (names: seq<string>)
    requires IsRoute(n, route)
    ensures |names| == |route| + 1
    decreases route
  {
    [n.info.name] + if route == [] then [] else NamesAlong(n.children[route[0]], route[1..])
  }

  function NodeAt(n: Node, route: seq<nat>): Node
    requires IsRoute(n, route)
    decreases route
  {
    if route == [] then n else NodeAt(n.children[route[0]], route[1..])
  }

  /** The client sees the node's own name, value, type, address and number of children. */
  predicate Shows(v: View, n: Node) {
    && v.name == n.info.name && v.value == n.info.value && v.typeName == n.info.typeName && v.address == n.info.address
    && |v.children| == |n.children|
  }

  function ViewAt(v: View, route: seq<nat>): Option<View>
    decreases route
  {
    if route == [] then Some(v)
    else if route[0] < |v.children| then ViewAt(v.children[route[0]], route[1..])
    else None
  }

  /** Every node is where the client looks for it, with its own data, and its access path is the joined chain of
      names down to it. */
  lemma {:induction false} PathIsJoinedNames(n: Node, route: seq<nat>)
    requires IsRoute(n, route)
    ensures var v := ViewAt(ViewOf(n, ""), route);
            var names := NamesAlong(n, route);
            v.Some? && v.value.path == JoinedNames(names, |names|) && Shows(v.value, NodeAt(n, route))
  {
    PathBelow(n, route, NamesAlong(n, route), 0);
  }

  lemma {:induction false} PathBelow(n: Node, route: seq<nat>, names: seq<string>, k: nat)
    requires IsRoute(n, route) && k + |route| + 1 == |names| && names[k..] == NamesAlong(n, route)
    ensures var v := ViewAt(ViewOf(n, JoinedNames(names, k)), route);
            v.Some? && v.value.path == JoinedNames(names, |names|) && Shows(v.value, NodeAt(n, route))
    decreases route
  {
    assert names[k] == names[k..][0] == n.info.name;
    JoinedStep(names, k);
    if route != [] {
      ViewOfSibling(n.children, JoinedNames(names, k + 1), route[0]);
      assert names[k + 1..] == names[k..][1..] == NamesAlong(n.children[route[0]], route[1..]);
      PathBelow(n.children[route[0]], route[1..], names, k + 1);
    }
  }

  // ----- The references of a published tree -----

  /** Every reference the client meets while it unfolds a variable, in the order it meets them. */
  ghost function RefsIn(refs: References, v: Variable, bound: nat): seq<nat>
    decreases bound, 0
  {
    if v.reference == 0 || v.reference !in refs || v.reference >= bound then []
    else [v.reference] + RefsInAll(refs, refs[v.reference].variables, v.reference)
  }

  ghost function RefsInAll(refs: References, vs: seq<Variable>, bound: nat): seq<nat>
    decreases bound, |vs| + 1
  {
    if vs == [] then [] else RefsIn(refs, vs[0], bound) + RefsInAll(refs, vs[1..], bound)
  }

  /** Distinct references, all from lo on and below hi. */
  ghost predicate Fresh(s: seq<nat>, lo: nat, hi: nat) {
    && (forall i :: 0 <= i < |s| ==> lo <= s[i] < hi)
    && (forall i, j :: 0 <= i < j < |s| ==> s[i] != s[j])
  }

  lemma {:induction false} FreshConcat(a: seq<nat>, b: seq<nat>, lo: nat, mid: nat, hi: nat)
    requires lo <= mid <= hi && Fresh(a, lo, mid) && Fresh(b, mid, hi)
    ensures Fresh(a + b, lo, hi) && Fresh(b + a, lo, hi)
  {
  }

  lemma {:induction false} RefsAreStable(a: References, b: References, v: Variable, m: nat, n: nat)
    requires Grounded(a) && Extends(a, b) && Known(a, v) && v.reference < m && v.reference < n
    ensures RefsIn(a, v, m) == RefsIn(b, v, n)
    decreases m, 0
  {
    if v.reference != 0 {
      AllRefsAreStable(a, b, a[v.reference].variables, v.reference, v.reference);
    }
  }

  lemma {:induction false} AllRefsAreStable(a: References, b: References, vs: seq<Variable>, m: nat, n: nat)
    requires Grounded(a) && Extends(a, b)
    requires forall i :: 0 <= i < |vs| ==> Known(a, vs[i]) && vs[i].reference < m && vs[i].reference < n
    ensures RefsInAll(a, vs, m) == RefsInAll(b, vs, n)
    decreases m, |vs| + 1
  {
    if vs != [] {
      RefsAreStable(a, b, vs[0], m, n);
      AllRefsAreStable(a, b, vs[1..], m, n);
    }
  }

  lemma {:induction false} RefsAppend(refs: References, vs: seq<Variable>, v: Variable, bound: nat)
    ensures RefsInAll(refs, vs + [v], bound) == RefsInAll(refs, vs, bound) + RefsIn(refs, v, bound)
    decreases |vs|
  {
    if vs == [] {
      assert vs + [v] == [v];
    } else {
      assert (vs + [v])[1..] == vs[1..] + [v];
      RefsAppend(refs, vs[1..], v, bound);
    }
  }

  /** A variable's own reference is among the references of its tree, so siblings of a tree with
      distinct references have distinct references themselves. */
  lemma {:induction false} SiblingsDiffer(refs: References, vs: seq<Variable>, bound: nat, lo: nat, i: nat, j: nat)
    requires i < j < |vs| && Fresh(RefsInAll(refs, vs, bound), lo, bound)
    requires forall k :: 0 <= k < |vs| ==> Known(refs, vs[k]) && vs[k].reference < bound
    ensures vs[i].reference == 0 || vs[i].reference >= lo
    ensures vs[i].reference == 0 || vs[i].reference != vs[j].reference
    decreases i
  {
    var first, rest := RefsIn(refs, vs[0], bound), RefsInAll(refs, vs[1..], bound);
    assert forall k :: 0 <= k < |rest| ==> (first + rest)[|first| + k] == rest[k];
    if i > 0 {
      SiblingsDiffer(refs, vs[1..], bound, lo, i - 1, j - 1);
    } else if vs[0].reference != 0 {
      assert (first + rest)[0] == vs[0].reference;
      if vs[j].reference != 0 {
        var k := OwnReference(refs, vs[1..], bound, j - 1);
        assert (first + rest)[|first| + k] == vs[j].reference;
      }
    }
  }

  lemma {:induction false} OwnReference(refs: References, vs: seq<Variable>, bound: nat, j: nat) returns (k: nat)
    requires j < |vs| && Known(refs, vs[j]) && 0 != vs[j].reference < bound
    ensures k < |RefsInAll(refs, vs, bound)| && RefsInAll(refs, vs, bound)[k] == vs[j].reference
    decreases j
  {
    if j == 0 {
      k := 0;
    } else {
      var before := |RefsIn(refs, vs[0], bound)|;
      k := OwnReference(refs, vs[1..], bound, j - 1);
      k := before + k;
    }
  }

  /** The nodes of a tree that get a container of their own. */
  ghost function Inner(n: Node): nat
    decreases n, 0
  {
    (if n.children == [] then 0 else 1) + InnerAll(n.children)
  }

  ghost function InnerAll(ns: seq<Node>): nat
    decreases ns, 1
  {
    if ns == [] then 0 else Inner(ns[0]) + InnerAll(ns[1..])
  }

  lemma {:induction false} InnerAppend(ns: seq<Node>, k: nat)
    requires k < |ns|
    ensures InnerAll(ns[..k + 1]) == InnerAll(ns[..k]) + Inner(ns[k])
    decreases k
  {
    if k > 0 {
      assert ns[..k + 1][1..] == ns[1..][..k] && ns[..k][1..] == ns[1..][..k - 1];
      InnerAppend(ns[1..], k - 1);
    } else {
      assert ns[..1][1..] == [] && ns[..1][0] == ns[0];
    }
  }

  /** The variables vs stand for the trees ns, with references that are new since lo. */
  ghost predicate Published(refs: References, next: nat, ns: seq<Node>, parent: string, vs: seq<Variable>, lo: nat) {
    && UnfoldAll(refs, vs, next) == ViewsOf(ns, parent)
    && Fresh(RefsInAll(refs, vs, next), lo, next) && |RefsInAll(refs, vs, next)| == InnerAll(ns)
    && next == lo + InnerAll(ns)
  }

  lemma {:induction false} PublishedNothing(refs: References, next: nat, parent: string)
    ensures Published(refs, next, [], parent, [], next)
  {
  }

  lemma {:induction false} PublishedOneMore(before: References, bound: nat, refs: References, next: nat, ns: seq<Node>,
                           k: nat, parent: string, vs: seq<Variable>, v: Variable, lo: nat)
    requires k < |ns| && lo <= bound <= next && Grounded(before) && Extends(before, refs)
    requires forall i :: 0 <= i < |vs| ==> Known(before, vs[i]) && vs[i].reference < bound
    requires Published(before, bound, ns[..k], parent, vs, lo)
    requires Unfold(refs, v, next) == ViewOf(ns[k], parent)
    requires Fresh(RefsIn(refs, v, next), bound, next) && |RefsIn(refs, v, next)| == Inner(ns[k])
    requires next == bound + Inner(ns[k])
    ensures Published(refs, next, ns[..k + 1], parent, vs + [v], lo)
  {
    hide Fresh, RefsIn, RefsInAll, Inner, InnerAll, Unfold, UnfoldAll, ViewOf, ViewsOf, Grounded;
    UnfoldAllIsStable(before, refs, vs, bound, next);
    UnfoldAllAppend(refs, vs, v, next);
    ViewsAppend(ns, k, parent);
    AllRefsAreStable(before, refs, vs, bound, next);
    RefsAppend(refs, vs, v, next);
    InnerAppend(ns, k);
    FreshConcat(RefsInAll(refs, vs, next), RefsIn(refs, v, next), lo, bound, next);
  }

  lemma {:induction false} BuiltLeaf(refs: References, next: nat, n: Node, parent: string, v: Variable)
    requires n.children == [] && v.reference == 0
    requires v == Variable(n.info.name, n.info.value, n.info.typeName, n.info.address,
                           AccessPath(parent, n.info.name), 0, 0)
    ensures Unfold(refs, v, next) == ViewOf(n, parent)
    ensures Fresh(RefsIn(refs, v, next), next, next) && |RefsIn(refs, v, next)| == Inner(n) == 0
  {
  }

  /** A node with children whose container has just been allocated as the reference `bound`. */
  lemma {:induction false} BuiltNode(before: References, bound: nat, refs: References, n: Node, parent: string,
                                     children: seq<Variable>, v: Variable, lo: nat)
    requires n.children != [] && 0 < bound && Grounded(before) && Extends(before, refs)
    requires bound in refs && refs[bound].variables == children
    requires v == Variable(n.info.name, n.info.value, n.info.typeName, n.info.address,
                           AccessPath(parent, n.info.name), |children|, bound)
    requires forall i :: 0 <= i < |children| ==> Known(before, children[i]) && children[i].reference < bound
    requires Published(before, bound, n.children, AccessPath(parent, n.info.name), children, lo)
    ensures Unfold(refs, v, bound + 1) == ViewOf(n, parent)
    ensures Fresh(RefsIn(refs, v, bound + 1), lo, bound + 1)
    ensures |RefsIn(refs, v, bound + 1)| == Inner(n) == bound + 1 - lo
  {
    hide Grounded, Fresh, UnfoldAll, RefsInAll, ViewsOf, InnerAll;
    UnfoldAllIsStable(before, refs, children, bound, bound);
    AllRefsAreStable(before, refs, children, bound, bound);
    OneFresh(bound);
    FreshConcat(RefsInAll(refs, children, bound), [bound], lo, bound, bound + 1);
  }

  lemma {:induction false} OneFresh(r: nat)
    ensures Fresh([r], r, r + 1)
  {
  }

  class Publisher {
    var refs: References
    var next: nat

    /** Every allocated reference is below `next`, and leads to known entries only. */
    ghost predicate Valid()
      reads this
    {
      next >= 1 && Grounded(refs) && forall r :: r in refs ==> 0 < r < next
    }

    constructor ()
      ensures Valid() && refs == map[] && next == 1
    {
      refs := map[];
      next := 1;
    }

    /** A new stop forgets every reference. */
    method Reset()
      modifies this
      ensures Valid() && refs == map[] && next == 1
    {
      refs := map[];
      next := 1;
    }

    /** An empty list gets no reference; any other gets a fresh one. */
    method CreateReference(frame: Frame, kind: Kind, variables: seq<Variable>) returns (reference: nat)
      requires Valid()
      requires forall i :: 0 <= i < |variables| ==> Known(refs, variables[i]) && variables[i].reference < next
      modifies this
      ensures Valid() && Extends(old(refs), refs) && old(next) <= next
      ensures variables == [] ==> reference == 0 && refs == old(refs) && next == old(next)
      ensures variables != [] ==>
                && reference == old(next) && reference !in old(refs) && next == old(next) + 1
                && refs == old(refs)[reference := Container(frame, kind, variables)]
    {
      if variables == [] {
        return 0;
      }
      reference := next;
      next := next + 1;
      refs := refs[reference := Container(frame, kind, variables)];
    }

    /** Unfolding the published variable gives back the tree it was built from, with its access paths.  Each
        node with children gets one reference, and all references of the tree are new and distinct. */
    method Build(n: Node, frame: Frame, parent: string) returns (v: Variable)
      requires Valid()
      modifies this
      ensures Valid() && Extends(old(refs), refs) && old(next) <= next
      ensures Known(refs, v) && v.reference < next && (v.reference == 0 || v.reference >= old(next))
      ensures v.reference == 0 <==> n.children == []
      ensures v.namedVariables == |n.children|
      ensures v.name == n.info.name && v.value == n.info.value && v.typeName == n.info.typeName && v.address == n.info.address
      ensures Unfold(refs, v, next) == ViewOf(n, parent)
      ensures Fresh(RefsIn(refs, v, next), old(next), next) && |RefsIn(refs, v, next)| == Inner(n)
      ensures next == old(next) + Inner(n)
      ensures v.reference != 0 ==> refs[v.reference].kind == Structure && refs[v.reference].frame == frame
      decreases n
    {
      hide Fresh, RefsIn, RefsInAll, Inner, InnerAll, Unfold, UnfoldAll, ViewOf, ViewsOf;
      var path := parent;
      if n.info.name != "" {
        if parent == "" || n.info.name[0] == '[' {
          path := parent + n.info.name;
        } else {
          path := parent + "." + n.info.name;
        }
      }
      v := Variable(n.info.name, n.info.value, n.info.typeName, n.info.address, path, 0, 0);
      if n.children != [] {
        var children := BuildAll(n.children, frame, path);
        ghost var before := refs;
        ghost var bound := next;
        var reference := CreateReference(frame, Structure, children);
        v := v.(namedVariables := |children|, reference := reference);
        BuiltNode(before, bound, refs, n, parent, children, v, old(next));
      } else {
        BuiltLeaf(refs, next, n, parent, v);
      }
    }

    method BuildAll(ns: seq<Node>, frame: Frame, parent: string) returns (vs: seq<Variable>)
      requires Valid()
      modifies this
      ensures Valid() && Extends(old(refs), refs) && old(next) <= next
      ensures |vs| == |ns|
      ensures forall i :: 0 <= i < |vs| ==> Known(refs, vs[i]) && vs[i].reference < next
      ensures UnfoldAll(refs, vs, next) == ViewsOf(ns, parent)
      ensures Fresh(RefsInAll(refs, vs, next), old(next), next) && |RefsInAll(refs, vs, next)| == InnerAll(ns)
      ensures next == old(next) + InnerAll(ns)
      ensures forall i :: 0 <= i < |vs| ==> vs[i].reference == 0 || vs[i].reference >= old(next)
      ensures forall i, j :: 0 <= i < j < |vs| ==> vs[i].reference == 0 || vs[i].reference != vs[j].reference
      decreases ns, 0
    {
      hide Fresh, RefsIn, RefsInAll, Inner, InnerAll, Unfold, UnfoldAll, ViewOf, ViewsOf, Grounded;
      vs := [];
      PublishedNothing(refs, next, parent);
      assert ns[..0] == [];
      for k := 0 to |ns|
        invariant Valid() && Extends(old(refs), refs)
        invariant |vs| == k
        invariant forall i :: 0 <= i < k ==> Known(refs, vs[i]) && vs[i].reference < next
        invariant forall i :: 0 <= i < k ==> vs[i].reference == 0 || vs[i].reference >= old(next)
        invariant Published(refs, next, ns[..k], parent, vs, old(next))
      {
        ghost var before := refs;
        ghost var bound := next;
        var v := Build(ns[k], frame, parent);
        PublishedOneMore(before, bound, refs, next, ns, k, parent, vs, v, old(next));
        vs := vs + [v];
      }
      assert ns[..|ns|] == ns;
      forall i, j | 0 <= i < j < |vs| ensures vs[i].reference == 0 || vs[i].reference != vs[j].reference {
        SiblingsDiffer(refs, vs, next, old(next), i, j);
      }
    }

    /** The scopes request: the locals of a frame as one container of trees, its registers as another. */
    method PublishScopes(frame: Frame, locals: seq<Node>, registers: seq<(string, string)>)
      returns (localsReference: nat, registersReference: nat)
      requires Valid()
      modifies this
      ensures Valid() && Extends(old(refs), refs)
      ensures localsReference == 0 <==> locals == []
      ensures registersReference == 0 <==> registers == []
      ensures locals != [] ==>
                && localsReference in refs && localsReference !in old(refs)
                && refs[localsReference].kind == Locals && refs[localsReference].frame == frame
                && UnfoldAll(refs, refs[localsReference].variables, localsReference) == ViewsOf(locals, "")
                && Fresh([localsReference] + RefsInAll(refs, refs[localsReference].variables, localsReference),
                         old(next), next)
      ensures registers != [] ==>
                && registersReference in refs && registersReference !in old(refs) && registersReference == next - 1
                && registersReference > localsReference
                && refs[registersReference].kind == Registers && refs[registersReference].frame == frame
                && var vs := refs[registersReference].variables;
                   && |vs| == |registers|
                   && forall i :: 0 <= i < |vs| ==> vs[i].name == vs[i].evaluateName == registers[i].0
                                                    && vs[i].value == registers[i].1 && vs[i].reference == 0
                                                    && vs[i].typeName == "" && vs[i].address == vs[i].namedVariables == 0
    {
      var localVariables := BuildAll(locals, frame, "");
      var registerVariables := [];
      for i := 0 to |registers|
        invariant registerVariables == RegisterVariables(registers)[..i]
      {
        var value := registers[i];
        registerVariables := registerVariables + [Variable(value.0, value.1, "", 0, value.0, 0, 0)];
      }
      ghost var before := refs;
      ghost var bound := next;
      localsReference := CreateReference(frame, Locals, localVariables);
      registersReference := CreateReference(frame, Registers, registerVariables);
      if locals != [] {
        UnfoldAllIsStable(before, refs, localVariables, bound, localsReference);
        AllRefsAreStable(before, refs, localVariables, bound, localsReference);
        FreshConcat(RefsInAll(refs, localVariables, localsReference), [localsReference], old(next), bound, next);
      }
    }

    /** The variables request: an error for an unknown reference, nothing for the indexed children of a named
        container, and otherwise the container from `start` on, up to `count` entries.  A start or count that is
        absent, not positive or too large does not count. */
    method Variables(reference: int, indexedOnly: bool, start: Option<int>, count: Option<int>)
      returns (r: Option<seq<Variable>>)
      ensures r.None? <==> reference <= 0 || reference !in refs
      ensures r.Some? && indexedOnly ==> r.value == []
      ensures r.Some? && !indexedOnly ==>
                var all := refs[reference].variables;
                var first := if start.Some? && 0 < start.value <= 0x7fff_ffff then start.value else 0;
                var left := if first < |all| then |all| - first else 0;
                var length := if count.Some? && 0 < count.value <= 0x7fff_ffff && count.value < left then count.value else left;
                |r.value| == length && forall i :: 0 <= i < length ==> r.value[i] == all[first + i]
    {
      hide Page;
      if reference <= 0 || reference !in refs {
        return None;
      }
      var variables := if indexedOnly then [] else refs[reference].variables;
      var page := ReadPage(variables, Clamp(start), Clamp(count));
      PageIs(variables, Clamp(start), Clamp(count));
      return Some(page);
    }
  }

  method ReadPage(variables: seq<Variable>, start: nat, count: nat) returns (page: seq<Variable>)
    ensures page == Page(variables, start, count)
  {
    page := [];
    var index := start;
    while index < |variables|
      invariant start <= index && |page| == index - start
      invariant index <= |variables| || page == []
      invariant start <= index <= |variables| ==> page == variables[start..index]
      invariant count > 0 ==> |page| <= count
    {
      if count > 0 && |page| >= count {
        break;
      }
      page := page + [variables[index]];
      index := index + 1;
    }
  }

  /** A page is what is left from `start` on, cut at `count` entries unless that is zero. */
  lemma {:induction false} PageIs(vs: seq<Variable>, start: nat, count: nat)
    ensures var left := if start < |vs| then |vs| - start else 0;
            && |Page(vs, start, count)| == (if 0 < count < left then count else left)
            && forall i :: 0 <= i < |Page(vs, start, count)| ==> Page(vs, start, count)[i] == vs[start + i]
  {
  }

  function RegisterVariables(registers: seq<(string, string)>): (vs: seq<Variable>)
    ensures |vs| == |registers|
  {
    seq(|registers|, i requires 0 <= i < |registers| =>
      Variable(registers[i].0, registers[i].1, "", 0, registers[i].0, 0, 0))
  }

  /** Absent, non-positive and oversized numbers count as zero. */
  function Clamp(value: Option<int>): nat {
    if value.Some? && 0 < value.value <= 0x7fff_ffff then value.value else 0
  }

  /** A count of zero asks for everything from `start` on. */
  function Page(vs: seq<Variable>, start: nat, count: nat): seq<Variable> {
    if start >= |vs| then []
    else if count > 0 && start + count < |vs| then vs[start..start + count]
    else vs[start..]
  }

  function AllPages(vs: seq<Variable>, start: nat, count: nat): seq<Variable>
    requires count > 0
    decreases |vs| - start
  {
    if start >= |vs| then [] else Page(vs, start, count) + AllPages(vs, start + count, count)
  }

  /** Reading a container page by page loses and repeats nothing. */
  lemma {:induction false} PagesCover(vs: seq<Variable>, start: nat, count: nat)
    requires count > 0 && start <= |vs|
    ensures AllPages(vs, start, count) == vs[start..]
    decreases |vs| - start
  {
    if start + count <= |vs| {
      PagesCover(vs, start + count, count);
      assert vs[start..] == vs[start..start + count] + vs[start + count..];
    } else {
      assert AllPages(vs, start + count, count) == [];
    }
  }
}
