/** The locals tree.

    The engine keeps a flat list of symbols, each with the index of its parent.
    Expanding a symbol inserts its members right after it and shifts every later
    index.  `get_locals_tree` first expands aggregates one at a time, within a
    depth and a node budget, and then rebuilds a forest from the parent indices
    by moving nodes from the highest index to the lowest. */
module LocalsTree {
  import opened Wrappers

  const MAX_EXPANSION_DEPTH: nat := 3
  const MAX_EXPANDED_NODES: nat := 4096

  datatype Info = Info(name: string, value: string, typeName: string, address: nat, size: nat)

  /** A row of the symbol group; a parent of -1 stands for the engine's "no parent" id. */
  datatype Symbol = Symbol(info: Info, subElements: nat, expanded: bool, parent: int)

  datatype Member = Member(info: Info, subElements: nat)

  /** The engine's answer to an expansion request: the members, or a failure.  A symbol group never
      returns to an earlier state, so a function of the group covers every behaviour of the engine. */
  type Engine = (seq<Symbol>, nat) -> Option<seq<Member>>

  /** Parents come first, and what lies between a symbol and its parent lies below that parent:
      the list is a preorder. */
  ghost predicate Preorder(g: seq<Symbol>) {
    && (forall j :: 0 <= j < |g| ==> -1 <= g[j].parent < j)
    && (forall i, j :: 0 <= i < j < |g| && g[j].parent < i ==> g[i].parent >= g[j].parent)
  }

  // ----- Phase 1: expansion -----

  function Shift(s: Symbol, at: nat, count: nat): Symbol {
    if s.parent > at then s.(parent := s.parent + count) else s
  }

  /** Row y of the group after symbol i was expanded into `members`. */
  function ExpandedRow(g: seq<Symbol>, i: nat, members: seq<Member>, y: nat): Symbol
    requires i < |g| && y < |g| + |members|
  {
    if y < i then g[y]
    else if y == i then g[i].(expanded := true)
    else if y <= i + |members| then Symbol(members[y - i - 1].info, members[y - i - 1].subElements, false, i)
    else Shift(g[y - |members|], i, |members|)
  }

  function Expand(g: seq<Symbol>, i: nat, members: seq<Member>): (r: seq<Symbol>)
    requires i < |g|
    ensures |r| == |g| + |members|
    ensures forall y :: 0 <= y < |r| ==> r[y] == ExpandedRow(g, i, members, y)
  {
    seq(|g| + |members|, y requires 0 <= y < |g| + |members| => ExpandedRow(g, i, members, y))
  }

  /** Where an expansion at i moves an index, parents included. */
  function Moved(x: int, i: nat, count: nat): int {
    if x > i then x + count else x
  }

  /** Every symbol is still there once, with the same data and the same (moved) parent. */
  lemma {:induction false} ExpandKeepsSymbols(g: seq<Symbol>, i: nat, members: seq<Member>, x: nat)
    requires i < |g| && Preorder(g) && x < |g|
    ensures var r := Expand(g, i, members);
            var y := Moved(x, i, |members|);
            && r[y].info == g[x].info && r[y].subElements == g[x].subElements
            && r[y].parent == Moved(g[x].parent, i, |members|)
            && r[y].expanded == (g[x].expanded || x == i)
  {
    var y := Moved(x, i, |members|);
    assert Expand(g, i, members)[y] == ExpandedRow(g, i, members, y);
    if x > i {
      assert y - |members| == x;
    }
  }

  /** Each row of the expanded group is a member of symbol i or an old symbol. */
  lemma {:induction false} RowOrigin(g: seq<Symbol>, i: nat, members: seq<Member>, y: nat) returns (x: int)
    requires i < |g| && Preorder(g) && y < |g| + |members|
    ensures i < y <= i + |members| ==> Expand(g, i, members)[y].parent == i && x == -1
    ensures !(i < y <= i + |members|) ==>
              && 0 <= x < |g| && y == Moved(x, i, |members|)
              && Expand(g, i, members)[y].parent == Moved(g[x].parent, i, |members|)
  {
    if i < y <= i + |members| {
      x := -1;
      assert Expand(g, i, members)[y] == ExpandedRow(g, i, members, y);
    } else {
      x := if y <= i then y else y - |members|;
      ExpandKeepsSymbols(g, i, members, x);
    }
  }

  /** Members go right after their parent: the list stays a preorder. */
  lemma {:induction false} ExpandIsPreorder(g: seq<Symbol>, i: nat, members: seq<Member>)
    requires i < |g| && Preorder(g)
    ensures Preorder(Expand(g, i, members))
  {
    hide Expand;
    var r := Expand(g, i, members);
    forall y | 0 <= y < |r|
      ensures -1 <= r[y].parent < y
    {
      var x := RowOrigin(g, i, members, y);
    }
    forall a, b | 0 <= a < b < |r| && r[b].parent < a
      ensures r[a].parent >= r[b].parent
    {
      var x := RowOrigin(g, i, members, a);
      var z := RowOrigin(g, i, members, b);
    }
  }

  /** Hops from a symbol to a top-level one. */
  function Depth(g: seq<Symbol>, j: int): nat
    requires j < |g| && forall x :: 0 <= x < |g| ==> g[x].parent < x
    decreases j
  {
    if j < 0 || g[j].parent < 0 then 0 else 1 + Depth(g, g[j].parent)
  }

  /** Top-level symbols have depth 0, and every other one more than its parent. */
  lemma {:induction false} DepthIs(g: seq<Symbol>, j: nat)
    requires j < |g| && Preorder(g)
    ensures Depth(g, j) == if g[j].parent == -1 then 0 else Depth(g, g[j].parent) + 1
  {
  }

  method SymbolDepth(g: seq<Symbol>, index: nat) returns (depth: nat)
    requires index < |g| && Preorder(g)
    ensures depth == Depth(g, index)
  {
    depth := 0;
    ghost var at: int := index;
    var parent := g[index].parent;
    while parent >= 0 && parent < |g|
      invariant -1 <= parent < |g| && 0 <= at < |g| && g[at].parent == parent
      invariant depth + Depth(g, at) == Depth(g, index)
      decreases parent
    {
      depth := depth + 1;
      at := parent;
      parent := g[parent].parent;
    }
  }

  /** An expansion leaves the depth of every symbol alone, and puts the members one below theirs. */
  lemma {:induction false} ExpandKeepsDepth(g: seq<Symbol>, i: nat, members: seq<Member>, x: nat)
    requires i < |g| && Preorder(g) && x < |g|
    ensures Preorder(Expand(g, i, members))
    ensures Depth(Expand(g, i, members), Moved(x, i, |members|)) == Depth(g, x)
    decreases x
  {
    ExpandIsPreorder(g, i, members);
    ExpandKeepsSymbols(g, i, members, x);
    if g[x].parent >= 0 {
      ExpandKeepsDepth(g, i, members, g[x].parent);
    }
  }

  ghost predicate DepthWithin(g: seq<Symbol>, limit: nat)
    requires Preorder(g)
  {
    forall j :: 0 <= j < |g| ==> Depth(g, j) <= limit
  }

  lemma {:induction false} ExpandKeepsDepthWithin(g: seq<Symbol>, i: nat, members: seq<Member>, limit: nat)
    requires i < |g| && Preorder(g) && DepthWithin(g, limit) && Depth(g, i) < limit
    ensures Preorder(Expand(g, i, members)) && DepthWithin(Expand(g, i, members), limit)
  {
    var r := Expand(g, i, members);
    ExpandIsPreorder(g, i, members);
    forall y | 0 <= y < |r|
      ensures Depth(r, y) <= limit
    {
      if y <= i {
        ExpandKeepsDepth(g, i, members, y);
      } else if y <= i + |members| {
        ExpandKeepsDepth(g, i, members, i);
        assert r[y].parent == i;
      } else {
        ExpandKeepsDepth(g, i, members, y - |members|);
      }
    }
  }

  /** `b` holds every symbol of `a`, in order, with the same data and the corresponding parent;
      f says where each one went. */
  ghost predicate Keeps(f: seq<nat>, a: seq<Symbol>, b: seq<Symbol>) {
    && |f| == |a|
    && (forall x :: 0 <= x < |a| ==> f[x] < |b| && b[f[x]].info == a[x].info)
    && (forall x :: 0 <= x < |a| && a[x].parent < 0 ==> b[f[x]].parent == a[x].parent)
    && (forall x :: 0 <= x < |a| && 0 <= a[x].parent < |a| ==> b[f[x]].parent == f[a[x].parent])
    && (forall x, y :: 0 <= x < y < |a| ==> f[x] < f[y])
  }

  /** In `b`, nothing is at the top level besides what f put there. */
  ghost predicate TopFrom(f: seq<nat>, b: seq<Symbol>) {
    forall y :: 0 <= y < |b| && b[y].parent < 0 ==> y in f
  }

  function Identity(n: nat): seq<nat> {
    seq(n, x => x)
  }

  lemma {:induction false} KeepsSelf(g: seq<Symbol>)
    ensures Keeps(Identity(|g|), g, g) && TopFrom(Identity(|g|), g)
  {
    forall y | 0 <= y < |g|
      ensures y in Identity(|g|)
    {
      assert Identity(|g|)[y] == y;
    }
  }

  function MovedAll(f: seq<nat>, i: nat, count: nat): (h: seq<nat>)
    ensures |h| == |f| && forall x :: 0 <= x < |f| ==> h[x] == Moved(f[x], i, count)
  {
    seq(|f|, x requires 0 <= x < |f| => Moved(f[x], i, count))
  }

  /** An embedding followed by one expansion is an embedding. */
  lemma {:induction false} KeepsExpand(f: seq<nat>, a: seq<Symbol>, g: seq<Symbol>, i: nat, members: seq<Member>)
    requires i < |g| && Preorder(g) && Preorder(a) && Keeps(f, a, g)
    ensures Keeps(MovedAll(f, i, |members|), a, Expand(g, i, members))
  {
    hide Expand, MovedAll, Preorder;
    var r := Expand(g, i, members);
    var h := MovedAll(f, i, |members|);
    forall x | 0 <= x < |a|
      ensures h[x] < |r| && r[h[x]].info == a[x].info && r[h[x]].parent == Moved(g[f[x]].parent, i, |members|)
    {
      ExpandKeepsSymbols(g, i, members, f[x]);
    }
  }

  lemma {:induction false} TopFromExpand(f: seq<nat>, g: seq<Symbol>, i: nat, members: seq<Member>)
    requires i < |g| && Preorder(g) && TopFrom(f, g)
    ensures TopFrom(MovedAll(f, i, |members|), Expand(g, i, members))
  {
    hide Expand, MovedAll;
    var r := Expand(g, i, members);
    var h := MovedAll(f, i, |members|);
    forall y | 0 <= y < |r| && r[y].parent < 0
      ensures y in h
    {
      var x := RowOrigin(g, i, members, y);
      assert x in f;
      var k :| 0 <= k < |f| && f[k] == x;
      assert h[k] == y;
    }
  }

  /** A type is a pointer when its last non-blank character is a star. */
  function IsPointer(typeName: string): bool {
    if typeName == "" then false
    else if typeName[|typeName| - 1] == '*' then true
    else if typeName[|typeName| - 1] !in " \t\n\r\U{0B}\U{0C}" then false
    else IsPointer(typeName[..|typeName| - 1])
  }

  /** The last character that is not white space is a star. */
  ghost predicate EndsInStar(typeName: string) {
    exists k :: 0 <= k < |typeName| && typeName[k] == '*' && IsWhite(typeName[k + 1..])
  }

  predicate IsWhite(s: string) {
    forall i :: 0 <= i < |s| ==> s[i] in " \t\n\r\U{0B}\U{0C}"
  }

  lemma {:induction false} PointerIs(typeName: string)
    ensures IsPointer(typeName) <==> EndsInStar(typeName)
  {
    if typeName != "" {
      var n := |typeName| - 1;
      var init := typeName[..n];
      PointerIs(init);
      if typeName[n] == '*' {
        assert IsWhite(typeName[n + 1..]);
      } else {
        if EndsInStar(typeName) {
          var k :| 0 <= k < |typeName| && typeName[k] == '*' && IsWhite(typeName[k + 1..]);
          WhiteTail(typeName, k);
          assert init[k] == '*';
        }
        if EndsInStar(init) && typeName[n] in " \t\n\r\U{0B}\U{0C}" {
          var k :| 0 <= k < |init| && init[k] == '*' && IsWhite(init[k + 1..]);
          WhiteTail(typeName, k);
          assert typeName[k] == '*' && IsWhite(typeName[k + 1..]);
        }
      }
    }
  }

  lemma {:induction false} WhiteTail(s: string, k: nat)
    requires k + 1 < |s|
    ensures IsWhite(s[k + 1..]) <==> IsWhite(s[..|s| - 1][k + 1..]) && s[|s| - 1] in " \t\n\r\U{0B}\U{0C}"
  {
    var t := s[..|s| - 1][k + 1..];
    assert s[k + 1..] == t + [s[|s| - 1]];
    assert forall i :: 0 <= i < |t| ==> s[k + 1..][i] == t[i];
    assert s[k + 1..][|t|] == s[|s| - 1];
  }

  /** Expanded symbols are no pointers, have members to show, and lie less than three levels deep. */
  ghost predicate WellExpanded(g: seq<Symbol>)
    requires Preorder(g)
  {
    forall i :: 0 <= i < |g| && g[i].expanded ==>
      !EndsInStar(g[i].info.typeName) && g[i].subElements != 0 && Depth(g, i) < 3
  }

  lemma {:induction false} ExpandIsWellExpanded(g: seq<Symbol>, i: nat, members: seq<Member>)
    requires Preorder(g) && WellExpanded(g) && i < |g| && Eligible(g, i)
    ensures Preorder(Expand(g, i, members)) && WellExpanded(Expand(g, i, members))
  {
    ExpandIsPreorder(g, i, members);
    PointerIs(g[i].info.typeName);
    hide EndsInStar, IsPointer, Preorder;
    var r := Expand(g, i, members);
    forall y | 0 <= y < |r| && r[y].expanded
      ensures !EndsInStar(r[y].info.typeName) && r[y].subElements != 0 && Depth(r, y) < 3
    {
      var x := RowOrigin(g, i, members, y);
      ExpandKeepsSymbols(g, i, members, x);
      ExpandKeepsDepth(g, i, members, x);
    }
  }

  /** Only expanded symbols have members in the list. */
  ghost predicate ParentsExpanded(g: seq<Symbol>)
    requires Preorder(g)
  {
    forall j :: 0 <= j < |g| && g[j].parent >= 0 ==> g[g[j].parent].expanded
  }

  /** An expansion of a symbol gives it exactly the engine's members, in their order and yet to be expanded. */
  lemma {:induction false} ChildrenAreMembers(g: seq<Symbol>, i: nat, members: seq<Member>)
    requires Preorder(g) && ParentsExpanded(g) && i < |g| && !g[i].expanded
    ensures Preorder(Expand(g, i, members)) && ParentsExpanded(Expand(g, i, members))
    ensures var r := Expand(g, i, members);
            && (forall y :: 0 <= y < |r| ==> (r[y].parent == i <==> i < y <= i + |members|))
            && forall k :: 0 <= k < |members| ==>
                 && r[i + 1 + k].info == members[k].info && r[i + 1 + k].subElements == members[k].subElements
                 && !r[i + 1 + k].expanded
  {
    ExpandIsPreorder(g, i, members);
    var r := Expand(g, i, members);
    hide Expand;
    forall y | 0 <= y < |r|
      ensures r[y].parent == i <==> i < y <= i + |members|
      ensures r[y].parent >= 0 ==> r[r[y].parent].expanded
    {
      var x := RowOrigin(g, i, members, y);
      ExpandKeepsSymbols(g, i, members, i);
      if x >= 0 && g[x].parent >= 0 {
        ExpandKeepsSymbols(g, i, members, g[x].parent);
      }
    }
    forall k | 0 <= k < |members|
      ensures r[i + 1 + k] == Symbol(members[k].info, members[k].subElements, false, i)
    {
      assert r[i + 1 + k] == ExpandedRow(g, i, members, i + 1 + k);
    }
  }

  /** Worth asking the engine to expand. */
  predicate Eligible(g: seq<Symbol>, i: nat)
    requires i < |g| && forall x :: 0 <= x < |g| ==> g[x].parent < x
  {
    && !g[i].expanded && g[i].subElements != 0
    && Depth(g, i) < MAX_EXPANSION_DEPTH && !IsPointer(g[i].info.typeName)
  }

  /** Nothing more can be expanded: the budget is spent, or the engine refuses every eligible symbol. */
  ghost predicate Saturated(engine: Engine, g: seq<Symbol>)
    requires Preorder(g)
  {
    |g| == 0 || |g| >= MAX_EXPANDED_NODES || forall i :: 0 <= i < |g| && Eligible(g, i) ==> engine(g, i).None?
  }

  function Unexpanded(g: seq<Symbol>): nat {
    if g == [] then 0 else Unexpanded(g[..|g| - 1]) + (if g[|g| - 1].expanded then 0 else 1)
  }

  /** An expansion without members still uses the symbol up. */
  lemma {:induction false} EmptyExpansionUsesUp(g: seq<Symbol>, i: nat)
    requires i < |g| && !g[i].expanded
    ensures Unexpanded(g[i := g[i].(expanded := true)]) == Unexpanded(g) - 1
    decreases |g|
  {
    var n := |g| - 1;
    var r := g[i := g[i].(expanded := true)];
    if i == n {
      assert r[..n] == g[..n];
    } else {
      assert r[..n] == g[..n][i := g[i].(expanded := true)];
      EmptyExpansionUsesUp(g[..n], i);
    }
  }

  lemma {:induction false} EmptyExpansion(g: seq<Symbol>, i: nat)
    requires i < |g|
    ensures Expand(g, i, []) == g[i := g[i].(expanded := true)]
  {
    assert forall x :: 0 <= x < |g| ==> ExpandedRow(g, i, [], x) == g[i := g[i].(expanded := true)][x];
  }

  /** One scan: expand the first eligible symbol that the engine lets us expand. */
  method ExpandOne(engine: Engine, g: seq<Symbol>) returns (r: seq<Symbol>, expandedOne: bool)
    requires Preorder(g) && DepthWithin(g, MAX_EXPANSION_DEPTH)
    ensures Preorder(r) && DepthWithin(r, MAX_EXPANSION_DEPTH)
    ensures !expandedOne ==> r == g && forall i :: 0 <= i < |g| && Eligible(g, i) ==> engine(g, i).None?
    ensures expandedOne ==> |r| > |g| || (|r| == |g| && Unexpanded(r) < Unexpanded(g))
    ensures expandedOne ==> exists i, members :: 0 <= i < |g| && Eligible(g, i) && engine(g, i) == Some(members) && r == Expand(g, i, members)
                                                 && forall x :: 0 <= x < i && Eligible(g, x) ==> engine(g, x).None?
  {
    r, expandedOne := g, false;
    for i := 0 to |g|
      invariant r == g && !expandedOne
      invariant forall x :: 0 <= x < i && Eligible(g, x) ==> engine(g, x).None?
    {
      if g[i].expanded || g[i].subElements == 0 {
        continue;
      }
      var depth := SymbolDepth(g, i);
      if depth >= MAX_EXPANSION_DEPTH || IsPointer(g[i].info.typeName) {
        continue;
      }
      var answer := engine(g, i);
      if answer.Some? {
        r := Expand(g, i, answer.value);
        ExpandKeepsDepthWithin(g, i, answer.value, MAX_EXPANSION_DEPTH);
        if answer.value == [] {
          EmptyExpansion(g, i);
          EmptyExpansionUsesUp(g, i);
        }
        return r, true;
      }
    }
  }

  /** The expansion loop.  It ends because each round either adds nodes, of which there is a budget,
      or uses up a symbol; no node ends deeper than the limit. */
  method ExpandAll(engine: Engine, start: seq<Symbol>) returns (g: seq<Symbol>)
    requires Preorder(start) && DepthWithin(start, MAX_EXPANSION_DEPTH)
    ensures Preorder(g) && DepthWithin(g, 3)
    ensures Saturated(engine, g)
    ensures |g| == 0 || |g| >= 4096
            || forall i :: 0 <= i < |g| ==>
                 g[i].expanded || g[i].subElements == 0 || Depth(g, i) >= 3 || EndsInStar(g[i].info.typeName) || engine(g, i).None?
    ensures WellExpanded(start) ==> WellExpanded(g)
    ensures ParentsExpanded(start) ==> ParentsExpanded(g)
    ensures exists f: seq<nat> :: Keeps(f, start, g) && TopFrom(f, g)
  {
    hide Keeps, TopFrom, EndsInStar, IsPointer, Expand, MovedAll, Unexpanded, WellExpanded, ParentsExpanded, Identity;
    g := start;
    ghost var f := Identity(|g|);
    KeepsSelf(g);
    while true
      invariant Preorder(g) && DepthWithin(g, MAX_EXPANSION_DEPTH)
      invariant Keeps(f, start, g) && TopFrom(f, g)
      invariant WellExpanded(start) ==> WellExpanded(g)
      invariant ParentsExpanded(start) ==> ParentsExpanded(g)
      decreases if |g| < MAX_EXPANDED_NODES then MAX_EXPANDED_NODES - |g| else 0, Unexpanded(g)
    {
      if |g| == 0 || |g| >= MAX_EXPANDED_NODES {
        break;
      }
      var r, expandedOne := ExpandOne(engine, g);
      if !expandedOne {
        forall i | 0 <= i < |g|
          ensures g[i].expanded || g[i].subElements == 0 || Depth(g, i) >= 3 || EndsInStar(g[i].info.typeName) || engine(g, i).None?
        {
          PointerIs(g[i].info.typeName);
        }
        break;
      }
      ghost var i, members :| 0 <= i < |g| && Eligible(g, i) && engine(g, i) == Some(members) && r == Expand(g, i, members);
      KeepsExpand(f, start, g, i, members);
      TopFromExpand(f, g, i, members);
      if WellExpanded(start) {
        ExpandIsWellExpanded(g, i, members);
      }
      if ParentsExpanded(start) {
        ChildrenAreMembers(g, i, members);
      }
      f := MovedAll(f, i, |members|);
      g := r;
    }
  }

  // ----- Phase 2: the forest -----

  datatype Node = Node(info: Info, expandable: bool, children: seq<Node>)

  function Expandable(s: Symbol): bool {
    s.subElements != 0 && !s.expanded
  }

  /** The subtrees of the children of p with index lo or higher, in order. */
  function Subtrees(g: seq<Symbol>, p: int, lo: nat): seq<Node>
    requires lo <= |g|
    decreases |g| - lo, 1
  {
    if lo == |g| then []
    else (if g[lo].parent == p then [Subtree(g, lo)] else []) + Subtrees(g, p, lo + 1)
  }

  function Subtree(g: seq<Symbol>, j: nat): Node
    requires j < |g|
    decreases |g| - j, 0
  {
    Node(g[j].info, Expandable(g[j]), Subtrees(g, j, j + 1))
  }

  /** A node as it stands when the children from `lo` on have been moved into it. */
  function Partial(g: seq<Symbol>, j: nat, lo: nat): Node
    requires j < |g| && lo <= |g|
  {
    Node(g[j].info, Expandable(g[j]), Subtrees(g, j, lo))
  }

  lemma {:induction false} NoChildBelow(g: seq<Symbol>, p: int, lo: nat, hi: nat)
    requires lo <= hi <= |g| && forall c :: lo <= c < hi ==> g[c].parent != p
    ensures Subtrees(g, p, lo) == Subtrees(g, p, hi)
    decreases hi - lo
  {
    hide Subtree;
    if lo < hi {
      NoChildBelow(g, p, lo + 1, hi);
      assert Subtrees(g, p, lo) == [] + Subtrees(g, p, lo + 1);
    }
  }

  /** What moving node d into its parent does to each node's list of children. */
  lemma {:induction false} LinkOne(g: seq<Symbol>, d: nat, j: int)
    requires d < |g|
    ensures Subtrees(g, j, d) == (if g[d].parent == j then [Subtree(g, d)] else []) + Subtrees(g, j, d + 1)
    ensures g[d].parent != j ==> Subtrees(g, j, d) == Subtrees(g, j, d + 1)
  {
    hide Subtree;
    assert [] + Subtrees(g, j, d + 1) == Subtrees(g, j, d + 1);
  }

  /** A node that stands to be read: not yet moved into its parent. */
  predicate Standing(g: seq<Symbol>, j: nat, idx: nat)
    requires j < |g|
  {
    j < idx || g[j].parent < 0
  }

  /** Linking high to low: each node is moved, complete, to the front of its parent's children. */
  method Link(g: seq<Symbol>, nodes: array<Node>)
    requires Preorder(g) && nodes.Length == |g|
    requires forall j :: 0 <= j < |g| ==> nodes[j] == Node(g[j].info, Expandable(g[j]), [])
    modifies nodes
    ensures forall j :: 0 <= j < |g| && g[j].parent < 0 ==> nodes[j] == Partial(g, j, 0)
  {
    var count := |g|;
    var moved := Node(Info("", "", "", 0, 0), false, []);
    var idx := count;
    while idx > 0
      invariant 0 <= idx <= count
      invariant forall j :: 0 <= j < count && Standing(g, j, idx) ==> nodes[j] == Partial(g, j, idx)
    {
      idx := idx - 1;
      var parent := g[idx].parent;
      assert Standing(g, idx, idx + 1) && nodes[idx] == Subtree(g, idx);
      ghost var before := nodes[..];
      forall j | 0 <= j < count
        ensures Partial(g, j, idx).children ==
                (if parent == j then [Subtree(g, idx)] else []) + Partial(g, j, idx + 1).children
        ensures parent != j ==> Partial(g, j, idx) == Partial(g, j, idx + 1)
      {
        LinkOne(g, idx, j);
      }
      if parent >= 0 && parent < count {
        nodes[parent] := nodes[parent].(children := [nodes[idx]] + nodes[parent].children);
        nodes[idx] := moved;
      }
      forall j | 0 <= j < count && Standing(g, j, idx)
        ensures nodes[j] == Partial(g, j, idx)
      {
        assert Standing(g, j, idx + 1);
        assert before[j] == Partial(g, j, idx + 1);
      }
    }
  }

  /** Collecting the top level, in order. */
  method CollectRoots(g: seq<Symbol>, nodes: array<Node>) returns (roots: seq<Node>)
    requires Preorder(g) && nodes.Length == |g|
    requires forall j :: 0 <= j < |g| && g[j].parent < 0 ==> nodes[j] == Partial(g, j, 0)
    modifies nodes
    ensures roots == Subtrees(g, -1, 0)
  {
    hide Subtree;
    var moved := Node(Info("", "", "", 0, 0), false, []);
    roots := [];
    for i := 0 to |g|
      invariant roots + Subtrees(g, -1, i) == Subtrees(g, -1, 0)
      invariant forall j :: i <= j < |g| && g[j].parent < 0 ==> nodes[j] == Partial(g, j, 0)
    {
      LinkOne(g, i, -1);
      if g[i].parent == -1 {
        NoChildBelow(g, i, 0, i + 1);
        PartialIsSubtree(g, i);
        ghost var before := roots;
        roots := roots + [nodes[i]];
        nodes[i] := moved;
        assert before + ([Subtree(g, i)] + Subtrees(g, -1, i + 1)) == roots + Subtrees(g, -1, i + 1);
      }
    }
  }

  lemma {:induction false} PartialIsSubtree(g: seq<Symbol>, j: nat)
    requires j < |g| && Subtrees(g, j, 0) == Subtrees(g, j, j + 1)
    ensures Partial(g, j, 0) == Subtree(g, j)
  {
  }

  method Rebuild(g: seq<Symbol>) returns (roots: seq<Node>)
    requires Preorder(g)
    ensures roots == Subtrees(g, -1, 0)
  {
    var nodes := new Node[|g|](i requires 0 <= i < |g| => Node(g[i].info, Expandable(g[i]), []));
    Link(g, nodes);
    roots := CollectRoots(g, nodes);
  }

  // ----- The forest flattens back to the list -----

  /** What a symbol contributes to the tree, with the index of its parent. */
  datatype Row = Row(info: Info, expandable: bool, parent: int)

  function RowsOf(g: seq<Symbol>, lo: nat, hi: nat): (rows: seq<Row>)
    requires lo <= hi <= |g|
    ensures |rows| == hi - lo
  {
    seq(hi - lo, k requires 0 <= k < hi - lo => Row(g[lo + k].info, Expandable(g[lo + k]), g[lo + k].parent))
  }

  /** The preorder of a forest whose first node gets index `at` and whose roots hang under `parent`. */
  function Flatten(forest: seq<Node>, at: int, parent: int): seq<Row>
    decreases forest, 0
  {
    if forest == [] then []
    else
      var first := FlattenNode(forest[0], at, parent);
      first + Flatten(forest[1..], at + |first|, parent)
  }

  function FlattenNode(n: Node, at: int, parent: int): seq<Row>
    decreases n, 1
  {
    [Row(n.info, n.expandable, parent)] + Flatten(n.children, at + 1, at)
  }

  /** lo..hi is a whole number of subtrees of children of p. */
  ghost predicate Block(g: seq<Symbol>, p: int, lo: nat, hi: nat) {
    && -1 <= p < lo <= hi <= |g|
    && (forall i :: lo <= i < hi ==> g[i].parent >= p)
    && (lo < hi ==> g[lo].parent == p)
    && (hi < |g| ==> g[hi].parent < p)
  }

  /** The next child of p, or the end of the block. */
  function NextChild(g: seq<Symbol>, p: int, lo: nat, hi: nat): (k: nat)
    requires lo <= hi <= |g|
    ensures lo <= k <= hi && (k < hi ==> g[k].parent == p)
    ensures forall i :: lo <= i < k ==> g[i].parent != p
    decreases hi - lo
  {
    if lo == hi || g[lo].parent == p then lo else NextChild(g, p, lo + 1, hi)
  }

  /** A block is its first child with everything below that child, then a block again. */
  lemma {:induction false} BlockSplits(g: seq<Symbol>, p: int, lo: nat, hi: nat)
    requires Preorder(g) && Block(g, p, lo, hi) && lo < hi
    ensures var mid := NextChild(g, p, lo + 1, hi);
            Block(g, lo, lo + 1, mid) && Block(g, p, mid, hi)
  {
    var mid := NextChild(g, p, lo + 1, hi);
    forall i | lo + 1 <= i < mid
      ensures g[i].parent >= lo
    {
      assert g[i].parent > p;
    }
  }

  /** Nothing outside a block hangs under it. */
  lemma {:induction false} BlockIsClosed(g: seq<Symbol>, p: int, hi: nat, c: nat)
    requires Preorder(g) && -1 <= p < hi <= c < |g| && g[hi].parent < p
    ensures g[c].parent < p || g[c].parent >= hi
  {
  }

  /** Flattening the subtrees of a block gives exactly the rows of the block. */
  lemma {:induction false} BlockFlattens(g: seq<Symbol>, p: int, lo: nat, hi: nat)
    requires Preorder(g) && Block(g, p, lo, hi)
    ensures Flatten(Subtrees(g, p, lo), lo, p) == RowsOf(g, lo, hi)
    decreases hi - lo
  {
    if lo == hi {
      forall c | lo <= c < |g|
        ensures g[c].parent != p
      {
        BlockIsClosed(g, p, hi, c);
      }
      NoChildBelow(g, p, lo, |g|);
    } else {
      var mid := NextChild(g, p, lo + 1, hi);
      BlockSplits(g, p, lo, hi);
      BlockFlattens(g, lo, lo + 1, mid);
      BlockFlattens(g, p, mid, hi);
      NoChildBelow(g, p, lo + 1, mid);
      LinkOne(g, lo, p);
      FlattenFirst(g, p, lo, mid, hi);
    }
  }

  lemma {:induction false} FlattenFirst(g: seq<Symbol>, p: int, lo: nat, mid: nat, hi: nat)
    requires lo < mid <= hi <= |g| && g[lo].parent == p
    requires Subtrees(g, p, lo) == [Subtree(g, lo)] + Subtrees(g, p, mid)
    requires Flatten(Subtrees(g, lo, lo + 1), lo + 1, lo) == RowsOf(g, lo + 1, mid)
    requires Flatten(Subtrees(g, p, mid), mid, p) == RowsOf(g, mid, hi)
    ensures Flatten(Subtrees(g, p, lo), lo, p) == RowsOf(g, lo, hi)
  {
    hide Subtrees;
    var forest := Subtrees(g, p, lo);
    assert forest[0] == Subtree(g, lo) && forest[1..] == Subtrees(g, p, mid);
    var first := FlattenNode(forest[0], lo, p);
    assert first == [Row(g[lo].info, Expandable(g[lo]), p)] + RowsOf(g, lo + 1, mid);
    assert RowsOf(g, lo, hi) == first + RowsOf(g, mid, hi);
  }

  /** The rebuilt forest, read in preorder, is exactly the flat symbol list: every symbol once, in
      order, under the parent the engine gave it. */
  lemma {:induction false} ForestIsList(g: seq<Symbol>)
    requires Preorder(g)
    ensures Flatten(Subtrees(g, -1, 0), 0, -1) == RowsOf(g, 0, |g|)
  {
    BlockFlattens(g, -1, 0, |g|);
  }

  /** `get_locals_tree`: from the engine's top-level symbols to the forest handed to the server. */
  method LocalsForest(engine: Engine, start: seq<Symbol>) returns (g: seq<Symbol>, forest: seq<Node>)
    requires forall i :: 0 <= i < |start| ==> start[i].parent == -1
    ensures Preorder(g) && DepthWithin(g, 3) && Saturated(engine, g)
    ensures (forall i :: 0 <= i < |start| ==> !start[i].expanded) ==> WellExpanded(g)
    ensures ParentsExpanded(g)
    ensures exists f: seq<nat> :: Keeps(f, start, g) && TopFrom(f, g)
    ensures Flatten(forest, 0, -1) == RowsOf(g, 0, |g|)
    ensures forall i :: 0 <= i < |g| ==>
              Flatten(forest, 0, -1)[i] == Row(g[i].info, g[i].subElements != 0 && !g[i].expanded, g[i].parent)
  {
    g := ExpandAll(engine, start);
    forest := Rebuild(g);
    ForestIsList(g);
  }
}
