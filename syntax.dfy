/** Syntax trees as the language server borrows them from the parser: every node has a kind
    tag, start and end points, its slice of source text, its ordered children (named and
    anonymous alike, as a tree cursor visits them) and a flag saying whether it is named.

    Positions inside a tree are paths: the child indices leading from the root to a node.
    `PreOrder` lists the nodes of a tree in the order a depth-first, parent-first walk meets
    them, and `Paths` lists the same positions; the lemmas below show that `Paths` names
    every position exactly once, in pre-order. */
module Syntax {

  /** A parser coordinate: zero-based row and column. */
  datatype Point = Point(row: nat, column: nat)

  datatype Node = Node(
    kind: string,
    start: Point,
    end: Point,
    text: string,
    children: seq<Node>,
    isNamed: bool)

  predicate PointLe(a: Point, b: Point) {
    a.row < b.row || (a.row == b.row && a.column <= b.column)
  }

  /** `inner` starts no earlier and ends no later than `outer`. */
  predicate NodeWithin(inner: Node, outer: Node) {
    PointLe(outer.start, inner.start) && PointLe(inner.end, outer.end)
  }

  /** The parser's nesting guarantee: every child lies within its parent, all the way down. */
  predicate WellNested(n: Node)
    decreases n
  {
    forall i :: 0 <= i < |n.children| ==>
      NodeWithin(n.children[i], n) && WellNested(n.children[i])
  }

  // ---------------------------------------------------------------------------------------
  // Named children

  /** The named members of `cs`, in order. */
  function Named(cs: seq<Node>): (r: seq<Node>)
    ensures |r| <= |cs|
    ensures forall c :: c in r <==> c in cs && c.isNamed
  {
    if cs == [] then []
    else (if cs[0].isNamed then [cs[0]] else []) + Named(cs[1..])
  }

  /** The node's named children, in source order. */
  function NamedChildren(n: Node): seq<Node> {
    Named(n.children)
  }

  // ---------------------------------------------------------------------------------------
  // Pre-order

  /** The subtree rooted at `n`, parent first, then each child's subtree left to right. */
  function PreOrder(n: Node): seq<Node>
    decreases n, 1, 0
  {
    [n] + ChildrenFrom(n, 0)
  }

  /** The subtrees of the children of `n` from index `k` on, in pre-order. */
  function ChildrenFrom(n: Node, k: nat): seq<Node>
    decreases n, 0, |n.children| - k
  {
    if k >= |n.children| then []
    else PreOrder(n.children[k]) + ChildrenFrom(n, k + 1)
  }

  /** The proper descendants of `n` in pre-order. */
  function Descendants(n: Node): seq<Node> {
    ChildrenFrom(n, 0)
  }

  /** The members of `s` of kind `t`, in order. */
  function OfKind(s: seq<Node>, t: string): (r: seq<Node>)
    ensures |r| <= |s|
    ensures forall d :: d in r <==> d in s && d.kind == t
  {
    if s == [] then []
    else (if s[0].kind == t then [s[0]] else []) + OfKind(s[1..], t)
  }

  /** The proper descendants of `n` of kind `t`, in pre-order. */
  function DescendantsOfType(n: Node, t: string): seq<Node> {
    OfKind(Descendants(n), t)
  }

  /** The head of `OfKind(s, t)` is the earliest member of `s` of kind `t`. */
  lemma {:induction false} OfKindHead(s: seq<Node>, t: string, i: nat)
    requires i < |s| && s[i].kind == t
    requires forall j :: 0 <= j < i ==> s[j].kind != t
    ensures OfKind(s, t) != [] && OfKind(s, t)[0] == s[i]
  {
    if i > 0 {
      OfKindHead(s[1..], t, i - 1);
    }
  }

  /** `OfKind(s, t)` is empty exactly when no member of `s` has kind `t`. */
  lemma OfKindEmpty(s: seq<Node>, t: string)
    ensures OfKind(s, t) == [] <==> forall j :: 0 <= j < |s| ==> s[j].kind != t
  {
    if OfKind(s, t) != [] {
      assert OfKind(s, t)[0] in OfKind(s, t);
    } else {
      forall j | 0 <= j < |s| ensures s[j].kind != t {
        assert s[j] in s;
      }
    }
  }

  // ---------------------------------------------------------------------------------------
  // Nesting carries over to descendants

  lemma PointLeTrans(a: Point, b: Point, c: Point)
    requires PointLe(a, b) && PointLe(b, c)
    ensures PointLe(a, c)
  {
  }

  /** Every node of a well-nested subtree lies within its root and is well nested itself. */
  lemma {:induction false} PreOrderWithin(n: Node)
    requires WellNested(n)
    ensures forall d :: d in PreOrder(n) ==> NodeWithin(d, n) && WellNested(d)
    decreases n, 1, 0
  {
    ChildrenFromWithin(n, 0);
  }

  lemma {:induction false} ChildrenFromWithin(n: Node, k: nat)
    requires WellNested(n)
    ensures forall d :: d in ChildrenFrom(n, k) ==> NodeWithin(d, n) && WellNested(d)
    decreases n, 0, |n.children| - k
  {
    if k < |n.children| {
      var c := n.children[k];
      PreOrderWithin(c);
      ChildrenFromWithin(n, k + 1);
      forall d | d in PreOrder(c) ensures NodeWithin(d, n) && WellNested(d) {
        PointLeTrans(n.start, c.start, d.start);
        PointLeTrans(d.end, c.end, n.end);
      }
    }
  }

  /** Every descendant of a well-nested node lies within it and is well nested itself. */
  lemma DescendantsWithin(n: Node)
    requires WellNested(n)
    ensures forall d :: d in Descendants(n) ==> NodeWithin(d, n) && WellNested(d)
  {
    ChildrenFromWithin(n, 0);
  }

  // ---------------------------------------------------------------------------------------
  // Paths

  /** `p` leads from `n` to a node of its subtree. */
  predicate ValidPath(n: Node, p: seq<nat>)
    decreases |p|
  {
    p == [] || (p[0] < |n.children| && ValidPath(n.children[p[0]], p[1..]))
  }

  /** The node that `p` leads to. */
  function NodeAt(n: Node, p: seq<nat>): Node
    requires ValidPath(n, p)
    decreases |p|
  {
    if p == [] then n else NodeAt(n.children[p[0]], p[1..])
  }

  /** Extending a path by one step moves to a child of the node it led to. */
  lemma {:induction false} NodeAtSnoc(n: Node, p: seq<nat>, i: nat)
    requires ValidPath(n, p)
    ensures ValidPath(n, p + [i]) <==> i < |NodeAt(n, p).children|
    ensures ValidPath(n, p + [i]) ==> NodeAt(n, p + [i]) == NodeAt(n, p).children[i]
    decreases |p|
  {
    if p != [] {
      assert (p + [i])[1..] == p[1..] + [i];
      NodeAtSnoc(n.children[p[0]], p[1..], i);
    } else {
      assert [i][1..] == [];
    }
  }

  /** Every prefix of a valid path is valid. */
  lemma {:induction false} ValidPathPrefix(n: Node, p: seq<nat>, k: nat)
    requires ValidPath(n, p) && k <= |p|
    ensures ValidPath(n, p[..k])
    decreases |p|
  {
    if k > 0 {
      assert p[..k][1..] == p[1..][..k - 1];
      ValidPathPrefix(n.children[p[0]], p[1..], k - 1);
    }
  }

  /** Every path to a node of the subtree of `n`, in pre-order. */
  function Paths(n: Node): seq<seq<nat>>
    decreases n, 1, 0
  {
    [[]] + ChildPaths(n, 0)
  }

  /** The paths into the subtrees of the children of `n` from index `k` on. */
  function ChildPaths(n: Node, k: nat): seq<seq<nat>>
    decreases n, 0, |n.children| - k
  {
    if k >= |n.children| then []
    else Prepend(k, Paths(n.children[k])) + ChildPaths(n, k + 1)
  }

  function Prepend(k: nat, ps: seq<seq<nat>>): (r: seq<seq<nat>>)
    ensures |r| == |ps|
    ensures forall i :: 0 <= i < |ps| ==> r[i] == [k] + ps[i]
  {
    seq(|ps|, i requires 0 <= i < |ps| => [k] + ps[i])
  }

  /** `PreOrder(n)` lists exactly the nodes at `Paths(n)`, position by position. */
  lemma {:induction false} PreOrderIsNodesAtPaths(n: Node)
    ensures |Paths(n)| == |PreOrder(n)|
    ensures forall i :: 0 <= i < |Paths(n)| ==>
      ValidPath(n, Paths(n)[i]) && NodeAt(n, Paths(n)[i]) == PreOrder(n)[i]
    decreases n, 1, 0
  {
    ChildPathsAreChildrenFrom(n, 0);
  }

  lemma {:induction false} ChildPathsAreChildrenFrom(n: Node, k: nat)
    ensures |ChildPaths(n, k)| == |ChildrenFrom(n, k)|
    ensures forall i :: 0 <= i < |ChildPaths(n, k)| ==>
      ValidPath(n, ChildPaths(n, k)[i]) && NodeAt(n, ChildPaths(n, k)[i]) == ChildrenFrom(n, k)[i]
    decreases n, 0, |n.children| - k
  {
    if k < |n.children| {
      var c := n.children[k];
      PreOrderIsNodesAtPaths(c);
      ChildPathsAreChildrenFrom(n, k + 1);
      var head := Prepend(k, Paths(c));
      forall i | 0 <= i < |ChildPaths(n, k)|
        ensures ValidPath(n, ChildPaths(n, k)[i]) && NodeAt(n, ChildPaths(n, k)[i]) == ChildrenFrom(n, k)[i]
      {
        if i < |head| {
          var p := head[i];
          assert p[0] == k && p[1..] == Paths(c)[i];
        }
      }
    }
  }

  /** Every valid path occurs in `Paths(n)`. */
  lemma {:induction false} PathsComplete(n: Node, p: seq<nat>)
    requires ValidPath(n, p)
    ensures p in Paths(n)
    decreases n, 1, 0
  {
    if p != [] {
      ChildPathsContain(n, 0, p);
    }
  }

  lemma {:induction false} ChildPathsContain(n: Node, k: nat, p: seq<nat>)
    requires p != [] && ValidPath(n, p) && k <= p[0]
    ensures p in ChildPaths(n, k)
    decreases n, 0, |n.children| - k
  {
    if k == p[0] {
      var c := n.children[k];
      PathsComplete(c, p[1..]);
      var i :| 0 <= i < |Paths(c)| && Paths(c)[i] == p[1..];
      assert Prepend(k, Paths(c))[i] == p;
    } else {
      ChildPathsContain(n, k + 1, p);
    }
  }

  // ---------------------------------------------------------------------------------------
  // Pre-order on paths

  /** The pre-order on positions: a proper prefix (an ancestor) comes first, and otherwise
      the path that turns to the lower child index at the first difference comes first. */
  predicate PathBefore(p: seq<nat>, q: seq<nat>)
    decreases |p|
  {
    if p == [] then q != []
    else q != [] && (p[0] < q[0] || (p[0] == q[0] && PathBefore(p[1..], q[1..])))
  }

  predicate StrictlySorted(ps: seq<seq<nat>>) {
    forall i, j :: 0 <= i < j < |ps| ==> PathBefore(ps[i], ps[j])
  }

  lemma {:induction false} PathBeforeIrreflexive(p: seq<nat>)
    ensures !PathBefore(p, p)
    decreases |p|
  {
    if p != [] { PathBeforeIrreflexive(p[1..]); }
  }

  lemma {:induction false} PathBeforeAsymmetric(p: seq<nat>, q: seq<nat>)
    requires PathBefore(p, q)
    ensures !PathBefore(q, p)
    decreases |p|
  {
    if p != [] && p[0] == q[0] { PathBeforeAsymmetric(p[1..], q[1..]); }
  }

  /** An ancestor's position comes before each of its descendants' positions. */
  lemma {:induction false} AncestorBefore(p: seq<nat>, r: seq<nat>)
    requires r != []
    ensures PathBefore(p, p + r)
    decreases |p|
  {
    if p != [] {
      assert (p + r)[1..] == p[1..] + r;
      AncestorBefore(p[1..], r);
    }
  }

  /** Below a common ancestor, everything under a left sibling comes before everything
      under a right sibling. */
  lemma {:induction false} LeftSiblingBefore(q: seq<nat>, a: nat, b: nat, r: seq<nat>, s: seq<nat>)
    requires a < b
    ensures PathBefore(q + [a] + r, q + [b] + s)
    decreases |q|
  {
    if q != [] {
      assert (q + [a] + r)[1..] == q[1..] + [a] + r;
      assert (q + [b] + s)[1..] == q[1..] + [b] + s;
      LeftSiblingBefore(q[1..], a, b, r, s);
    }
  }

  lemma PrependSorted(k: nat, ps: seq<seq<nat>>)
    requires StrictlySorted(ps)
    ensures StrictlySorted(Prepend(k, ps))
  {
    forall i, j | 0 <= i < j < |ps| ensures PathBefore(Prepend(k, ps)[i], Prepend(k, ps)[j]) {
      assert ([k] + ps[i])[1..] == ps[i];
      assert ([k] + ps[j])[1..] == ps[j];
    }
  }

  lemma ConcatSorted(a: seq<seq<nat>>, b: seq<seq<nat>>)
    requires StrictlySorted(a) && StrictlySorted(b)
    requires forall i, j :: 0 <= i < |a| && 0 <= j < |b| ==> PathBefore(a[i], b[j])
    ensures StrictlySorted(a + b)
  {
    forall i, j | 0 <= i < j < |a + b| ensures PathBefore((a + b)[i], (a + b)[j]) {
      if j < |a| {
        assert (a + b)[i] == a[i] && (a + b)[j] == a[j];
      } else if i < |a| {
        assert (a + b)[i] == a[i] && (a + b)[j] == b[j - |a|];
      } else {
        assert (a + b)[i] == b[i - |a|] && (a + b)[j] == b[j - |a|];
      }
    }
  }

  /** `Paths(n)` is strictly sorted in pre-order: no position is listed twice, every
      ancestor precedes its descendants and left subtrees precede right ones. */
  lemma {:induction false} PathsSorted(n: Node)
    ensures StrictlySorted(Paths(n))
    decreases n, 1, 0
  {
    ChildPathsSorted(n, 0);
    ConcatSorted([[]], ChildPaths(n, 0));
  }

  lemma {:induction false} ChildPathsSorted(n: Node, k: nat)
    ensures StrictlySorted(ChildPaths(n, k))
    ensures forall p :: p in ChildPaths(n, k) ==> p != [] && k <= p[0]
    decreases n, 0, |n.children| - k
  {
    if k < |n.children| {
      var head := Prepend(k, Paths(n.children[k]));
      var tail := ChildPaths(n, k + 1);
      PathsSorted(n.children[k]);
      PrependSorted(k, Paths(n.children[k]));
      ChildPathsSorted(n, k + 1);
      forall i, j | 0 <= i < |head| && 0 <= j < |tail| ensures PathBefore(head[i], tail[j]) {
        assert tail[j] in tail;
      }
      ConcatSorted(head, tail);
      forall p | p in head + tail ensures p != [] && k <= p[0] {
        if p in head {
          var i :| 0 <= i < |head| && head[i] == p;
        }
      }
    }
  }

  /** Each position occurs in `Paths(n)` exactly once. */
  lemma PathsDistinct(n: Node)
    ensures forall i, j :: 0 <= i < j < |Paths(n)| ==> Paths(n)[i] != Paths(n)[j]
  {
    PathsSorted(n);
    forall i, j | 0 <= i < j < |Paths(n)| ensures Paths(n)[i] != Paths(n)[j] {
      PathBeforeIrreflexive(Paths(n)[i]);
    }
  }

  /** In `Paths(n)`, an ancestor's position is listed before its descendants'. */
  lemma ParentBeforeDescendants(n: Node, i: nat, j: nat, r: seq<nat>)
    requires i < |Paths(n)| && j < |Paths(n)|
    requires r != [] && Paths(n)[j] == Paths(n)[i] + r
    ensures i < j
  {
    PathsSorted(n);
    AncestorBefore(Paths(n)[i], r);
    if j <= i {
      if j == i { PathBeforeIrreflexive(Paths(n)[i]); }
      else { PathBeforeAsymmetric(Paths(n)[j], Paths(n)[i]); }
    }
  }

  /** In `Paths(n)`, the subtree of a left sibling is listed before that of a right one. */
  lemma SiblingsLeftToRight(n: Node, i: nat, j: nat, q: seq<nat>, a: nat, b: nat, r: seq<nat>, s: seq<nat>)
    requires i < |Paths(n)| && j < |Paths(n)| && a < b
    requires Paths(n)[i] == q + [a] + r && Paths(n)[j] == q + [b] + s
    ensures i < j
  {
    PathsSorted(n);
    LeftSiblingBefore(q, a, b, r, s);
    if j <= i {
      if j == i { PathBeforeIrreflexive(Paths(n)[i]); }
      else { PathBeforeAsymmetric(Paths(n)[j], Paths(n)[i]); }
    }
  }
}
