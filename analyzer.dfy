/** One document's analysis: a pre-order walk of its syntax tree driven by a tree cursor,
    feeding every node to the symbol analyzer and the root to the folding analyzer. */
module Analyzer {
  import opened Wrappers
  import opened Syntax
  import opened Protocol
  import opened RubyDocumentSymbol

  /** A parsed document: its syntax tree, through the root node. */
  datatype Tree = Tree(rootNode: Node)

  /** What is known about one document: its folding ranges and outline, when computed. */
  datatype Analysis = Analysis(
    uri: string,
    foldingRanges: Option<seq<FoldingRange>>,
    documentSymbols: Option<seq<DocumentSymbol>>)

  // ---------------------------------------------------------------------------------------
  // Tree cursor

  /** A cursor over a tree: its position is the path of child indices from the root. */
  class TreeCursor {
    const root: Node
    var path: seq<nat>

    ghost predicate Valid()
      reads this
    {
      ValidPath(root, path)
    }

    /** The node under the cursor. */
    function Current(): Node
      reads this
      requires Valid()
    {
      NodeAt(root, path)
    }

    constructor(root: Node)
      ensures Valid()
      ensures this.root == root && path == []
    {
      this.root := root;
      path := [];
    }

    method CurrentNode() returns (n: Node)
      requires Valid()
      ensures n == Current()
    {
      n := NodeAt(root, path);
    }

    /** Moves to the first child; fails, staying put, on a leaf. */
    method GotoFirstChild() returns (moved: bool)
      requires Valid()
      modifies this
      ensures Valid()
      ensures moved <==> old(Current()).children != []
      ensures moved ==> path == old(path) + [0] && Current() == old(Current()).children[0]
      ensures !moved ==> path == old(path)
    {
      NodeAtSnoc(root, path, 0);
      if |NodeAt(root, path).children| > 0 {
        path := path + [0];
        moved := true;
      } else {
        moved := false;
      }
    }

    /** Moves to the next sibling; fails, staying put, on the root and on a last child. */
    method GotoNextSibling() returns (moved: bool)
      requires Valid()
      modifies this
      ensures Valid()
      ensures old(path) == [] ==> !moved
      ensures old(path) != [] ==> (moved <==> ValidPath(root, NextSiblingPath(old(path))))
      ensures moved ==> path == NextSiblingPath(old(path))
      ensures !moved ==> path == old(path)
    {
      if path == [] {
        return false;
      }
      var parent := ParentPath(path);
      var i := path[|path| - 1];
      ValidPathPrefix(root, path, |path| - 1);
      NodeAtSnoc(root, parent, i + 1);
      if i + 1 < |NodeAt(root, parent).children| {
        path := parent + [i + 1];
        moved := true;
      } else {
        moved := false;
      }
    }

    /** Moves to the parent; fails, staying put, on the root. */
    method GotoParent() returns (moved: bool)
      requires Valid()
      modifies this
      ensures Valid()
      ensures moved <==> old(path) != []
      ensures moved ==> path == ParentPath(old(path))
      ensures !moved ==> path == old(path)
    {
      if path == [] {
        return false;
      }
      ValidPathPrefix(root, path, |path| - 1);
      path := ParentPath(path);
      moved := true;
    }
  }

  /** The position of the parent: the path without its last step. */
  function ParentPath(p: seq<nat>): (r: seq<nat>)
    requires p != []
    ensures |r| == |p| - 1 && r == p[..|p| - 1]
  {
    p[..|p| - 1]
  }

  /** The position of the next sibling: the last step moved one to the right. */
  function NextSiblingPath(p: seq<nat>): (r: seq<nat>)
    requires p != []
    ensures |r| == |p| && ParentPath(r) == ParentPath(p) && r[|r| - 1] == p[|p| - 1] + 1
  {
    ParentPath(p) + [p[|p| - 1] + 1]
  }

  /** From the `k`-th child of the node at `p`, the parent is at `p` and the next sibling, if
      any, is the `k + 1`-th child. */
  lemma ChildSteps(n: Node, p: seq<nat>, k: nat)
    requires ValidPath(n, p)
    ensures ParentPath(p + [k]) == p
    ensures NextSiblingPath(p + [k]) == p + [k + 1]
    ensures ValidPath(n, p + [k]) <==> k < |NodeAt(n, p).children|
    ensures ValidPath(n, p + [k + 1]) <==> k + 1 < |NodeAt(n, p).children|
    ensures k < |NodeAt(n, p).children| ==> NodeAt(n, p + [k]) == NodeAt(n, p).children[k]
  {
    assert (p + [k])[..|p|] == p;
    NodeAtSnoc(n, p, k);
    NodeAtSnoc(n, p, k + 1);
  }

  /** Visiting the `k`-th child's subtree after `before` leaves the later children's subtrees
      to visit. */
  lemma VisitStep(node: Node, k: nat, before: seq<Node>, after: seq<Node>)
    requires k < |node.children|
    requires after == before + PreOrder(node.children[k])
    ensures after + ChildrenFrom(node, k + 1) == before + ChildrenFrom(node, k)
  {
  }

  /** Visiting a node leaves its children's subtrees to visit; once none are left, its whole
      subtree has been visited. */
  lemma VisitStartEnd(node: Node, before: seq<Node>)
    ensures before + [node] + ChildrenFrom(node, 0) == before + PreOrder(node)
    ensures ChildrenFrom(node, |node.children|) == []
  {
  }

  // ---------------------------------------------------------------------------------------
  // Sub-analyzers

  /** The results of `f` on each node, concatenated in order. */
  function Collect<T>(f: Node -> seq<T>, nodes: seq<Node>): seq<T>
  {
    if nodes == [] then []
    else Collect(f, nodes[..|nodes| - 1]) + f(nodes[|nodes| - 1])
  }

  /** Collecting over two runs of nodes one after the other yields their results one after
      the other. */
  lemma {:induction false} CollectConcat<T>(f: Node -> seq<T>, a: seq<Node>, b: seq<Node>)
    ensures Collect(f, a + b) == Collect(f, a) + Collect(f, b)
    decreases |b|
  {
    if b == [] {
      assert a + b == a;
    } else {
      var b' := b[..|b| - 1];
      assert (a + b)[..|a + b| - 1] == a + b';
      assert (a + b)[|a + b| - 1] == b[|b| - 1];
      CollectConcat(f, a, b');
    }
  }

  /** Every collected result comes from one of the nodes. */
  lemma {:induction false} CollectFrom<T>(f: Node -> seq<T>, nodes: seq<Node>, x: T)
    requires x in Collect(f, nodes)
    ensures exists n :: n in nodes && x in f(n)
    decreases |nodes|
  {
    var init := nodes[..|nodes| - 1];
    if x in Collect(f, init) {
      CollectFrom(f, init, x);
      var n :| n in init && x in f(n);
      assert n in nodes;
    }
  }

  /** `AsList` after `BuildOf`, named so that it can be passed to `Collect`. */
  function NodeSymbols(node: Node): seq<DocumentSymbol>
  {
    AsList(BuildOf(node))
  }

  /** The outline of the visited nodes: each node's symbols, flattened, in visit order. */
  function SymbolsOf(nodes: seq<Node>): seq<DocumentSymbol>
  {
    Collect(NodeSymbols, nodes)
  }

  /** The outline symbols of a run of build results, flattened in order. */
  function Flatten(built: seq<Built>): seq<DocumentSymbol>
  {
    if built == [] then []
    else Flatten(built[..|built| - 1]) + AsList(built[|built| - 1])
  }

  /** Appending a build result appends its symbols to the flattened outline. */
  lemma FlattenSnoc(built: seq<Built>, b: Built)
    ensures Flatten(built + [b]) == Flatten(built) + AsList(b)
  {
    assert (built + [b])[..|built|] == built;
  }

  /** `built` records, position by position, what the builder made of `nodes`. */
  ghost predicate BuiltFrom(nodes: seq<Node>, built: seq<Built>)
  {
    && |built| == |nodes|
    && (forall i {:trigger BuildOf(nodes[i])} :: 0 <= i < |nodes| ==> built[i] == BuildOf(nodes[i]))
  }

  /** Recording one more node with its build result keeps the record. */
  lemma BuiltFromSnoc(nodes: seq<Node>, built: seq<Built>, node: Node, b: Built)
    requires BuiltFrom(nodes, built)
    requires b == BuildOf(node)
    ensures BuiltFrom(nodes + [node], built + [b])
  {
    forall i | 0 <= i < |nodes + [node]|
      ensures (built + [b])[i] == BuildOf((nodes + [node])[i])
    {
      if i < |nodes| {
        assert (nodes + [node])[i] == nodes[i];
        assert (built + [b])[i] == built[i];
        assert built[i] == BuildOf(nodes[i]);
      }
    }
  }

  /** Flattening the nodes' build results gives the outline of the nodes. */
  lemma {:induction false} FlattenBuilt(nodes: seq<Node>, built: seq<Built>)
    requires |built| == |nodes|
    requires forall i :: 0 <= i < |nodes| ==> built[i] == BuildOf(nodes[i])
    ensures Flatten(built) == SymbolsOf(nodes)
    decreases |nodes|
  {
    if nodes != [] {
      FlattenBuilt(nodes[..|nodes| - 1], built[..|built| - 1]);
      assert AsList(built[|built| - 1]) == NodeSymbols(nodes[|nodes| - 1]);
    }
  }

  /** The walk's visit order is the pre-order of positions: the `i`-th visited node is the
      one at the `i`-th position, every position is visited, none twice, ancestors before
      descendants and left subtrees before right ones. */
  lemma WalkOrder(root: Node)
    ensures |PreOrder(root)| == |Paths(root)|
    ensures forall i :: 0 <= i < |Paths(root)| ==>
      ValidPath(root, Paths(root)[i]) && NodeAt(root, Paths(root)[i]) == PreOrder(root)[i]
    ensures forall p :: ValidPath(root, p) ==> p in Paths(root)
    ensures StrictlySorted(Paths(root))
  {
    PreOrderIsNodesAtPaths(root);
    PathsSorted(root);
    forall p | ValidPath(root, p) ensures p in Paths(root) {
      PathsComplete(root, p);
    }
  }

  /** For a well-nested tree, every symbol of its outline lies within the document and
      selects a part of its own range. */
  lemma OutlineWithinDocument(root: Node)
    requires WellNested(root)
    ensures forall s :: s in SymbolsOf(PreOrder(root)) ==>
      RangeWithin(s.range, NodeRange(root)) && RangeWithin(s.selectionRange, s.range)
  {
    PreOrderWithin(root);
    forall s | s in SymbolsOf(PreOrder(root))
      ensures RangeWithin(s.range, NodeRange(root)) && RangeWithin(s.selectionRange, s.range)
    {
      CollectFrom(NodeSymbols, PreOrder(root), s);
      var n :| n in PreOrder(root) && s in NodeSymbols(n);
      SelectionWithinRange(n);
      NodeRangeWithin(n, root);
    }
  }

  /** The symbol analyzer: collects the outline symbols of every node it is given. */
  class DocumentSymbolAnalyzer {
    var symbols: seq<DocumentSymbol>
    /** The nodes the analyzer has been given, in order, and what the builder made of each. */
    ghost var invokedOn: seq<Node>
    ghost var built: seq<Built>

    ghost predicate Valid()
      reads this
    {
      && BuiltFrom(invokedOn, built)
      && symbols == Flatten(built)
    }

    /** The collected symbols are the outline of the nodes given so far. */
    lemma SymbolsOfInvoked()
      requires Valid()
      ensures symbols == SymbolsOf(invokedOn)
    {
      FlattenBuilt(invokedOn, built);
    }

    constructor()
      ensures Valid()
      ensures symbols == [] && invokedOn == []
    {
      symbols := [];
      invokedOn := [];
      built := [];
    }

    method Analyze(node: Node)
      requires Valid()
      modifies this
      ensures Valid()
      ensures invokedOn == old(invokedOn) + [node]
      ensures symbols == old(symbols) + AsList(BuildOf(node))
    {
      var b := Build(node);
      FlattenSnoc(built, b);
      BuiltFromSnoc(invokedOn, built, node, b);
      symbols := symbols + AsList(b);
      invokedOn := invokedOn + [node];
      built := built + [b];
    }
  }

  /** The folding analyzer: the ranges it derives for a node are given by `derive`. */
  class FoldingRangeAnalyzer {
    const derive: Node -> seq<FoldingRange>
    var foldingRanges: seq<FoldingRange>
    /** The nodes the analyzer has been given, in order. */
    ghost var invokedOn: seq<Node>

    ghost predicate Valid()
      reads this
    {
      foldingRanges == Collect(derive, invokedOn)
    }

    constructor(derive: Node -> seq<FoldingRange>)
      ensures Valid()
      ensures this.derive == derive && foldingRanges == [] && invokedOn == []
    {
      this.derive := derive;
      foldingRanges := [];
      invokedOn := [];
    }

    method Analyze(node: Node)
      requires Valid()
      modifies this
      ensures Valid()
      ensures invokedOn == old(invokedOn) + [node]
      ensures foldingRanges == old(foldingRanges) + derive(node)
    {
      foldingRanges := foldingRanges + derive(node);
      invokedOn := invokedOn + [node];
      assert invokedOn[..|invokedOn| - 1] == old(invokedOn);
    }
  }

  // ---------------------------------------------------------------------------------------
  // Analyzer

  class Analyzer {
    const uri: string
    const foldingRangeAnalyzer: FoldingRangeAnalyzer
    const documentSymbolAnalyzer: DocumentSymbolAnalyzer

    ghost predicate Valid()
      reads this, foldingRangeAnalyzer, documentSymbolAnalyzer
    {
      foldingRangeAnalyzer.Valid() && documentSymbolAnalyzer.Valid()
    }

    /** `derive` stands for the folding analyzer's language-specific derivation. */
    constructor(uri: string, derive: Node -> seq<FoldingRange>)
      ensures Valid()
      ensures this.uri == uri && foldingRangeAnalyzer.derive == derive
      ensures fresh(foldingRangeAnalyzer) && fresh(documentSymbolAnalyzer)
      ensures foldingRangeAnalyzer.invokedOn == [] && documentSymbolAnalyzer.invokedOn == []
      ensures foldingRangeAnalyzer.foldingRanges == [] && documentSymbolAnalyzer.symbols == []
    {
      this.uri := uri;
      foldingRangeAnalyzer := new FoldingRangeAnalyzer(derive);
      documentSymbolAnalyzer := new DocumentSymbolAnalyzer();
    }

    /** The analysis so far: the document's uri with both sub-analyzers' current results. */
    function CurrentAnalysis(): (a: Analysis)
      reads this, foldingRangeAnalyzer, documentSymbolAnalyzer
      ensures a.uri == uri
      ensures a.foldingRanges == Some(foldingRangeAnalyzer.foldingRanges)
      ensures a.documentSymbols == Some(documentSymbolAnalyzer.symbols)
    {
      Analysis(uri, Some(foldingRangeAnalyzer.foldingRanges), Some(documentSymbolAnalyzer.symbols))
    }

    /** Runs the folding analyzer on the root and the symbol analyzer on every node in
        pre-order, then reports the analysis. */
    method Analyze(tree: Tree) returns (a: Analysis)
      requires Valid()
      modifies foldingRangeAnalyzer, documentSymbolAnalyzer
      ensures Valid()
      ensures a == CurrentAnalysis()
      ensures foldingRangeAnalyzer.invokedOn == old(foldingRangeAnalyzer.invokedOn) + [tree.rootNode]
      ensures documentSymbolAnalyzer.invokedOn == old(documentSymbolAnalyzer.invokedOn) + PreOrder(tree.rootNode)
      ensures foldingRangeAnalyzer.foldingRanges ==
        old(foldingRangeAnalyzer.foldingRanges) + foldingRangeAnalyzer.derive(tree.rootNode)
      ensures documentSymbolAnalyzer.symbols ==
        old(documentSymbolAnalyzer.symbols) + SymbolsOf(PreOrder(tree.rootNode))
    {
      documentSymbolAnalyzer.SymbolsOfInvoked();
      foldingRangeAnalyzer.Analyze(tree.rootNode);
      var cursor := new TreeCursor(tree.rootNode);
      Walk(cursor, 0);
      documentSymbolAnalyzer.SymbolsOfInvoked();
      CollectConcat(NodeSymbols, old(documentSymbolAnalyzer.invokedOn), PreOrder(tree.rootNode));
      a := CurrentAnalysis();
    }

    /** Visits the subtree under the cursor: the node itself, then each child's subtree left
        to right, leaving the cursor where it started. */
    method Walk(cursor: TreeCursor, depth: nat)
      requires cursor.Valid() && documentSymbolAnalyzer.Valid()
      modifies cursor, documentSymbolAnalyzer
      ensures cursor.Valid() && documentSymbolAnalyzer.Valid()
      ensures cursor.path == old(cursor.path)
      ensures documentSymbolAnalyzer.invokedOn ==
        old(documentSymbolAnalyzer.invokedOn) + PreOrder(old(cursor.Current()))
      decreases cursor.Current()
    {
      var node := cursor.CurrentNode();
      ghost var start := cursor.path;
      assert node == NodeAt(cursor.root, start);
      VisitStartEnd(node, documentSymbolAnalyzer.invokedOn);
      AnalyzeNode(node);
      var moved := cursor.GotoFirstChild();
      if moved {
        ghost var k := 0;
        var more := true;
        while more
          invariant cursor.Valid() && documentSymbolAnalyzer.Valid()
          invariant k < |node.children| && cursor.path == start + [k]
          invariant !more ==> k == |node.children| - 1
          invariant documentSymbolAnalyzer.invokedOn + ChildrenFrom(node, if more then k else k + 1) ==
            old(documentSymbolAnalyzer.invokedOn) + PreOrder(node)
          decreases |node.children| - k, more
        {
          ChildSteps(cursor.root, start, k);
          ghost var before := documentSymbolAnalyzer.invokedOn;
          Walk(cursor, depth + 1);
          VisitStep(node, k, before, documentSymbolAnalyzer.invokedOn);
          more := cursor.GotoNextSibling();
          if more {
            k := k + 1;
          }
        }
        ChildSteps(cursor.root, start, k);
        var _ := cursor.GotoParent();
      }
    }

    method AnalyzeNode(node: Node)
      requires documentSymbolAnalyzer.Valid()
      modifies documentSymbolAnalyzer
      ensures documentSymbolAnalyzer.Valid()
      ensures documentSymbolAnalyzer.invokedOn == old(documentSymbolAnalyzer.invokedOn) + [node]
    {
      documentSymbolAnalyzer.Analyze(node);
    }
  }
}
