/** Worked examples of the symbol builder on the tree shapes the Ruby grammar produces for
    small programs. Each example fixes the kinds and texts the builder looks at and leaves
    positions and the other texts free. */
module OutlineExamples {
  import opened Wrappers
  import opened Syntax
  import opened Protocol
  import opened RubyDocumentSymbol

  lemma LeafPreOrder(n: Node)
    requires n.children == []
    ensures PreOrder(n) == [n] && Descendants(n) == []
  {
  }

  /** When every child is a leaf, the descendants are just the children. */
  lemma {:induction false} LeafChildrenFrom(n: Node, k: nat)
    requires forall i :: 0 <= i < |n.children| ==> n.children[i].children == []
    requires k <= |n.children|
    ensures ChildrenFrom(n, k) == n.children[k..]
    decreases |n.children| - k
  {
    if k < |n.children| {
      LeafPreOrder(n.children[k]);
      LeafChildrenFrom(n, k + 1);
      assert n.children[k..] == [n.children[k]] + n.children[k + 1..];
    }
  }

  /** Among leaf children, the first descendant of a kind is the first child of that kind. */
  lemma FirstLeafOfKind(node: Node, t: string, i: nat)
    requires forall j :: 0 <= j < |node.children| ==> node.children[j].children == []
    requires i < |node.children| && node.children[i].kind == t
    requires forall j :: 0 <= j < i ==> node.children[j].kind != t
    ensures FirstOfType(node, t) == Some(node.children[i])
  {
    LeafChildrenFrom(node, 0);
    OfKindHead(Descendants(node), t, i);
  }

  /** Among leaf children none of a kind, no descendant has that kind. */
  lemma NoLeafOfKind(node: Node, t: string)
    requires forall j :: 0 <= j < |node.children| ==> node.children[j].children == []
    requires forall j :: 0 <= j < |node.children| ==> node.children[j].kind != t
    ensures FirstOfType(node, t) == None
  {
    LeafChildrenFrom(node, 0);
    OfKindEmpty(Descendants(node), t);
  }

  lemma NotAttrName(name: string)
    requires name != [] && name[0] != 'a'
    ensures !("attr_" <= name)
  {
    assert "attr_"[0] == 'a';
  }

  lemma StripLeadingColon(t: string)
    ensures StripColon(":" + t) == t
  {
    assert (":" + t)[1..] == t;
  }

  /** In `attr_reader :a, :b` the first identifier is the call's name and the first
      argument list is its arguments. */
  lemma AttrCallDescendants(node: Node, reader: Node, arguments: Node, a: Node, comma: Node, b: Node)
    requires node.kind == "method_call" && node.children == [reader, arguments]
    requires reader.kind == "identifier" && reader.children == []
    requires arguments.kind == "argument_list" && arguments.children == [a, comma, b]
    requires a.children == [] && comma.children == [] && b.children == []
    ensures FirstOfType(node, "identifier") == Some(reader)
    ensures FirstOfType(node, "argument_list") == Some(arguments)
  {
    LeafPreOrder(reader);
    LeafChildrenFrom(arguments, 0);
    assert ChildrenFrom(node, 2) == [];
    assert ChildrenFrom(node, 1) == PreOrder(arguments);
    assert Descendants(node) == [reader, arguments, a, comma, b];
    OfKindHead(Descendants(node), "identifier", 0);
    OfKindHead(Descendants(node), "argument_list", 1);
  }

  lemma NamedSkipsComma(a: Node, comma: Node, b: Node)
    requires a.isNamed && !comma.isNamed && b.isNamed
    ensures Named([a, comma, b]) == [a, b]
  {
    assert [a, comma, b][1..] == [comma, b] && [comma, b][1..] == [b] && [b][1..] == [];
    assert Named([b]) == [b];
    assert Named([comma, b]) == [b];
  }

  lemma AttrReaderSymbols(base: DocumentSymbol, a: Node, b: Node)
    requires a.text == ":a" && b.text == ":b"
    ensures AttrSymbols(base, [a, b]) == [
      base.(name := "a", selectionRange := NodeRange(a)),
      base.(name := "b", selectionRange := NodeRange(b))]
  {
    assert ":a" == ":" + "a" && ":b" == ":" + "b";
    StripLeadingColon("a");
    StripLeadingColon("b");
  }

  /** `attr_reader :a, :b` yields two Property symbols named `a` and `b`, each spanning the
      call and selecting its own argument. */
  lemma AttrReaderExample(node: Node, reader: Node, arguments: Node, a: Node, comma: Node, b: Node)
    requires node.kind == "method_call" && node.children == [reader, arguments]
    requires reader.kind == "identifier" && reader.text == "attr_reader" && reader.children == []
    requires arguments.kind == "argument_list" && arguments.children == [a, comma, b]
    requires a.isNamed && a.text == ":a" && a.children == []
    requires !comma.isNamed && comma.kind == "," && comma.children == []
    requires b.isNamed && b.text == ":b" && b.children == []
    ensures BuildOf(node) == Multiple([
      DocumentSymbol("a", SymbolKind.Property, NodeRange(node), NodeRange(a), []),
      DocumentSymbol("b", SymbolKind.Property, NodeRange(node), NodeRange(b), [])])
  {
    assert SymbolKindOf(node.kind) == Some(SymbolKind.Property);
    assert IdentifierNodeOf(node.kind) == Some("identifier");
    AttrCallDescendants(node, reader, arguments, a, comma, b);
    NamedSkipsComma(a, comma, b);
    assert "attr_" <= SymbolName(node, reader);
    AttrExpansion(node);
    AttrReaderSymbols(DocumentSymbol("attr_reader", SymbolKind.Property, NodeRange(node), NodeRange(node), []), a, b);
  }

  /** `def initialize; end` is listed as the Constructor `initialize`. */
  lemma InitializeExample(node: Node, def: Node, name: Node, end: Node)
    requires node.kind == "method" && node.children == [def, name, end]
    requires def.kind == "def" && name.kind == "identifier" && end.kind == "end"
    requires def.children == [] && name.children == [] && end.children == []
    requires name.text == "initialize"
    ensures BuildOf(node) == Single(DocumentSymbol("initialize", SymbolKind.Constructor,
      NodeRange(node), NodeRange(name), []))
  {
    assert SymbolKindOf(node.kind) == Some(SymbolKind.Method);
    assert IdentifierNodeOf(node.kind) == Some("identifier");
    FirstLeafOfKind(node, "identifier", 1);
    NotAttrName("initialize");
    SingleSymbol(node, name);
  }

  /** `def self.foo; end` is listed as the Method `self.foo`. */
  lemma SingletonMethodExample(node: Node, def: Node, self: Node, dot: Node, name: Node, end: Node)
    requires node.kind == "singleton_method" && node.children == [def, self, dot, name, end]
    requires def.kind == "def" && self.kind == "self" && dot.kind == "." && name.kind == "identifier" && end.kind == "end"
    requires def.children == [] && self.children == [] && dot.children == [] && name.children == [] && end.children == []
    requires name.text == "foo"
    ensures BuildOf(node) == Single(DocumentSymbol("self.foo", SymbolKind.Method,
      NodeRange(node), NodeRange(name), []))
  {
    assert SymbolKindOf(node.kind) == Some(SymbolKind.Method);
    assert IdentifierNodeOf(node.kind) == Some("identifier");
    FirstLeafOfKind(node, "identifier", 3);
    SingleSymbol(node, name);
    assert "self." + "foo" == "self.foo";
  }

  /** `X = 1` is listed as the Constant `X`. */
  lemma ConstantAssignmentExample(node: Node, target: Node, eq: Node, value: Node)
    requires node.kind == "assignment" && node.children == [target, eq, value]
    requires target.kind == "constant" && eq.kind == "=" && value.kind == "integer"
    requires target.children == [] && eq.children == [] && value.children == []
    requires target.text == "X"
    ensures BuildOf(node) == Single(DocumentSymbol("X", SymbolKind.Constant,
      NodeRange(node), NodeRange(target), []))
  {
    assert SymbolKindOf(node.kind) == Some(SymbolKind.Constant);
    assert IdentifierNodeOf(node.kind) == Some("constant");
    FirstLeafOfKind(node, "constant", 0);
    NotAttrName("X");
    SingleSymbol(node, target);
  }

  /** `x = 1` is not listed. */
  lemma LocalAssignmentExample(node: Node, target: Node, eq: Node, value: Node)
    requires node.kind == "assignment" && node.children == [target, eq, value]
    requires target.kind == "identifier"
    ensures BuildOf(node) == NoSymbol
  {
  }

  /** `puts "hi"` is not listed. */
  lemma MethodCallExample(node: Node, puts: Node, arguments: Node, hi: Node)
    requires node.kind == "method_call" && node.children == [puts, arguments]
    requires puts.kind == "identifier" && puts.text == "puts" && puts.children == []
    requires arguments.kind == "argument_list" && arguments.children == [hi]
    requires hi.kind == "string" && hi.children == []
    ensures BuildOf(node) == NoSymbol
  {
    LeafPreOrder(puts);
    assert ChildrenFrom(node, 2) == [];
    assert ChildrenFrom(node, 1) == PreOrder(arguments);
    assert Descendants(node) == [puts] + PreOrder(arguments);
    OfKindHead(Descendants(node), "identifier", 0);
    NotAttrName("puts");
    MethodCallOnlyAsAccessors(node);
  }

  /** `def attr_foo; end`: a method definition whose name starts with `attr_` and that
      contains no argument list makes the builder as written raise; the intended builder
      lists nothing for it. */
  lemma AttrMethodRaises(node: Node, def: Node, name: Node, end: Node)
    requires node.kind == "method" && node.children == [def, name, end]
    requires def.kind == "def" && name.kind == "identifier" && end.kind == "end"
    requires def.children == [] && name.children == [] && end.children == []
    requires name.text == "attr_foo"
    ensures BuildAsWritten(node) == Raised
    ensures BuildOf(node) == NoSymbol
  {
    assert SymbolKindOf(node.kind) == Some(SymbolKind.Method);
    assert IdentifierNodeOf(node.kind) == Some("identifier");
    FirstLeafOfKind(node, "identifier", 1);
    NoLeafOfKind(node, "argument_list");
    assert "attr_" <= SymbolName(node, name);
    RaisesExactlyWithoutArgumentList(node);
  }

  /** In `def attr_foo; puts :x; end` the descendants in pre-order are `def`, the name, the
      call, its name, its argument list, the argument and `end`. */
  lemma AttrMethodDescendants(node: Node, def: Node, name: Node, call: Node, puts: Node, arguments: Node, x: Node, end: Node)
    requires node.children == [def, name, call, end]
    requires def.children == [] && name.children == [] && end.children == []
    requires call.children == [puts, arguments] && puts.children == []
    requires arguments.children == [x] && x.children == []
    ensures Descendants(node) == [def, name, call, puts, arguments, x, end]
  {
    LeafPreOrder(def);
    LeafPreOrder(name);
    LeafPreOrder(end);
    LeafPreOrder(puts);
    LeafChildrenFrom(arguments, 0);
    assert ChildrenFrom(call, 2) == [];
    assert ChildrenFrom(call, 1) == PreOrder(arguments) == [arguments, x];
    assert ChildrenFrom(call, 0) == [puts, arguments, x];
    assert PreOrder(call) == [call, puts, arguments, x];
    assert ChildrenFrom(node, 4) == [];
    assert ChildrenFrom(node, 3) == [end];
    assert ChildrenFrom(node, 2) == [call, puts, arguments, x, end];
    assert ChildrenFrom(node, 1) == [name, call, puts, arguments, x, end];
  }

  /** In `def attr_foo; puts :x; end` the first identifier is the method's name and the first
      argument list is the call's. */
  lemma AttrMethodSearches(node: Node, def: Node, name: Node, call: Node, puts: Node, arguments: Node, x: Node, end: Node)
    requires Descendants(node) == [def, name, call, puts, arguments, x, end]
    requires def.kind == "def" && name.kind == "identifier"
    requires call.kind == "method_call" && puts.kind == "identifier" && arguments.kind == "argument_list"
    ensures FirstOfType(node, "identifier") == Some(name)
    ensures FirstOfType(node, "argument_list") == Some(arguments)
  {
    FirstOfKindAt(node, "identifier", 1);
    FifthOfKind(node, "argument_list", def, name, call, puts, arguments, x, end);
  }

  lemma FifthOfKind(node: Node, t: string, a: Node, b: Node, c: Node, d: Node, e: Node, f: Node, g: Node)
    requires Descendants(node) == [a, b, c, d, e, f, g]
    requires a.kind != t && b.kind != t && c.kind != t && d.kind != t && e.kind == t
    ensures FirstOfType(node, t) == Some(e)
  {
    FirstOfKindAt(node, t, 4);
  }

  /** The first descendant of a kind is the earliest descendant of that kind. */
  lemma FirstOfKindAt(node: Node, t: string, i: nat)
    requires i < |Descendants(node)| && Descendants(node)[i].kind == t
    requires forall j :: 0 <= j < i ==> Descendants(node)[j].kind != t
    ensures FirstOfType(node, t) == Some(Descendants(node)[i])
  {
    OfKindHead(Descendants(node), t, i);
  }

  /** `def attr_foo; puts :x; end`: a method definition whose name starts with `attr_` is not
      listed itself. The arguments of the first call in its body are listed instead, as
      Methods spanning the definition. The builder as written does the same. */
  lemma AttrMethodListsBodyCall(node: Node, def: Node, name: Node, call: Node, puts: Node, arguments: Node, x: Node, end: Node)
    requires node.kind == "method" && node.children == [def, name, call, end]
    requires def.kind == "def" && name.kind == "identifier" && end.kind == "end"
    requires def.children == [] && name.children == [] && end.children == []
    requires name.text == "attr_foo"
    requires call.kind == "method_call" && call.children == [puts, arguments]
    requires puts.kind == "identifier" && puts.children == []
    requires arguments.kind == "argument_list" && arguments.children == [x]
    requires x.isNamed && x.kind == "simple_symbol" && x.text == ":x" && x.children == []
    ensures BuildAsWritten(node) == Returned(BuildOf(node))
    ensures BuildOf(node) == Multiple([DocumentSymbol("x", SymbolKind.Method, NodeRange(node), NodeRange(x), [])])
  {
    assert SymbolKindOf(node.kind) == Some(SymbolKind.Method);
    assert IdentifierNodeOf(node.kind) == Some("identifier");
    AttrMethodDescendants(node, def, name, call, puts, arguments, x, end);
    AttrMethodSearches(node, def, name, call, puts, arguments, x, end);
    assert SymbolName(node, name) == "attr_foo";
    assert "attr_" <= SymbolName(node, name);
    assert NamedChildren(arguments) == [x];
    AttrExpansion(node);
    RaisesExactlyWithoutArgumentList(node);
    var base := DocumentSymbol("attr_foo", SymbolKind.Method, NodeRange(node), NodeRange(node), []);
    assert BuildOf(node) == Multiple(AttrSymbols(base, [x]));
    SingleAccessor(base, x);
  }

  lemma SingleAccessor(base: DocumentSymbol, x: Node)
    requires x.text == ":x"
    ensures AttrSymbols(base, [x]) == [base.(name := "x", selectionRange := NodeRange(x))]
  {
    assert ":x" == ":" + "x";
    StripLeadingColon("x");
  }
}
