/** The symbol builder: from one syntax node to no outline symbol, one, or (for `attr_*`
    calls) a list of them.

    `BuildAsWritten` follows the builder exactly as the code is written, including the
    `attr_*` branch that dereferences a missing argument list (the `Raised` outcome).
    `BuildOf` is the intended behaviour, where that case produces no symbol, and `Build` is
    the builder as the code runs it step by step: a symbol record whose fields are assigned
    in turn and, for `attr_*` calls, a loop that pushes one symbol per argument. */
module RubyDocumentSymbol {
  import opened Wrappers
  import opened Syntax
  import opened Protocol

  /** The node kinds both tables list. */
  const WrapperKinds: set<string> :=
    {"singleton_method", "method", "class", "module", "assignment", "method_call"}

  /** Node kind to outline kind; `None` for every kind outside the table. Every entry has a
      nonzero protocol code, so the truthiness test on the looked-up kind rejects only
      kinds missing from the table. */
  function SymbolKindOf(kind: string): (r: Option<SymbolKind>)
    ensures r.Some? <==> kind in WrapperKinds
    ensures r.Some? ==> r.value.Code() != 0 && r.value != SymbolKind.Constructor
  {
    match kind
    case "singleton_method" => Some(SymbolKind.Method)
    case "method" => Some(SymbolKind.Method)
    case "class" => Some(SymbolKind.Class)
    case "module" => Some(SymbolKind.Module)
    case "assignment" => Some(SymbolKind.Constant)
    case "method_call" => Some(SymbolKind.Property)
    case _ => None
  }

  /** Node kind to the kind of the descendant that carries the symbol's name: a constant or
      an identifier, never a kind of the table itself nor an argument list. */
  function IdentifierNodeOf(kind: string): (r: Option<string>)
    ensures r.Some? <==> kind in WrapperKinds
    ensures r.Some? ==> (r.value == "constant" || r.value == "identifier")
    ensures r.Some? ==> r.value !in WrapperKinds && r.value != "argument_list"
  {
    match kind
    case "module" => Some("constant")
    case "class" => Some("constant")
    case "method" => Some("identifier")
    case "singleton_method" => Some("identifier")
    case "assignment" => Some("constant")
    case "method_call" => Some("identifier")
    case _ => None
  }

  /** A wrapper takes its name from a descendant rather than from its own text: its kind is
      an own key of the identifier table. */
  function IsWrapper(node: Node): (r: bool)
    ensures r <==> node.kind in WrapperKinds
  {
    IdentifierNodeOf(node.kind).Some?
  }

  /** What one call of the builder gives back. */
  datatype Built = NoSymbol | Single(symbol: DocumentSymbol) | Multiple(symbols: seq<DocumentSymbol>)

  /** How one call of the builder as written ends: it returns, or it raises. */
  datatype Outcome = Returned(built: Built) | Raised

  /** The symbols a result contributes to a flat outline. */
  function AsList(b: Built): (r: seq<DocumentSymbol>)
    ensures b.NoSymbol? ==> r == []
    ensures b.Single? ==> r == [b.symbol]
  {
    match b
    case NoSymbol => []
    case Single(s) => [s]
    case Multiple(ss) => ss
  }

  /** The first descendant of kind `t`, in pre-order. */
  function FirstOfType(node: Node, t: string): (r: Option<Node>)
    ensures r.Some? ==> r.value in Descendants(node) && r.value.kind == t
    ensures r.None? <==> forall d :: d in Descendants(node) ==> d.kind != t
  {
    var found := DescendantsOfType(node, t);
    if found == [] then None else Some(found[0])
  }

  /** The symbol's name: the identifier's text, with `self.` in front for singleton methods.
      A singleton method's name is therefore never `initialize` and never starts with
      `attr_`. */
  function SymbolName(node: Node, identifier: Node): (r: string)
    ensures node.kind != "singleton_method" ==> r == identifier.text
    ensures |identifier.text| <= |r| && r[|r| - |identifier.text|..] == identifier.text
    ensures node.kind == "singleton_method" ==> r != "initialize" && !("attr_" <= r)
  {
    if node.kind == "singleton_method" then
      var r := "self." + identifier.text;
      assert r[0] == 's' && r[5..] == identifier.text;
      r
    else identifier.text
  }

  /** An `attr_*` argument names its accessor with at most one leading colon dropped. */
  function StripColon(text: string): (r: string)
    ensures |text| > 0 && text[0] == ':' ==> text == ":" + r
    ensures !(|text| > 0 && text[0] == ':') ==> r == text
  {
    if |text| > 0 && text[0] == ':' then text[1..] else text
  }

  /** The accessor symbol for one argument of an `attr_*` call: a copy of the call's own
      symbol, renamed after the argument and selecting the argument. */
  function AttrSymbol(base: DocumentSymbol, argument: Node): (r: DocumentSymbol)
    ensures |argument.text| > 0 && argument.text[0] == ':' ==> argument.text == ":" + r.name
    ensures !(|argument.text| > 0 && argument.text[0] == ':') ==> r.name == argument.text
    ensures r.selectionRange == NodeRange(argument)
    ensures r.kind == base.kind && r.range == base.range && r.children == base.children
  {
    base.(name := StripColon(argument.text), selectionRange := NodeRange(argument))
  }

  /** One accessor symbol per argument, in order. */
  function AttrSymbols(base: DocumentSymbol, arguments: seq<Node>): (r: seq<DocumentSymbol>)
    ensures |r| == |arguments|
    ensures forall i :: 0 <= i < |arguments| ==> r[i] == AttrSymbol(base, arguments[i])
  {
    seq(|arguments|, i requires 0 <= i < |arguments| => AttrSymbol(base, arguments[i]))
  }

  /** The loop of an `attr_*` call: one copy of `base` pushed per argument. */
  method ExpandAttrCall(base: DocumentSymbol, arguments: seq<Node>) returns (symbols: seq<DocumentSymbol>)
    ensures symbols == AttrSymbols(base, arguments)
  {
    symbols := [];
    for i := 0 to |arguments|
      invariant symbols == AttrSymbols(base, arguments[..i])
    {
      var child := arguments[i];
      var newSymbol := base.(name := StripColon(child.text), selectionRange := NodeRange(child));
      symbols := symbols + [newSymbol];
    }
    assert arguments[..|arguments|] == arguments;
  }

  /** The builder as written. */
  function BuildAsWritten(node: Node): (o: Outcome)
    ensures SymbolKindOf(node.kind).None? ==> o == Returned(NoSymbol)
    ensures IsWrapper(node) && node.children == [] ==> o == Returned(NoSymbol)
    ensures node.kind == "assignment" && node.children != [] && node.children[0].kind == "identifier"
      ==> o == Returned(NoSymbol)
  {
    if SymbolKindOf(node.kind).None? then Returned(NoSymbol)
    else
      var range := NodeRange(node);
      var kind := SymbolKindOf(node.kind).value;
      if IsWrapper(node) then
        if node.children == [] then Returned(NoSymbol)
        // a local-variable assignment `foo = ...` is not an outline entry
        else if node.kind == "assignment" && node.children[0].kind == "identifier" then Returned(NoSymbol)
        else match FirstOfType(node, IdentifierNodeOf(node.kind).value)
          case None => Returned(NoSymbol)
          case Some(identifier) =>
            var name := SymbolName(node, identifier);
            var kind' := if name == "initialize" then SymbolKind.Constructor else kind;
            if "attr_" <= name then
              // the selection range is not assigned yet; every copy overwrites it
              var base := DocumentSymbol(name, kind', range, range, []);
              match FirstOfType(node, "argument_list")
              case None => Raised
              case Some(arguments) => Returned(Multiple(AttrSymbols(base, NamedChildren(arguments))))
            else if node.kind != "method_call" then
              Returned(Single(DocumentSymbol(name, kind', range, NodeRange(identifier), [])))
            else Returned(NoSymbol)
      else Returned(Single(DocumentSymbol(node.text, kind, range, range, [])))
  }

  /** The builder as intended: an `attr_*` name with no argument list yields no symbol.
      Every symbol it produces spans the whole node and has no children. */
  function BuildOf(node: Node): (r: Built)
    ensures SymbolKindOf(node.kind).None? ==> r == NoSymbol
    ensures forall s :: s in AsList(r) ==> s.range == NodeRange(node) && s.children == []
  {
    match BuildAsWritten(node)
    case Returned(b) => b
    case Raised => NoSymbol
  }

  /** The builder as the code runs it: the symbol's fields are assigned one after the other,
      and an `attr_*` call fills a list of accessor symbols in a loop. */
  method Build(node: Node) returns (r: Built)
    ensures r == BuildOf(node)
  {
    if SymbolKindOf(node.kind).None? {
      return NoSymbol;
    }
    var range := NodeRange(node);
    // the name and selection range start as placeholders that every branch overwrites
    var symbol := DocumentSymbol("", SymbolKindOf(node.kind).value, range, range, []);
    if IsWrapper(node) {
      if |node.children| == 0 {
        return NoSymbol;
      }
      if node.kind == "assignment" && node.children[0].kind == "identifier" {
        return NoSymbol;
      }
      var found := DescendantsOfType(node, IdentifierNodeOf(node.kind).value);
      if found == [] {
        return NoSymbol;
      }
      var identifier := found[0];
      symbol := symbol.(children := [], name := identifier.text);
      if node.kind == "singleton_method" {
        symbol := symbol.(name := "self." + identifier.text);
      }
      if symbol.name == "initialize" {
        symbol := symbol.(kind := SymbolKind.Constructor);
      }
      if "attr_" <= symbol.name {
        var lists := DescendantsOfType(node, "argument_list");
        if lists == [] {
          // the code reads the named children of a missing argument list here
          return NoSymbol;
        }
        var symbols := ExpandAttrCall(symbol, NamedChildren(lists[0]));
        return Multiple(symbols);
      } else if node.kind != "method_call" {
        symbol := symbol.(selectionRange := NodeRange(identifier));
      } else {
        return NoSymbol;
      }
    } else {
      symbol := symbol.(selectionRange := symbol.range, name := node.text);
    }
    return Single(symbol);
  }

  // ---------------------------------------------------------------------------------------
  // Properties of the builder

  /** The two tables have the same keys, so every node the kind table accepts is a wrapper:
      the branch that names a symbol after the node's own text is never taken. */
  lemma KindTablesShareKeys(node: Node)
    ensures SymbolKindOf(node.kind).Some? <==> IdentifierNodeOf(node.kind).Some?
    ensures SymbolKindOf(node.kind).Some? ==> IsWrapper(node)
  {
  }

  /** A search that also tests the node itself, as tree-sitter's does, finds the same nodes
      as the search over proper descendants, for every kind the builder searches a wrapper
      for: the wrapper's own kind is never its identifier kind nor an argument list. */
  lemma SearchIncludingSelf(node: Node, t: string)
    requires IsWrapper(node)
    requires t == IdentifierNodeOf(node.kind).value || t == "argument_list"
    ensures OfKind(PreOrder(node), t) == DescendantsOfType(node, t)
  {
    assert PreOrder(node)[1..] == Descendants(node);
  }

  /** A wrapper with accepted kind gets no symbol when it has no descendant of its identifier
      kind; otherwise any symbol it gets is named after the first such descendant. */
  lemma NameFromFirstIdentifier(node: Node)
    requires SymbolKindOf(node.kind).Some?
    ensures FirstOfType(node, IdentifierNodeOf(node.kind).value).None? ==> BuildOf(node) == NoSymbol
    ensures BuildOf(node).Single? ==>
      var identifier := FirstOfType(node, IdentifierNodeOf(node.kind).value).value;
      && FirstOfType(node, IdentifierNodeOf(node.kind).value).Some?
      && node.kind != "method_call"
      && BuildOf(node).symbol.name == SymbolName(node, identifier)
      && BuildOf(node).symbol.selectionRange == NodeRange(identifier)
  {
    var t := IdentifierNodeOf(node.kind).value;
    if node.children == [] || (node.kind == "assignment" && node.children[0].kind == "identifier") {
      assert BuildAsWritten(node) == Returned(NoSymbol);
    } else {
      match FirstOfType(node, t)
      case None =>
        assert BuildAsWritten(node) == Returned(NoSymbol);
      case Some(identifier) =>
        var name := SymbolName(node, identifier);
        if "attr_" <= name {
          assert BuildAsWritten(node).Raised? || BuildAsWritten(node).built.Multiple?;
        } else if node.kind != "method_call" {
          SingleSymbol(node, identifier);
        } else {
          assert BuildAsWritten(node) == Returned(NoSymbol);
        }
    }
  }

  /** A wrapper that is not a local assignment or a method call, whose first identifier
      descendant's name does not start with `attr_`, yields exactly one symbol: named after
      that identifier, selecting it, spanning the node, with no children. */
  lemma SingleSymbol(node: Node, identifier: Node)
    requires IsWrapper(node) && node.children != [] && node.kind != "method_call"
    requires !(node.kind == "assignment" && node.children[0].kind == "identifier")
    requires FirstOfType(node, IdentifierNodeOf(node.kind).value) == Some(identifier)
    requires !("attr_" <= SymbolName(node, identifier))
    ensures
      var name := SymbolName(node, identifier);
      BuildOf(node) == Single(DocumentSymbol(name,
        if name == "initialize" then SymbolKind.Constructor else SymbolKindOf(node.kind).value,
        NodeRange(node), NodeRange(identifier), []))
  {
    KindTablesShareKeys(node);
  }

  /** A singleton method is listed as `self.` followed by its identifier, always as a
      Method and never as a Constructor or as accessors. */
  lemma SingletonMethodNaming(node: Node)
    requires node.kind == "singleton_method"
    ensures !BuildOf(node).Multiple?
    ensures BuildOf(node).Single? ==>
      var identifier := FirstOfType(node, "identifier").value;
      && FirstOfType(node, "identifier").Some?
      && BuildOf(node).symbol.name == "self." + identifier.text
      && BuildOf(node).symbol.kind == SymbolKind.Method
  {
  }

  /** A single symbol is a Constructor exactly when its name is `initialize`; otherwise it has
      the kind the table gives its node's kind. */
  lemma ConstructorIffInitialize(node: Node)
    requires BuildOf(node).Single?
    ensures BuildOf(node).symbol.kind == SymbolKind.Constructor <==> BuildOf(node).symbol.name == "initialize"
    ensures BuildOf(node).symbol.name != "initialize" ==> BuildOf(node).symbol.kind == SymbolKindOf(node.kind).value
  {
    KindTablesShareKeys(node);
  }

  /** A node whose name starts with `attr_` and that has an argument list yields one symbol
      per named argument, in order: named after the argument without its leading colon,
      selecting the argument, and otherwise a copy of the node's own symbol. */
  lemma AttrExpansion(node: Node)
    requires IsWrapper(node) && node.children != []
    requires !(node.kind == "assignment" && node.children[0].kind == "identifier")
    requires FirstOfType(node, IdentifierNodeOf(node.kind).value).Some?
    requires "attr_" <= SymbolName(node, FirstOfType(node, IdentifierNodeOf(node.kind).value).value)
    requires FirstOfType(node, "argument_list").Some?
    ensures
      var name := SymbolName(node, FirstOfType(node, IdentifierNodeOf(node.kind).value).value);
      var base := DocumentSymbol(name, SymbolKindOf(node.kind).value, NodeRange(node), NodeRange(node), []);
      BuildOf(node) == Multiple(AttrSymbols(base, NamedChildren(FirstOfType(node, "argument_list").value)))
    ensures
      var arguments := NamedChildren(FirstOfType(node, "argument_list").value);
      && BuildOf(node).Multiple?
      && |BuildOf(node).symbols| == |arguments|
      && forall i :: 0 <= i < |arguments| ==>
        var s := BuildOf(node).symbols[i];
        && s.name == StripColon(arguments[i].text)
        && s.selectionRange == NodeRange(arguments[i])
        && s.range == NodeRange(node)
        && s.kind == SymbolKindOf(node.kind).value
        && s.children == []
  {
    var name := SymbolName(node, FirstOfType(node, IdentifierNodeOf(node.kind).value).value);
    assert name != "initialize" by {
      assert name[..5] == "attr_";
      assert "initialize"[..5] == "initi";
    }
    KindTablesShareKeys(node);
  }

  /** A method call is never a single outline entry: it yields accessors when its name starts
      with `attr_`, and nothing otherwise. */
  lemma MethodCallOnlyAsAccessors(node: Node)
    requires node.kind == "method_call"
    ensures !BuildOf(node).Single?
    ensures BuildOf(node).Multiple? ==>
      FirstOfType(node, "identifier").Some? && "attr_" <= FirstOfType(node, "identifier").value.text
  {
  }

  /** The code as written raises exactly when an accepted wrapper's name starts with `attr_`
      and it has no argument-list descendant; the intended builder then yields nothing. */
  lemma RaisesExactlyWithoutArgumentList(node: Node)
    ensures BuildAsWritten(node).Raised? <==> RaisesCondition(node)
    ensures BuildAsWritten(node).Raised? ==> BuildOf(node) == NoSymbol
  {
    if RaisesCondition(node) {
      RaisesWithoutArgumentList(node);
    } else {
      RaisesOnlyWithoutArgumentList(node);
    }
  }

  /** An accepted wrapper, not a local assignment, whose first identifier gives a name
      starting with `attr_` and which has no argument-list descendant. */
  predicate RaisesCondition(node: Node) {
    && ReachesSearch(node)
    && FirstOfType(node, IdentifierNodeOf(node.kind).value).Some?
    && "attr_" <= SymbolName(node, FirstOfType(node, IdentifierNodeOf(node.kind).value).value)
    && FirstOfType(node, "argument_list").None?
  }

  lemma RaisesWithoutArgumentList(node: Node)
    requires RaisesCondition(node)
    ensures BuildAsWritten(node).Raised?
  {
  }

  lemma RaisesOnlyWithoutArgumentList(node: Node)
    requires !RaisesCondition(node)
    ensures !BuildAsWritten(node).Raised?
  {
    if SymbolKindOf(node.kind).Some? && node.children != [] &&
      !(node.kind == "assignment" && node.children[0].kind == "identifier") {
      match FirstOfType(node, IdentifierNodeOf(node.kind).value)
      case None =>
        NoIdentifierReturns(node);
      case Some(identifier) =>
        if "attr_" <= SymbolName(node, identifier) {
          AttrCallReturns(node, identifier);
        } else {
          PlainNameReturns(node, identifier);
        }
    }
  }

  /** The steps before the identifier search, shared by the branch lemmas below. */
  predicate ReachesSearch(node: Node) {
    && SymbolKindOf(node.kind).Some?
    && node.children != []
    && !(node.kind == "assignment" && node.children[0].kind == "identifier")
  }

  lemma NoIdentifierReturns(node: Node)
    requires ReachesSearch(node)
    requires FirstOfType(node, IdentifierNodeOf(node.kind).value).None?
    ensures BuildAsWritten(node) == Returned(NoSymbol)
  {
  }

  lemma AttrCallReturns(node: Node, identifier: Node)
    requires ReachesSearch(node)
    requires FirstOfType(node, IdentifierNodeOf(node.kind).value) == Some(identifier)
    requires "attr_" <= SymbolName(node, identifier)
    requires FirstOfType(node, "argument_list").Some?
    ensures BuildAsWritten(node).Returned? && BuildAsWritten(node).built.Multiple?
  {
  }

  lemma PlainNameReturns(node: Node, identifier: Node)
    requires ReachesSearch(node)
    requires FirstOfType(node, IdentifierNodeOf(node.kind).value) == Some(identifier)
    requires !("attr_" <= SymbolName(node, identifier))
    ensures BuildAsWritten(node).Returned? && !BuildAsWritten(node).built.Multiple?
  {
  }

  /** When descendants lie within their ancestors, every symbol's selection range lies
      within its full range. */
  lemma SelectionWithinRange(node: Node)
    requires WellNested(node)
    ensures forall s :: s in AsList(BuildOf(node)) ==> RangeWithin(s.selectionRange, s.range)
  {
    var b := BuildOf(node);
    if b.Single? {
      SingleSelectionWithin(node);
    } else if b.Multiple? {
      MultipleSelectionWithin(node);
    }
  }

  lemma SingleSelectionWithin(node: Node)
    requires WellNested(node) && BuildOf(node).Single?
    ensures RangeWithin(BuildOf(node).symbol.selectionRange, BuildOf(node).symbol.range)
  {
    DescendantsWithin(node);
    KindTablesShareKeys(node);
    var identifier := FirstOfType(node, IdentifierNodeOf(node.kind).value).value;
    NodeRangeWithin(identifier, node);
  }

  lemma MultipleSelectionWithin(node: Node)
    requires WellNested(node) && BuildOf(node).Multiple?
    ensures forall s :: s in BuildOf(node).symbols ==> RangeWithin(s.selectionRange, s.range)
  {
    DescendantsWithin(node);
    KindTablesShareKeys(node);
    var b := BuildOf(node);
    var list := FirstOfType(node, "argument_list").value;
    var arguments := NamedChildren(list);
    forall i | 0 <= i < |arguments|
      ensures RangeWithin(b.symbols[i].selectionRange, b.symbols[i].range)
    {
      var a := arguments[i];
      assert a in list.children;
      var j :| 0 <= j < |list.children| && list.children[j] == a;
      PointLeTrans(node.start, list.start, a.start);
      PointLeTrans(a.end, list.end, node.end);
      NodeRangeWithin(a, node);
    }
  }
}
