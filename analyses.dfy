/** The store of analyses, one per document, fed by the stream of parse and delete events. */
module Analyses {
  import opened Wrappers
  import opened Syntax
  import opened Protocol
  import opened Analyzer

  /** An event of the document forest: a document was closed, or (re)parsed into a tree. */
  datatype ForestEvent = Deleted(uri: string) | Parsed(uri: string, tree: Tree)

  /** The analysis an event maps to: a placeholder with neither result for a deletion, and a
      fresh analyzer's result for a parse. */
  function EventAnalysis(e: ForestEvent, derive: Node -> seq<FoldingRange>): (a: Analysis)
    ensures a.uri == e.uri
    ensures e.Deleted? <==> a.foldingRanges.None? && a.documentSymbols.None?
    ensures e.Parsed? ==>
      a.foldingRanges == Some(derive(e.tree.rootNode)) &&
      a.documentSymbols == Some(SymbolsOf(PreOrder(e.tree.rootNode)))
  {
    match e
    case Deleted(uri) => Analysis(uri, None, None)
    case Parsed(uri, tree) => Analysis(uri, Some(derive(tree.rootNode)), Some(SymbolsOf(PreOrder(tree.rootNode))))
  }

  /** Maps one event to its analysis, running a fresh analyzer on a parse. */
  method MapEvent(e: ForestEvent, derive: Node -> seq<FoldingRange>) returns (a: Analysis)
    ensures a == EventAnalysis(e, derive)
  {
    match e
    case Deleted(uri) =>
      a := Analysis(uri, None, None);
    case Parsed(uri, tree) =>
      var analyzer := new Analyzer(uri, derive);
      a := analyzer.Analyze(tree);
      var root := tree.rootNode;
      assert analyzer.foldingRangeAnalyzer.foldingRanges == [] + derive(root) == derive(root);
      assert analyzer.documentSymbolAnalyzer.symbols == [] + SymbolsOf(PreOrder(root)) == SymbolsOf(PreOrder(root));
      assert a == Analysis(uri, Some(derive(root)), Some(SymbolsOf(PreOrder(root))));
  }

  /** The mapping the store subscribes through. It keeps every event's uri, and exactly the
      deletions map to an analysis with neither result. */
  function AnalysisOf(derive: Node -> seq<FoldingRange>): (f: ForestEvent -> Analysis)
    ensures KeepsUri(f)
    ensures forall e: ForestEvent :: e.Deleted? <==> f(e).foldingRanges.None? && f(e).documentSymbols.None?
  {
    e => EventAnalysis(e, derive)
  }

  /** The store after the events, each mapped by `analysisOf` and stored in order under its
      uri, overwriting that document's entry. No entry is ever removed. */
  function Replay(m: map<string, Analysis>, events: seq<ForestEvent>, analysisOf: ForestEvent -> Analysis): (r: map<string, Analysis>)
    ensures m.Keys <= r.Keys
    decreases |events|
  {
    if events == [] then m
    else
      var last := events[|events| - 1];
      Replay(m, events[..|events| - 1], analysisOf)[analysisOf(last).uri := analysisOf(last)]
  }

  /** The mapping never changes the uri an event concerns. */
  ghost predicate KeepsUri(analysisOf: ForestEvent -> Analysis) {
    forall e :: analysisOf(e).uri == e.uri
  }

  /** Every entry is filed under its own uri. */
  ghost predicate KeysMatch(m: map<string, Analysis>) {
    forall u :: u in m ==> m[u].uri == u
  }

  class Analyses {
    var closed: bool
    var analyses: map<string, Analysis>

    ghost predicate Valid()
      reads this
    {
      KeysMatch(analyses)
    }

    constructor()
      ensures Valid()
      ensures !closed && analyses == map[]
    {
      closed := false;
      analyses := map[];
    }

    /** Stores the analysis under its uri, replacing any earlier one; `closed` plays no part. */
    method Next(analysis: Analysis)
      requires Valid()
      modifies this
      ensures Valid()
      ensures analyses == old(analyses)[analysis.uri := analysis]
      ensures closed == old(closed)
    {
      analyses := analyses[analysis.uri := analysis];
    }

    /** An error of the stream is only reported; the store is untouched. */
    method Error<E>(err: E)
      ensures unchanged(this)
    {
    }

    method Complete()
      modifies this
      ensures closed
      ensures analyses == old(analyses)
    {
      closed := true;
    }

    method GetAnalysis(uri: string) returns (r: Option<Analysis>)
      ensures uri in analyses <==> r.Some?
      ensures r.Some? ==> r.value == analyses[uri]
    {
      if uri in analyses {
        r := Some(analyses[uri]);
      } else {
        r := None;
      }
    }

    /** Maps each event to its analysis and stores it, in order. */
    method Consume(events: seq<ForestEvent>, derive: Node -> seq<FoldingRange>)
      requires Valid()
      modifies this
      ensures Valid()
      ensures analyses == Replay(old(analyses), events, AnalysisOf(derive))
      ensures closed == old(closed)
    {
      for i := 0 to |events|
        invariant Valid()
        invariant analyses == Replay(old(analyses), events[..i], AnalysisOf(derive))
        invariant closed == old(closed)
      {
        var analysis := MapEvent(events[i], derive);
        Next(analysis);
        assert events[..i + 1][..i] == events[..i];
      }
      assert events[..|events|] == events;
    }
  }

  /** The store subscribed to the event stream: a fresh store that has consumed the events. */
  method Subscribe(events: seq<ForestEvent>, derive: Node -> seq<FoldingRange>) returns (store: Analyses)
    ensures fresh(store) && store.Valid()
    ensures !store.closed
    ensures store.analyses == Replay(map[], events, AnalysisOf(derive))
  {
    store := new Analyses();
    store.Consume(events, derive);
  }

  // ---------------------------------------------------------------------------------------
  // Properties of the store

  /** Storing the same analysis twice leaves the store as storing it once. */
  lemma NextIdempotent(m: map<string, Analysis>, a: Analysis)
    ensures m[a.uri := a][a.uri := a] == m[a.uri := a]
    ensures forall u :: u != a.uri ==> (u in m[a.uri := a] <==> u in m)
  {
  }

  /** A document has an entry exactly when it had one before or some event concerns it. */
  lemma {:induction false} ReplayKeys(m: map<string, Analysis>, events: seq<ForestEvent>, analysisOf: ForestEvent -> Analysis, u: string)
    requires KeepsUri(analysisOf)
    ensures u in Replay(m, events, analysisOf) <==>
      u in m || exists i :: 0 <= i < |events| && events[i].uri == u
    decreases |events|
  {
    if events != [] {
      var init := events[..|events| - 1];
      ReplayKeys(m, init, analysisOf, u);
      assert analysisOf(events[|events| - 1]).uri == events[|events| - 1].uri;
      if exists i :: 0 <= i < |init| && init[i].uri == u {
        var i :| 0 <= i < |init| && init[i].uri == u;
        assert events[i].uri == u;
      }
      if exists i :: 0 <= i < |events| && events[i].uri == u {
        var i :| 0 <= i < |events| && events[i].uri == u;
        if i < |init| {
          assert init[i].uri == u;
        }
      }
    }
  }

  /** A document no event concerns keeps its entry, or its absence. */
  lemma {:induction false} ReplayUntouched(m: map<string, Analysis>, events: seq<ForestEvent>, analysisOf: ForestEvent -> Analysis, u: string)
    requires KeepsUri(analysisOf)
    requires forall i :: 0 <= i < |events| ==> events[i].uri != u
    ensures u in Replay(m, events, analysisOf) <==> u in m
    ensures u in m ==> Replay(m, events, analysisOf)[u] == m[u]
    decreases |events|
  {
    if events != [] {
      assert analysisOf(events[|events| - 1]).uri == events[|events| - 1].uri;
      ReplayUntouched(m, events[..|events| - 1], analysisOf, u);
    }
  }

  /** A document's entry is the analysis of the last event that concerns it. */
  lemma {:induction false} ReplayLatest(m: map<string, Analysis>, events: seq<ForestEvent>, analysisOf: ForestEvent -> Analysis, i: nat)
    requires KeepsUri(analysisOf)
    requires i < |events|
    requires forall j :: i < j < |events| ==> events[j].uri != events[i].uri
    ensures events[i].uri in Replay(m, events, analysisOf)
    ensures Replay(m, events, analysisOf)[events[i].uri] == analysisOf(events[i])
    decreases |events|
  {
    assert analysisOf(events[|events| - 1]).uri == events[|events| - 1].uri;
    assert analysisOf(events[i]).uri == events[i].uri;
    if i < |events| - 1 {
      ReplayLatest(m, events[..|events| - 1], analysisOf, i);
    }
  }

  /** The store only ever files an analysis under its own uri. */
  lemma {:induction false} ReplayKeysMatch(m: map<string, Analysis>, events: seq<ForestEvent>, analysisOf: ForestEvent -> Analysis)
    requires KeysMatch(m)
    ensures KeysMatch(Replay(m, events, analysisOf))
    decreases |events|
  {
    if events != [] {
      ReplayKeysMatch(m, events[..|events| - 1], analysisOf);
    }
  }

  /** A document that was parsed and then deleted keeps an entry, with neither result. */
  lemma ParseThenDelete(m: map<string, Analysis>, events: seq<ForestEvent>, derive: Node -> seq<FoldingRange>, u: string, tree: Tree)
    ensures
      var r := Replay(m, events + [Parsed(u, tree), Deleted(u)], AnalysisOf(derive));
      u in r && r[u] == Analysis(u, None, None)
  {
    var es := events + [Parsed(u, tree), Deleted(u)];
    ReplayLatest(m, es, AnalysisOf(derive), |es| - 1);
  }

  /** Read from a store built from nothing, a document is absent exactly when no event
      concerned it, and otherwise its entry is the last such event's analysis. */
  lemma StoredAnalysis(events: seq<ForestEvent>, analysisOf: ForestEvent -> Analysis, u: string)
    requires KeepsUri(analysisOf)
    ensures u !in Replay(map[], events, analysisOf) <==> forall i :: 0 <= i < |events| ==> events[i].uri != u
    ensures u in Replay(map[], events, analysisOf) ==>
      exists i :: 0 <= i < |events| && events[i].uri == u &&
        (forall j :: i < j < |events| ==> events[j].uri != u) &&
        Replay(map[], events, analysisOf)[u] == analysisOf(events[i])
  {
    ReplayKeys(map[], events, analysisOf, u);
    if u in Replay(map[], events, analysisOf) {
      var i := LastConcerning(events, u);
      ReplayLatest(map[], events, analysisOf, i);
    }
  }

  /** The index of the last event that concerns `u`. */
  lemma {:induction false} LastConcerning(events: seq<ForestEvent>, u: string) returns (i: nat)
    requires exists k :: 0 <= k < |events| && events[k].uri == u
    ensures i < |events| && events[i].uri == u
    ensures forall j :: i < j < |events| ==> events[j].uri != u
    decreases |events|
  {
    if events[|events| - 1].uri == u {
      i := |events| - 1;
    } else {
      var k :| 0 <= k < |events| && events[k].uri == u;
      assert events[..|events| - 1][k].uri == u;
      i := LastConcerning(events[..|events| - 1], u);
    }
  }

  /** An event replayed twice in a row leaves the store as replaying it once. */
  lemma ReplayRepeat(m: map<string, Analysis>, events: seq<ForestEvent>, analysisOf: ForestEvent -> Analysis, e: ForestEvent)
    ensures Replay(m, events + [e, e], analysisOf) == Replay(m, events + [e], analysisOf)
  {
    var r := Replay(m, events, analysisOf);
    var a := analysisOf(e);
    assert (events + [e])[..|events|] == events;
    assert Replay(m, events + [e], analysisOf) == r[a.uri := a];
    assert (events + [e, e])[..|events| + 1] == events + [e];
    NextIdempotent(r, a);
  }
}
