/** What `src/components/graph/graph-canvas.tsx` hands to the graph widget: the standards that pass the
    filters, one node per kept standard, and one edge per related entry between kept standards. */
module GraphCanvas {
  import opened Wrappers
  import opened Lists
  import opened Text
  import opened Standards
  import Catalog
  import ControlPanel

  /** `a.some(x => b.includes(x))`. */
  predicate SharesAny<T(==)>(a: seq<T>, b: seq<T>) {
    exists k :: 0 <= k < |a| && a[k] in b
  }

  /** The case-insensitive substring test on the title or the id. */
  predicate MatchesSearch(standard: StandardNode, search: string) {
    Contains(Lower(standard.title), Lower(search)) || Contains(Lower(standard.id), Lower(search))
  }

  /** The three checks of the `filteredStandards` predicate; a check with an empty filter passes. */
  predicate Keep(filters: FilterState, standard: StandardNode) {
    && (|filters.families| == 0 || SharesAny(standard.families, filters.families))
    && (|filters.tags| == 0 || SharesAny(standard.tags, filters.tags))
    && (filters.search == "" || MatchesSearch(standard, filters.search))
  }

  /** `standards.filter(...)`: the kept standards, in their order. */
  function FilteredStandards(standards: seq<StandardNode>, filters: FilterState): (r: seq<StandardNode>)
    ensures IsSubsequence(r, standards)
    ensures forall k :: 0 <= k < |r| ==> Keep(filters, r[k])
    ensures forall s :: s in r <==> s in standards && Keep(filters, s)
    ensures forall s :: multiset(r)[s] == if Keep(filters, s) then multiset(standards)[s] else 0
    ensures (forall k :: 0 <= k < |standards| ==> Keep(filters, standards[k])) ==> r == standards
  {
    if standards == [] then []
    else
      var rest := FilteredStandards(standards[1..], filters);
      assert standards == [standards[0]] + standards[1..];
      assert multiset(standards) == multiset{standards[0]} + multiset(standards[1..]);
      if Keep(filters, standards[0]) then
        assert ([standards[0]] + rest)[1..] == rest;
        assert multiset([standards[0]] + rest) == multiset{standards[0]} + multiset(rest);
        [standards[0]] + rest
      else rest
  }

  /** With no family, tag or search filter every standard is kept; in particular after "Clear Filters". */
  lemma EmptyFiltersKeepAll(standards: seq<StandardNode>, filters: FilterState)
    requires filters.families == [] && filters.tags == [] && filters.search == ""
    ensures FilteredStandards(standards, filters) == standards
    ensures FilteredStandards(standards, ControlPanel.ClearAll()) == standards
  {
  }

  /** Searching for a string or for its lower-cased form keeps the same standards. */
  lemma SearchIgnoresCase(filters: FilterState, standard: StandardNode)
    ensures Keep(filters.(search := Lower(filters.search)), standard) == Keep(filters, standard)
  {
    LowerIdempotent(filters.search);
    assert |Lower(filters.search)| == |filters.search|;
  }

  /** The search test only narrows: a standard kept with a search is kept without one. */
  lemma SearchNarrows(filters: FilterState, standard: StandardNode)
    requires Keep(filters, standard)
    ensures Keep(filters.(search := ""), standard)
  {
  }

  // ---------------------------------------------------------------------------------------------
  // Nodes

  datatype GraphNode = GraphNode(
    id: string,
    displayLabel: string,
    title: string,
    families: seq<ControlFamily>,
    isSelected: bool,
    isSOC2: bool)

  const SOC2Id: string := "SOC2"

  /** One node per kept standard, in order, marked when its id is on the path and when it is SOC 2. */
  function Nodes(kept: seq<StandardNode>, path: PathState): (r: seq<GraphNode>)
    ensures |r| == |kept|
    ensures forall k :: 0 <= k < |kept| ==>
      && r[k].id == kept[k].id && r[k].displayLabel == kept[k].id
      && r[k].title == kept[k].title && r[k].families == kept[k].families
      && (r[k].isSelected <==> kept[k].id in path.selectedStandards)
      && (r[k].isSOC2 <==> kept[k].id == SOC2Id)
  {
    seq(|kept|, k requires 0 <= k < |kept| =>
      GraphNode(kept[k].id, kept[k].id, kept[k].title, kept[k].families,
                kept[k].id in path.selectedStandards, kept[k].id == SOC2Id))
  }

  // ---------------------------------------------------------------------------------------------
  // Edges

  datatype CanvasEdge = CanvasEdge(id: string, source: string, target: string, edgeType: EdgeType, note: Option<string>)

  /** The edge drawn for a related entry: its id is the source, a dash and the target. */
  function MakeEdge(source: string, rel: RelatedEdge): (e: CanvasEdge)
    ensures e.id == source + "-" + rel.target
    ensures e.source == source && e.target == rel.target && e.edgeType == rel.edgeType && e.note == rel.note
  {
    CanvasEdge(source + "-" + rel.target, source, rel.target, rel.edgeType, rel.note)
  }

  /** The edges one kept standard contributes from the first `|rels|` entries of its related list. */
  function RelatedCanvasEdges(source: string, rels: seq<RelatedEdge>, ids: set<string>): seq<CanvasEdge> {
    if rels == [] then []
    else
      var last := rels[|rels| - 1];
      RelatedCanvasEdges(source, rels[..|rels| - 1], ids) + (if last.target in ids then [MakeEdge(source, last)] else [])
  }

  /** The edges the first `|nodes|` kept standards contribute, in standard order then related order. */
  function CanvasEdgesFrom(nodes: seq<StandardNode>, ids: set<string>): seq<CanvasEdge> {
    if nodes == [] then []
    else
      var last := nodes[|nodes| - 1];
      CanvasEdgesFrom(nodes[..|nodes| - 1], ids) + RelatedCanvasEdges(last.id, last.related, ids)
  }

  /** The edge construction walks the kept standards and their related entries, pushing an edge whenever
      the target is kept too. */
  method DrawEdges(kept: seq<StandardNode>) returns (edges: seq<CanvasEdge>)
    ensures edges == CanvasEdgesFrom(kept, Catalog.Ids(kept))
  {
    edges := [];
    var keptIds := set k | 0 <= k < |kept| :: kept[k].id;
    var i := 0;
    while i < |kept|
      invariant 0 <= i <= |kept|
      invariant edges == CanvasEdgesFrom(kept[..i], keptIds)
    {
      var standard := kept[i];
      var j := 0;
      while j < |standard.related|
        invariant 0 <= j <= |standard.related|
        invariant edges == CanvasEdgesFrom(kept[..i], keptIds) + RelatedCanvasEdges(standard.id, standard.related[..j], keptIds)
      {
        var rel := standard.related[j];
        if rel.target in keptIds {
          edges := edges + [CanvasEdge(standard.id + "-" + rel.target, standard.id, rel.target, rel.edgeType, rel.note)];
        }
        assert standard.related[..j + 1][..j] == standard.related[..j];
        j := j + 1;
      }
      assert standard.related[..j] == standard.related;
      assert kept[..i + 1][..i] == kept[..i];
      i := i + 1;
    }
    assert kept[..i] == kept;
  }

  /** A drawn edge without its id and note. */
  function Plain(e: CanvasEdge): Catalog.Edge {
    Catalog.Edge(e.source, e.target, e.edgeType)
  }

  function PlainAll(edges: seq<CanvasEdge>): (r: seq<Catalog.Edge>)
    ensures |r| == |edges| && forall k :: 0 <= k < |edges| ==> r[k] == Plain(edges[k])
  {
    seq(|edges|, k requires 0 <= k < |edges| => Plain(edges[k]))
  }

  lemma PlainAllAppend(a: seq<CanvasEdge>, b: seq<CanvasEdge>)
    ensures PlainAll(a + b) == PlainAll(a) + PlainAll(b)
  {
  }

  lemma {:induction false} RelatedCanvasEdgesPlain(source: string, rels: seq<RelatedEdge>, ids: set<string>)
    ensures PlainAll(RelatedCanvasEdges(source, rels, ids)) == Catalog.RelatedEdges(source, rels, ids)
  {
    if rels != [] {
      var init := rels[..|rels| - 1];
      var last := rels[|rels| - 1];
      RelatedCanvasEdgesPlain(source, init, ids);
      PlainAllAppend(RelatedCanvasEdges(source, init, ids), if last.target in ids then [MakeEdge(source, last)] else []);
    }
  }

  lemma {:induction false} CanvasEdgesFromPlain(nodes: seq<StandardNode>, ids: set<string>)
    ensures PlainAll(CanvasEdgesFrom(nodes, ids)) == Catalog.EdgesFrom(nodes, ids)
  {
    if nodes != [] {
      var init := nodes[..|nodes| - 1];
      var last := nodes[|nodes| - 1];
      CanvasEdgesFromPlain(init, ids);
      RelatedCanvasEdgesPlain(last.id, last.related, ids);
      PlainAllAppend(CanvasEdgesFrom(init, ids), RelatedCanvasEdges(last.id, last.related, ids));
    }
  }

  /** Every drawn edge's id is its source, a dash and its target. */
  lemma {:induction false} CanvasEdgeIds(nodes: seq<StandardNode>, ids: set<string>)
    ensures forall e :: e in CanvasEdgesFrom(nodes, ids) ==> e.id == e.source + "-" + e.target
  {
    if nodes != [] {
      var init := nodes[..|nodes| - 1];
      var last := nodes[|nodes| - 1];
      CanvasEdgeIds(init, ids);
      RelatedCanvasEdgeIds(last.id, last.related, ids);
    }
  }

  lemma {:induction false} RelatedCanvasEdgeIds(source: string, rels: seq<RelatedEdge>, ids: set<string>)
    ensures forall e :: e in RelatedCanvasEdges(source, rels, ids) ==> e.id == e.source + "-" + e.target
  {
    if rels != [] {
      RelatedCanvasEdgeIds(source, rels[..|rels| - 1], ids);
    }
  }

  /** The canvas draws exactly the edges `buildEdges` computes for the kept standards, each with its id; so
      both endpoints of every edge are kept standards and there are no more edges than related entries. */
  lemma CanvasEdgesAreBuildEdges(kept: seq<StandardNode>)
    ensures PlainAll(CanvasEdgesFrom(kept, Catalog.Ids(kept))) == Catalog.Edges(kept)
    ensures forall e :: e in CanvasEdgesFrom(kept, Catalog.Ids(kept)) ==>
      e.id == e.source + "-" + e.target && e.source in Catalog.Ids(kept) && e.target in Catalog.Ids(kept)
    ensures |CanvasEdgesFrom(kept, Catalog.Ids(kept))| <= Catalog.RelatedCount(kept)
  {
    var edges := CanvasEdgesFrom(kept, Catalog.Ids(kept));
    CanvasEdgesFromPlain(kept, Catalog.Ids(kept));
    CanvasEdgeIds(kept, Catalog.Ids(kept));
    Catalog.EdgesWellFormed(kept);
    forall e | e in edges ensures e.source in Catalog.Ids(kept) && e.target in Catalog.Ids(kept) {
      var k :| 0 <= k < |edges| && edges[k] == e;
      assert PlainAll(edges)[k] == Plain(e);
      assert Plain(e) in Catalog.Edges(kept);
    }
  }
}
