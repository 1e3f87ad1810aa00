/** The catalog normaliser and edge builder of `src/lib/data.ts`: raw records in the expanded vocabulary are
    converged onto the strict schema through fixed lookup tables, the batch is validated as a whole, and
    the relationship lists are turned into an edge list restricted to known standards. */
module Catalog {
  import opened Wrappers
  import opened Lists
  import opened Text
  import opened Standards

  /** A relationship as it appears in the expanded dataset. */
  datatype RawRelated = RawRelated(target: string, rawType: string, weight: Option<real>, note: Option<string>, description: Option<string>)

  /** A standard as it appears in the expanded dataset: free-text families and edge types, optional lists. */
  datatype ExpandedNode = ExpandedNode(
    id: string,
    title: string,
    summary: string,
    url: string,
    tags: Option<seq<string>>,
    families: Option<seq<string>>,
    version: Option<string>,
    status: Option<string>,
    jurisdiction: Option<seq<string>>,
    related: Option<seq<RawRelated>>)

  /** `edgeMap`: the alternate edge vocabulary. */
  const EdgeMap: map<string, EdgeType> := map[
    "foundational" := Precedes,
    "audits" := Complementary,
    "governs" := Complementary,
    "extension" := Complementary,
    "integrates" := Complementary,
    "supplements" := Complementary,
    "aligned" := Overlaps,
    "aligns" := Overlaps,
    "mapped" := Overlaps,
    "parallel" := Overlaps,
    "sibling" := Overlaps,
    "derived" := Overlaps,
    "based_on" := Overlaps]

  /** `familyMap`: the alternate family vocabulary. */
  const FamilyMap: map<string, ControlFamily> := map[
    "Governance" := RiskGovernance,
    "Cybersecurity" := Security,
    "Assurance" := RiskGovernance,
    "Compliance" := RiskGovernance,
    "Finance" := RiskGovernance,
    "Legal" := RiskGovernance,
    "Regional" := RiskGovernance,
    "Healthcare" := RiskGovernance,
    "AuditGovernance" := RiskGovernance,
    "Benchmark" := Security,
    "AppSec" := Security]

  /** A raw family kept as it is when canonical, else looked up in `familyMap`; `None` when neither. */
  function ResolveFamily(s: string): (r: Option<ControlFamily>)
    ensures ParseFamily(s).Some? ==> r == ParseFamily(s)
    ensures ParseFamily(s).None? ==> r == (if s in FamilyMap then Some(FamilyMap[s]) else None)
  {
    match ParseFamily(s)
    case Some(f) => Some(f)
    case None => if s in FamilyMap then Some(FamilyMap[s]) else None
  }

  /** A raw edge type kept as it is when canonical, else looked up in `edgeMap`; `None` when neither. */
  function ResolveEdgeType(s: string): (r: Option<EdgeType>)
    ensures ParseEdgeType(s).Some? ==> r == ParseEdgeType(s)
    ensures ParseEdgeType(s).None? ==> r == (if s in EdgeMap then Some(EdgeMap[s]) else None)
  {
    match ParseEdgeType(s)
    case Some(t) => Some(t)
    case None => if s in EdgeMap then Some(EdgeMap[s]) else None
  }

  /** The `map(...).filter(Boolean)` step on families: each raw family resolved, unresolvable ones dropped. */
  function ResolvedFamilies(raw: seq<string>): (r: seq<ControlFamily>)
    ensures forall f :: f in r <==> exists k :: 0 <= k < |raw| && ResolveFamily(raw[k]) == Some(f)
  {
    if raw == [] then []
    else
      var rest := ResolvedFamilies(raw[1..]);
      assert forall k :: 0 <= k < |raw| - 1 ==> raw[1..][k] == raw[k + 1];
      match ResolveFamily(raw[0])
      case Some(f) => [f] + rest
      case None => rest
  }

  /** Families are resolved entry by entry: a single entry gives its resolution when there is one, and lists
      concatenate, so the resolved list keeps the raw order and one family per resolvable entry. */
  lemma {:induction false} ResolvedFamiliesAppend(a: seq<string>, b: seq<string>)
    ensures ResolvedFamilies(a + b) == ResolvedFamilies(a) + ResolvedFamilies(b)
  {
    if a == [] {
      assert a + b == b;
    } else {
      assert (a + b)[1..] == a[1..] + b;
      ResolvedFamiliesAppend(a[1..], b);
    }
  }

  lemma ResolvedFamiliesSingle(s: string)
    ensures ResolvedFamilies([s]) == if ResolveFamily(s).Some? then [ResolveFamily(s).value] else []
  {
    assert [s][1..] == [];
  }

  /** The families of a normalised node: resolved, duplicates removed keeping the first occurrence, and
      `[RiskGovernance]` when nothing survives. */
  function NormalizeFamilies(raw: seq<string>): (r: seq<ControlFamily>)
    ensures |r| > 0 && NoDup(r)
    ensures ResolvedFamilies(raw) != [] ==> forall f :: f in r <==> f in ResolvedFamilies(raw)
    ensures ResolvedFamilies(raw) != [] ==> forall i, j :: 0 <= i < j < |r| ==>
      IndexOf(ResolvedFamilies(raw), r[i]) < IndexOf(ResolvedFamilies(raw), r[j])
    ensures ResolvedFamilies(raw) == [] ==> r == [RiskGovernance]
  {
    var families := Dedup(ResolvedFamilies(raw));
    if |families| > 0 then families else [RiskGovernance]
  }

  /** A raw family appended to a list that already resolves to something is added at the end when it names
      a new family, and changes nothing when it is unresolvable or resolves to a family already present. */
  lemma NormalizeFamiliesSnoc(raw: seq<string>, s: string)
    requires ResolvedFamilies(raw) != []
    ensures NormalizeFamilies(raw + [s]) ==
      if ResolveFamily(s).None? || ResolveFamily(s).value in ResolvedFamilies(raw) then NormalizeFamilies(raw)
      else NormalizeFamilies(raw) + [ResolveFamily(s).value]
  {
    ResolvedFamiliesAppend(raw, [s]);
    ResolvedFamiliesSingle(s);
    if ResolveFamily(s).Some? {
      DedupSnoc(ResolvedFamilies(raw), ResolveFamily(s).value);
    } else {
      assert ResolvedFamilies(raw) + [] == ResolvedFamilies(raw);
    }
    assert ResolvedFamilies(raw)[0] in Dedup(ResolvedFamilies(raw));
  }

  /** `map(r => ...)`: the edge with its type resolved and `note ?? description`, or `None` when the type
      cannot be resolved. */
  function NormalizeRelatedEntry(r: RawRelated): (e: Option<RelatedEdge>)
    ensures e.Some? <==> ResolveEdgeType(r.rawType).Some?
    ensures e.Some? ==> e.value.target == r.target && e.value.weight == r.weight &&
                        Some(e.value.edgeType) == ResolveEdgeType(r.rawType) &&
                        e.value.note == (if r.note.Some? then r.note else r.description)
  {
    match ResolveEdgeType(r.rawType)
    case None => None
    case Some(t) => Some(RelatedEdge(r.target, t, r.weight, if r.note.Some? then r.note else r.description))
  }

  /** The related list of a normalised node: entries with an unresolvable type dropped, the rest in order. */
  function NormalizeRelated(raw: seq<RawRelated>): (r: seq<RelatedEdge>)
    ensures |r| <= |raw|
  {
    if raw == [] then []
    else
      var rest := NormalizeRelated(raw[1..]);
      match NormalizeRelatedEntry(raw[0])
      case Some(e) => [e] + rest
      case None => rest
  }

  /** The related list is normalised entry by entry: a single entry survives exactly when its type resolves,
      and lists concatenate. */
  lemma {:induction false} NormalizeRelatedAppend(a: seq<RawRelated>, b: seq<RawRelated>)
    ensures NormalizeRelated(a + b) == NormalizeRelated(a) + NormalizeRelated(b)
  {
    if a == [] {
      assert a + b == b;
    } else {
      assert (a + b)[1..] == a[1..] + b;
      NormalizeRelatedAppend(a[1..], b);
    }
  }

  lemma NormalizeRelatedSingle(r: RawRelated)
    ensures NormalizeRelated([r]) == if ResolveEdgeType(r.rawType).Some? then [NormalizeRelatedEntry(r).value] else []
  {
    assert [r][1..] == [];
  }

  /** A node with canonical edge types keeps all its edges. */
  lemma {:induction false} CanonicalRelatedKept(raw: seq<RawRelated>)
    requires forall k :: 0 <= k < |raw| ==> ParseEdgeType(raw[k].rawType).Some?
    ensures |NormalizeRelated(raw)| == |raw|
  {
    if raw != [] {
      CanonicalRelatedKept(raw[1..]);
    }
  }

  function OrEmpty<T>(s: Option<seq<T>>): seq<T> {
    if s.Some? then s.value else []
  }

  /** One node as `normalizeExpanded` builds it before validation; the status is only carried over when it
      names a known status, and validation rejects the batch otherwise. */
  function NormalizeNode(n: ExpandedNode): (r: StandardNode)
    ensures r.id == n.id && r.title == n.title && r.summary == n.summary && r.url == n.url
    ensures r.tags == OrEmpty(n.tags)
    ensures r.families == NormalizeFamilies(OrEmpty(n.families))
    ensures r.related == NormalizeRelated(OrEmpty(n.related))
    ensures r.version == n.version && r.jurisdiction == n.jurisdiction
    ensures r.status == (if n.status.Some? then ParseStatus(n.status.value) else None)
  {
    StandardNode(
      n.id, n.title, n.summary, n.url, OrEmpty(n.tags), NormalizeFamilies(OrEmpty(n.families)),
      n.version, if n.status.Some? then ParseStatus(n.status.value) else None,
      n.jurisdiction, NormalizeRelated(OrEmpty(n.related)))
  }

  /** What the strict schema checks of a normalised node beyond its types: a well-formed URL, a known status
      when one is given, and every edge weight within [0, 1]. Families and edge types are canonical by
      construction. */
  predicate Conforms(n: ExpandedNode, isUrl: string -> bool) {
    && isUrl(n.url)
    && (n.status.Some? ==> ParseStatus(n.status.value).Some?)
    && forall e :: e in NormalizeRelated(OrEmpty(n.related)) && e.weight.Some? ==> 0.0 <= e.weight.value <= 1.0
  }

  /** The positions of the nodes that fail the schema, in order. */
  function Violations(nodes: seq<ExpandedNode>, isUrl: string -> bool): (r: seq<nat>)
    ensures forall k: nat :: k in r <==> k < |nodes| && !Conforms(nodes[k], isUrl)
  {
    if nodes == [] then []
    else
      var init := Violations(nodes[..|nodes| - 1], isUrl);
      assert forall k :: 0 <= k < |nodes| - 1 ==> nodes[..|nodes| - 1][k] == nodes[k];
      if Conforms(nodes[|nodes| - 1], isUrl) then init else init + [|nodes| - 1]
  }

  /** `normalizeExpanded`: one normalised node per input, in input order, or the whole batch rejected when
      any node violates the schema. */
  function NormalizeExpanded(nodes: seq<ExpandedNode>, isUrl: string -> bool): (r: Result<seq<StandardNode>, seq<nat>>)
    ensures r.Success? <==> forall k :: 0 <= k < |nodes| ==> Conforms(nodes[k], isUrl)
    ensures r.Success? ==> |r.value| == |nodes| && forall k :: 0 <= k < |nodes| ==> r.value[k] == NormalizeNode(nodes[k])
    ensures r.Failure? ==> r.error != [] && forall k :: k in r.error ==> k < |nodes| && !Conforms(nodes[k], isUrl)
  {
    var bad := Violations(nodes, isUrl);
    if bad == [] then Success(seq(|nodes|, k requires 0 <= k < |nodes| => NormalizeNode(nodes[k])))
    else
      assert bad[0] in bad;
      Failure(bad)
  }

  /** Every standard of a successful batch lists at least one family, none twice, and its statuses and edge
      weights are within the schema. */
  lemma NormalizedNodesValid(nodes: seq<ExpandedNode>, isUrl: string -> bool)
    requires NormalizeExpanded(nodes, isUrl).Success?
    ensures forall n :: n in NormalizeExpanded(nodes, isUrl).value ==>
      |n.families| > 0 && NoDup(n.families) && isUrl(n.url) &&
      forall e :: e in n.related && e.weight.Some? ==> 0.0 <= e.weight.value <= 1.0
  {
    var r := NormalizeExpanded(nodes, isUrl).value;
    forall n | n in r
      ensures |n.families| > 0 && NoDup(n.families) && isUrl(n.url)
      ensures forall e :: e in n.related && e.weight.Some? ==> 0.0 <= e.weight.value <= 1.0
    {
      var k :| 0 <= k < |r| && r[k] == n;
      assert Conforms(nodes[k], isUrl);
    }
  }

  /** A family list already in the canonical vocabulary and duplicate-free goes through unchanged. */
  lemma {:induction false} CanonicalFamiliesKept(fs: seq<ControlFamily>)
    requires |fs| > 0 && NoDup(fs)
    ensures NormalizeFamilies(seq(|fs|, k requires 0 <= k < |fs| => FamilyName(fs[k]))) == fs
  {
    var names := seq(|fs|, k requires 0 <= k < |fs| => FamilyName(fs[k]));
    ResolvedCanonical(fs);
    DedupNoDup(fs);
  }

  lemma {:induction false} ResolvedCanonical(fs: seq<ControlFamily>)
    ensures ResolvedFamilies(seq(|fs|, k requires 0 <= k < |fs| => FamilyName(fs[k]))) == fs
  {
    var names := seq(|fs|, k requires 0 <= k < |fs| => FamilyName(fs[k]));
    if fs != [] {
      ResolvedCanonical(fs[1..]);
      assert names[1..] == seq(|fs[1..]|, k requires 0 <= k < |fs[1..]| => FamilyName(fs[1..][k]));
      assert ResolveFamily(names[0]) == Some(fs[0]);
      assert [fs[0]] + fs[1..] == fs;
    }
  }

  /** Raw missing lists default to empty ones. */
  lemma MissingListsDefault(n: ExpandedNode)
    requires n.tags.None? && n.related.None? && n.families.None?
    ensures NormalizeNode(n).tags == [] && NormalizeNode(n).related == []
    ensures NormalizeNode(n).families == [RiskGovernance]
  {
  }

  // ---------------------------------------------------------------------------------------------
  // buildEdges

  datatype Edge = Edge(source: string, target: string, edgeType: EdgeType)

  function Ids(nodes: seq<StandardNode>): (ids: set<string>)
    ensures forall x :: x in ids <==> exists k :: 0 <= k < |nodes| && nodes[k].id == x
  {
    set k | 0 <= k < |nodes| :: nodes[k].id
  }

  /** The edges one node contributes from the first `|rels|` entries of its related list. */
  function RelatedEdges(source: string, rels: seq<RelatedEdge>, ids: set<string>): seq<Edge> {
    if rels == [] then []
    else
      var last := rels[|rels| - 1];
      RelatedEdges(source, rels[..|rels| - 1], ids) + (if last.target in ids then [Edge(source, last.target, last.edgeType)] else [])
  }

  /** The edges the first `|nodes|` nodes contribute, in node order then related order. */
  function EdgesFrom(nodes: seq<StandardNode>, ids: set<string>): seq<Edge> {
    if nodes == [] then []
    else
      var last := nodes[|nodes| - 1];
      EdgesFrom(nodes[..|nodes| - 1], ids) + RelatedEdges(last.id, last.related, ids)
  }

  /** The edge list `buildEdges` returns. */
  function Edges(nodes: seq<StandardNode>): seq<Edge> {
    EdgesFrom(nodes, Ids(nodes))
  }

  /** `buildEdges`: walks every node and every related entry, pushing an edge whenever the target is a
      known id. */
  method BuildEdges(nodes: seq<StandardNode>) returns (edges: seq<Edge>)
    ensures edges == Edges(nodes)
  {
    edges := [];
    var idSet := set k | 0 <= k < |nodes| :: nodes[k].id;
    var i := 0;
    while i < |nodes|
      invariant 0 <= i <= |nodes|
      invariant edges == EdgesFrom(nodes[..i], idSet)
    {
      var node := nodes[i];
      var j := 0;
      while j < |node.related|
        invariant 0 <= j <= |node.related|
        invariant edges == EdgesFrom(nodes[..i], idSet) + RelatedEdges(node.id, node.related[..j], idSet)
      {
        var rel := node.related[j];
        if rel.target in idSet {
          edges := edges + [Edge(node.id, rel.target, rel.edgeType)];
        }
        assert node.related[..j + 1][..j] == node.related[..j];
        j := j + 1;
      }
      assert node.related[..j] == node.related;
      assert nodes[..i + 1][..i] == nodes[..i];
      i := i + 1;
    }
    assert nodes[..i] == nodes;
  }

  function RelatedCount(nodes: seq<StandardNode>): nat {
    if nodes == [] then 0 else RelatedCount(nodes[..|nodes| - 1]) + |nodes[|nodes| - 1].related|
  }

  /** One edge per related entry whose target is known: an edge is present exactly when some node has a
      related entry with that target and type, the target is a known id, and the source is that node. */
  lemma {:induction false} RelatedEdgesSpec(source: string, rels: seq<RelatedEdge>, ids: set<string>)
    ensures |RelatedEdges(source, rels, ids)| <= |rels|
    ensures forall e :: e in RelatedEdges(source, rels, ids) <==>
      e.source == source && e.target in ids && exists k :: 0 <= k < |rels| && rels[k].target == e.target && rels[k].edgeType == e.edgeType
  {
    if rels != [] {
      var init := rels[..|rels| - 1];
      RelatedEdgesSpec(source, init, ids);
      forall e ensures e in RelatedEdges(source, rels, ids) <==>
        e.source == source && e.target in ids && exists k :: 0 <= k < |rels| && rels[k].target == e.target && rels[k].edgeType == e.edgeType
      {
        if e.source == source && e.target in ids {
          if exists k :: 0 <= k < |rels| && rels[k].target == e.target && rels[k].edgeType == e.edgeType {
            var k :| 0 <= k < |rels| && rels[k].target == e.target && rels[k].edgeType == e.edgeType;
            if k < |rels| - 1 {
              assert init[k] == rels[k];
            }
          }
        }
        if exists k :: 0 <= k < |init| && init[k].target == e.target && init[k].edgeType == e.edgeType {
          var k :| 0 <= k < |init| && init[k].target == e.target && init[k].edgeType == e.edgeType;
          assert rels[k] == init[k];
        }
      }
    }
  }

  lemma {:induction false} EdgesFromSpec(nodes: seq<StandardNode>, ids: set<string>)
    ensures |EdgesFrom(nodes, ids)| <= RelatedCount(nodes)
    ensures forall e :: e in EdgesFrom(nodes, ids) ==> e.target in ids && exists k :: 0 <= k < |nodes| && nodes[k].id == e.source
  {
    if nodes != [] {
      var init := nodes[..|nodes| - 1];
      var last := nodes[|nodes| - 1];
      EdgesFromSpec(init, ids);
      RelatedEdgesSpec(last.id, last.related, ids);
      forall e | e in EdgesFrom(nodes, ids) ensures e.target in ids && exists k :: 0 <= k < |nodes| && nodes[k].id == e.source {
        if e in EdgesFrom(init, ids) {
          var k :| 0 <= k < |init| && init[k].id == e.source;
          assert nodes[k] == init[k];
        }
      }
    }
  }

  /** Every built edge joins two known standards, and there are never more edges than related entries;
      a related entry naming an unknown standard yields no edge. */
  lemma EdgesWellFormed(nodes: seq<StandardNode>)
    ensures |Edges(nodes)| <= RelatedCount(nodes)
    ensures forall e :: e in Edges(nodes) ==> e.source in Ids(nodes) && e.target in Ids(nodes)
  {
    EdgesFromSpec(nodes, Ids(nodes));
  }

  /** An entry whose target is some node's id yields its edge. */
  lemma {:induction false} KnownTargetYieldsEdge(nodes: seq<StandardNode>, i: nat, j: nat)
    requires i < |nodes| && j < |nodes[i].related|
    requires nodes[i].related[j].target in Ids(nodes)
    ensures Edge(nodes[i].id, nodes[i].related[j].target, nodes[i].related[j].edgeType) in Edges(nodes)
  {
    EdgesFromContains(nodes, Ids(nodes), i, j);
  }

  lemma {:induction false} EdgesFromContains(nodes: seq<StandardNode>, ids: set<string>, i: nat, j: nat)
    requires i < |nodes| && j < |nodes[i].related|
    requires nodes[i].related[j].target in ids
    ensures Edge(nodes[i].id, nodes[i].related[j].target, nodes[i].related[j].edgeType) in EdgesFrom(nodes, ids)
  {
    var init := nodes[..|nodes| - 1];
    if i < |nodes| - 1 {
      assert init[i] == nodes[i];
      EdgesFromContains(init, ids, i, j);
    } else {
      RelatedEdgesSpec(nodes[i].id, nodes[i].related, ids);
    }
  }

  // ---------------------------------------------------------------------------------------------
  // listAllTags

  function AllTagOccurrences(nodes: seq<StandardNode>): (r: seq<string>)
    ensures forall t :: t in r <==> exists k :: 0 <= k < |nodes| && t in nodes[k].tags
  {
    if nodes == [] then []
    else
      var rest := AllTagOccurrences(nodes[1..]);
      assert forall k :: 0 <= k < |nodes| - 1 ==> nodes[1..][k] == nodes[k + 1];
      nodes[0].tags + rest
  }

  /** `listAllTags`: every tag of every node once, in ascending order. */
  function ListAllTags(nodes: seq<StandardNode>): (r: seq<string>)
    ensures StrictlyAscending(r)
    ensures forall t :: t in r <==> exists k :: 0 <= k < |nodes| && t in nodes[k].tags
  {
    SortStrings(Dedup(AllTagOccurrences(nodes)))
  }

  /** Any ascending duplicate-free list of exactly the catalog's tags is the one `listAllTags` returns. */
  lemma ListAllTagsUnique(nodes: seq<StandardNode>, other: seq<string>)
    requires StrictlyAscending(other)
    requires forall t :: t in other <==> exists k :: 0 <= k < |nodes| && t in nodes[k].tags
    ensures ListAllTags(nodes) == other
  {
    AscendingUnique(ListAllTags(nodes), other);
  }
}
