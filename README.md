# compliance-map: catalog and selection logic in Dafny

compliance-map is a web tool that shows compliance standards (ISO 27001, SOC 2, NIST frameworks and
the like) as a graph, scores how ready a chosen set of standards makes an organisation for an outcome
profile, and keeps the filters and the chosen implementation path in the page URL. This project models
the logic behind that UI and proves its properties:

- **Scoring** (`src/lib/scoring.ts`): which of the six control families a selection covers, and the
  readiness score with its breakdown and its drivers.
- **Catalog** (`src/lib/data.ts`): the expanded dataset's standards normalised through the fixed family
  and edge-type tables, checked against the strict schema as one batch, the edge list between known
  standards, and the sorted list of all tags.
- **Query**, **UrlState** (`src/lib/url-state.ts`): filter and path state written to query parameters
  and read back, the validator for foreign parameters, and the shareable link.
- **Permalink** (`src/lib/permalink.ts`): the compact `p` / `tag` / `sel` permalink.
- **PathRibbon**, **DetailsDrawer**, **ControlPanel** (`src/components/graph/*.tsx`): the edits the
  handlers make to the path and filter state.
- **GraphCanvas** (`src/components/graph/graph-canvas.tsx`): which standards the graph shows, its nodes,
  and its edges.
- **Wrappers**, **Lists**, **Text**, **Standards**: `Option`/`Result`, the list operations the code
  uses (`filter`, `includes`, `new Set`), comma splitting and joining, ASCII case folding, substring
  search, the default string order of `sort()`, and the entity types from `src/types/standards.ts`.

The model is written in the code's own forms:

- Loops that fill a record or push onto an array are methods with loop invariants, proved against a
  specification function. These are `computeCoverageByFamily`, `buildEdges` and the canvas edge loop.
- `serializeState`, `toQueryString` and `validateUrlState` have no loop. They are methods made of
  successive conditional `set` or `push` steps. Each is proved against a specification function, or
  states its result outright.
- `moveStandard` copies the selection into an array and swaps two slots.
- Everything else is a function.

How the model stands in for the environment:

- Weights are exact reals.
- A `URLSearchParams` object is a map from keys to values.
- Turning parameters into text, and text into parameters, is library code. It is passed in as function
  parameters (`render`, `parse`), and only the laws a lemma needs are assumed of them.
- `z.string().url()` is the `isUrl` parameter.
- `window.location.origin` is the `origin` parameter.

## Model

| member | source | states |
|---|---|---|
| Scoring.ComputeCoverageByFamily | src/lib/scoring.ts:20-28 | every one of the six families is a key with value 0 or 1, and the value is 1 exactly when some selected standard lists the family |
| Scoring.Breakdown | src/lib/scoring.ts:32-38 | one row per weight entry, in entry order, with the entry's family and weight; `covered` is the family's coverage, 1 for a covered family and 0 otherwise; contribution equals the weight for a covered family and is 0 otherwise |
| Scoring.AboveThreshold | src/lib/scoring.ts:42 | keeps exactly the rows whose contribution is at least 0.1 × maxScore, and keeps the order of the rows at every contribution level |
| Scoring.SortByContribution | src/lib/scoring.ts:43 | the result is in non-increasing contribution order and is a permutation of the input, and rows of equal contribution keep their relative order (a stable sort) |
| Scoring.ComputeReadinessScore | src/lib/scoring.ts:30-45 | one breakdown row per weight entry; maxScore is never 0 and percent is score / maxScore; every driver is a breakdown row, and there are no more drivers than rows |
| Scoring.ScoreBounds | src/lib/scoring.ts:39-41 | score is the sum of contributions; maxScore is the sum of weights, or 1 when that sum is 0; with no negative weight, 0 ≤ score ≤ maxScore and 0 ≤ percent ≤ 1 |
| Scoring.FullCoverageIsFullScore | src/lib/scoring.ts:39-41 | percent is 1 when the weight sum is positive, no weight is negative and every positively weighted family is covered |
| Scoring.DriversSpec | src/lib/scoring.ts:42-43 | drivers are exactly the breakdown rows with contribution ≥ 0.1 × maxScore, in non-increasing order, with ties in breakdown order |
| Scoring.EmptySelection | src/lib/scoring.ts:20-45 | an empty selection gives score 0, percent 0 and no drivers, for any non-negative weights |
| Scoring.AddingCoveredStandard | src/lib/scoring.ts:22-26 | adding a standard whose families are already covered leaves the whole score result unchanged |
| Scoring.RepeatedStandard | src/lib/scoring.ts:22-26 | selecting a standard a second time leaves the whole score result unchanged |
| Standards.ParseFamily | src/lib/data.ts:7 | recognises exactly the six canonical family names, each as its own family |
| Standards.ParseEdgeType | src/lib/data.ts:6 | recognises exactly the four canonical edge-type names, each as its own type |
| Standards.ParseStatus | src/lib/data.ts:24 | accepts exactly `active`, `deprecated` and `superseded`, each as its own status |
| Catalog.ResolveFamily | src/lib/data.ts:100 | a canonical name resolves to itself; any other name resolves through `familyMap` when listed there, and to nothing otherwise |
| Catalog.ResolveEdgeType | src/lib/data.ts:108 | a canonical type resolves to itself; any other type resolves through `edgeMap` when listed there, and to nothing otherwise |
| Catalog.ResolvedFamilies | src/lib/data.ts:99-101 | contains exactly the families that some raw entry resolves to |
| Catalog.ResolvedFamiliesAppend | src/lib/data.ts:99-101 | resolving a concatenation concatenates the results, so the resolved list keeps the raw order |
| Catalog.ResolvedFamiliesSingle | src/lib/data.ts:99-101 | a one-entry list resolves to that entry's family when it has one, and to nothing otherwise |
| Catalog.NormalizeFamilies | src/lib/data.ts:96-104 | the result is non-empty and duplicate-free; it has the same families as the resolved list, ordered by their first position there; it is `[RiskGovernance]` when nothing resolves |
| Catalog.NormalizeFamiliesSnoc | src/lib/data.ts:96-104 | once something resolves, a further raw family is added at the end when it resolves to a new family, and changes nothing otherwise |
| Catalog.NormalizeRelatedEntry | src/lib/data.ts:107-111 | an entry survives exactly when its type resolves; target and weight are copied, the type is the resolved one, and the note is `note`, or else `description` |
| Catalog.NormalizeRelated | src/lib/data.ts:106-112 | never more entries than the raw list; with NormalizeRelatedAppend and NormalizeRelatedSingle this fixes the list entry by entry |
| Catalog.NormalizeRelatedAppend | src/lib/data.ts:106-112 | related lists are normalised entry by entry, so normalising a concatenation concatenates the results, keeping relative order |
| Catalog.NormalizeRelatedSingle | src/lib/data.ts:106-112 | a one-entry list normalises to that entry's normalisation when its type resolves, and to nothing otherwise |
| Catalog.CanonicalRelatedKept | src/lib/data.ts:106-112 | a related list with only canonical types loses no entry |
| Catalog.NormalizeNode | src/lib/data.ts:114-126 | copies id, title, summary, url, version and jurisdiction; missing tags and related become empty lists; families and related are the normalised lists; a given status is parsed, possibly to none, and a missing one stays missing |
| Catalog.Conforms | src/lib/data.ts:9-27 | the schema checks that normalisation does not already guarantee: an accepted URL, a known status when one is given, and edge weights within [0, 1] |
| Catalog.Violations | src/lib/data.ts:130 | lists exactly the positions of the nodes that fail the schema |
| Catalog.NormalizeExpanded | src/lib/data.ts:94-131 | succeeds exactly when every node conforms, and then gives one normalised node per input, in input order; otherwise it fails, naming only offending positions and at least one |
| Catalog.NormalizedNodesValid | src/lib/data.ts:9-27 | every node of a successful batch has a non-empty, duplicate-free family list, an accepted URL, and edge weights within [0, 1] |
| Catalog.CanonicalFamiliesKept | src/lib/data.ts:96-104 | a family list that is canonical and duplicate-free comes through normalisation unchanged |
| Catalog.ResolvedCanonical | src/lib/data.ts:99-101 | canonical family names resolve to the same families, in order |
| Catalog.MissingListsDefault | src/lib/data.ts:96-119 | a raw node without tags, related or families gets empty tags, no relationships and `[RiskGovernance]` |
| Catalog.Edges | src/lib/data.ts:145-156 | the edge list of `buildEdges`: the nodes' edges, in node order, towards the ids of the same node list; EdgesWellFormed states its properties |
| Catalog.BuildEdges | src/lib/data.ts:145-156 | returns the specification edge list: node order, then related order, one edge per entry whose target is a known id |
| Catalog.RelatedEdgesSpec | src/lib/data.ts:148-152 | one node yields exactly the edges for its related entries with a known target, and no more edges than entries |
| Catalog.EdgesFromSpec | src/lib/data.ts:147-153 | every edge's source is a node and its target is known; there are no more edges than related entries overall |
| Catalog.EdgesWellFormed | src/lib/data.ts:145-156 | both endpoints of every edge are node ids, and the edge count is at most the number of related entries |
| Catalog.KnownTargetYieldsEdge | src/lib/data.ts:149-152 | every related entry whose target is a node id produces its edge |
| Catalog.EdgesFromContains | src/lib/data.ts:149-152 | the same as KnownTargetYieldsEdge, for any id set |
| Catalog.AllTagOccurrences | src/lib/data.ts:159 | contains exactly the tags that occur on some node |
| Catalog.ListAllTags | src/lib/data.ts:158-160 | strictly ascending, and so duplicate-free; its elements are exactly the tags occurring on some node |
| Catalog.ListAllTagsUnique | src/components/graph/control-panel.tsx:26 | any strictly ascending list of exactly the catalog's tags is the tag list |
| Query.Get | src/lib/url-state.ts:22 | `get` returns the stored value for a present key and nothing for a missing one |
| Query.GetNonEmpty | src/lib/url-state.ts:36 | a read that treats an empty value as missing yields a value exactly when the key holds a non-empty value |
| UrlState.StateParams | src/lib/url-state.ts:3-15 | the parameters written, key by key in the code's order, each only when its field is set; StateParamsKeys states the result key by key |
| UrlState.StateParamsKeys | src/lib/url-state.ts:3-15 | writes only the seven known keys; writes each key exactly when its field is set; writes the expected value for each key it writes |
| UrlState.SerializeState | src/lib/url-state.ts:3-15 | the successive `set` calls produce the specification parameters |
| UrlState.SafeGetArray | src/lib/url-state.ts:21-30 | a missing or empty value is `[]`; otherwise the result is the non-empty comma segments, in order |
| UrlState.ValidFamilies | src/lib/url-state.ts:32-37 | keeps exactly the segments that are family names, and never grows the list |
| UrlState.ValidFamiliesAppend | src/lib/url-state.ts:32-37 | the whitelist works item by item: a concatenation gives the concatenated results, so the families come in item order |
| UrlState.ValidFamiliesSingle | src/lib/url-state.ts:32-37 | one item gives its family when it names one, and nothing otherwise |
| UrlState.ValidFamiliesNames | src/lib/url-state.ts:32-37 | the names of a family list read back as that list |
| UrlState.DeserializeState | src/lib/url-state.ts:17-47 | a missing or empty profile decodes to none and a missing or empty search to ""; `why` decodes to true exactly when it is `"true"`; the list fields decode through SafeGetArray; decoding never fails |
| UrlState.SerializeRoundTrip | src/lib/url-state.ts:3-47 | decoding the serialised state gives the state back whenever list items are non-empty and comma-free and the profile is absent or non-empty |
| UrlState.MissingKeysDecodeEmpty | src/lib/url-state.ts:21-46 | no parameters decode to cleared filters and an empty path |
| UrlState.InvalidFamilies | src/lib/url-state.ts:65-66 | an order-preserving subsequence holding every copy of each segment that is not a family name and nothing else, so it is empty exactly when every segment is a family name |
| UrlState.ValidateUrlState | src/lib/url-state.ts:55-82 | valid exactly when errors is empty, and exactly when both the families check and the `why` check pass; one error per failed check, with the message text of each error |
| UrlState.ValidFamiliesKeepAll | src/lib/url-state.ts:25-37 | a families value that passes validation decodes to all of its segments, in order |
| UrlState.ValidatedFamiliesDecodeFully | src/lib/url-state.ts:62-70 | the same, stated for the decoded state of validated parameters |
| UrlState.GenerateShareableUrl | src/lib/url-state.ts:49-53 | the link is the explicit base, or else the origin, followed by `/graph`; `?` and the rendered parameters follow only when some parameter is written |
| UrlState.ClearedStateLink | src/lib/url-state.ts:49-53 | cleared filters with an empty path give exactly `base + "/graph"` |
| Permalink.QueryParams | src/lib/permalink.ts:9-11 | `p` and `tag` are written only when non-empty; `sel` is written only for a non-empty id list, joined with commas |
| Permalink.ToQueryString | src/lib/permalink.ts:7-14 | returns "" when no parameter is written, and otherwise `?` followed by the rendered parameters |
| Permalink.QueryString | src/lib/permalink.ts:7-14 | empty exactly when the rendered parameters are empty; otherwise `?` followed by the rendered parameters |
| Permalink.StripQuestionMark | src/lib/permalink.ts:17 | removes exactly one leading `?`, and only when there is one |
| Permalink.FromParams | src/lib/permalink.ts:18-22 | an empty or missing `p`, `tag` or `sel` decodes to nothing; otherwise `sel` becomes its non-empty comma segments |
| Permalink.FromQueryString | src/lib/permalink.ts:16-23 | never fails, and no field it sets holds an empty string, nor any selected id |
| Permalink.QuestionMarkIgnored | src/lib/permalink.ts:17 | `s` and `"?" + s` decode identically when `s` does not itself start with `?` |
| Permalink.CommasOnlySelection | src/lib/permalink.ts:20-21 | any non-empty `sel` made only of commas decodes to an empty id list rather than to no list |
| Permalink.RoundTrip | src/lib/permalink.ts:7-23 | decoding a permalink gives the state back, with an empty id list as no list, given non-empty strings and non-empty, comma-free ids |
| PathRibbon.AddRecommendedPath | src/components/graph/path-ribbon.tsx:20-30 | without a profile nothing changes; otherwise the old selection is a prefix of the new one and the appended ids are the recommended ids not yet selected, in recommended order and with their recommended counts; `customOrder` is unchanged |
| PathRibbon.AddRecommendedNoDup | src/components/graph/path-ribbon.tsx:24-28 | adding a duplicate-free recommendation to a duplicate-free selection creates no duplicate |
| PathRibbon.AddRecommendedIdempotent | src/components/graph/path-ribbon.tsx:24-28 | adding the recommendation again changes nothing |
| PathRibbon.ClearPath | src/components/graph/path-ribbon.tsx:32-38 | both lists become empty |
| PathRibbon.RemoveFromPath | src/components/graph/path-ribbon.tsx:40-46 | the id leaves both lists; every other id keeps its count and relative order |
| PathRibbon.RemoveFromPathFacts | src/components/graph/path-ribbon.tsx:40-46 | removing an absent id changes nothing, and removing twice is the same as removing once |
| Lists.IndexOf | src/components/graph/path-ribbon.tsx:49-50 | gives -1 exactly when the id is absent; otherwise gives the position of its first occurrence |
| PathRibbon.Swapped | src/components/graph/path-ribbon.tsx:56 | exchanges the two positions and leaves all others alone; the result is a permutation |
| PathRibbon.MoveStandard | src/components/graph/path-ribbon.tsx:48-63 | nothing changes when the id is absent or the move would pass an end; otherwise the first occurrence swaps with its neighbour (a permutation in which only those two slots differ), and the new order also becomes `customOrder` |
| DetailsDrawer.AddToPath | src/components/graph/details-drawer.tsx:22-31 | appends the selected id only when an id is selected and not yet in the path; `customOrder` is untouched; afterwards the id is in the path |
| DetailsDrawer.AddToPathFacts | src/components/graph/details-drawer.tsx:24-31 | adding never introduces a duplicate, and adding twice is the same as adding once |
| DetailsDrawer.RemoveFromPath | src/components/graph/details-drawer.tsx:33-40 | every occurrence of the selected id leaves the selection, every other id keeps its count and relative order, `customOrder` is untouched, and nothing changes when the id is not in the path |
| DetailsDrawer.AddThenRemove | src/components/graph/details-drawer.tsx:24-40 | adding an id that is not in the path and then removing it restores the path |
| DetailsDrawer.WeightOf | src/components/graph/details-drawer.tsx:45 | the weight of the family's entry, or 0 when there is none |
| DetailsDrawer.RelevantFamilies | src/components/graph/details-drawer.tsx:45 | the standard's families with positive weight, in their original order and with their original counts |
| DetailsDrawer.TotalWeightPositive | src/components/graph/details-drawer.tsx:49 | the combined weight of a non-empty list of positively weighted families is positive |
| DetailsDrawer.GetWhyMatters | src/components/graph/details-drawer.tsx:42-51 | nothing without a profile, or when no family of the standard has positive weight; otherwise the relevant families and their combined weight, which is positive |
| ControlPanel.UpdateFilters | src/components/graph/control-panel.tsx:28-30 | the fields in the update take its values, and all other fields stay as they were |
| ControlPanel.UpdateFiltersLaws | src/components/graph/control-panel.tsx:28-30 | an empty update changes nothing, and two updates in a row equal one merged update in which the later one wins |
| ControlPanel.ToggleFamily | src/components/graph/control-panel.tsx:32-37 | a selected family loses every copy while the rest keeps its order and counts; an unselected family is appended; no other field changes |
| ControlPanel.ToggleTag | src/components/graph/control-panel.tsx:39-42 | the same remove-or-append rule, applied to the tags |
| ControlPanel.ToggleFamilyLaws | src/components/graph/control-panel.tsx:32-37 | toggling an unselected family twice restores the filters, and toggling keeps a duplicate-free list duplicate-free |
| ControlPanel.ToggleTagLaws | src/components/graph/control-panel.tsx:39-42 | the same two laws, for tags |
| ControlPanel.ClearAll | src/components/graph/control-panel.tsx:155-162 | no profile, no families, no tags, an empty search, and showWhyMatters false |
| GraphCanvas.MatchesSearch | src/components/graph/graph-canvas.tsx:90-92 | the lower-cased search occurs in the lower-cased title or in the lower-cased id |
| GraphCanvas.Keep | src/components/graph/graph-canvas.tsx:82-96 | the three checks, each passing when its filter is empty: some family shared, some tag shared, the search matched |
| GraphCanvas.FilteredStandards | src/components/graph/graph-canvas.tsx:81-96 | an order-preserving subsequence holding every copy of each standard that passes all three checks and nothing else; everything is kept when every standard passes |
| GraphCanvas.EmptyFiltersKeepAll | src/components/graph/graph-canvas.tsx:81-96 | with no family, tag or search filter, and in particular after clearing the filters, every standard is kept |
| GraphCanvas.SearchIgnoresCase | src/components/graph/graph-canvas.tsx:88-92 | a search string and its lower-cased form keep the same standards |
| GraphCanvas.SearchNarrows | src/components/graph/graph-canvas.tsx:88-92 | a standard kept with a search is also kept without one |
| GraphCanvas.Nodes | src/components/graph/graph-canvas.tsx:99-108 | one node per kept standard, in order; `isSelected` holds exactly when the id is on the path, and `isSOC2` exactly when the id is `SOC2` |
| GraphCanvas.MakeEdge | src/components/graph/graph-canvas.tsx:116-122 | the edge id is the source, a dash, and the target; endpoints, type and note are copied |
| GraphCanvas.DrawEdges | src/components/graph/graph-canvas.tsx:111-126 | the nested loops produce the specification edge list |
| GraphCanvas.CanvasEdgesAreBuildEdges | src/components/graph/graph-canvas.tsx:111-126 | without ids and notes, the canvas edges are exactly what `buildEdges` gives for the kept standards; every edge id is the source, a dash and the target; both endpoints are kept standards; there are no more edges than related entries |
| GraphCanvas.RelatedCanvasEdgesPlain | src/components/graph/graph-canvas.tsx:112-124 | one kept standard's canvas edges, without ids and notes, are its `buildEdges` edges |
| GraphCanvas.CanvasEdgeIds | src/components/graph/graph-canvas.tsx:116 | every canvas edge's id is its source, a dash and its target |
| Lists.RemoveAll | src/components/graph/path-ribbon.tsx:43-44 | `filter(id => id !== x)` drops every copy of x; every other element keeps its count and relative order |
| Lists.Without | src/components/graph/path-ribbon.tsx:24 | `filter(id => !excluded.includes(id))` keeps every copy of each element not excluded and nothing else, in order |
| Lists.Dedup | src/lib/data.ts:98-103 | `Array.from(new Set(...))` is duplicate-free, has the same elements as its input, and orders them by their first position in the input |
| Lists.DedupSnoc | src/lib/data.ts:98-103 | appending an element already present adds nothing, and appending a new one puts it last, so each element stays at its first occurrence |
| Lists.Toggle | src/components/graph/control-panel.tsx:33-35 | remove every copy when present, append when absent |
| Lists.ToggleTwice | src/components/graph/control-panel.tsx:33-35 | toggling an absent element twice restores the list |
| Text.Split | src/lib/url-state.ts:25 | `split(",")` always yields at least one segment, every segment is comma-free, and a comma-free string yields itself |
| Text.SplitJoin | src/lib/url-state.ts:7 | splitting a comma-joined list of comma-free items gives the items back |
| Text.Join | src/lib/url-state.ts:7 | `join(",")` as used for list values; SplitJoin and JoinSplit prove it the inverse of Split |
| Text.JoinSplit | src/lib/url-state.ts:25 | joining the segments of a split string gives the string back |
| Text.SplitCommas | src/lib/permalink.ts:21 | a string made only of commas splits into empty segments only |
| Text.DropEmpty | src/lib/url-state.ts:25 | `filter(Boolean)` keeps every copy of each non-empty segment and nothing else, in order; only empty segments give `[]` |
| Text.LowerIdempotent | src/components/graph/graph-canvas.tsx:90-91 | lower-casing twice is the same as lower-casing once |
| Text.Lower | src/components/graph/graph-canvas.tsx:90-91 | same length, each character case-folded |
| Text.Contains | src/components/graph/graph-canvas.tsx:90-91 | `includes` as a suffix-by-suffix prefix test; ContainsOccurs relates it to an occurrence at some position |
| Text.ContainsOccurs | src/components/graph/graph-canvas.tsx:90-91 | the needle is contained exactly when it occurs at some position of the string |
| Text.SortStrings | src/lib/data.ts:159 | `sort()` of a duplicate-free list is strictly ascending under the character order and has the same elements |
| Text.AscendingUnique | src/lib/data.ts:159 | two strictly ascending lists with the same elements are equal |

## Left out

- The status field of a raw node is cast, not converted. In the model, a status outside the three known
  names makes the node fail `Conforms`, so the batch is rejected. An empty status string is rejected the
  same way: the code does not treat it as absent.
- Zod itself is not modelled, only what it accepts:
  - the URL format is the `isUrl` parameter;
  - the family and edge-type enums hold by construction;
  - the rejection carries the failing node positions instead of Zod's error object.
- `getStandards`, `getProfiles` and the JSON imports are not modelled. `NormalizeExpanded` takes the raw
  nodes as input. Profile validation is not modelled.
- `getRecommendedPath` is imported by the path ribbon but is not part of this model. Its result is the
  `recommended` input of `PathRibbon.AddRecommendedPath`. No planning or effort logic is modelled.
- Parameter encoding (`URLSearchParams.toString()` and the parsing of a query string) is library code.
  Parameters are a map; their text forms are the `render` and `parse` parameters. The round-trip lemmas
  assume only that `parse` reads back what `render` wrote, and that only empty parameters render as "".
- UrlState.SerializeState returns the parameter map, not its text. `GenerateShareableUrl` applies
  `render` to it.
- `window.location` is the `origin` argument of `GenerateShareableUrl`.
- Permalink.QuestionMarkIgnored requires that `s` not start with `?`. With a second `?`, what is decoded
  depends on the library's parser, which is not modelled.
- `toLowerCase` is an ASCII case fold. Unicode case mapping is not modelled.
- The default `sort()` order is modelled on characters, not UTF-16 code units. These differ only for
  characters outside the Basic Multilingual Plane.
- JavaScript prototype keys on `familyMap`, `edgeMap` and `weights` are not modelled. The maps are
  finite maps.
- A profile's `weights` record is a list of entries in `Object.entries` order. `DetailsDrawer.WeightOf`
  reads the first entry for a family, which is the record's only entry when the record comes from JSON.
- Weights and scores are exact reals, not IEEE doubles.
- Display rounding (`Math.round` percentages) is not modelled, nor are the messages built by
  `getWhyMatters` and the top-3 badge slice of the readiness panel.
- The graph widget is not modelled: Cytoscape set-up, styles, layout, tap events, zoom, the legend,
  keyboard shortcuts and page wiring. Clipboard, toasts and timers are not modelled either.
- React state is not modelled. Each handler returns the state it hands to its callback. A handler that
  returns early is modelled as returning the state unchanged.
