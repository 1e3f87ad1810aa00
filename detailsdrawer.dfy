/** The path buttons and the "why this matters" computation of `src/components/graph/details-drawer.tsx`.
    `selectedNode` is the id of the standard whose drawer is open; `None` and `""` both count as nothing
    selected. Handlers that do nothing are modelled as returning the state unchanged. */
module DetailsDrawer {
  import opened Wrappers
  import opened Lists
  import opened Standards

  /** A truthy selection: present and non-empty. */
  predicate HasSelection(selectedNode: Option<string>) {
    selectedNode.Some? && selectedNode.value != ""
  }

  /** `isInPath`. */
  predicate IsInPath(path: PathState, selectedNode: Option<string>) {
    HasSelection(selectedNode) && selectedNode.value in path.selectedStandards
  }

  /** `addToPath`: the selected id goes to the end of the selection if it is not there yet. */
  function AddToPath(path: PathState, selectedNode: Option<string>): (r: PathState)
    ensures r.customOrder == path.customOrder
    ensures HasSelection(selectedNode) && !IsInPath(path, selectedNode) ==>
      r.selectedStandards == path.selectedStandards + [selectedNode.value]
    ensures !(HasSelection(selectedNode) && !IsInPath(path, selectedNode)) ==> r == path
    ensures HasSelection(selectedNode) ==> IsInPath(r, selectedNode)
  {
    if HasSelection(selectedNode) && !IsInPath(path, selectedNode) then
      path.(selectedStandards := path.selectedStandards + [selectedNode.value])
    else path
  }

  /** Adding never creates a duplicate, and adding twice is adding once. */
  lemma AddToPathFacts(path: PathState, selectedNode: Option<string>)
    ensures NoDup(path.selectedStandards) ==> NoDup(AddToPath(path, selectedNode).selectedStandards)
    ensures AddToPath(AddToPath(path, selectedNode), selectedNode) == AddToPath(path, selectedNode)
  {
    if NoDup(path.selectedStandards) && HasSelection(selectedNode) && !IsInPath(path, selectedNode) {
      var s := path.selectedStandards;
      var t := s + [selectedNode.value];
      forall i, j | 0 <= i < j < |t| ensures t[i] != t[j] {
        if j == |s| {
          assert t[i] == s[i] && s[i] in s;
        }
      }
    }
  }

  /** `removeFromPath`: every occurrence of the selected id leaves the selection; the custom order is not
      touched. */
  function RemoveFromPath(path: PathState, selectedNode: Option<string>): (r: PathState)
    ensures r.customOrder == path.customOrder
    ensures HasSelection(selectedNode) ==> selectedNode.value !in r.selectedStandards
    ensures IsSubsequence(r.selectedStandards, path.selectedStandards)
    ensures forall id :: id in r.selectedStandards <==>
      id in path.selectedStandards && !(HasSelection(selectedNode) && id == selectedNode.value)
    ensures forall id :: !(HasSelection(selectedNode) && id == selectedNode.value) ==>
      multiset(r.selectedStandards)[id] == multiset(path.selectedStandards)[id]
    ensures !IsInPath(path, selectedNode) ==> r == path
  {
    if HasSelection(selectedNode) && IsInPath(path, selectedNode) then
      path.(selectedStandards := RemoveAll(path.selectedStandards, selectedNode.value))
    else
      assert IsSubsequence(path.selectedStandards, path.selectedStandards) by {
        SubsequenceReflexive(path.selectedStandards);
      }
      path
  }

  /** Adding an id that is not in the path and removing it again restores the path. */
  lemma AddThenRemove(path: PathState, selectedNode: Option<string>)
    requires !IsInPath(path, selectedNode)
    ensures RemoveFromPath(AddToPath(path, selectedNode), selectedNode) == path
  {
    if HasSelection(selectedNode) {
      var id := selectedNode.value;
      RemoveAllAppend(path.selectedStandards, [id], id);
      assert RemoveAll([id], id) == [];
    }
  }

  /** `profile.weights?.[family] ?? 0`: the weight of the family's entry, 0 without one. */
  function WeightOf(weights: seq<(ControlFamily, real)>, family: ControlFamily): (w: real)
    ensures (forall k :: 0 <= k < |weights| ==> weights[k].0 != family) ==> w == 0.0
    ensures forall k :: (0 <= k < |weights| && weights[k].0 == family &&
                         (forall m :: 0 <= m < k ==> weights[m].0 != family)) ==> w == weights[k].1
  {
    if weights == [] then 0.0
    else if weights[0].0 == family then weights[0].1
    else
      var w := WeightOf(weights[1..], family);
      assert forall k :: 1 <= k < |weights| ==> weights[k] == weights[1..][k - 1];
      w
  }

  /** The standard's families that carry positive weight, in their own order. */
  function RelevantFamilies(families: seq<ControlFamily>, weights: seq<(ControlFamily, real)>): (r: seq<ControlFamily>)
    ensures IsSubsequence(r, families)
    ensures forall f :: f in r <==> f in families && WeightOf(weights, f) > 0.0
    ensures forall k :: 0 <= k < |r| ==> WeightOf(weights, r[k]) > 0.0
    ensures forall f :: multiset(r)[f] == if WeightOf(weights, f) > 0.0 then multiset(families)[f] else 0
  {
    if families == [] then []
    else
      var rest := RelevantFamilies(families[1..], weights);
      assert families == [families[0]] + families[1..];
      assert multiset(families) == multiset{families[0]} + multiset(families[1..]);
      if WeightOf(weights, families[0]) > 0.0 then
        assert ([families[0]] + rest)[1..] == rest;
        assert multiset([families[0]] + rest) == multiset{families[0]} + multiset(rest);
        [families[0]] + rest
      else rest
  }

  /** The combined weight of the given families. */
  function TotalWeight(families: seq<ControlFamily>, weights: seq<(ControlFamily, real)>): real {
    if families == [] then 0.0 else WeightOf(weights, families[0]) + TotalWeight(families[1..], weights)
  }

  lemma {:induction false} TotalWeightPositive(families: seq<ControlFamily>, weights: seq<(ControlFamily, real)>)
    requires families != []
    requires forall k :: 0 <= k < |families| ==> WeightOf(weights, families[k]) > 0.0
    ensures TotalWeight(families, weights) > 0.0
  {
    if |families| > 1 {
      TotalWeightPositive(families[1..], weights);
    }
  }

  datatype WhyMatters = WhyMatters(relevant: seq<ControlFamily>, totalWeight: real)

  /** `getWhyMatters` up to the message text: nothing without a profile or without a family of positive
      weight; otherwise the relevant families and their combined weight, which is positive. */
  function GetWhyMatters(standard: StandardNode, profile: Option<OutcomeProfile>): (r: Option<WhyMatters>)
    ensures profile.None? ==> r.None?
    ensures profile.Some? ==>
      (r.None? <==> forall k :: 0 <= k < |standard.families| ==> WeightOf(profile.value.weights, standard.families[k]) <= 0.0)
    ensures r.Some? ==> r.value.relevant == RelevantFamilies(standard.families, profile.value.weights)
    ensures r.Some? ==> r.value.totalWeight == TotalWeight(r.value.relevant, profile.value.weights)
    ensures r.Some? ==> r.value.relevant != [] && r.value.totalWeight > 0.0
  {
    match profile
    case None => None
    case Some(p) =>
      var relevant := RelevantFamilies(standard.families, p.weights);
      if relevant == [] then
        assert forall k :: 0 <= k < |standard.families| ==> WeightOf(p.weights, standard.families[k]) <= 0.0 by {
          forall k | 0 <= k < |standard.families| ensures WeightOf(p.weights, standard.families[k]) <= 0.0 {
            assert standard.families[k] !in relevant;
          }
        }
        None
      else
        assert relevant[0] in standard.families;
        TotalWeightPositive(relevant, p.weights);
        Some(WhyMatters(relevant, TotalWeight(relevant, p.weights)))
  }
}
