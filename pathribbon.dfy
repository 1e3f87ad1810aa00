/** The path edits of `src/components/graph/path-ribbon.tsx`. Each handler computes the state it hands
    to `onPathChange`; a handler that returns early hands over nothing, which is modelled as returning the
    state unchanged. */
module PathRibbon {
  import opened Wrappers
  import opened Lists
  import opened Standards

  /** `addRecommendedPath`. `recommended` is what `getRecommendedPath(profile, standards)` returns. */
  function AddRecommendedPath(path: PathState, profile: Option<OutcomeProfile>, recommended: seq<string>): (r: PathState)
    ensures profile.None? ==> r == path
    ensures r.customOrder == path.customOrder
    ensures path.selectedStandards <= r.selectedStandards
    ensures profile.Some? ==> (
      var added := r.selectedStandards[|path.selectedStandards|..];
      && IsSubsequence(added, recommended)
      && (forall id :: id in added <==> id in recommended && id !in path.selectedStandards)
      && forall id :: multiset(added)[id] == if id in path.selectedStandards then 0 else multiset(recommended)[id])
  {
    if profile.None? then path
    else
      var added := Without(recommended, path.selectedStandards);
      assert (path.selectedStandards + added)[|path.selectedStandards|..] == added;
      path.(selectedStandards := path.selectedStandards + added)
  }

  /** A path without duplicates stays without duplicates when a duplicate-free recommendation is added. */
  lemma AddRecommendedNoDup(path: PathState, profile: Option<OutcomeProfile>, recommended: seq<string>)
    requires NoDup(path.selectedStandards) && NoDup(recommended)
    ensures NoDup(AddRecommendedPath(path, profile, recommended).selectedStandards)
  {
    if profile.Some? {
      var a := path.selectedStandards;
      var b := Without(recommended, a);
      WithoutNoDup(recommended, a);
      forall i, j | 0 <= i < j < |a + b| ensures (a + b)[i] != (a + b)[j] {
        if j >= |a| && i < |a| {
          assert (a + b)[j] == b[j - |a|] && b[j - |a|] in b;
          assert (a + b)[i] == a[i] && a[i] in a;
        }
      }
    }
  }

  /** Adding the recommendation a second time adds nothing. */
  lemma AddRecommendedIdempotent(path: PathState, profile: Option<OutcomeProfile>, recommended: seq<string>)
    ensures var once := AddRecommendedPath(path, profile, recommended);
      AddRecommendedPath(once, profile, recommended) == once
  {
    if profile.Some? {
      var once := AddRecommendedPath(path, profile, recommended);
      forall id | id in recommended ensures id in once.selectedStandards {
        if id !in path.selectedStandards {
          assert id in Without(recommended, path.selectedStandards);
        }
      }
      assert once.selectedStandards + [] == once.selectedStandards;
    }
  }

  /** `clearPath`. */
  function ClearPath(path: PathState): (r: PathState)
    ensures r.selectedStandards == [] && r.customOrder == []
  {
    path.(selectedStandards := [], customOrder := [])
  }

  /** `removeFromPath`: every occurrence leaves both lists, the rest keeps its relative order. */
  function RemoveFromPath(path: PathState, standardId: string): (r: PathState)
    ensures standardId !in r.selectedStandards && standardId !in r.customOrder
    ensures IsSubsequence(r.selectedStandards, path.selectedStandards)
    ensures IsSubsequence(r.customOrder, path.customOrder)
    ensures forall id :: id in r.selectedStandards <==> id in path.selectedStandards && id != standardId
    ensures forall id :: id in r.customOrder <==> id in path.customOrder && id != standardId
    ensures forall id :: id != standardId ==>
      multiset(r.selectedStandards)[id] == multiset(path.selectedStandards)[id] &&
      multiset(r.customOrder)[id] == multiset(path.customOrder)[id]
  {
    path.(selectedStandards := RemoveAll(path.selectedStandards, standardId),
          customOrder := RemoveAll(path.customOrder, standardId))
  }

  /** Removing an id that is on neither list changes nothing, and removing twice is removing once. */
  lemma RemoveFromPathFacts(path: PathState, standardId: string)
    ensures standardId !in path.selectedStandards && standardId !in path.customOrder ==>
      RemoveFromPath(path, standardId) == path
    ensures RemoveFromPath(RemoveFromPath(path, standardId), standardId) == RemoveFromPath(path, standardId)
  {
  }

  datatype Direction = Left | Right

  /** The neighbour position a move aims at. */
  function TargetIndex(current: int, direction: Direction): int {
    match direction
    case Left => current - 1
    case Right => current + 1
  }

  /** `s` with positions `i` and `j` exchanged: the same elements with the same multiplicities, and only
      those two positions differ. */
  function Swapped(s: seq<string>, i: int, j: int): (r: seq<string>)
    requires 0 <= i < |s| && 0 <= j < |s|
    ensures |r| == |s| && r[i] == s[j] && r[j] == s[i]
    ensures forall k :: 0 <= k < |s| && k != i && k != j ==> r[k] == s[k]
    ensures multiset(r) == multiset(s)
  {
    s[i := s[j]][j := s[i]]
  }

  /** `moveStandard`: the list is copied into a fresh array, the first occurrence of the id swaps places
      with its neighbour, and the new order becomes both the selection and the custom order. */
  method MoveStandard(path: PathState, standardId: string, direction: Direction) returns (r: PathState)
    ensures var i := IndexOf(path.selectedStandards, standardId);
      var t := TargetIndex(i, direction);
      if i == -1 || !(0 <= t < |path.selectedStandards|) then r == path
      else r.selectedStandards == Swapped(path.selectedStandards, i, t) && r.customOrder == r.selectedStandards
  {
    var s := path.selectedStandards;
    var currentIndex := IndexOf(s, standardId);
    if currentIndex == -1 {
      return path;
    }
    var newOrder := new string[|s|];
    for k := 0 to |s|
      invariant newOrder[..k] == s[..k]
    {
      newOrder[k] := s[k];
    }
    var targetIndex := TargetIndex(currentIndex, direction);
    if !(0 <= targetIndex < newOrder.Length) {
      return path;
    }
    assert newOrder[..] == s;
    newOrder[currentIndex], newOrder[targetIndex] := newOrder[targetIndex], newOrder[currentIndex];
    assert newOrder[..] == Swapped(s, currentIndex, targetIndex);
    r := path.(selectedStandards := newOrder[..], customOrder := newOrder[..]);
  }
}
