/** Query parameters as a key-to-value map: `get` returns what `set` stored last, `None` for a key never
    set. The text form of the parameters is library code and is passed in as a function where needed. */
module Query {
  import opened Wrappers

  type Params = map<string, string>

  function Get(params: Params, key: string): (r: Option<string>)
    ensures r.Some? <==> key in params
    ensures key in params ==> r.value == params[key]
  {
    if key in params then Some(params[key]) else None
  }

  /** `get(key) || fallback`-style reads treat a missing and an empty value alike. */
  function GetNonEmpty(params: Params, key: string): (r: Option<string>)
    ensures r.Some? <==> key in params && params[key] != ""
    ensures r.Some? ==> r.value == params[key]
  {
    if key in params && params[key] != "" then Some(params[key]) else None
  }
}

/** The query-state codec of `src/lib/url-state.ts`: filter and path state written to and read back from
    query parameters, the validator for foreign parameters, and the shareable link. */
module UrlState {
  import opened Wrappers
  import opened Lists
  import opened Text
  import opened Standards
  import opened Query

  datatype UrlState = UrlState(filters: FilterState, path: PathState)

  function FamilyNames(fs: seq<ControlFamily>): (r: seq<string>)
    ensures |r| == |fs| && forall k :: 0 <= k < |fs| ==> r[k] == FamilyName(fs[k])
  {
    seq(|fs|, k requires 0 <= k < |fs| => FamilyName(fs[k]))
  }

  /** The parameters `serializeState` writes: each key only when its field is set. */
  function StateParams(filters: FilterState, path: PathState): Params {
    var p0: Params := map[];
    var p1 := if filters.profile.Some? && filters.profile.value != "" then p0["profile" := filters.profile.value] else p0;
    var p2 := if |filters.families| > 0 then p1["families" := Join(FamilyNames(filters.families), [Comma])] else p1;
    var p3 := if |filters.tags| > 0 then p2["tags" := Join(filters.tags, [Comma])] else p2;
    var p4 := if filters.search != "" then p3["search" := filters.search] else p3;
    var p5 := if filters.showWhyMatters then p4["why" := "true"] else p4;
    var p6 := if |path.selectedStandards| > 0 then p5["selected" := Join(path.selectedStandards, [Comma])] else p5;
    if |path.customOrder| > 0 then p6["order" := Join(path.customOrder, [Comma])] else p6
  }

  /** The keys written and their values, field by field. */
  lemma StateParamsKeys(filters: FilterState, path: PathState)
    ensures var p := StateParams(filters, path);
      && p.Keys <= {"profile", "families", "tags", "search", "why", "selected", "order"}
      && ("profile" in p <==> filters.profile.Some? && filters.profile.value != "")
      && ("profile" in p ==> p["profile"] == filters.profile.value)
      && ("families" in p <==> |filters.families| > 0)
      && ("families" in p ==> p["families"] == Join(FamilyNames(filters.families), [Comma]))
      && ("tags" in p <==> |filters.tags| > 0)
      && ("tags" in p ==> p["tags"] == Join(filters.tags, [Comma]))
      && ("search" in p <==> filters.search != "")
      && ("search" in p ==> p["search"] == filters.search)
      && ("why" in p <==> filters.showWhyMatters)
      && ("why" in p ==> p["why"] == "true")
      && ("selected" in p <==> |path.selectedStandards| > 0)
      && ("selected" in p ==> p["selected"] == Join(path.selectedStandards, [Comma]))
      && ("order" in p <==> |path.customOrder| > 0)
      && ("order" in p ==> p["order"] == Join(path.customOrder, [Comma]))
  {
  }

  /** `serializeState`, up to the library's rendering of the parameters: the parameter object is filled by
      successive `set` calls. */
  method SerializeState(filters: FilterState, path: PathState) returns (params: Params)
    ensures params == StateParams(filters, path)
  {
    params := map[];
    if filters.profile.Some? && filters.profile.value != "" {
      params := params["profile" := filters.profile.value];
    }
    if |filters.families| > 0 {
      params := params["families" := Join(FamilyNames(filters.families), [Comma])];
    }
    if |filters.tags| > 0 {
      params := params["tags" := Join(filters.tags, [Comma])];
    }
    if filters.search != "" {
      params := params["search" := filters.search];
    }
    if filters.showWhyMatters {
      params := params["why" := "true"];
    }
    if |path.selectedStandards| > 0 {
      params := params["selected" := Join(path.selectedStandards, [Comma])];
    }
    if |path.customOrder| > 0 {
      params := params["order" := Join(path.customOrder, [Comma])];
    }
  }

  /** `safeGetArray` without a whitelist: a missing or empty value is `[]`, otherwise the non-empty comma
      segments in order. */
  function SafeGetArray(params: Params, key: string): (r: seq<string>)
    ensures GetNonEmpty(params, key).None? ==> r == []
    ensures GetNonEmpty(params, key).Some? ==> r == DropEmpty(Split(params[key]))
  {
    match GetNonEmpty(params, key)
    case None => []
    case Some(v) => DropEmpty(Split(v))
  }

  /** The whitelisted items as control families, in order (`items.filter(item => validValues.includes(item))`). */
  function ValidFamilies(items: seq<string>): (r: seq<ControlFamily>)
    ensures |r| <= |items|
    ensures forall f :: f in r <==> FamilyName(f) in items
  {
    if items == [] then []
    else
      var rest := ValidFamilies(items[1..]);
      assert items == [items[0]] + items[1..];
      match ParseFamily(items[0])
      case Some(f) => [f] + rest
      case None => rest
  }

  /** The whitelist works item by item: a single item gives its family when it names one, and lists
      concatenate, so the families come in item order, one per whitelisted item. */
  lemma {:induction false} ValidFamiliesAppend(a: seq<string>, b: seq<string>)
    ensures ValidFamilies(a + b) == ValidFamilies(a) + ValidFamilies(b)
  {
    if a == [] {
      assert a + b == b;
    } else {
      assert (a + b)[1..] == a[1..] + b;
      ValidFamiliesAppend(a[1..], b);
    }
  }

  lemma ValidFamiliesSingle(s: string)
    ensures ValidFamilies([s]) == if ParseFamily(s).Some? then [ParseFamily(s).value] else []
  {
    assert [s][1..] == [];
  }

  lemma {:induction false} ValidFamiliesNames(fs: seq<ControlFamily>)
    ensures ValidFamilies(FamilyNames(fs)) == fs
  {
    if fs != [] {
      ValidFamiliesNames(fs[1..]);
      assert FamilyNames(fs)[1..] == FamilyNames(fs[1..]);
      assert [fs[0]] + fs[1..] == fs;
    }
  }

  /** `deserializeState`; it never fails. */
  function DeserializeState(params: Params): (r: UrlState)
    ensures r.filters.profile == GetNonEmpty(params, "profile")
    ensures r.filters.search == (if GetNonEmpty(params, "search").Some? then params["search"] else "")
    ensures r.filters.showWhyMatters <==> Get(params, "why") == Some("true")
    ensures r.filters.families == ValidFamilies(SafeGetArray(params, "families"))
    ensures r.filters.tags == SafeGetArray(params, "tags")
    ensures r.path.selectedStandards == SafeGetArray(params, "selected")
    ensures r.path.customOrder == SafeGetArray(params, "order")
  {
    UrlState(
      FilterState(
        GetNonEmpty(params, "profile"),
        ValidFamilies(SafeGetArray(params, "families")),
        SafeGetArray(params, "tags"),
        match GetNonEmpty(params, "search") case Some(s) => s case None => "",
        Get(params, "why") == Some("true")),
      PathState(SafeGetArray(params, "selected"), SafeGetArray(params, "order")))
  }

  /** Items that survive a round trip through a comma-joined value. */
  predicate ListItemsOk(items: seq<string>) {
    forall k :: 0 <= k < |items| ==> items[k] != "" && CommaFree(items[k])
  }

  /** What a state must satisfy to come back unchanged from its parameters. */
  predicate RoundTrips(filters: FilterState, path: PathState) {
    && (filters.profile.Some? ==> filters.profile.value != "")
    && ListItemsOk(filters.tags)
    && ListItemsOk(path.selectedStandards)
    && ListItemsOk(path.customOrder)
  }

  lemma FamilyNamesOk(fs: seq<ControlFamily>)
    ensures ListItemsOk(FamilyNames(fs))
  {
    forall k | 0 <= k < |fs| ensures FamilyNames(fs)[k] != "" && CommaFree(FamilyNames(fs)[k]) {
      match fs[k]
      case Security =>
      case Privacy =>
      case BCM =>
      case ServiceMgmt =>
      case RiskGovernance =>
      case AIGovernance =>
    }
  }

  lemma ListRoundTrip(items: seq<string>)
    requires |items| > 0 && ListItemsOk(items)
    ensures DropEmpty(Split(Join(items, [Comma]))) == items
  {
    SplitJoin(items);
  }

  /** A list field written under `key` exactly when it is non-empty reads back as itself. */
  lemma ListFieldRoundTrip(p: Params, key: string, items: seq<string>)
    requires ListItemsOk(items)
    requires key in p <==> |items| > 0
    requires key in p ==> p[key] == Join(items, [Comma])
    ensures SafeGetArray(p, key) == items
  {
    if |items| > 0 {
      ListRoundTrip(items);
      SplitJoin(items);
      assert Split(Join(items, [Comma])) == items;
    }
  }

  /** The profile, the search and the `why` flag come back from the parameters. */
  lemma ScalarFieldsRoundTrip(filters: FilterState, path: PathState)
    requires filters.profile.Some? ==> filters.profile.value != ""
    ensures var r := DeserializeState(StateParams(filters, path));
      r.filters.profile == filters.profile && r.filters.search == filters.search &&
      r.filters.showWhyMatters == filters.showWhyMatters
  {
    StateParamsKeys(filters, path);
  }

  /** The four list fields come back from the parameters. */
  lemma ListFieldsRoundTrip(filters: FilterState, path: PathState)
    requires ListItemsOk(filters.tags) && ListItemsOk(path.selectedStandards) && ListItemsOk(path.customOrder)
    ensures var r := DeserializeState(StateParams(filters, path));
      r.filters.families == filters.families && r.filters.tags == filters.tags && r.path == path
  {
    var p := StateParams(filters, path);
    StateParamsKeys(filters, path);
    FamilyNamesOk(filters.families);
    ListFieldRoundTrip(p, "families", FamilyNames(filters.families));
    ValidFamiliesNames(filters.families);
    ListFieldRoundTrip(p, "tags", filters.tags);
    ListFieldRoundTrip(p, "selected", path.selectedStandards);
    ListFieldRoundTrip(p, "order", path.customOrder);
  }

  /** A shared link restores the profile, the filters and the path it was made from. */
  lemma SerializeRoundTrip(filters: FilterState, path: PathState)
    requires RoundTrips(filters, path)
    ensures DeserializeState(StateParams(filters, path)) == UrlState(filters, path)
  {
    ScalarFieldsRoundTrip(filters, path);
    ListFieldsRoundTrip(filters, path);
  }

  /** A missing or empty key reads as the empty value of its field. */
  lemma MissingKeysDecodeEmpty()
    ensures DeserializeState(map[]) == UrlState(FilterState(None, [], [], "", false), PathState([], []))
  {
  }

  // ---------------------------------------------------------------------------------------------
  // validateUrlState

  predicate IsFamilyName(s: string) {
    ParseFamily(s).Some?
  }

  /** The segments of `value.split(",")` that are not family names, empty ones included. */
  function InvalidFamilies(segments: seq<string>): (r: seq<string>)
    ensures forall x :: x in r <==> x in segments && !IsFamilyName(x)
    ensures IsSubsequence(r, segments)
    ensures forall x :: multiset(r)[x] == if IsFamilyName(x) then 0 else multiset(segments)[x]
    ensures r == [] <==> forall k :: 0 <= k < |segments| ==> IsFamilyName(segments[k])
  {
    if segments == [] then []
    else
      var rest := InvalidFamilies(segments[1..]);
      assert segments == [segments[0]] + segments[1..];
      assert multiset(segments) == multiset{segments[0]} + multiset(segments[1..]);
      if IsFamilyName(segments[0]) then rest
      else
        assert ([segments[0]] + rest)[1..] == rest;
        [segments[0]] + rest
  }

  /** A non-empty `families` value consists of family names only, empty segments counting as invalid. */
  predicate FamiliesParamValid(params: Params) {
    match GetNonEmpty(params, "families")
    case None => true
    case Some(v) => forall k :: 0 <= k < |Split(v)| ==> IsFamilyName(Split(v)[k])
  }

  /** `why` is missing, empty, `"true"` or `"false"`. */
  predicate WhyParamValid(params: Params) {
    match GetNonEmpty(params, "why")
    case None => true
    case Some(w) => w == "true" || w == "false"
  }

  const FamiliesErrorPrefix: string := "Invalid control families: "
  const WhyError: string := "Invalid 'why' parameter - must be 'true' or 'false'"

  /** `validateUrlState`: the errors are collected one check after the other. */
  method ValidateUrlState(params: Params) returns (isValid: bool, errors: seq<string>)
    ensures isValid <==> errors == []
    ensures isValid <==> FamiliesParamValid(params) && WhyParamValid(params)
    ensures |errors| == (if FamiliesParamValid(params) then 0 else 1) + (if WhyParamValid(params) then 0 else 1)
    ensures !FamiliesParamValid(params) ==> errors[0] == FamiliesErrorPrefix + Join(InvalidFamilies(Split(params["families"])), ", ")
    ensures !WhyParamValid(params) ==> errors[|errors| - 1] == WhyError
  {
    errors := [];
    var families := GetNonEmpty(params, "families");
    if families.Some? {
      var invalid := InvalidFamilies(Split(families.value));
      if |invalid| > 0 {
        errors := errors + [FamiliesErrorPrefix + Join(invalid, ", ")];
      }
    }
    var why := GetNonEmpty(params, "why");
    if why.Some? && why.value != "true" && why.value != "false" {
      errors := errors + [WhyError];
    }
    isValid := |errors| == 0;
  }

  /** Nothing of a valid `families` value is lost when it is read back: every segment comes back as a
      family, in order. */
  lemma {:induction false} ValidFamiliesKeepAll(segments: seq<string>)
    requires forall k :: 0 <= k < |segments| ==> IsFamilyName(segments[k])
    ensures FamilyNames(ValidFamilies(segments)) == segments
  {
    if segments != [] {
      ValidFamiliesKeepAll(segments[1..]);
      var f := ParseFamily(segments[0]).value;
      assert FamilyNames([f] + ValidFamilies(segments[1..]))[1..] == FamilyNames(ValidFamilies(segments[1..]));
      assert [segments[0]] + segments[1..] == segments;
    }
  }

  lemma ValidatedFamiliesDecodeFully(params: Params)
    requires FamiliesParamValid(params) && "families" in params && params["families"] != ""
    ensures FamilyNames(DeserializeState(params).filters.families) == Split(params["families"])
  {
    var segs := Split(params["families"]);
    assert forall k :: 0 <= k < |segs| ==> segs[k] != "" by {
      forall k | 0 <= k < |segs| ensures segs[k] != "" {
        assert IsFamilyName(segs[k]);
      }
    }
    ValidFamiliesKeepAll(segs);
  }

  // ---------------------------------------------------------------------------------------------
  // generateShareableUrl

  /** `generateShareableUrl`. `origin` stands for `window.location.origin` (or `""` where there is no
      window) and `render` for the library's text form of the parameters, which is empty exactly for no
      parameters. */
  function GenerateShareableUrl(filters: FilterState, path: PathState, baseUrl: Option<string>, origin: string,
                                render: Params -> string): (url: string)
    requires forall q :: render(q) == "" <==> q == map[]
    ensures var base := if baseUrl.Some? && baseUrl.value != "" then baseUrl.value else origin;
      (StateParams(filters, path) == map[] ==> url == base + "/graph") &&
      (StateParams(filters, path) != map[] ==> url == base + "/graph?" + render(StateParams(filters, path)))
  {
    var base := if baseUrl.Some? && baseUrl.value != "" then baseUrl.value else origin;
    var params := render(StateParams(filters, path));
    base + "/graph" + (if params != "" then "?" + params else "")
  }

  /** A link made from cleared filters and an empty path has no query part. */
  lemma ClearedStateLink(base: string, origin: string, render: Params -> string)
    requires base != ""
    requires forall q :: render(q) == "" <==> q == map[]
    ensures GenerateShareableUrl(FilterState(None, [], [], "", false), PathState([], []), Some(base), origin, render) == base + "/graph"
  {
  }
}
