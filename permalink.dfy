/** The compact permalink of `src/lib/permalink.ts`: profile under `p`, the dimmed tag under `tag`, the
    selected ids comma-joined under `sel`. The text form of the parameters is library code, passed in as
    `render` (parameters to text) and `parse` (text to parameters). */
module Permalink {
  import opened Wrappers
  import opened Text
  import opened Query

  datatype AppStateQuery = AppStateQuery(profileId: Option<string>, selectedIds: Option<seq<string>>, dimTag: Option<string>)

  /** The parameters `toQueryString` sets: `p` and `tag` when non-empty, `sel` when there are ids. */
  function QueryParams(state: AppStateQuery): (params: Params)
    ensures params.Keys <= {"p", "tag", "sel"}
    ensures "p" in params <==> state.profileId.Some? && state.profileId.value != ""
    ensures "p" in params ==> params["p"] == state.profileId.value
    ensures "tag" in params <==> state.dimTag.Some? && state.dimTag.value != ""
    ensures "tag" in params ==> params["tag"] == state.dimTag.value
    ensures "sel" in params <==> state.selectedIds.Some? && |state.selectedIds.value| > 0
    ensures "sel" in params ==> params["sel"] == Join(state.selectedIds.value, [Comma])
  {
    var p0: Params := map[];
    var p1 := if state.profileId.Some? && state.profileId.value != "" then p0["p" := state.profileId.value] else p0;
    var p2 := if state.dimTag.Some? && state.dimTag.value != "" then p1["tag" := state.dimTag.value] else p1;
    if state.selectedIds.Some? && |state.selectedIds.value| > 0 then p2["sel" := Join(state.selectedIds.value, [Comma])] else p2
  }

  /** The query string: empty when nothing is written, otherwise `?` and the rendered parameters. */
  function QueryString(state: AppStateQuery, render: Params -> string): (s: string)
    ensures s == "" <==> render(QueryParams(state)) == ""
    ensures s != "" ==> s[0] == '?' && s[1..] == render(QueryParams(state))
  {
    var s := render(QueryParams(state));
    if s != "" then "?" + s else ""
  }

  /** `toQueryString`: the parameter object is filled by conditional `set` calls and then rendered. */
  method ToQueryString(state: AppStateQuery, render: Params -> string) returns (s: string)
    requires forall q :: render(q) == "" <==> q == map[]
    ensures s == QueryString(state, render)
    ensures QueryParams(state) == map[] ==> s == ""
    ensures QueryParams(state) != map[] ==> s == "?" + render(QueryParams(state))
  {
    var params: Params := map[];
    if state.profileId.Some? && state.profileId.value != "" {
      params := params["p" := state.profileId.value];
    }
    if state.dimTag.Some? && state.dimTag.value != "" {
      params := params["tag" := state.dimTag.value];
    }
    if state.selectedIds.Some? && |state.selectedIds.value| > 0 {
      params := params["sel" := Join(state.selectedIds.value, [Comma])];
    }
    var text := render(params);
    s := if text != "" then "?" + text else "";
  }

  /** `search.startsWith('?') ? search.slice(1) : search`. */
  function StripQuestionMark(search: string): (r: string)
    ensures |search| > 0 && search[0] == '?' ==> r == search[1..]
    ensures !(|search| > 0 && search[0] == '?') ==> r == search
  {
    if |search| > 0 && search[0] == '?' then search[1..] else search
  }

  /** The state read from decoded parameters: empty `p`/`tag` and empty or missing `sel` are absent;
      otherwise `sel` is split on commas with empty segments dropped, which may leave `[]`. */
  function FromParams(params: Params): (r: AppStateQuery)
    ensures r.profileId == GetNonEmpty(params, "p")
    ensures r.dimTag == GetNonEmpty(params, "tag")
    ensures GetNonEmpty(params, "sel").None? ==> r.selectedIds.None?
    ensures GetNonEmpty(params, "sel").Some? ==> r.selectedIds == Some(DropEmpty(Split(params["sel"])))
  {
    var sel := GetNonEmpty(params, "sel");
    AppStateQuery(
      GetNonEmpty(params, "p"),
      if sel.Some? then Some(DropEmpty(Split(sel.value))) else None,
      GetNonEmpty(params, "tag"))
  }

  /** `fromQueryString`; it never fails, and no field it sets holds an empty string. */
  function FromQueryString(search: string, parse: string -> Params): (r: AppStateQuery)
    ensures r.profileId.Some? ==> r.profileId.value != ""
    ensures r.dimTag.Some? ==> r.dimTag.value != ""
    ensures r.selectedIds.Some? ==> forall k :: 0 <= k < |r.selectedIds.value| ==> r.selectedIds.value[k] != ""
  {
    FromParams(parse(StripQuestionMark(search)))
  }

  /** A leading `?` makes no difference to what is decoded. */
  lemma QuestionMarkIgnored(s: string, parse: string -> Params)
    requires !(|s| > 0 && s[0] == '?')
    ensures FromQueryString("?" + s, parse) == FromQueryString(s, parse)
  {
    assert ("?" + s)[1..] == s;
  }

  /** A non-empty `sel` value made only of commas decodes to an empty id list rather than to no list. */
  lemma CommasOnlySelection(params: Params)
    requires "sel" in params && params["sel"] != ""
    requires forall k :: 0 <= k < |params["sel"]| ==> params["sel"][k] == Comma
    ensures FromParams(params).selectedIds == Some([])
  {
    SplitCommas(params["sel"]);
  }

  /** What a state must satisfy to come back from its permalink: set strings are non-empty and the ids are
      non-empty and comma-free. */
  predicate Restorable(state: AppStateQuery) {
    && (state.profileId.Some? ==> state.profileId.value != "")
    && (state.dimTag.Some? ==> state.dimTag.value != "")
    && (state.selectedIds.Some? ==> forall k :: 0 <= k < |state.selectedIds.value| ==>
          state.selectedIds.value[k] != "" && CommaFree(state.selectedIds.value[k]))
  }

  /** `fromQueryString(toQueryString(s))` gives `s` back, an empty id list coming back as no list, provided
      the parameters' text form reads back as the parameters it was made from. */
  lemma RoundTrip(state: AppStateQuery, render: Params -> string, parse: string -> Params)
    requires forall q :: render(q) == "" <==> q == map[]
    requires parse(render(QueryParams(state))) == QueryParams(state)
    requires Restorable(state)
    ensures FromQueryString(QueryString(state, render), parse)
         == state.(selectedIds := if state.selectedIds == Some([]) then None else state.selectedIds)
  {
    var params := QueryParams(state);
    var text := render(params);
    if text != "" {
      assert StripQuestionMark("?" + text) == text;
    } else {
      assert params == map[];
    }
    assert parse(StripQuestionMark(QueryString(state, render))) == params;
    if state.selectedIds.Some? && |state.selectedIds.value| > 0 {
      var ids := state.selectedIds.value;
      SplitJoin(ids);
      assert Split(Join(ids, [Comma])) == ids;
      assert Join(ids, [Comma]) != "";
    }
  }
}
