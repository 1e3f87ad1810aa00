/** The filter edits of `src/components/graph/control-panel.tsx`. Every handler hands a new `FilterState`
    to `onFiltersChange`; the model returns it. The tag list the panel shows is `Catalog.ListAllTags`. */
module ControlPanel {
  import opened Wrappers
  import opened Lists
  import opened Standards

  /** `Partial<FilterState>`: `None` leaves a field out of the update. `profile` is itself optional, so
      clearing it is `Some(None)`. */
  datatype FilterUpdate = FilterUpdate(
    profile: Option<Option<string>>,
    families: Option<seq<ControlFamily>>,
    tags: Option<seq<string>>,
    search: Option<string>,
    showWhyMatters: Option<bool>)

  const NoUpdate := FilterUpdate(None, None, None, None, None)

  function Pick<T>(update: Option<T>, current: T): T {
    if update.Some? then update.value else current
  }

  /** `{ ...filters, ...updates }`. */
  function UpdateFilters(filters: FilterState, updates: FilterUpdate): (r: FilterState)
    ensures updates.profile.Some? ==> r.profile == updates.profile.value
    ensures updates.profile.None? ==> r.profile == filters.profile
    ensures updates.families.Some? ==> r.families == updates.families.value
    ensures updates.families.None? ==> r.families == filters.families
    ensures updates.tags.Some? ==> r.tags == updates.tags.value
    ensures updates.tags.None? ==> r.tags == filters.tags
    ensures updates.search.Some? ==> r.search == updates.search.value
    ensures updates.search.None? ==> r.search == filters.search
    ensures updates.showWhyMatters.Some? ==> r.showWhyMatters == updates.showWhyMatters.value
    ensures updates.showWhyMatters.None? ==> r.showWhyMatters == filters.showWhyMatters
  {
    FilterState(
      Pick(updates.profile, filters.profile),
      Pick(updates.families, filters.families),
      Pick(updates.tags, filters.tags),
      Pick(updates.search, filters.search),
      Pick(updates.showWhyMatters, filters.showWhyMatters))
  }

  /** Two updates in a row: the later one wins wherever both set a field. */
  function Then(first: FilterUpdate, second: FilterUpdate): FilterUpdate {
    FilterUpdate(
      if second.profile.Some? then second.profile else first.profile,
      if second.families.Some? then second.families else first.families,
      if second.tags.Some? then second.tags else first.tags,
      if second.search.Some? then second.search else first.search,
      if second.showWhyMatters.Some? then second.showWhyMatters else first.showWhyMatters)
  }

  /** An empty update changes nothing, and successive updates compose like a single merged update. */
  lemma UpdateFiltersLaws(filters: FilterState, first: FilterUpdate, second: FilterUpdate)
    ensures UpdateFilters(filters, NoUpdate) == filters
    ensures UpdateFilters(UpdateFilters(filters, first), second) == UpdateFilters(filters, Then(first, second))
  {
  }

  /** `toggleFamily`: every copy of a selected family is removed, an unselected one goes to the end. */
  function ToggleFamily(filters: FilterState, family: ControlFamily): (r: FilterState)
    ensures family in filters.families ==>
      family !in r.families && forall f :: f != family ==> multiset(r.families)[f] == multiset(filters.families)[f]
    ensures family in filters.families ==> IsSubsequence(r.families, filters.families)
    ensures family !in filters.families ==> r.families == filters.families + [family]
    ensures r == filters.(families := r.families)
  {
    UpdateFilters(filters, NoUpdate.(families := Some(Toggle(filters.families, family))))
  }

  /** `toggleTag`: the same remove-or-append rule on the tags. */
  function ToggleTag(filters: FilterState, tag: string): (r: FilterState)
    ensures tag in filters.tags ==>
      tag !in r.tags && forall t :: t != tag ==> multiset(r.tags)[t] == multiset(filters.tags)[t]
    ensures tag in filters.tags ==> IsSubsequence(r.tags, filters.tags)
    ensures tag !in filters.tags ==> r.tags == filters.tags + [tag]
    ensures r == filters.(tags := r.tags)
  {
    UpdateFilters(filters, NoUpdate.(tags := Some(Toggle(filters.tags, tag))))
  }

  /** Toggling an unselected family twice restores the filters; toggling keeps the list duplicate-free. */
  lemma ToggleFamilyLaws(filters: FilterState, family: ControlFamily)
    ensures family !in filters.families ==> ToggleFamily(ToggleFamily(filters, family), family) == filters
    ensures NoDup(filters.families) ==> NoDup(ToggleFamily(filters, family).families)
  {
    if family !in filters.families {
      ToggleTwice(filters.families, family);
    }
    if NoDup(filters.families) {
      TogglePreservesNoDup(filters.families, family);
    }
  }

  lemma ToggleTagLaws(filters: FilterState, tag: string)
    ensures tag !in filters.tags ==> ToggleTag(ToggleTag(filters, tag), tag) == filters
    ensures NoDup(filters.tags) ==> NoDup(ToggleTag(filters, tag).tags)
  {
    if tag !in filters.tags {
      ToggleTwice(filters.tags, tag);
    }
    if NoDup(filters.tags) {
      TogglePreservesNoDup(filters.tags, tag);
    }
  }

  /** The "Clear Filters" button. */
  function ClearAll(): (r: FilterState)
    ensures r.profile.None? && r.families == [] && r.tags == [] && r.search == "" && !r.showWhyMatters
  {
    FilterState(None, [], [], "", false)
  }
}
