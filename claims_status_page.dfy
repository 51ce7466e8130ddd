/** The claims status page: the status filter selection. */
module ClaimsStatusPage {
  import opened Lists

  /** `toggleStatus`. */
  function ToggleStatus(selected: seq<string>, status: string): seq<string>
  {
    Toggle(selected, status)
  }

  /** `clearFilters`. */
  function ClearFilters(selected: seq<string>): seq<string>
  {
    []
  }

  /** An absent status is appended; a present one is removed everywhere; other statuses keep
      their membership and order; a selection without repeats keeps none. */
  lemma ToggleStatusEffect(selected: seq<string>, status: string)
    ensures status !in selected ==> ToggleStatus(selected, status) == selected + [status]
    ensures status in selected ==> status !in ToggleStatus(selected, status)
    ensures forall s :: s != status ==> (s in ToggleStatus(selected, status) <==> s in selected)
    ensures Keep(ToggleStatus(selected, status), Other(status)) == Keep(selected, Other(status))
    ensures NoDuplicates(selected) ==> NoDuplicates(ToggleStatus(selected, status))
  {
    ToggleAppendsOrRemoves(selected, status);
    ToggleKeepsOthers(selected, status);
    if NoDuplicates(selected) {
      ToggleNoDuplicates(selected, status);
    }
  }

  /** Clearing leaves no status selected, whatever was selected, so the next toggle selects
      exactly that one status. */
  lemma ClearFiltersEffect(selected: seq<string>, status: string)
    ensures ClearFilters(selected) == []
    ensures status !in ClearFilters(selected)
    ensures ToggleStatus(ClearFilters(selected), status) == [status]
  {
  }
}
