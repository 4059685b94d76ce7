/** The state of the prioritisation screen: the filters, the sort column, the
    current page, the unsaved edits keyed by id and the saving flag, with the
    event handlers that update them. */
module Prioritization {
  import opened Domain
  import opened Ranking

  class PrioritizationSection {
    var filters: Filters
    var sortConfig: SortConfig
    var currentPage: int
    /** Unsaved snapshots of edited records, keyed by id. */
    var modified: map<int, Service>
    var isSaving: bool

    /** Pages are numbered from 1 and every unsaved snapshot sits under its own id. */
    ghost predicate Valid()
      reads this
    {
      currentPage >= 1 && forall id :: id in modified ==> modified[id].id == id
    }

    constructor ()
      ensures Valid()
      ensures filters == NoFilters && sortConfig == InitialSort && currentPage == 1
      ensures modified == map[] && !isSaving
    {
      filters := NoFilters;
      sortConfig := InitialSort;
      currentPage := 1;
      modified := map[];
      isSaving := false;
    }

    /** `handleFilterChange`. With unsaved edits the user is asked first
        (`confirmed` is the answer); declining changes nothing, accepting
        discards the edits. The changed filter is stored and the page resets to 1. */
    method FilterChange(name: FilterName, value: string, confirmed: bool)
      requires Valid()
      modifies this
      ensures Valid()
      ensures sortConfig == old(sortConfig) && isSaving == old(isSaving)
      ensures if old(modified) != map[] && !confirmed
              then filters == old(filters) && currentPage == old(currentPage) && modified == old(modified)
              else filters == SetFilter(old(filters), name, value) && currentPage == 1 && modified == map[]
    {
      if modified != map[] {
        if !confirmed {
          return;
        }
        modified := map[];
      }
      filters := SetFilter(filters, name, value);
      currentPage := 1;
    }

    /** `handleSort`. */
    method Sort(key: SortKey)
      requires Valid()
      modifies this
      ensures Valid()
      ensures sortConfig == ToggleSort(old(sortConfig), key)
      ensures filters == old(filters) && currentPage == old(currentPage)
      ensures modified == old(modified) && isSaving == old(isSaving)
    {
      sortConfig := ToggleSort(sortConfig, key);
    }

    /** `handleServiceChange`: the latest snapshot of a record replaces any earlier one. */
    method ServiceChange(s: Service)
      requires Valid()
      modifies this
      ensures Valid()
      ensures modified == old(modified)[s.id := s]
      ensures filters == old(filters) && sortConfig == old(sortConfig)
      ensures currentPage == old(currentPage) && isSaving == old(isSaving)
    {
      modified := modified[s.id := s];
    }

    /** One cell edit in the table: `handleLocalChange` on the rows shown, then
        `handleServiceChange` with the edited record when the id is shown. */
    method CellEdit(rows: seq<Service>, id: int, e: Edit) returns (rows': seq<Service>)
      requires Valid()
      modifies this
      ensures Valid()
      ensures rows' == LocalChange(rows, id, e).0
      ensures var changed := LocalChange(rows, id, e).1;
        modified == if changed.Some? then old(modified)[id := changed.value] else old(modified)
      ensures filters == old(filters) && sortConfig == old(sortConfig)
      ensures currentPage == old(currentPage) && isSaving == old(isSaving)
    {
      LocalChangeSpec(rows, id, e);
      var changed;
      rows', changed := LocalChange(rows, id, e).0, LocalChange(rows, id, e).1;
      if changed.Some? {
        ServiceChange(changed.value);
      }
    }

    /** `Object.values(modifiedServices)`: every unsaved snapshot exactly once,
        in an order the model leaves open. */
    method PendingUpdates() returns (updates: seq<Service>)
      requires Valid()
      ensures |updates| == |modified|
      ensures forall k :: 0 <= k < |updates| ==> updates[k].id in modified && modified[updates[k].id] == updates[k]
      ensures forall id :: id in modified ==> modified[id] in updates
      ensures forall k, l :: 0 <= k < l < |updates| ==> updates[k].id != updates[l].id
    {
      var keys := modified.Keys;
      updates := [];
      while keys != {}
        invariant keys <= modified.Keys
        invariant |updates| + |keys| == |modified|
        invariant forall k :: 0 <= k < |updates| ==>
          updates[k].id in modified && updates[k].id !in keys && modified[updates[k].id] == updates[k]
        invariant forall id :: id in modified && id !in keys ==> modified[id] in updates
        invariant forall k, l :: 0 <= k < l < |updates| ==> updates[k].id != updates[l].id
        decreases |keys|
      {
        assert (forall x :: x !in keys) ==> keys == {};
        var key :| key in keys;
        updates := updates + [modified[key]];
        keys := keys - {key};
      }
    }

    /** First half of `handleSaveChanges`: raise the saving flag and hand out the snapshots. */
    method BeginSave() returns (updates: seq<Service>)
      requires Valid()
      modifies this
      ensures Valid()
      ensures isSaving
      ensures |updates| == |modified| && forall id :: id in modified ==> modified[id] in updates
      ensures forall u :: u in updates ==> u.id in modified && modified[u.id] == u
      ensures filters == old(filters) && sortConfig == old(sortConfig)
      ensures currentPage == old(currentPage) && modified == old(modified)
    {
      isSaving := true;
      updates := PendingUpdates();
    }

    /** Second half of `handleSaveChanges`: `outcomes` holds one success flag
        per update that `BeginSave` returned, in the same order. `Promise.all` fails as soon as one update fails, so the
        unsaved snapshots are dropped only when every update succeeded, and then
        all of them, including any made while the save was running. The flag is
        lowered either way. */
    method FinishSave(outcomes: seq<bool>)
      requires Valid()
      modifies this
      ensures Valid()
      ensures !isSaving
      ensures modified == if forall k :: 0 <= k < |outcomes| ==> outcomes[k] then map[] else old(modified)
      ensures filters == old(filters) && sortConfig == old(sortConfig) && currentPage == old(currentPage)
    {
      if forall k :: 0 <= k < |outcomes| ==> outcomes[k] {
        modified := map[];
      }
      isSaving := false;
    }

    /** `handleDiscardChanges`, with the user's answer to the confirmation. */
    method DiscardChanges(confirmed: bool)
      requires Valid()
      modifies this
      ensures Valid()
      ensures modified == if confirmed then map[] else old(modified)
      ensures filters == old(filters) && sortConfig == old(sortConfig)
      ensures currentPage == old(currentPage) && isSaving == old(isSaving)
    {
      if confirmed {
        modified := map[];
      }
    }

    /** `onPageChange` from the pagination bar. */
    method GoToPage(page: int)
      requires Valid() && page >= 1
      modifies this
      ensures Valid()
      ensures currentPage == page
      ensures filters == old(filters) && sortConfig == old(sortConfig)
      ensures modified == old(modified) && isSaving == old(isSaving)
    {
      currentPage := page;
    }

    /** The effect that pulls the page back when the list shrinks. */
    method Reclamp(totalPages: int)
      requires Valid()
      modifies this
      ensures Valid()
      ensures currentPage == ReclampPage(old(currentPage), totalPages)
      ensures totalPages > 0 ==> currentPage <= totalPages
      ensures filters == old(filters) && sortConfig == old(sortConfig)
      ensures modified == old(modified) && isSaving == old(isSaving)
    {
      ReclampSpec(currentPage, totalPages);
      currentPage := ReclampPage(currentPage, totalPages);
    }

    /** The rows handed to the table: the current page of the processed list
        with unsaved snapshots swapped in. */
    function Displayed(services: seq<Service>, leq: (string, string) -> bool): (r: seq<Row>)
      reads this
      requires Valid()
      ensures |r| <= ItemsPerPage
    {
      WithModifications(Page(Processed(services, filters, sortConfig, leq), currentPage), modified)
    }

    /** The table shows, in processed order, the ids of the current page; each
        row with unsaved edits shows its snapshot and a total recomputed from it. */
    lemma DisplayedSpec(services: seq<Service>, leq: (string, string) -> bool)
      requires Valid() && TotalPreorder(leq)
      ensures var page := Page(Processed(services, filters, sortConfig, leq), currentPage);
        var r := Displayed(services, leq);
        && |r| == |page|
        && (forall k :: 0 <= k < |r| ==> r[k].svc.id == page[k].svc.id)
        && (forall k :: 0 <= k < |r| ==> r[k].total == Total(r[k].svc.scores))
        && (forall k :: 0 <= k < |r| && page[k].svc.id in modified ==> r[k].svc == modified[page[k].svc.id])
        && (forall k :: 0 <= k < |r| && page[k].svc.id !in modified ==> r[k].svc in services && Matches(filters, r[k]))
    {
      var rows := Processed(services, filters, sortConfig, leq);
      var page := Page(rows, currentPage);
      forall k | 0 <= k < |page|
        ensures page[k].total == Total(page[k].svc.scores)
        ensures page[k].svc in services && Matches(filters, page[k])
      {
        assert page[k] in rows;
        ProcessedMembership(services, filters, sortConfig, leq, page[k]);
      }
      WithModificationsSpec(page, modified);
    }
  }
}
