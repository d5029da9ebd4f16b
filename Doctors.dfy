/**
  The doctor list filter of `doctor.component.ts`: the specializations
  shown before "show all", and the query sent for each value of the filter
  form. The form and the `prevSearchTerm` variable of `ngOnInit` are the
  fields of `DoctorFilter`; the debounced `valueChanges` stream is a call of
  `RequestDoctors` per value it lets through.
*/
module Doctors {
  import opened Wrappers
  import opened Paging

  /** The fields of a doctor the model reads. */
  datatype Doctor = Doctor(id: int)

  const CollapsedCount: nat := 12

  /** `visibleSpecializations`: everything when "show all" is on or the list is short, else the first 12. */
  function VisibleSpecializations<T>(all: seq<T>, showAll: bool): (r: seq<T>)
    ensures r <= all
    ensures |r| == if showAll || |all| <= CollapsedCount then |all| else CollapsedCount
  {
    if showAll || |all| <= CollapsedCount then all else all[..CollapsedCount]
  }

  /** Collapsed, at most 12 specializations show; the ones shown are always the first ones. */
  lemma CollapsedShowsFirstTwelve<T>(all: seq<T>, i: int)
    requires 0 <= i < |all|
    ensures |VisibleSpecializations(all, false)| <= CollapsedCount
    ensures i < |VisibleSpecializations(all, false)| <==> i < CollapsedCount
    ensures i < CollapsedCount ==> VisibleSpecializations(all, false)[i] == all[i]
    ensures VisibleSpecializations(all, true) == all
  {
  }

  /** The value of the filter form. */
  datatype FilterValue = FilterValue(search: string, page: int, limit: int, specializationId: int)

  /** The `query` record sent to `getDoctors`; `specializationId` is absent when `None`. */
  datatype DoctorQuery = DoctorQuery(search: string, page: int, limit: int, specializationId: Option<int>)

  /**
    The query for form value `v` when `prevSearchTerm` was the search of the
    last response: a specialization only when one is chosen (nonzero), and
    page 1 whenever the search text changed.
  */
  function QueryOf(v: FilterValue, prevSearchTerm: string): (q: DoctorQuery)
    ensures q.search == v.search && q.limit == v.limit
    ensures q.specializationId != Some(0)
    ensures q.specializationId == None <==> v.specializationId == 0
    ensures v.search != prevSearchTerm ==> q.page == 1
    ensures v.search == prevSearchTerm ==> q.page == v.page
  {
    var spec := if v.specializationId != 0 then Some(v.specializationId) else None;
    var page := if v.search != prevSearchTerm then 1 else v.page;
    DoctorQuery(v.search, page, v.limit, spec)
  }

  /** After `clearFilter` the query has no specialization and an empty search, on page 1 unless the last search was empty too. */
  lemma ClearedQuery(v: FilterValue, prevSearchTerm: string)
    ensures var q := QueryOf(v.(specializationId := 0, search := ""), prevSearchTerm);
      && q.specializationId == None && q.search == ""
      && (q.page == 1 || prevSearchTerm == "")
  {
  }

  class DoctorFilter {
    var search: string
    var page: int
    var limit: int
    var specializationId: int
    var prevSearchTerm: string
    var isLoading: bool
    var data: Pagination<Doctor>

    /** The form's initial value; `isLoading` starts true. */
    constructor ()
      ensures Value() == FilterValue("", 1, 10, 0)
      ensures prevSearchTerm == "" && isLoading
      ensures data == Pagination([], 0, 1, 10, 0)
    {
      search, page, limit, specializationId := "", 1, 10, 0;
      prevSearchTerm := "";
      isLoading := true;
      data := Pagination([], 0, 1, 10, 0);
    }

    function Value(): FilterValue
      reads this
    {
      FilterValue(search, page, limit, specializationId)
    }

    /**
      The `switchMap` step for the current form value: sets `isLoading`,
      builds the query, and patches the form's page to 1 when the search changed.
    */
    method RequestDoctors() returns (q: DoctorQuery)
      modifies this
      ensures q == QueryOf(old(Value()), old(prevSearchTerm))
      ensures Value() == old(Value()).(page := q.page)
      ensures isLoading
      ensures prevSearchTerm == old(prevSearchTerm) && data == old(data)
    {
      isLoading := true;
      var spec: Option<int> := None;
      if specializationId != 0 {
        spec := Some(specializationId);
      }
      q := DoctorQuery(search, page, limit, spec);
      if search != prevSearchTerm {
        q := q.(page := 1);
        page := 1;
      }
    }

    /** The `subscribe` step: the response is shown and the current search becomes the previous one. */
    method ReceiveDoctors(response: Pagination<Doctor>)
      modifies this
      ensures !isLoading && prevSearchTerm == search && data == response
      ensures Value() == old(Value())
    {
      isLoading := false;
      prevSearchTerm := search;
      data := response;
    }

    /** `clearFilter`. */
    method ClearFilter()
      modifies this
      ensures Value() == old(Value()).(specializationId := 0, search := "")
      ensures prevSearchTerm == old(prevSearchTerm) && isLoading == old(isLoading) && data == old(data)
    {
      specializationId, search := 0, "";
    }

    /** `limitChange`: a new page size starts again from page 1. */
    method LimitChange(newLimit: int)
      modifies this
      ensures Value() == old(Value()).(limit := newLimit, page := 1)
      ensures prevSearchTerm == old(prevSearchTerm) && isLoading == old(isLoading) && data == old(data)
    {
      limit, page := newLimit, 1;
    }
  }
}
