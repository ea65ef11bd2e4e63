/** Paging of alert lists and audit logs over filtered and sorted records. */
module Paging {
  import opened Prelude

  const DEFAULT_LIMIT := 1000

  /** Where an answer starts and how long it may be; zero, like none, is no limit and no offset. */
  datatype Limits = Limits(limit: nat, offset: nat)

  /** The part of the records that a query with these limits answers. */
  function Answer<T>(rs: seq<T>, limits: Limits): (r: seq<T>)
    ensures |r| == (var left := if limits.offset < |rs| then |rs| - limits.offset else 0;
                    if limits.limit == 0 then left else Min(limits.limit, left))
    ensures forall i :: 0 <= i < |r| ==> r[i] == rs[limits.offset + i]
  {
    var limit, offset := limits.limit, limits.offset;
    if offset >= |rs| then []
    else if limit == 0 || offset + limit >= |rs| then rs[offset..]
    else rs[offset..offset + limit]
  }

  /** A page of the alert list; a page number without a page size is an error. */
  method AlertPage<T>(rs: seq<T>, offset: Option<nat>, pageLimit: Option<nat>) returns (r: Result<(nat, seq<T>)>)
    ensures r.Err? <==> offset.Some? && offset.value > 1 && pageLimit.None?
    ensures r.Ok? ==> r.value.0 == |rs|
    ensures r.Ok? && pageLimit.Some? ==>
              r.value.1 == Page(rs, pageLimit.value, if offset.Some? && offset.value > 1 then offset.value - 1 else 0)
    ensures r.Ok? && pageLimit.None? ==> r.value.1 == rs[..Min(1000, |rs|)]
  {
    var limit, skip := DEFAULT_LIMIT, 0;
    if offset.Some? && offset.value > 1 {
      if pageLimit.None? {
        return Err(TypeMismatch);
      }
      limit, skip := pageLimit.value, (offset.value - 1) * pageLimit.value;
    } else if pageLimit.Some? {
      limit := pageLimit.value;
    }
    return Ok((|rs|, Answer(rs, Limits(limit, skip))));
  }

  function Min(a: nat, b: nat): nat {
    if a <= b then a else b
  }

  /** A page of the audit log; page size and reported total are capped by the result window. */
  method AuditPage<T>(rs: seq<T>, limit: Option<nat>, offset: Option<nat>, window: nat) returns (total: nat, page: seq<T>)
    ensures total == Min(|rs|, window)
    ensures page == Page(rs, if limit.Some? then Min(limit.value, window) else window,
                         if offset.Some? && offset.value > 1 then offset.value - 1 else 0)
  {
    var effective := if limit.Some? then Min(limit.value, window) else window;
    var skip := 0;
    if offset.Some? && offset.value > 1 {
      skip := (offset.value - 1) * effective;
    }
    total, page := Min(|rs|, window), Answer(rs, Limits(effective, skip));
  }

  /** Page k of size n, counted from zero. */
  function Page<T>(rs: seq<T>, n: nat, k: nat): seq<T> {
    Answer(rs, Limits(n, k * n))
  }

  function Pages<T>(rs: seq<T>, n: nat, k: nat): seq<T> {
    if k == 0 then [] else Pages(rs, n, k - 1) + Page(rs, n, k - 1)
  }

  /** The first k pages are the first records, none skipped and none shown twice. */
  lemma {:induction false} PagesTile<T>(rs: seq<T>, n: nat, k: nat)
    requires n > 0
    ensures Pages(rs, n, k) == rs[..Min(k * n, |rs|)]
  {
    if k > 0 {
      PagesTile(rs, n, k - 1);
      var lo := (k - 1) * n;
      assert k * n == lo + n && lo >= 0;
      if lo < |rs| {
        assert rs[..lo] + rs[lo..Min(lo + n, |rs|)] == rs[..Min(lo + n, |rs|)];
      }
    }
  }
}
