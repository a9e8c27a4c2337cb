/** Page windows over a newest-first listing: `skip = (page - 1) * limit`, then `limit` rows.
    Query parameters are taken as naturals with the handlers' defaults (page 1, limit 10). */
module Paging {
  import opened Base
  import opened Seqs

  const DefaultPage: nat := 1
  const DefaultLimit: nat := 10

  function OrDefault(o: Option<nat>, d: nat): nat {
    match o
    case None => d
    case Some(n) => n
  }

  function Skip(page: nat, limit: nat): int {
    (page - 1) * limit
  }

  /** How many rows a page holds: none past the end, otherwise `limit` of them or the rest,
      whichever is fewer; all the rest when `limit` is 0. */
  function PageLength(n: nat, skip: int, limit: nat): nat {
    if n <= skip then 0 else if limit == 0 then n - skip else Min(limit, n - skip)
  }

  /** The rows of one page, or None when the skip is negative, which MongoDB refuses.
      A limit of 0 is MongoDB's "no limit". */
  function Paginate<T>(rows: seq<T>, page: nat, limit: nat): (r: Option<seq<T>>)
    ensures r.None? <==> page == 0 && limit > 0
    ensures r.Some? ==> limit > 0 ==> |r.value| <= limit
    ensures r.Some? ==> forall i :: 0 <= i < |r.value| ==>
      0 <= Skip(page, limit) + i < |rows| && r.value[i] == rows[Skip(page, limit) + i]
    ensures r.Some? ==> |r.value| == PageLength(|rows|, Skip(page, limit), limit)
  {
    var skip := Skip(page, limit);
    if skip < 0 then None else Some(Window(rows, skip, limit))
  }

  /** One page of the elements satisfying `p`, newest first:
      `find(filter).sort({createdAt: -1}).skip(skip).limit(limit)`. */
  function PageOf<T>(all: seq<T>, p: T -> bool, page: nat, limit: nat): (r: Option<seq<T>>)
    ensures r.None? <==> page == 0 && limit > 0
    ensures r.Some? ==> forall i :: 0 <= i < |r.value| ==> r.value[i] in all && p(r.value[i])
    ensures r.Some? && limit > 0 ==> |r.value| <= limit
    ensures r.Some? ==> |r.value| == PageLength(Count(all, p), Skip(page, limit), limit)
    ensures r.Some? ==> var rows := NewestFirst(all, p);
      forall i :: 0 <= i < |r.value| ==> 0 <= Skip(page, limit) + i < |rows| && r.value[i] == rows[Skip(page, limit) + i]
  {
    var rows := NewestFirst(all, p);
    var r := Paginate(rows, page, limit);
    assert |rows| == Count(all, p);
    assert r.Some? ==> |r.value| == PageLength(|rows|, Skip(page, limit), limit);
    assert r.Some? ==> forall i :: 0 <= i < |r.value| ==> r.value[i] in rows;
    r
  }

  /** Consecutive pages follow on from each other: no row is skipped or repeated. */
  lemma PagesTile<T>(rows: seq<T>, page: nat, limit: nat)
    requires page >= 1 && limit >= 1
    ensures Paginate(rows, page, limit).Some? && Paginate(rows, page + 1, limit).Some?
    ensures Paginate(rows, page, limit).value + Paginate(rows, page + 1, limit).value
      == Window(rows, Skip(page, limit), 2 * limit)
  {
    var a := Skip(page, limit);
    assert Skip(page + 1, limit) == a + limit;
  }
}
