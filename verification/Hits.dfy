/** Search hits (internal/cli/search_helpers.go): filtering and deduplication in place, on the slice they read. */
module Hits {
  import opened Prelude
  import opened Sorting
  import opened Messages

  datatype Hit = Hit(post: PostRef, team: string)

  /** A hit without a post sorts as if made at time 0. */
  function TimeOf(h: Hit): int { if h.post.Some? then h.post.value.createAt else 0 }

  predicate NewerHit(a: Hit, b: Hit) { TimeOf(a) > TimeOf(b) }

  /** The id a hit counts under; "" for a hit that is dropped. */
  function IdOf(h: Hit): Id { if h.post.Some? then h.post.value.id else "" }

  predicate Since(h: Hit, sinceMS: int) { h.post.Some? && h.post.value.createAt >= sinceMS }

  function FilterSince(hits: seq<Hit>, sinceMS: int): seq<Hit> {
    if hits == [] then []
    else
      var rest, h := FilterSince(hits[..|hits| - 1], sinceMS), hits[|hits| - 1];
      if Since(h, sinceMS) then rest + [h] else rest
  }

  /** The first hit of each id. */
  function Uniques(hits: seq<Hit>): seq<Hit> {
    if hits == [] then []
    else
      var rest, h := Uniques(hits[..|hits| - 1]), hits[|hits| - 1];
      if IdOf(h) == "" || IdOf(h) in Ids(hits[..|hits| - 1]) then rest else rest + [h]
  }

  /** The ids the hits count under. */
  function Ids(hits: seq<Hit>): set<Id> {
    if hits == [] then {}
    else
      var rest, id := Ids(hits[..|hits| - 1]), IdOf(hits[|hits| - 1]);
      if id == "" then rest else rest + {id}
  }

  lemma {:induction false} IdsAre(hits: seq<Hit>)
    ensures forall id :: id in Ids(hits) <==> id != "" && exists h :: h in hits && IdOf(h) == id
  {
    if hits != [] {
      var init, last := hits[..|hits| - 1], hits[|hits| - 1];
      assert hits == init + [last];
      IdsAre(init);
    }
  }

  function Dedupe(hits: seq<Hit>, limit: int): seq<Hit> { Truncate(Uniques(StableSort(NewerHit, hits)), limit) }

  /** `filterPostHitsSince`: compacts the first `n` hits onto the front of the same array. */
  method FilterPostHitsSince(a: array<Hit>, n: nat, sinceMS: int) returns (m: nat)
    requires n <= a.Length
    modifies a
    ensures m <= n && a[..m] == if sinceMS > 0 then FilterSince(old(a[..n]), sinceMS) else old(a[..n])
    ensures forall k :: n <= k < a.Length ==> a[k] == old(a[k])
  {
    if sinceMS <= 0 { return n; }
    ghost var was := a[..n];
    m := 0;
    for i := 0 to n
      invariant m <= i && a[..m] == FilterSince(was[..i], sinceMS)
      invariant forall k :: i <= k < a.Length ==> a[k] == old(a[k])
    {
      assert was[..i + 1][..i] == was[..i];
      var h := a[i];
      if Since(h, sinceMS) {
        m := Append(a, m, h);
      }
    }
    assert was[..n] == was;
  }

  /** `append` to a slice of the array itself: writes over the element behind it. */
  method Append(a: array<Hit>, m: nat, h: Hit) returns (m': nat)
    requires m < a.Length
    modifies a
    ensures m' == m + 1 && a[..m'] == old(a[..m]) + [h]
    ensures forall k :: m < k < a.Length ==> a[k] == old(a[k])
  {
    a[m] := h;
    m' := m + 1;
  }

  /** The loop of `dedupeSortLimitPostHits`: compacts the first hit of each id onto the front, writing no further than
      it has read, and stops when the limit is reached. */
  method Compact(a: array<Hit>, n: nat, limit: int) returns (m: nat)
    requires n <= a.Length
    modifies a
    ensures m <= n && a[..m] == Truncate(Uniques(old(a[..n])), limit)
    ensures forall k :: n <= k < a.Length ==> a[k] == old(a[k])
  {
    ghost var hits := a[..n];
    var seen: set<Id> := {};
    m := 0;
    var i := 0;
    while i < n
      invariant m <= i <= n && a[..m] == Uniques(hits[..i]) && seen == Ids(hits[..i])
      invariant forall k :: i <= k < a.Length ==> a[k] == old(a[k])
      invariant limit > 0 ==> m < limit
    {
      var h := a[i];
      NextUnique(hits, i);
      i := i + 1;
      if IdOf(h) == "" || IdOf(h) in seen { continue; }
      seen := seen + {IdOf(h)};
      m := Append(a, m, h);
      if limit > 0 && m >= limit { break; }
    }
    Stopped(hits, i, limit);
  }

  /** Where the loop stops it has what the limit leaves. */
  lemma Stopped(hits: seq<Hit>, i: nat, limit: int)
    requires i <= |hits|
    requires var m := |Uniques(hits[..i])|; (limit > 0 && m == limit) || (i == |hits| && (limit > 0 ==> m < limit))
    ensures Uniques(hits[..i]) == Truncate(Uniques(hits), limit)
  {
    UniquesPrefix(hits, i);
    if i == |hits| {
      assert hits[..i] == hits;
    }
  }

  /** `dedupeSortLimitPostHits`. */
  method DedupeSortLimitPostHits(a: array<Hit>, n: nat, limit: int) returns (m: nat)
    requires n <= a.Length
    modifies a
    ensures m <= n && a[..m] == Dedupe(old(a[..n]), limit)
    ensures a[n..] == old(a[n..])
  {
    ghost var rest := a[n..];
    SliceStable(a, n, NewerHit);
    m := Compact(a, n, limit);
    assert a[n..] == rest;
  }

  lemma NextUnique(hits: seq<Hit>, i: nat)
    requires i < |hits|
    ensures var u, ids, h := Uniques(hits[..i]), Ids(hits[..i]), hits[i];
      if IdOf(h) == "" || IdOf(h) in ids then Uniques(hits[..i + 1]) == u && Ids(hits[..i + 1]) == ids
      else Uniques(hits[..i + 1]) == u + [h] && Ids(hits[..i + 1]) == ids + {IdOf(h)}
  {
    assert hits[..i + 1][..i] == hits[..i] && hits[..i + 1] == hits[..i] + [hits[i]];
  }

  lemma {:induction false} UniquesPrefix(hits: seq<Hit>, i: nat)
    requires i <= |hits|
    ensures Uniques(hits[..i]) <= Uniques(hits)
  {
    if i < |hits| {
      UniquesPrefix(hits[..|hits| - 1], i);
      assert hits[..|hits| - 1][..i] == hits[..i];
    } else {
      assert hits[..i] == hits;
    }
  }

  // ---- what is left ------------------------------------------------------------------------------------------

  /** Each id of the hits is left once, represented by one of its hits. */
  lemma {:induction false} UniquesOnce(hits: seq<Hit>)
    ensures var u := Uniques(hits);
      && |u| == |Ids(hits)|
      && (forall h :: h in u ==> h in hits && IdOf(h) != "" && IdOf(h) in Ids(hits))
      && (forall i, j :: 0 <= i < j < |u| ==> IdOf(u[i]) != IdOf(u[j]))
  {
    if hits != [] {
      var init, h := hits[..|hits| - 1], hits[|hits| - 1];
      assert hits == init + [h];
      UniquesOnce(init);
      assert forall k :: 0 <= k < |Uniques(init)| ==> Uniques(init)[k] in Uniques(init);
    }
  }

  /** From sorted hits the first of each id is a newest. */
  lemma {:induction false} UniquesNewest(hits: seq<Hit>, u: Hit, h: Hit)
    requires Sorted(NewerHit, hits) && u in Uniques(hits) && h in hits && IdOf(h) == IdOf(u)
    ensures TimeOf(h) <= TimeOf(u)
  {
    var init, last := hits[..|hits| - 1], hits[|hits| - 1];
    assert hits == init + [last];
    UniquesOnce(init);
    if u in Uniques(init) {
      assert u in init;
      if h in init {
        UniquesNewest(init, u, h);
      }
    } else {
      OnlyLast(hits, u, h);
    }
  }

  /** A hit that is the first of its id only at the end has no other hit of its id. */
  lemma OnlyLast(hits: seq<Hit>, u: Hit, h: Hit)
    requires hits != [] && u in Uniques(hits) && u !in Uniques(hits[..|hits| - 1])
    requires h in hits && IdOf(h) == IdOf(u)
    ensures u == h == hits[|hits| - 1] || h !in hits[..|hits| - 1]
  {
    IdsAre(hits[..|hits| - 1]);
  }

  lemma {:induction false} UniquesSorted(hits: seq<Hit>)
    requires Sorted(NewerHit, hits)
    ensures Sorted(NewerHit, Uniques(hits))
  {
    if hits != [] {
      var init, last := hits[..|hits| - 1], hits[|hits| - 1];
      assert forall i :: 0 <= i < |init| ==> init[i] == hits[i] && !NewerHit(last, init[i]);
      UniquesSorted(init);
      UniquesOnce(init);
      assert forall u :: u in Uniques(init) ==> u in init;
    }
  }

  /** Every id is represented. */
  lemma {:induction false} UniquesCover(hits: seq<Hit>, id: Id) returns (u: Hit)
    requires id in Ids(hits)
    ensures u in Uniques(hits) && IdOf(u) == id
  {
    var init, last := hits[..|hits| - 1], hits[|hits| - 1];
    assert hits == init + [last];
    if id in Ids(init) {
      u := UniquesCover(init, id);
    } else {
      u := last;
    }
  }

  /** What sorting does not change. */
  lemma SortedHits(hits: seq<Hit>)
    ensures var sorted := StableSort(NewerHit, hits);
      Sorted(NewerHit, sorted) && Ids(sorted) == Ids(hits) && forall h :: h in sorted <==> h in hits
  {
    SortSorted(NewerHit, hits);
    SortPermutes(NewerHit, hits);
    IdsAre(hits);
    IdsAre(StableSort(NewerHit, hits));
  }

  /** The result for all inputs: newest first, pairwise distinct non-empty ids, a newest hit of each, and as many as
      there are ids, up to the limit. */
  lemma DedupeIsNewestOfEach(hits: seq<Hit>, limit: int)
    ensures var r := Dedupe(hits, limit);
      && Sorted(NewerHit, r)
      && (forall i, j :: 0 <= i < j < |r| ==> IdOf(r[i]) != IdOf(r[j]))
      && (forall u :: u in r ==> u in hits && IdOf(u) != "")
      && (forall u, h :: u in r && h in hits && IdOf(h) == IdOf(u) ==> TimeOf(h) <= TimeOf(u))
      && |r| == (if limit > 0 then Min(limit, |Ids(hits)|) else |Ids(hits)|)
  {
    var sorted := StableSort(NewerHit, hits);
    SortedHits(hits);
    UniquesOnce(sorted);
    UniquesSorted(sorted);
    TruncatedUniques(sorted, limit);
  }

  /** Of sorted hits: what the limit leaves of the first of each id. */
  lemma TruncatedUniques(sorted: seq<Hit>, limit: int)
    requires Sorted(NewerHit, sorted)
    ensures var r := Truncate(Uniques(sorted), limit);
      && (forall i, j :: 0 <= i < j < |r| ==> IdOf(r[i]) != IdOf(r[j]))
      && (forall u :: u in r ==> u in sorted && IdOf(u) != "")
      && (forall u, h :: u in r && h in sorted && IdOf(h) == IdOf(u) ==> TimeOf(h) <= TimeOf(u))
  {
    UniquesOnce(sorted);
    var r := Truncate(Uniques(sorted), limit);
    forall u, h | u in r && h in sorted && IdOf(h) == IdOf(u) ensures TimeOf(h) <= TimeOf(u) {
      assert u in Uniques(sorted);
      UniquesNewest(sorted, u, h);
    }
  }

  /** The ids cut off by the limit are not newer than the ones kept. */
  lemma DedupeKeepsNewestIds(hits: seq<Hit>, limit: int, h: Hit, u: Hit)
    requires h in hits && IdOf(h) != "" && u in Dedupe(hits, limit)
    requires forall k :: k in Dedupe(hits, limit) ==> IdOf(k) != IdOf(h)
    ensures TimeOf(h) <= TimeOf(u)
  {
    var sorted := StableSort(NewerHit, hits);
    SortedHits(hits);
    IdsAre(sorted);
    var k := UniquesCover(sorted, IdOf(h));
    UniquesNewest(sorted, k, h);
    UniquesSorted(sorted);
  }

  /** The filter keeps the hits at or after the time, each as often as it comes, in their order. */
  lemma {:induction false} FilterKeeps(hits: seq<Hit>, sinceMS: int, h: Hit)
    ensures multiset(FilterSince(hits, sinceMS))[h] ==
            if h.post.Some? && h.post.value.createAt >= sinceMS then multiset(hits)[h] else 0
    ensures h in FilterSince(hits, sinceMS) <==> h in hits && h.post.Some? && h.post.value.createAt >= sinceMS
  {
    if hits != [] {
      FilterKeeps(hits[..|hits| - 1], sinceMS, h);
      assert hits == hits[..|hits| - 1] + [hits[|hits| - 1]];
    }
  }

  lemma {:induction false} FilterKeepsOrder(a: seq<Hit>, b: seq<Hit>, sinceMS: int)
    ensures FilterSince(a + b, sinceMS) == FilterSince(a, sinceMS) + FilterSince(b, sinceMS)
  {
    if b == [] {
      assert a + b == a;
    } else {
      FilterKeepsOrder(a, b[..|b| - 1], sinceMS);
      assert (a + b)[..|a + b| - 1] == a + b[..|b| - 1];
    }
  }

  /** What a search shows of its hits. */
  function Shown(hits: seq<Hit>, sinceMS: int, limit: int): seq<Hit> {
    Dedupe(if sinceMS > 0 then FilterSince(hits, sinceMS) else hits, limit)
  }

  /** A hit that may be shown: with an id, and at or after the time if there is one. */
  predicate Showable(h: Hit, sinceMS: int) {
    h.post.Some? && h.post.value.id != "" && (sinceMS > 0 ==> h.post.value.createAt >= sinceMS)
  }

  /** Two hits of the answer, the one before the other. */
  predicate Before(u: Hit, v: Hit) {
    && u.post.Some? && v.post.Some?
    && u.post.value.id != v.post.value.id && u.post.value.createAt >= v.post.value.createAt
  }

  /** `h` is not a newer version of `u`. */
  predicate NoNewer(h: Hit, u: Hit) {
    && h.post.Some? && u.post.Some?
    && (h.post.value.id == u.post.value.id ==> h.post.value.createAt <= u.post.value.createAt)
  }

  lemma IsNoNewer(h: Hit, u: Hit)
    requires h.post.Some? && IdOf(u) != "" && (IdOf(h) == IdOf(u) ==> TimeOf(h) <= TimeOf(u))
    ensures NoNewer(h, u)
  {
  }

  lemma ComesBefore(u: Hit, v: Hit)
    requires IdOf(u) != "" && IdOf(v) != "" && IdOf(u) != IdOf(v) && !NewerHit(v, u)
    ensures Before(u, v)
  {
  }

  /** Filter, then dedupe: newest first, distinct ids, each shown hit is one that may be shown and a newest of its id
      among those. */
  lemma SearchShows(hits: seq<Hit>, sinceMS: int, limit: int)
    ensures var r := Shown(hits, sinceMS, limit);
      && (limit > 0 ==> |r| <= limit)
      && (forall u :: u in r ==> u in hits && Showable(u, sinceMS))
      && (forall i, j :: 0 <= i < j < |r| ==> Before(r[i], r[j]))
      && forall u, h :: u in r && h in hits && Showable(h, sinceMS) ==> NoNewer(h, u)
  {
    var r := Shown(hits, sinceMS, limit);
    var kept := if sinceMS > 0 then FilterSince(hits, sinceMS) else hits;
    FilteredAre(hits, sinceMS);
    DedupeIsNewestOfEach(kept, limit);
    forall i, j | 0 <= i < j < |r| ensures Before(r[i], r[j]) {
      assert r[i] in r && r[j] in r;
      ComesBefore(r[i], r[j]);
    }
    forall u, h | u in r && h in hits && Showable(h, sinceMS) ensures NoNewer(h, u) {
      assert h in kept && IdOf(u) != "";
      IsNoNewer(h, u);
    }
  }

  /** An id that may be shown is left out only when the limit is full, of hits none older. */
  lemma SearchLeavesOut(hits: seq<Hit>, sinceMS: int, limit: int, h: Hit)
    requires h in hits && Showable(h, sinceMS)
    requires forall u :: u in Shown(hits, sinceMS, limit) && u.post.Some? ==> u.post.value.id != h.post.value.id
    ensures limit > 0 && |Shown(hits, sinceMS, limit)| == limit
    ensures forall u :: u in Shown(hits, sinceMS, limit) ==>
      u.post.Some? && h.post.value.createAt <= u.post.value.createAt
  {
    var kept := if sinceMS > 0 then FilterSince(hits, sinceMS) else hits;
    FilteredAre(hits, sinceMS);
    SearchShows(hits, sinceMS, limit);
    forall u | u in Shown(hits, sinceMS, limit) ensures u.post.Some? && TimeOf(h) <= TimeOf(u) {
      DedupeKeepsNewestIds(kept, limit, h, u);
    }
    AllIdsShown(kept, limit, h);
  }

  lemma FilteredAre(hits: seq<Hit>, sinceMS: int)
    ensures var kept := if sinceMS > 0 then FilterSince(hits, sinceMS) else hits;
            forall h :: h in kept <==> h in hits && (sinceMS > 0 ==> h.post.Some? && h.post.value.createAt >= sinceMS)
  {
    var kept := if sinceMS > 0 then FilterSince(hits, sinceMS) else hits;
    forall h
      ensures h in kept <==> h in hits && (sinceMS > 0 ==> h.post.Some? && h.post.value.createAt >= sinceMS)
    {
      FilterKeeps(hits, sinceMS, h);
    }
  }

  /** An id that is not shown was cut off by the limit. */
  lemma AllIdsShown(hits: seq<Hit>, limit: int, h: Hit)
    requires h in hits && IdOf(h) != "" && forall u :: u in Dedupe(hits, limit) ==> IdOf(u) != IdOf(h)
    ensures limit > 0 && |Dedupe(hits, limit)| == limit
  {
    var sorted := StableSort(NewerHit, hits);
    SortedHits(hits);
    IdsAre(sorted);
    var u := UniquesCover(sorted, IdOf(h));
    assert u !in Dedupe(hits, limit);
  }
}
