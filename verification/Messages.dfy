/** `selectRecentMessages` (internal/cli/messages.go): the newest posts of a window, shown oldest first. */
module Messages {
  import opened Prelude
  import opened Model
  import opened Sorting

  /** A post reference of the SDK may be nil; the selection skips it. */
  type PostRef = Option<Post>

  predicate InWindow(p: Post, sinceMS: int) { sinceMS > 0 ==> p.createAt >= sinceMS }

  /** The posts of the window, in input order. */
  function Window(posts: seq<PostRef>, sinceMS: int): seq<Post> {
    if posts == [] then []
    else
      var rest := Window(posts[..|posts| - 1], sinceMS);
      var p := posts[|posts| - 1];
      if p.Some? && InWindow(p.value, sinceMS) then rest + [p.value] else rest
  }

  function Truncate<T>(s: seq<T>, limit: int): seq<T> {
    if limit > 0 && |s| > limit then s[..limit] else s
  }

  /** What `selectRecentMessages` returns. */
  function Select(posts: seq<PostRef>, sinceMS: int, limit: int): seq<Post> {
    StableSort(OldestFirst, Truncate(StableSort(NewerFirst, Window(posts, sinceMS)), limit))
  }

  method SelectRecentMessages(posts: seq<PostRef>, sinceMS: int, limit: int) returns (r: seq<Post>)
    ensures r == Select(posts, sinceMS, limit)
  {
    var filtered: seq<Post> := [];
    for i := 0 to |posts|
      invariant filtered == Window(posts[..i], sinceMS)
    {
      assert posts[..i + 1][..i] == posts[..i];
      if posts[i].Some? && !(sinceMS > 0 && posts[i].value.createAt < sinceMS) {
        filtered := filtered + [posts[i].value];
      }
    }
    assert posts[..|posts|] == posts;
    filtered := SortSlice(filtered, NewerFirst);
    if limit > 0 && |filtered| > limit {
      filtered := filtered[..limit];
    }
    r := SortSlice(filtered, OldestFirst);
  }

  lemma OrdersAreStrictWeak()
    ensures StrictWeak(NewerFirst) && StrictWeak(OldestFirst)
  {
    forall x: Post, y: Post ensures OldestFirst(x, y) ==> !OldestFirst(y, x) {
      StrLessTotal(x.id, y.id);
    }
    forall x: Post, y: Post, z: Post ensures OldestFirst(x, z) ==> OldestFirst(x, y) || OldestFirst(y, z) {
      StrLessTotal(x.id, y.id);
      StrLessTotal(y.id, z.id);
      if x.createAt == z.createAt == y.createAt && StrLess(x.id, z.id) && !StrLess(x.id, y.id) && x.id != y.id {
        StrLessTransitive(y.id, x.id, z.id);
      }
    }
  }

  /** Both sorts return sorted permutations. */
  lemma PostSorts(s: seq<Post>)
    ensures Sorted(NewerFirst, StableSort(NewerFirst, s)) && Sorted(OldestFirst, StableSort(OldestFirst, s))
    ensures multiset(StableSort(NewerFirst, s)) == multiset(StableSort(OldestFirst, s)) == multiset(s)
  {
    OrdersAreStrictWeak();
    SortSorted(NewerFirst, s);
    SortSorted(OldestFirst, s);
    SortPermutes(NewerFirst, s);
    SortPermutes(OldestFirst, s);
  }

  /** Ids name posts: no two different posts of the list share one. */
  ghost predicate DistinctIds(s: seq<Post>) {
    forall i, j :: 0 <= i < j < |s| ==> s[i].id != s[j].id
  }

  lemma DistinctIdsDiscriminate(s: seq<Post>)
    requires DistinctIds(s)
    ensures Discriminates(OldestFirst, s)
  {
    forall x, y | x in s && y in s && x != y ensures OldestFirst(x, y) || OldestFirst(y, x) {
      StrLessTotal(x.id, y.id);
      var i :| 0 <= i < |s| && s[i] == x;
      var j :| 0 <= j < |s| && s[j] == y;
      assert i < j || j < i;
    }
  }

  /** Two inputs that are permutations of each other have windows that are. */
  lemma {:induction false} WindowCounts(posts: seq<PostRef>, sinceMS: int, p: Post)
    ensures multiset(Window(posts, sinceMS))[p] == if InWindow(p, sinceMS) then multiset(posts)[Some(p)] else 0
  {
    if posts != [] {
      WindowCounts(posts[..|posts| - 1], sinceMS, p);
      assert posts == posts[..|posts| - 1] + [posts[|posts| - 1]];
    }
  }

  lemma WindowPermutes(a: seq<PostRef>, b: seq<PostRef>, sinceMS: int)
    requires multiset(a) == multiset(b)
    ensures multiset(Window(a, sinceMS)) == multiset(Window(b, sinceMS))
  {
    forall p ensures multiset(Window(a, sinceMS))[p] == multiset(Window(b, sinceMS))[p] {
      WindowCounts(a, sinceMS, p);
      WindowCounts(b, sinceMS, p);
    }
  }

  /** The input as the caller passes it. */
  function Refs(s: seq<Post>): seq<PostRef> { seq(|s|, i requires 0 <= i < |s| => Some(s[i])) }

  /** The `limit`-th newest post of the window is strictly newer than the next one. */
  ghost predicate NoTieAtCut(w: seq<Post>, limit: int) {
    var d := StableSort(NewerFirst, w);
    0 < limit < |d| ==> d[limit - 1].createAt > d[limit].createAt
  }

  /** The selection is a list of the window's newest posts, as many as asked for, oldest first. */
  lemma SelectIsNewest(posts: seq<PostRef>, sinceMS: int, limit: int)
    ensures var w, r := Window(posts, sinceMS), Select(posts, sinceMS, limit);
      && |r| == (if limit > 0 then Min(limit, |w|) else |w|)
      && multiset(r) <= multiset(w)
      && Sorted(OldestFirst, r)
      && forall p: Post, q: Post :: p in multiset(w) - multiset(r) && q in r ==> p.createAt <= q.createAt
  {
    var w := Window(posts, sinceMS);
    var d := StableSort(NewerFirst, w);
    var t := Truncate(d, limit);
    var r := Select(posts, sinceMS, limit);
    PostSorts(w);
    PostSorts(t);
    assert t == d[..|t|];
    assert r == StableSort(OldestFirst, t);
    PrefixIsNewest(w, d, |t|, r);
  }

  /** The same said of the posts themselves: what is shown is in the window and in order, and a post of the window that
      is not shown had no room and is none newer. */
  lemma SelectShows(posts: seq<PostRef>, sinceMS: int, limit: int)
    ensures var r := Select(posts, sinceMS, limit);
      && (limit > 0 ==> |r| <= limit)
      && (forall p :: p in r ==> Some(p) in posts && (sinceMS > 0 ==> p.createAt >= sinceMS))
      && (forall i, j :: 0 <= i < j < |r| ==>
            r[i].createAt < r[j].createAt || (r[i].createAt == r[j].createAt && !StrLess(r[j].id, r[i].id)))
      && forall p :: Some(p) in posts && (sinceMS > 0 ==> p.createAt >= sinceMS) ==>
           p in r || (|r| == limit && forall q :: q in r ==> p.createAt <= q.createAt)
  {
    var w, r := Window(posts, sinceMS), Select(posts, sinceMS, limit);
    SelectIsNewest(posts, sinceMS, limit);
    forall p | p in r ensures Some(p) in posts && (sinceMS > 0 ==> p.createAt >= sinceMS) {
      assert multiset(r)[p] <= multiset(w)[p];
      WindowCounts(posts, sinceMS, p);
    }
    forall p | Some(p) in posts && (sinceMS > 0 ==> p.createAt >= sinceMS)
      ensures p in r || (|r| == limit && forall q :: q in r ==> p.createAt <= q.createAt)
    {
      WindowCounts(posts, sinceMS, p);
      LeftOut(w, r, p);
    }
  }

  lemma LeftOut(w: seq<Post>, r: seq<Post>, p: Post)
    requires p in w && multiset(r) <= multiset(w)
    ensures p in r || (p in multiset(w) - multiset(r) && |r| < |w|)
  {
    if p !in r {
      assert multiset(r) + multiset{p} <= multiset(w);
      assert |multiset(w) - (multiset(r) + multiset{p})| == |w| - |r| - 1;
    }
  }

  lemma PrefixIsNewest(w: seq<Post>, d: seq<Post>, n: nat, r: seq<Post>)
    requires Sorted(NewerFirst, d) && multiset(d) == multiset(w)
    requires n <= |d| && multiset(r) == multiset(d[..n])
    ensures multiset(r) <= multiset(w)
    ensures forall p: Post, q: Post :: p in multiset(w) - multiset(r) && q in r ==> p.createAt <= q.createAt
  {
    assert d == d[..n] + d[n..];
    assert multiset(w) == multiset(r) + multiset(d[n..]);
    forall p: Post, q: Post | p in multiset(w) - multiset(r) && q in r ensures p.createAt <= q.createAt {
      assert p in multiset(d[n..]) && q in multiset(d[..n]);
    }
  }

  /** Where no tie is cut, the posts kept are those at least as new as the last one kept. */
  lemma CutMembers(d: seq<Post>, n: nat)
    requires Sorted(NewerFirst, d) && 0 < n < |d| && d[n - 1].createAt > d[n].createAt
    ensures forall p :: p in d[..n] <==> p in d && p.createAt >= d[n - 1].createAt
  {
    forall i | n <= i < |d| ensures d[i].createAt <= d[n].createAt {
      assert i == n || !NewerFirst(d[i], d[n]);
    }
    forall p | p in d && p.createAt >= d[n - 1].createAt ensures p in d[..n] {
      var i :| 0 <= i < |d| && d[i] == p;
    }
    forall p | p in d[..n] ensures p in d && p.createAt >= d[n - 1].createAt {
      var i :| 0 <= i < n && d[i] == p;
      assert i == n - 1 || !NewerFirst(d[n - 1], d[i]);
    }
  }

  /** A second arrangement of the same posts is cut at the same place. */
  lemma SameCut(d: seq<Post>, e: seq<Post>, n: nat)
    requires Sorted(NewerFirst, d) && Sorted(NewerFirst, e)
    requires Distinct(d) && Distinct(e) && forall p :: p in d <==> p in e
    requires 0 < n < |d| == |e| && d[n - 1].createAt > d[n].createAt
    ensures forall p :: p in d[..n] <==> p in e[..n]
  {
    CutMembers(d, n);
    var c := d[n - 1].createAt;
    var kept := Elems(d[..n]);
    DistinctSize(d[..n]);
    forall i | 0 <= i < n ensures e[i] in kept {
      if e[i].createAt < c {
        assert kept <= Elems(e[..i]) by {
          forall p | p in kept ensures p in e[..i] {
            var j :| 0 <= j < |e| && e[j] == p;
            assert i < j ==> !NewerFirst(e[j], e[i]);
          }
        }
        DistinctSize(e[..i]);
        SubsetSize(kept, Elems(e[..i]));
      }
    }
    DistinctSize(e[..n]);
    assert Elems(e[..n]) <= kept;
    SubsetSize(Elems(e[..n]), kept);
    forall p ensures p in d[..n] <==> p in e[..n] {
      assert p in d[..n] <==> p in kept;
      assert p in e[..n] <==> p in Elems(e[..n]);
    }
  }

  /** The order the posts come in does not matter, unless the limit cuts between posts of the same age. */
  lemma SelectOrderIndependent(a: seq<PostRef>, b: seq<PostRef>, sinceMS: int, limit: int)
    requires multiset(a) == multiset(b)
    requires DistinctIds(Window(a, sinceMS)) && NoTieAtCut(Window(a, sinceMS), limit)
    ensures Select(a, sinceMS, limit) == Select(b, sinceMS, limit)
  {
    var wa, wb := Window(a, sinceMS), Window(b, sinceMS);
    WindowPermutes(a, b, sinceMS);
    SelectFromWindows(wa, wb, limit);
  }

  /** Two sorted arrangements of the same posts are truncated to the same posts. */
  lemma SameTruncation(d: seq<Post>, e: seq<Post>, limit: int)
    requires Sorted(NewerFirst, d) && Sorted(NewerFirst, e)
    requires Distinct(d) && multiset(d) == multiset(e)
    requires 0 < limit < |d| ==> d[limit - 1].createAt > d[limit].createAt
    ensures multiset(Truncate(d, limit)) == multiset(Truncate(e, limit))
  {
    PermutedDistinct(d, e);
    SameMembers(d, e);
    assert |d| == |multiset(d)| == |multiset(e)| == |e|;
    if 0 < limit < |d| {
      SameCut(d, e, limit);
    }
    DistinctSameMultiset(Truncate(d, limit), Truncate(e, limit));
  }

  lemma SelectFromWindows(wa: seq<Post>, wb: seq<Post>, limit: int)
    requires multiset(wa) == multiset(wb)
    requires DistinctIds(wa) && NoTieAtCut(wa, limit)
    ensures StableSort(OldestFirst, Truncate(StableSort(NewerFirst, wa), limit))
         == StableSort(OldestFirst, Truncate(StableSort(NewerFirst, wb), limit))
  {
    var d, e := StableSort(NewerFirst, wa), StableSort(NewerFirst, wb);
    PostSorts(wa);
    PostSorts(wb);
    PermutedDistinct(wa, d);
    SameTruncation(d, e, limit);
    DiscriminatesPart(wa, d, Truncate(d, limit));
    OrdersAreStrictWeak();
    SortOrderIndependent(OldestFirst, Truncate(d, limit), Truncate(e, limit));
  }

  lemma DiscriminatesPart(w: seq<Post>, d: seq<Post>, t: seq<Post>)
    requires DistinctIds(w) && multiset(d) == multiset(w) && t <= d
    ensures Discriminates(OldestFirst, t)
  {
    DistinctIdsDiscriminate(w);
    SameMembers(w, d);
    forall x, y | x in t && y in t && x != y ensures OldestFirst(x, y) || OldestFirst(y, x) {
      assert x in d && y in d;
      assert x in w && y in w;
    }
  }

  lemma {:induction false} WindowOfRefs(s: seq<Post>)
    ensures Window(Refs(s), 0) == s
  {
    if s != [] {
      var init := s[..|s| - 1];
      WindowOfRefs(init);
      assert Refs(s)[..|s| - 1] == Refs(init);
      assert s == init + [s[|s| - 1]];
    }
  }

  /** A tie across the cut: swapping the two posts of equal age gives another selection from the same posts. */
  lemma TieChangesSelection(s: seq<Post>, limit: int) returns (b: seq<Post>)
    requires DistinctIds(s) && !NoTieAtCut(s, limit)
    ensures multiset(b) == multiset(s)
    ensures Select(Refs(b), 0, limit) != Select(Refs(s), 0, limit)
  {
    var d := StableSort(NewerFirst, s);
    PostSorts(s);
    PermutedDistinct(s, d);
    assert !NewerFirst(d[limit - 1], d[limit]);
    b := SwapNeighbours(NewerFirst, d, limit);
    SortFixpoint(NewerFirst, b);
    SwappedPrefixDiffers(d, limit, b);
    SelectOfSorted(b, b, limit);
    SelectOfSorted(s, d, limit);
  }

  lemma SelectOfSorted(s: seq<Post>, d: seq<Post>, limit: int)
    requires StableSort(NewerFirst, s) == d && 0 < limit < |d|
    ensures Select(Refs(s), 0, limit) == StableSort(OldestFirst, d[..limit])
  {
    WindowOfRefs(s);
  }

  lemma SwappedPrefixDiffers(d: seq<Post>, n: nat, b: seq<Post>)
    requires Distinct(d) && 0 < n < |d| && b == d[n - 1 := d[n]][n := d[n - 1]]
    ensures StableSort(OldestFirst, b[..n]) != StableSort(OldestFirst, d[..n])
  {
    PostSorts(b[..n]);
    PostSorts(d[..n]);
    var x := d[n];
    assert x in multiset(b[..n]) by { assert b[..n][n - 1] == x; }
    assert x !in multiset(d[..n]);
  }

  /** Exactly when the order of the input does not matter to the newest-N selection. */
  lemma SelectOrderIndependentIff(s: seq<Post>, limit: int)
    requires DistinctIds(s)
    ensures NoTieAtCut(s, limit) <==>
            forall b: seq<Post> :: multiset(b) == multiset(s) ==> Select(Refs(b), 0, limit) == Select(Refs(s), 0, limit)
  {
    WindowOfRefs(s);
    if NoTieAtCut(s, limit) {
      forall b: seq<Post> | multiset(b) == multiset(s)
        ensures Select(Refs(b), 0, limit) == Select(Refs(s), 0, limit)
      {
        WindowOfRefs(b);
        SelectFromWindows(s, b, limit);
      }
    } else {
      var b := TieChangesSelection(s, limit);
    }
  }
}