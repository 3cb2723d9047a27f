/** Thread selection (internal/cli/thread.go): the root and the newest replies, oldest first. */
module Thread {
  import opened Prelude
  import opened Model
  import opened Sorting
  import opened Messages

  /** `ensurePostPresent`. */
  method EnsurePostPresent(posts: seq<PostRef>, p: PostRef) returns (r: seq<PostRef>)
    ensures r ==
      if p.None? || (exists q :: q in posts && q.Some? && q.value.id == p.value.id) then posts else posts + [p]
  {
    if p.None? { return posts; }
    for i := 0 to |posts|
      invariant forall k :: 0 <= k < i && posts[k].Some? ==> posts[k].value.id != p.value.id
    {
      if posts[i].Some? && posts[i].value.id == p.value.id { return posts; }
    }
    r := posts + [p];
  }

  /** The root the first loop of `splitThreadPosts` arrives at: later candidates win by id or by age. */
  function Candidate(posts: seq<PostRef>, original: Id): PostRef {
    if posts == [] then None
    else
      var r, p := Candidate(posts[..|posts| - 1], original), posts[|posts| - 1];
      if p.Some? && p.value.rootId == "" && (p.value.id == original || r.None? || p.value.createAt < r.value.createAt)
      then p else r
  }

  /** The fallback: the first post with the asked-for id. */
  function FirstWithId(posts: seq<PostRef>, id: Id): PostRef {
    if posts == [] then None
    else if posts[0].Some? && posts[0].value.id == id then posts[0] else FirstWithId(posts[1..], id)
  }

  /** The `i`-th is the first with the id. */
  ghost predicate FirstIs(posts: seq<PostRef>, id: Id, i: nat) {
    && i < |posts| && posts[i].Some? && posts[i].value.id == id
    && forall j :: 0 <= j < i && posts[j].Some? ==> posts[j].value.id != id
  }

  predicate IsRoot(p: PostRef) { p.Some? && p.value.rootId == "" }

  /** The `k`-th post is the root: no root behind it has the asked-for id or is older, and each before it is newer,
      unless the asked-for one comes between or is the `k`-th. */
  ghost predicate Chosen(posts: seq<PostRef>, original: Id, k: nat) {
    && k < |posts| && IsRoot(posts[k])
    && (forall j :: k < j < |posts| && IsRoot(posts[j]) ==>
          posts[j].value.id != original && posts[k].value.createAt <= posts[j].value.createAt)
    && forall j :: 0 <= j < k && IsRoot(posts[j]) ==>
         posts[k].value.createAt < posts[j].value.createAt || Asked(posts, original, j + 1, k)
  }

  ghost predicate Asked(posts: seq<PostRef>, original: Id, from: nat, to: nat)
    requires to < |posts|
  {
    exists m :: from <= m <= to && IsRoot(posts[m]) && posts[m].value.id == original
  }

  function Root(posts: seq<PostRef>, original: Id): PostRef {
    var r := Candidate(posts, original);
    if r.Some? then r else FirstWithId(posts, original)
  }

  /** Every post but the root. */
  function Replies(posts: seq<PostRef>, rootId: Id): seq<PostRef> {
    if posts == [] then []
    else
      var rest, p := Replies(posts[..|posts| - 1], rootId), posts[|posts| - 1];
      if p.None? || p.value.id == rootId then rest else rest + [p]
  }

  /** The newest replies of an oldest-first list that fit beside the root. */
  function KeepNewest(sorted: seq<Post>, limit: int): seq<Post> {
    if limit > 0 && |sorted| > limit - 1 then sorted[|sorted| - (limit - 1)..] else sorted
  }

  function SelectThread(posts: seq<PostRef>, original: Id, sinceMS: int, limit: int): seq<Post> {
    var root := Root(posts, original);
    if root.None? then []
    else
      var replies := StableSort(OldestFirst, Window(Replies(posts, root.value.id), sinceMS));
      StableSort(OldestFirst, [root.value] + KeepNewest(replies, limit))
  }

  /** The first loop of `splitThreadPosts` chooses a root wherever there is one. */
  lemma {:induction false} CandidateChosen(posts: seq<PostRef>, original: Id)
    ensures Candidate(posts, original).None? <==> forall p :: p in posts ==> !IsRoot(p)
    ensures Candidate(posts, original).Some? ==>
      exists k :: 0 <= k < |posts| && Chosen(posts, original, k) && posts[k] == Candidate(posts, original)
  {
    if posts != [] {
      var init, n := posts[..|posts| - 1], |posts| - 1;
      CandidateChosen(init, original);
      var r, p := Candidate(init, original), posts[n];
      if IsRoot(p) && (p.value.id == original || r.None? || p.value.createAt < r.value.createAt) {
        LastChosen(posts, original, r);
      } else if r.Some? {
        var k :| 0 <= k < n && Chosen(init, original, k) && init[k] == r;
        ChosenStays(posts, original, k);
      }
    }
  }

  lemma ChosenStays(posts: seq<PostRef>, original: Id, k: nat)
    requires posts != [] && Chosen(posts[..|posts| - 1], original, k)
    requires var p := posts[|posts| - 1];
             IsRoot(p) ==> p.value.id != original && posts[k].value.createAt <= p.value.createAt
    ensures Chosen(posts, original, k)
  {
    var init := posts[..|posts| - 1];
    forall j | 0 <= j < k && IsRoot(posts[j])
      ensures posts[k].value.createAt < posts[j].value.createAt || Asked(posts, original, j + 1, k)
    {
      assert init[j] == posts[j];
      if Asked(init, original, j + 1, k) {
        var m :| j + 1 <= m <= k && IsRoot(init[m]) && init[m].value.id == original;
        assert posts[m] == init[m];
      }
    }
  }

  lemma LastChosen(posts: seq<PostRef>, original: Id, r: PostRef)
    requires posts != [] && IsRoot(posts[|posts| - 1])
    requires r.None? ==> forall j :: 0 <= j < |posts| - 1 ==> !IsRoot(posts[j])
    requires r.Some? ==>
      exists k :: 0 <= k < |posts| - 1 && Chosen(posts[..|posts| - 1], original, k) && posts[k] == r
    requires var p := posts[|posts| - 1].value; p.id == original || r.None? || p.createAt < r.value.createAt
    ensures Chosen(posts, original, |posts| - 1)
  {
    var n, init := |posts| - 1, posts[..|posts| - 1];
    forall j | 0 <= j < n && IsRoot(posts[j])
      ensures posts[n].value.createAt < posts[j].value.createAt || Asked(posts, original, j + 1, n)
    {
      assert init[j] == posts[j];
      if posts[n].value.id == original {
        assert Asked(posts, original, j + 1, n);
      } else {
        var k :| 0 <= k < n && Chosen(init, original, k) && posts[k] == r;
        AskedOnTheWay(posts, original, j, k);
      }
    }
  }

  lemma AskedOnTheWay(posts: seq<PostRef>, original: Id, j: nat, k: nat)
    requires j < |posts| - 1 && IsRoot(posts[j]) && Chosen(posts[..|posts| - 1], original, k)
    ensures posts[k].value.createAt <= posts[j].value.createAt || Asked(posts, original, j + 1, |posts| - 1)
  {
    var init := posts[..|posts| - 1];
    assert init[j] == posts[j];
    if j < k && Asked(init, original, j + 1, k) {
      var m :| j + 1 <= m <= k && IsRoot(init[m]) && init[m].value.id == original;
      assert posts[m] == init[m];
    }
  }

  /** `splitThreadPosts`. */
  method SplitThreadPosts(posts: seq<PostRef>, original: Id) returns (root: PostRef, replies: seq<PostRef>)
    ensures root == Root(posts, original)
    ensures replies == if root.Some? then Replies(posts, root.value.id) else []
  {
    root, replies := None, [];
    for i := 0 to |posts|
      invariant root == Candidate(posts[..i], original)
    {
      assert posts[..i + 1][..i] == posts[..i];
      var p := posts[i];
      if p.Some? && p.value.rootId == "" {
        if p.value.id == original || root.None? || p.value.createAt < root.value.createAt {
          root := p;
        }
      }
    }
    assert posts[..|posts|] == posts;
    if root.None? {
      root := FindById(posts, original);
    }
    if root.None? { return; }
    for i := 0 to |posts|
      invariant replies == Replies(posts[..i], root.value.id)
    {
      assert posts[..i + 1][..i] == posts[..i];
      if posts[i].Some? && posts[i].value.id != root.value.id {
        replies := replies + [posts[i]];
      }
    }
  }

  method FindById(posts: seq<PostRef>, id: Id) returns (found: PostRef)
    ensures found == FirstWithId(posts, id)
    ensures found.None? ==> forall p :: Some(p) in posts ==> p.id != id
    ensures found.Some? ==> exists i :: 0 <= i < |posts| && FirstIs(posts, id, i) && posts[i] == found
  {
    found := None;
    var i := 0;
    while i < |posts|
      invariant i <= |posts| && FirstWithId(posts, id) == FirstWithId(posts[i..], id)
      invariant forall j :: 0 <= j < i && posts[j].Some? ==> posts[j].value.id != id
    {
      assert posts[i..][1..] == posts[i + 1..];
      if posts[i].Some? && posts[i].value.id == id { return posts[i]; }
      i := i + 1;
    }
  }

  /** The loop over the replies. */
  method FilterReplies(replies: seq<PostRef>, sinceMS: int) returns (filtered: seq<Post>)
    ensures filtered == Window(replies, sinceMS)
  {
    filtered := [];
    for i := 0 to |replies|
      invariant filtered == Window(replies[..i], sinceMS)
    {
      assert replies[..i + 1][..i] == replies[..i];
      if replies[i].Some? && !(sinceMS > 0 && replies[i].value.createAt < sinceMS) {
        filtered := filtered + [replies[i].value];
      }
    }
    assert replies[..|replies|] == replies;
  }

  method SelectThreadPosts(posts: seq<PostRef>, original: Id, sinceMS: int, limit: int) returns (r: seq<Post>)
    ensures r == SelectThread(posts, original, sinceMS, limit)
  {
    var root, replies := SplitThreadPosts(posts, original);
    if root.None? { return []; }
    var filtered := FilterReplies(replies, sinceMS);
    filtered := SortSlice(filtered, OldestFirst);
    ghost var sorted := filtered;
    if limit > 0 && |filtered| > limit - 1 {
      filtered := if limit == 1 then [] else filtered[|filtered| - (limit - 1)..];
    }
    assert filtered == KeepNewest(sorted, limit);
    r := SortSlice([root.value] + filtered, OldestFirst);
  }

  // ---- a thread with one root --------------------------------------------------------------------------------

  /** A thread as the server keeps it: one post is the root, the others have one, and ids name posts. */
  ghost predicate OneRoot(posts: seq<PostRef>, root: Post) {
    && Some(root) in posts && root.rootId == ""
    && (forall p :: Some(p) in posts && p.rootId == "" ==> p == root)
    && (forall i, j :: 0 <= i < j < |posts| && posts[i].Some? && posts[j].Some? ==>
          posts[i].value.id != posts[j].value.id)
  }

  lemma {:induction false} CandidateIsRoot(posts: seq<PostRef>, original: Id, root: Post)
    requires forall p :: Some(p) in posts && p.rootId == "" ==> p == root
    requires root.rootId == ""
    ensures Candidate(posts, original) == if Some(root) in posts then Some(root) else None
  {
    if posts != [] {
      var init, p := posts[..|posts| - 1], posts[|posts| - 1];
      assert posts == init + [p];
      CandidateIsRoot(init, original, root);
    }
  }

  lemma {:induction false} RepliesCount(posts: seq<PostRef>, rootId: Id, p: PostRef)
    ensures multiset(Replies(posts, rootId))[p] == if p.Some? && p.value.id != rootId then multiset(posts)[p] else 0
  {
    if posts != [] {
      var init, q := posts[..|posts| - 1], posts[|posts| - 1];
      assert posts == init + [q];
      RepliesCount(init, rootId, p);
    }
  }

  lemma {:induction false} RepliesDistinct(posts: seq<PostRef>, rootId: Id, sinceMS: int)
    requires forall i, j :: 0 <= i < j < |posts| && posts[i].Some? && posts[j].Some? ==>
      posts[i].value.id != posts[j].value.id
    ensures DistinctIds(Window(Replies(posts, rootId), sinceMS))
    ensures forall p :: p in Window(Replies(posts, rootId), sinceMS) <==>
      Some(p) in posts && p.id != rootId && InWindow(p, sinceMS)
  {
    if posts != [] {
      var init, q := posts[..|posts| - 1], posts[|posts| - 1];
      assert posts == init + [q];
      RepliesDistinct(init, rootId, sinceMS);
      if q.Some? && q.value.id != rootId {
        assert Replies(posts, rootId)[..|Replies(posts, rootId)| - 1] == Replies(init, rootId);
        assert forall p :: Some(p) in init ==> p.id != q.value.id;
      }
    }
  }

  /** For a thread with one root the order the posts come in does not matter. */
  lemma ThreadOrderIndependent(a: seq<PostRef>, b: seq<PostRef>, root: Post, original: Id, sinceMS: int, limit: int)
    requires multiset(a) == multiset(b) && OneRoot(a, root)
    ensures SelectThread(a, original, sinceMS, limit) == SelectThread(b, original, sinceMS, limit)
  {
    SameMembers(a, b);
    CandidateIsRoot(a, original, root);
    CandidateIsRoot(b, original, root);
    var ra, rb := Replies(a, root.id), Replies(b, root.id);
    forall p ensures multiset(ra)[p] == multiset(rb)[p] {
      RepliesCount(a, root.id, p);
      RepliesCount(b, root.id, p);
    }
    WindowPermutes(ra, rb, sinceMS);
    RepliesDistinct(a, root.id, sinceMS);
    DistinctIdsDiscriminate(Window(ra, sinceMS));
    OrdersAreStrictWeak();
    SortOrderIndependent(OldestFirst, Window(ra, sinceMS), Window(rb, sinceMS));
  }

  /** A sort that tells all elements apart is strictly increasing. */
  lemma StrictlySorted(s: seq<Post>)
    requires DistinctIds(s)
    ensures var r := StableSort(OldestFirst, s);
      && multiset(r) == multiset(s)
      && (forall p :: p in r <==> p in s)
      && forall i, j :: 0 <= i < j < |r| ==> OldestFirst(r[i], r[j])
  {
    var r := StableSort(OldestFirst, s);
    PostSorts(s);
    SortPermutes(OldestFirst, s);
    DistinctIdsDiscriminate(s);
    PermutedDistinct(s, r);
    forall i, j | 0 <= i < j < |r| ensures OldestFirst(r[i], r[j]) {
      assert r[i] in s && r[j] in s && r[i] != r[j];
    }
  }

  /** The replies kept are the newest of the window. */
  lemma KeptAreNewest(w: seq<Post>, limit: int)
    requires DistinctIds(w)
    ensures var sorted := StableSort(OldestFirst, w); var kept := KeepNewest(sorted, limit);
      && |kept| == (if limit > 0 then Min(limit - 1, |w|) else |w|)
      && DistinctIds(kept) && (forall p :: p in kept ==> p in w)
      && forall p, q :: p in w && p !in kept && q in kept ==> OldestFirst(p, q)
  {
    var sorted := StableSort(OldestFirst, w);
    var kept := KeepNewest(sorted, limit);
    StrictlySorted(w);
    assert |sorted| == |w| by {
      assert |multiset(sorted)| == |multiset(w)|;
    }
    KeptIds(w, sorted, kept, |sorted| - |kept|);
  }

  lemma KeptIds(w: seq<Post>, sorted: seq<Post>, kept: seq<Post>, d: nat)
    requires DistinctIds(w) && d <= |sorted| && kept == sorted[d..] && forall p :: p in sorted <==> p in w
    requires forall i, j :: 0 <= i < j < |sorted| ==> OldestFirst(sorted[i], sorted[j])
    ensures DistinctIds(kept) && forall p :: p in kept ==> p in w
  {
    forall i | 0 <= i < |kept| ensures kept[i] in w { assert kept[i] == sorted[d + i]; }
    forall i, j | 0 <= i < j < |kept| ensures kept[i].id != kept[j].id {
      StrLessTotal(kept[i].id, kept[j].id);
      assert OldestFirst(sorted[d + i], sorted[d + j]);
    }
  }

  /** The selection is the root and the newest replies of the window that fit, strictly from old to new. */
  lemma ThreadIsRootAndNewest(posts: seq<PostRef>, root: Post, original: Id, sinceMS: int, limit: int)
    requires OneRoot(posts, root)
    ensures var w, r := Window(Replies(posts, root.id), sinceMS), SelectThread(posts, original, sinceMS, limit);
      && |r| == 1 + (if limit > 0 then Min(limit - 1, |w|) else |w|)
      && (forall i, j :: 0 <= i < j < |r| ==> OldestFirst(r[i], r[j]))
      && root in r && (forall p :: p in r ==> p == root || p in w)
      && forall p, q :: p in w && p !in r && q in r && q != root ==> OldestFirst(p, q)
  {
    CandidateIsRoot(posts, original, root);
    RepliesDistinct(posts, root.id, sinceMS);
    var w := Window(Replies(posts, root.id), sinceMS);
    KeptAreNewest(w, limit);
    var kept := KeepNewest(StableSort(OldestFirst, w), limit);
    assert DistinctIds([root] + kept) by {
      forall p | p in kept ensures p.id != root.id { assert p in w; }
    }
    StrictlySorted([root] + kept);
  }

  /** Of any list of posts: the root is shown, and with it, oldest first, posts of the window that are not the root; one
      is left out only when the limit is full, and then it comes before every reply shown. */
  lemma ThreadShows(posts: seq<PostRef>, original: Id, sinceMS: int, limit: int)
    requires Root(posts, original).Some?
    ensures var root, r := Root(posts, original).value, SelectThread(posts, original, sinceMS, limit);
      && root in r && (limit > 0 ==> |r| <= limit)
      && (forall p :: p in r ==> p == root || Reply(posts, root, sinceMS, p))
      && (forall i, j :: 0 <= i < j < |r| ==> r[i].createAt <= r[j].createAt)
      && forall p :: Reply(posts, root, sinceMS, p) && p !in r ==>
           |r| == limit && forall q :: q in r && q != root ==> p.createAt <= q.createAt
  {
    var root := Root(posts, original).value;
    var w := Window(Replies(posts, root.id), sinceMS);
    var sorted := StableSort(OldestFirst, w);
    var kept := KeepNewest(sorted, limit);
    PostSorts(w);
    PostSorts([root] + kept);
    SortPermutes(OldestFirst, w);
    SortPermutes(OldestFirst, [root] + kept);
    SameMembers(sorted, w);
    SameMembers(SelectThread(posts, original, sinceMS, limit), [root] + kept);
    forall p ensures p in w <==> Reply(posts, root, sinceMS, p) {
      InReplies(posts, root, sinceMS, p);
    }
    KeptComeLast(sorted, |sorted| - |kept|, kept);
  }

  /** A post of the window that is not the root. */
  predicate Reply(posts: seq<PostRef>, root: Post, sinceMS: int, p: Post) {
    Some(p) in posts && p.id != root.id && (sinceMS > 0 ==> p.createAt >= sinceMS)
  }

  lemma InReplies(posts: seq<PostRef>, root: Post, sinceMS: int, p: Post)
    ensures p in Window(Replies(posts, root.id), sinceMS) <==> Reply(posts, root, sinceMS, p)
  {
    RepliesCount(posts, root.id, Some(p));
    WindowCounts(Replies(posts, root.id), sinceMS, p);
  }

  lemma KeptComeLast(sorted: seq<Post>, d: nat, kept: seq<Post>)
    requires Sorted(OldestFirst, sorted) && d <= |sorted| && kept == sorted[d..]
    ensures forall p :: p in kept ==> p in sorted
    ensures forall p, q :: p in sorted && p !in kept && q in kept ==> p.createAt <= q.createAt
  {
    forall i | d <= i < |sorted| ensures sorted[i] in kept {
      assert kept[i - d] == sorted[i];
    }
    forall p, q | p in sorted && p !in kept && q in kept ensures p.createAt <= q.createAt {
      var i :| 0 <= i < |sorted| && sorted[i] == p;
      var j :| 0 <= j < |kept| && kept[j] == q;
      assert !OldestFirst(sorted[d + j], sorted[i]);
    }
  }
}
