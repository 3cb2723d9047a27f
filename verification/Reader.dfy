/** `messages` from the cache and from the server (internal/cli/messages.go, internal/store/read.go). */
module Reader {
  import opened Prelude
  import opened Model
  import opened Tables
  import opened Blocks
  import opened Sorting
  import opened Messages

  const SERVER_CAP := 200

  /** The --since flag: absent, not a time, or a time in milliseconds. */
  datatype Since = NoSince | BadSince | SinceMS(ms: int)

  function Floor(since: Since): int { if since.SinceMS? then since.ms else 0 }

  /** `p` is a row that has been visited. */
  ghost predicate RowIn(posts: map<Id, Post>, left: set<Id>, p: Post) {
    exists id :: id in posts && id !in left && posts[id] == p
  }

  /** `ChannelPosts`: the rows of a channel in no particular order, and the oldest create time among them, 0 if none. */
  method ChannelPosts(posts: map<Id, Post>, channelId: Id, includeDeleted: bool) returns (rows: seq<Post>, oldest: int)
    requires Keyed(posts) && forall id :: id in posts ==> posts[id].createAt > 0
    ensures Distinct(rows)
    ensures Elems(rows) == set id | id in posts && posts[id].channelId == channelId
                                    && (includeDeleted || posts[id].deleteAt == 0) :: posts[id]
    ensures if rows == [] then oldest == 0 else (exists p :: p in rows && p.createAt == oldest)
    ensures forall p :: p in rows ==> 0 < oldest <= p.createAt
  {
    rows, oldest := [], 0;
    var left := posts.Keys;
    while left != {}
      invariant left <= posts.Keys && Distinct(rows)
      invariant forall p :: p in rows <==> RowIn(posts, left, p) && p.channelId == channelId
                                           && (includeDeleted || p.deleteAt == 0)
      invariant if rows == [] then oldest == 0 else (exists p :: p in rows && p.createAt == oldest)
      invariant forall p :: p in rows ==> 0 < oldest <= p.createAt
      decreases left
    {
      var id :| id in left;
      left := left - {id};
      var p := posts[id];
      if p.channelId == channelId && (includeDeleted || p.deleteAt == 0) {
        assert p !in rows;
        rows := rows + [p];
        assert p in rows;
        if oldest == 0 || p.createAt < oldest {
          oldest := p.createAt;
        }
      }
    }
  }

  // ---- when the cache covers a request -----------------------------------------------------------------------

  /** The coverage test of `messagesLocal`. */
  ghost predicate Covered(rows: seq<Post>, sinceMS: int, limit: int) {
    if sinceMS > 0 then exists p :: p in rows && p.createAt <= sinceMS
    else limit > 0 && |rows| >= limit
  }

  /** The page size of the live path, and what the server makes of it. */
  function PerPage(limit: int, since: Since): nat {
    var perPage := if limit <= 0 then 200 else limit;
    Min(if !since.NoSince? && perPage < 200 then 200 else perPage, SERVER_CAP)
  }

  function LivePage(server: seq<Post>, limit: int, since: Since): seq<Post> {
    server[..Min(PerPage(limit, since), |server|)]
  }

  /** The number of posts of the newest-first list at or after `sinceMS`; 0 or less asks for all. */
  function CountSince(server: seq<Post>, sinceMS: int): nat {
    if server == [] || (sinceMS > 0 && server[0].createAt < sinceMS) then 0 else 1 + CountSince(server[1..], sinceMS)
  }

  lemma {:induction false} CountSinceSplits(server: seq<Post>, sinceMS: int)
    requires NewestFirst(server)
    ensures CountSince(server, sinceMS) <= |server|
    ensures forall i :: 0 <= i < |server| ==> (i < CountSince(server, sinceMS) <==> InWindow(server[i], sinceMS))
    decreases |server|
  {
    if server != [] && InWindow(server[0], sinceMS) {
      var rest := server[1..];
      assert NewestFirst(rest);
      CountSinceSplits(rest, sinceMS);
      assert forall i :: 0 < i < |server| ==> server[i] == rest[i - 1];
    }
  }

  // ---- newest-first lists and their windows ------------------------------------------------------------------

  lemma PrefixSorted(server: seq<Post>, e: nat)
    requires NewestFirst(server) && e <= |server|
    ensures Sorted(NewerFirst, server[..e]) && Distinct(server[..e]) && Discriminates(NewerFirst, server[..e])
  {
    var s := server[..e];
    forall i, j | 0 <= i < j < |s| ensures s[i].createAt > s[j].createAt {
      assert s[i] == server[i] && s[j] == server[j];
    }
    forall x, y | x in s && y in s && x != y ensures NewerFirst(x, y) || NewerFirst(y, x) {
      var i :| 0 <= i < |s| && s[i] == x;
      var j :| 0 <= j < |s| && s[j] == y;
      assert i < j || j < i;
    }
  }

  /** Sorting any arrangement of a newest part of the list gives that part back. */
  lemma SortsToPrefix(w: seq<Post>, server: seq<Post>, e: nat)
    requires NewestFirst(server) && e <= |server|
    requires Distinct(w) && forall p :: p in w <==> p in server[..e]
    ensures StableSort(NewerFirst, w) == server[..e]
  {
    PrefixSorted(server, e);
    DistinctSameMultiset(w, server[..e]);
    PostSorts(w);
    SameMembers(w, StableSort(NewerFirst, w));
    SortedUnique(NewerFirst, server[..e], StableSort(NewerFirst, w));
  }

  lemma {:induction false} WindowDistinct(rows: seq<Post>, sinceMS: int)
    requires Distinct(rows)
    ensures Distinct(Window(Refs(rows), sinceMS))
    ensures forall p :: p in Window(Refs(rows), sinceMS) <==> p in rows && InWindow(p, sinceMS)
  {
    if rows != [] {
      var init := rows[..|rows| - 1];
      WindowDistinct(init, sinceMS);
      assert Refs(rows)[..|rows| - 1] == Refs(init);
      assert rows == init + [rows[|rows| - 1]];
      assert rows[|rows| - 1] !in init;
    }
  }

  /** What is selected from any arrangement of the newest `k` posts, in terms of the list. */
  lemma SelectFromPrefix(rows: seq<Post>, server: seq<Post>, k: nat, sinceMS: int, limit: int)
    requires NewestFirst(server) && k <= |server|
    requires Distinct(rows) && forall p :: p in rows <==> p in server[..k]
    ensures var e := Min(k, CountSince(server, sinceMS));
      e <= |server| &&
      Select(Refs(rows), sinceMS, limit) == StableSort(OldestFirst, Truncate(server[..e], limit))
  {
    CountSinceSplits(server, sinceMS);
    var e := Min(k, CountSince(server, sinceMS));
    var w := Window(Refs(rows), sinceMS);
    WindowDistinct(rows, sinceMS);
    forall p ensures p in w <==> p in server[..e] {
      if p in w {
        var i :| 0 <= i < k && server[i] == p;
        assert server[..e][i] == p;
      }
      if p in server[..e] {
        var i :| 0 <= i < e && server[i] == p;
        assert server[..k][i] == p;
      }
    }
    SortsToPrefix(w, server, e);
  }

  /** A gap-free cache holds the newest posts, as many as it holds. */
  lemma GapFreeIsPrefix(live: set<Post>, server: seq<Post>) returns (k: nat)
    requires NewestFirst(server) && GapFree(live, server)
    ensures k == |live| <= |server| && forall p :: p in live <==> p in server[..k]
  {
    GapFreeByPosition(live, server);
    k := 0;
    while k < |server| && server[k] in live
      invariant k <= |server| && forall i :: 0 <= i < k ==> server[i] in live
    {
      k := k + 1;
    }
    forall p ensures p in live <==> p in server[..k] {
      if p in live {
        var i :| 0 <= i < |server| && server[i] == p;
        assert i < k;
        assert server[..k][i] == p;
      }
      if p in server[..k] {
        var i :| 0 <= i < k && server[i] == p;
      }
    }
    PrefixSorted(server, k);
    DistinctSize(server[..k]);
    assert Elems(server[..k]) == live;
  }

  // ---- refinement --------------------------------------------------------------------------------------------

  /** Selections of two different numbers of newest posts differ, and those of the same number do not. */
  lemma SelectionsCompare(server: seq<Post>, a: nat, b: nat)
    requires a <= |server| && b <= |server|
    ensures StableSort(OldestFirst, server[..a]) == StableSort(OldestFirst, server[..b]) <==> a == b
  {
  }

  function Taken(e: nat, limit: int): nat { if limit > 0 && e > limit then limit else e }

  lemma TruncatedPrefix(server: seq<Post>, e: nat, limit: int)
    requires e <= |server|
    ensures Truncate(server[..e], limit) == server[..Taken(e, limit)]
  {
  }

  /** The promise of the cached path, and exactly how far it holds. Take a gap-free cache, its live rows in any order,
      and a request it says it covers. The selection from the rows is the selection from the server's page, post by
      post, exactly when the limit is one the server serves in one page or the window has no more posts than such a
      page. */
  lemma CachedEqualsLiveIff(rows: seq<Post>, server: seq<Post>, limit: int, since: Since)
    requires NewestFirst(server) && Distinct(rows) && GapFree(Elems(rows), server) && !since.BadSince?
    requires Covered(rows, Floor(since), limit)
    ensures Select(Refs(rows), Floor(since), limit) == Select(Refs(LivePage(server, limit, since)), Floor(since), limit)
       <==> 1 <= limit <= SERVER_CAP || CountSince(server, Floor(since)) <= SERVER_CAP
  {
    var ms := Floor(since);
    var k := GapFreeIsPrefix(Elems(rows), server);
    DistinctSize(rows);
    forall p ensures p in rows <==> p in server[..k] { assert p in rows <==> p in Elems(rows); }
    var m := Min(PerPage(limit, since), |server|);
    PrefixSorted(server, m);
    CountSinceSplits(server, ms);
    var c := CountSince(server, ms);
    CoveredWindow(rows, server, k, ms, limit);
    SelectFromPrefix(rows, server, k, ms, limit);
    SelectFromPrefix(server[..m], server, m, ms, limit);
    TruncatedPrefix(server, Min(k, c), limit);
    TruncatedPrefix(server, Min(m, c), limit);
    SelectionsCompare(server, Taken(Min(k, c), limit), Taken(Min(m, c), limit));
  }

  // ---- what is answered --------------------------------------------------------------------------------------

  /** The posts are those of the newest `n` of the list that are at or after the time, cut to the newest `limit` when
      that is positive; the oldest comes first. */
  ghost predicate ShowsNewest(sel: seq<Post>, server: seq<Post>, n: nat, sinceMS: int, limit: int) {
    && |sel| <= n <= |server|
    && (forall i :: 0 <= i < |sel| ==> sel[i] == server[|sel| - 1 - i])
    && (forall i :: 0 <= i < |sel| && sinceMS > 0 ==> sel[i].createAt >= sinceMS)
    && (limit > 0 ==> |sel| <= limit)
    && (|sel| == n || (limit > 0 && |sel| == limit) || (sinceMS > 0 && server[|sel|].createAt < sinceMS))
  }

  lemma NewestShown(rows: seq<Post>, server: seq<Post>, n: nat, sinceMS: int, limit: int)
    requires NewestFirst(server) && n <= |server| && Distinct(rows) && forall p :: p in rows <==> p in server[..n]
    ensures ShowsNewest(Select(Refs(rows), sinceMS, limit), server, n, sinceMS, limit)
  {
    var e := Min(n, CountSince(server, sinceMS));
    SelectFromPrefix(rows, server, n, sinceMS, limit);
    TruncatedPrefix(server, e, limit);
    SortedBackwards(server, Taken(e, limit));
    NewestCut(server, n, sinceMS, limit, StableSort(OldestFirst, server[..Taken(e, limit)]));
  }

  lemma NewestCut(server: seq<Post>, n: nat, sinceMS: int, limit: int, sel: seq<Post>)
    requires NewestFirst(server) && n <= |server|
    requires |sel| == Taken(Min(n, CountSince(server, sinceMS)), limit) <= |server|
    requires forall i :: 0 <= i < |sel| ==> sel[i] == server[|sel| - 1 - i]
    ensures ShowsNewest(sel, server, n, sinceMS, limit)
  {
    CountSinceSplits(server, sinceMS);
    forall i | 0 <= i < |sel| ensures sinceMS > 0 ==> sel[i].createAt >= sinceMS {
      assert InWindow(server[|sel| - 1 - i], sinceMS);
    }
    var c := CountSince(server, sinceMS);
    assert c < |server| ==> !InWindow(server[c], sinceMS);
  }

  function Backwards(s: seq<Post>): seq<Post> { seq(|s|, i requires 0 <= i < |s| => s[|s| - 1 - i]) }

  lemma BackwardsPermutes(s: seq<Post>)
    requires Distinct(s)
    ensures multiset(Backwards(s)) == multiset(s)
  {
    var back := Backwards(s);
    forall p ensures p in s <==> p in back {
      if p in s {
        var i :| 0 <= i < |s| && s[i] == p;
        assert back[|s| - 1 - i] == p;
      }
    }
    DistinctSameMultiset(s, back);
  }

  lemma SortedBackwards(server: seq<Post>, j: nat)
    requires NewestFirst(server) && j <= |server|
    ensures StableSort(OldestFirst, server[..j]) == Backwards(server[..j])
  {
    var s := server[..j];
    PrefixSorted(server, j);
    BackwardsPermutes(s);
    PostSorts(s);
    DistinctIdsDiscriminate(s);
    SameMembers(s, StableSort(OldestFirst, s));
    SortedUnique(OldestFirst, StableSort(OldestFirst, s), Backwards(s));
  }

  /** How many of the newest posts one call brings. */
  function Served(server: seq<Post>, limit: int, since: Since): (n: nat)
    ensures n == Min(if limit <= 0 || limit > 200 || !since.NoSince? then 200 else limit, |server|)
  {
    |LivePage(server, limit, since)|
  }

  lemma LivePageShown(server: seq<Post>, limit: int, since: Since)
    requires NewestFirst(server)
    ensures ShowsNewest(Select(Refs(LivePage(server, limit, since)), Floor(since), limit), server,
                        Served(server, limit, since), if since.SinceMS? then since.ms else 0, limit)
  {
    var n := Served(server, limit, since);
    PrefixSorted(server, n);
    NewestShown(server[..n], server, n, Floor(since), limit);
  }

  /** So without a limit, or with one above 200, a channel of at most 200 posts is shown whole. */
  lemma WholeChannelShown(server: seq<Post>, limit: int)
    requires NewestFirst(server) && |server| <= 200 && (limit <= 0 || limit > 200)
    ensures var sel := Select(Refs(LivePage(server, limit, NoSince)), 0, limit);
      |sel| == |server| && forall i :: 0 <= i < |server| ==> sel[i] == server[|server| - 1 - i]
  {
    LivePageShown(server, limit, NoSince);
  }

  /** A gap-free cache shows the newest posts it holds. */
  lemma CachedShown(rows: seq<Post>, server: seq<Post>, limit: int, since: Since)
    requires NewestFirst(server) && Distinct(rows) && GapFree(Elems(rows), server)
    ensures ShowsNewest(Select(Refs(rows), Floor(since), limit), server, |rows|,
                        if since.SinceMS? then since.ms else 0, limit)
  {
    var k := GapFreeIsPrefix(Elems(rows), server);
    DistinctSize(rows);
    forall p ensures p in rows <==> p in server[..k] { assert p in rows <==> p in Elems(rows); }
    NewestShown(rows, server, k, Floor(since), limit);
  }

  /** A channel of `n` posts, newest first. */
  function Numbered(n: nat): seq<Post> { seq(n, i requires 0 <= i < n => NumberedPost(n - i)) }

  function NumberedPost(time: nat): Post {
    Post(seq(time, _ => 'a'), "c", "u", "", "", time, time, 0, 0, 0, Props(None, None, ""), [])
  }

  lemma NumberedNewestFirst(n: nat)
    ensures NewestFirst(Numbered(n)) && Distinct(Numbered(n))
  {
    var all := Numbered(n);
    forall i | 0 <= i < |all| ensures all[i].createAt == n - i == |all[i].id| && all[i].deleteAt == 0 {
      assert all[i] == NumberedPost(n - i);
    }
    assert forall i, j :: 0 <= i < j < |all| ==> |all[i].id| != |all[j].id|;
  }

  /** All 201 posts of a channel are cached, and the newest 201 are asked for: the cache shows one more than the
      server. */
  lemma OneBeyondThePage()
    ensures var all := Numbered(201);
            NewestFirst(all) && GapFree(Elems(all), all) && Covered(all, 0, 201) &&
            Select(Refs(all), 0, 201) != Select(Refs(LivePage(all, 201, NoSince)), 0, 201)
  {
    var all := Numbered(201);
    NumberedNewestFirst(201);
    CountSinceSplits(all, 0);
    assert InWindow(all[200], 0);
    CachedEqualsLiveIff(all, all, 201, NoSince);
  }

  /** What coverage means: the whole window is cached, or without a window the limit is. */
  lemma CoveredWindow(rows: seq<Post>, server: seq<Post>, k: nat, sinceMS: int, limit: int)
    requires NewestFirst(server) && k == |rows| <= |server| && forall p :: p in rows <==> p in server[..k]
    requires Covered(rows, sinceMS, limit)
    ensures if sinceMS > 0 then CountSince(server, sinceMS) <= k
            else CountSince(server, sinceMS) == |server| && limit <= k
  {
    CountSinceSplits(server, sinceMS);
    if sinceMS > 0 {
      var p :| p in rows && p.createAt <= sinceMS;
      var i :| 0 <= i < k && server[i] == p;
      if k < |server| {
        assert server[i].createAt > server[k].createAt;
      }
    } else {
      assert |server| > 0 && InWindow(server[|server| - 1], sinceMS);
    }
  }

  // ---- the command -------------------------------------------------------------------------------------------

  /** Every author of the selection has a cached username. */
  ghost predicate AuthorsCached(users: map<Id, string>, sel: seq<Post>) {
    forall p :: p in sel && p.userId != "" ==> p.userId in users && users[p.userId] != ""
  }

  /** `messageAuthorIDs`: the authors, each once, in order of appearance. */
  method MessageAuthorIDs(posts: seq<Post>) returns (ids: seq<Id>)
    ensures Distinct(ids)
    ensures forall id :: id in ids <==> id != "" && exists p :: p in posts && p.userId == id
  {
    ids := [];
    for i := 0 to |posts|
      invariant Distinct(ids)
      invariant forall id :: id in ids <==> id != "" && exists k :: 0 <= k < i && posts[k].userId == id
    {
      if posts[i].userId != "" && posts[i].userId !in ids {
        ids := ids + [posts[i].userId];
      }
    }
  }

  /** The author check of `messagesLocal`. */
  method AuthorsKnown(users: map<Id, string>, sel: seq<Post>) returns (known: bool)
    ensures known <==> AuthorsCached(users, sel)
  {
    var ids := MessageAuthorIDs(sel);
    for i := 0 to |ids|
      invariant forall k :: 0 <= k < i ==> ids[k] in users && users[ids[k]] != ""
    {
      if ids[i] !in users || users[ids[i]] == "" {
        assert ids[i] in ids;
        return false;
      }
    }
    assert forall p :: p in sel && p.userId != "" ==> p.userId in ids;
    return true;
  }

  /** What the cache answers when its live rows of the channel come in the order of `rows`. */
  ghost predicate AnswersFrom(
    db: Db, channel: Id, rows: seq<Post>, limit: int, since: Since, handled: bool, sel: seq<Post>)
  {
    && Distinct(rows) && Elems(rows) == Live(db.posts, channel)
    && (handled <==>
        !since.BadSince? && Covered(rows, Floor(since), limit) &&
        AuthorsCached(db.users, Select(Refs(rows), Floor(since), limit)))
    && (handled ==> sel == Select(Refs(rows), Floor(since), limit))
  }

  /** The cached posts of the channel reach back to the time asked for, or without one are as many as asked for. */
  ghost predicate Reaches(db: Db, channel: Id, limit: int, since: Since) {
    if since.SinceMS? && since.ms > 0 then exists p :: p in Live(db.posts, channel) && p.createAt <= since.ms
    else 0 < limit <= |Live(db.posts, channel)|
  }

  predicate Nameless(db: Db, p: Post) {
    p.userId != "" && (p.userId in db.users ==> db.users[p.userId] == "")
  }

  predicate Asked(p: Post, since: Since) { since.SinceMS? && since.ms > 0 ==> p.createAt >= since.ms }

  /** What is shown is cached of the channel, as asked for, by authors with names, and in order; a cached post asked for
      that is not shown had no room, and none shown is older. */
  ghost predicate ShowsRows(db: Db, channel: Id, limit: int, since: Since, sel: seq<Post>) {
    && (limit > 0 ==> |sel| <= limit)
    && (forall p :: p in sel ==> p in Live(db.posts, channel) && Asked(p, since) && !Nameless(db, p))
    && (forall i, j :: 0 <= i < j < |sel| ==>
          sel[i].createAt < sel[j].createAt || (sel[i].createAt == sel[j].createAt && !StrLess(sel[j].id, sel[i].id)))
    && forall p :: p in Live(db.posts, channel) && Asked(p, since) ==>
         p in sel || (|sel| == limit && forall q :: q in sel ==> p.createAt <= q.createAt)
  }

  lemma AnswerShows(db: Db, channel: Id, rows: seq<Post>, limit: int, since: Since, handled: bool, sel: seq<Post>)
    requires AnswersFrom(db, channel, rows, limit, since, handled, sel)
    ensures handled ==> !since.BadSince? && Reaches(db, channel, limit, since)
    ensures handled ==> ShowsRows(db, channel, limit, since, sel)
    ensures !since.BadSince? && Reaches(db, channel, limit, since) ==>
      handled || exists p :: p in Live(db.posts, channel) && Nameless(db, p)
  {
    CoveredReaches(db, channel, rows, limit, since);
    var shown := Select(Refs(rows), Floor(since), limit);
    if AuthorsCached(db.users, shown) {
      SelectionShows(db, channel, rows, limit, since, shown);
    } else {
      SomeNameless(db, channel, rows, limit, since, shown);
    }
  }

  lemma CoveredReaches(db: Db, channel: Id, rows: seq<Post>, limit: int, since: Since)
    requires Distinct(rows) && Elems(rows) == Live(db.posts, channel)
    ensures Covered(rows, Floor(since), limit) <==> Reaches(db, channel, limit, since)
  {
    DistinctSize(rows);
    forall p ensures p in Live(db.posts, channel) <==> p in rows {
      RefsHold(rows, p);
    }
  }

  lemma SelectionShows(db: Db, channel: Id, rows: seq<Post>, limit: int, since: Since, shown: seq<Post>)
    requires Elems(rows) == Live(db.posts, channel) && shown == Select(Refs(rows), Floor(since), limit)
    requires AuthorsCached(db.users, shown)
    ensures ShowsRows(db, channel, limit, since, shown)
  {
    SelectShows(Refs(rows), Floor(since), limit);
    forall p ensures p in Live(db.posts, channel) <==> Some(p) in Refs(rows) {
      RefsHold(rows, p);
    }
  }

  lemma SomeNameless(db: Db, channel: Id, rows: seq<Post>, limit: int, since: Since, shown: seq<Post>)
    requires Elems(rows) == Live(db.posts, channel) && shown == Select(Refs(rows), Floor(since), limit)
    requires !AuthorsCached(db.users, shown)
    ensures exists p :: p in Live(db.posts, channel) && Nameless(db, p)
  {
    SelectShows(Refs(rows), Floor(since), limit);
    var p :| p in shown && p.userId != "" && (p.userId !in db.users || db.users[p.userId] == "");
    RefsHold(rows, p);
    assert p in Live(db.posts, channel) && Nameless(db, p);
  }

  lemma RefsHold(rows: seq<Post>, p: Post)
    ensures Some(p) in Refs(rows) <==> p in rows
    ensures p in rows <==> p in Elems(rows)
  {
    if p in rows {
      var i :| 0 <= i < |rows| && rows[i] == p;
      assert Refs(rows)[i] == Some(p);
    }
  }

  /** `messagesLocal`: answers from the cache exactly when it covers the request and knows the authors. `channel` is
      what the reference resolves to locally. */
  method MessagesLocal(db: Db, channel: Option<Id>, limit: int, since: Since, includeDeleted: bool)
    returns (handled: bool, sel: seq<Post>)
    requires Keyed(db.posts) && forall id :: id in db.posts ==> db.posts[id].createAt > 0
    ensures channel.None? || includeDeleted ==> !handled
    ensures channel.Some? && !includeDeleted ==>
      exists rows :: AnswersFrom(db, channel.value, rows, limit, since, handled, sel)
    ensures handled ==> !since.BadSince? && Reaches(db, channel.value, limit, since)
    ensures handled ==> ShowsRows(db, channel.value, limit, since, sel)
    ensures channel.Some? && !includeDeleted && !since.BadSince? && Reaches(db, channel.value, limit, since) ==>
      handled || exists p :: p in Live(db.posts, channel.value) && Nameless(db, p)
  {
    handled, sel := false, [];
    if channel.None? || includeDeleted { return; }
    var posts, oldest := ChannelPosts(db.posts, channel.value, false);
    var ms := Floor(since);
    var covered := if ms > 0 then oldest > 0 && oldest <= ms else limit > 0 && |posts| >= limit;
    assert covered <==> Covered(posts, ms, limit);
    if !since.BadSince? && covered {
      sel := SelectRecentMessages(Refs(posts), ms, limit);
      handled := AuthorsKnown(db.users, sel);
    }
    assert AnswersFrom(db, channel.value, posts, limit, since, handled, sel);
    AnswerShows(db, channel.value, posts, limit, since, handled, sel);
  }

  /** `runMessages` on posts that are not deleted: from the cache if the gate opens it and it covers the request, else
      from the server's page. For a limit the server serves in one page, and a gap-free cache, nobody can tell which it
      was. */
  method RunMessages(open: bool, db: Db, channel: Id, server: seq<Post>, limit: int, since: Since)
    returns (sel: Option<seq<Post>>, ghost cached: bool)
    requires Keyed(db.posts) && forall id :: id in db.posts ==> db.posts[id].createAt > 0
    requires NewestFirst(server)
    ensures sel.None? <==> since.BadSince?
    ensures !open ==> !cached
    ensures cached ==> sel.Some?
    ensures var local := if cached then sel.value else [];
            open ==> exists rows :: AnswersFrom(db, channel, rows, limit, since, cached, local)
    ensures !cached && sel.Some? ==>
      ShowsNewest(sel.value, server,
                  Min(if limit <= 0 || limit > 200 || since.SinceMS? then 200 else limit, |server|),
                  if since.SinceMS? then since.ms else 0, limit)
    ensures sel.Some? && (open ==> GapFree(Live(db.posts, channel), server)) && 1 <= limit <= SERVER_CAP ==>
      sel.value == Select(Refs(LivePage(server, limit, since)), Floor(since), limit)
  {
    cached := false;
    if open {
      var handled, local := MessagesLocal(db, Some(channel), limit, since, false);
      ghost var rows :| AnswersFrom(db, channel, rows, limit, since, handled, local);
      local := if handled then local else [];
      assert AnswersFrom(db, channel, rows, limit, since, handled, local);
      if handled {
        if GapFree(Live(db.posts, channel), server) && 1 <= limit <= SERVER_CAP {
          CachedEqualsLiveIff(rows, server, limit, since);
        }
        return Some(local), true;
      }
    }
    if since.BadSince? { return None, false; }
    var live := SelectRecentMessages(Refs(LivePage(server, limit, since)), Floor(since), limit);
    sel := Some(live);
    LivePageShown(server, limit, since);
  }
}
