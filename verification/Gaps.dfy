/** What opens a gap: for each thing a benign step takes for granted, exactly when the cache is gap-free without it. */
module Gaps {
  import opened Prelude
  import opened Model
  import opened Tables
  import opened Blocks
  import opened Protocol
  import opened ProtocolRuns

  /** The catch-up page after `g` posts were missed: gap-free exactly when it reaches down to the cached block. */
  lemma CatchUpPageIff(server: seq<Post>, g: nat, hi: nat)
    requires NewestFirst(server) && g < hi <= |server|
    ensures GapFree(Elems(server[g..hi]) + Elems(server[..Min(CATCH_UP, |server|)]), server) <==> g <= CATCH_UP
  {
    TopPageIff(server, g, hi, CATCH_UP);
  }

  /** An edit event stores the edited post wherever it is: harmless exactly when nothing between it and the cached
      block is missing. */
  lemma EditOutsideBlockIff(server: seq<Post>, k: nat, i: nat)
    requires NewestFirst(server) && k <= |server| && i < |server|
    ensures GapFree(Elems(server[..k]) + {server[i]}, server) <==> i <= k
  {
    var live := Elems(server[0..k]) + {server[i]};
    assert server[..k] == server[0..k];
    forall m | 0 <= m < |server| ensures server[m] in live <==> m < k || m == i {
      BlockMembers(server, 0, k, m);
      assert m != i ==> server[m] != server[i];
    }
    GapFreeByPosition(live, server);
    assert i > k ==> server[k] !in live && server[i] in live;
  }

  /** Offset paging over a list that moves both ways: between two pages `g` posts come in front, and `k` posts of the
      first page are deleted. From the newest stored post on the cache is gap-free exactly when the gain makes up for
      the loss and is no more than two pages: without a gain, when none is deleted. */
  lemma DeletionsUnderPagingIff(server: seq<Post>, page: nat, g: nat, k: nat)
    requires NewestFirst(server) && k < page && 2 * page <= |server| && g + page - k <= |server|
    ensures GapFree(Elems(server[g..g + page - k]) + Elems(server[page..2 * page]), server[Min(g, page)..]) <==>
            k <= g <= 2 * page
  {
    var first, second := Elems(server[g..g + page - k]), Elems(server[page..2 * page]);
    if g <= page {
      TopStretchIff(server, server[g..], g, page, 2 * page, g + page - k, second, first);
      assert first + second == second + first;
    } else {
      TopStretchIff(server, server[page..], page, g, g + page - k, 2 * page, first, second);
    }
  }

  // ---- quiet states ------------------------------------------------------------------------------------------

  /** Nothing is missing, no page is being stored, and no event is waiting. */
  ghost predicate Quiet(s: State) { Inv(s) && NothingAbsent(s) && NothingInFlight(s) && s.queue == [] }

  /** What is live in the cache and on its way from one page is what the server has down to the floor. */
  ghost predicate Covers(s: State, left: set<Post>) {
    forall y :: y in LiveSet(s.posts) + left <==> y in s.server && y.createAt >= s.floor
  }

  /** A page is being stored, and no other. */
  ghost predicate OnlyJob(s: State, job: nat) {
    job in s.jobs && forall j :: j in s.jobs && j != job ==> s.jobs[j].left == {}
  }

  lemma JobCovers(s: State, job: nat)
    requires Inv(s) && NothingAbsent(s) && s.queue == [] && OnlyJob(s, job)
    ensures Covers(s, s.jobs[job].left)
  {
    var left := s.jobs[job].left;
    forall id | LiveRow(s.posts, id) ensures s.posts[id] in s.server && s.posts[id].createAt >= s.floor {}
    forall y | y in left ensures y in s.server && y.createAt >= s.floor {}
    forall y | y in s.server && y.createAt >= s.floor ensures y in LiveSet(s.posts) + left {
      assert !Absent(s, y);
      if LiveRow(s.posts, y.id) {
        SameIdSamePost(s.server, y, s.posts[y.id]);
      } else {
        var j, p :| j in s.jobs && p in s.jobs[j].left && p.id == y.id;
        SameIdSamePost(s.server, y, p);
      }
    }
  }

  lemma QuietCovers(s: State)
    requires Quiet(s)
    ensures Covers(s, {})
  {
    forall id | LiveRow(s.posts, id) ensures s.posts[id] in s.server && s.posts[id].createAt >= s.floor {}
    forall y | y in s.server && y.createAt >= s.floor ensures y in LiveSet(s.posts) {
      assert !Absent(s, y);
      SameIdSamePost(s.server, y, s.posts[y.id]);
    }
  }

  /** The post is at least as new as the floor, or the newest one behind it. */
  ghost predicate Touches(server: seq<Post>, floor: int, p: Post) {
    p.createAt >= floor || forall y :: y in server && y.createAt < floor ==> y.createAt <= p.createAt
  }

  lemma PlusOneIff(server: seq<Post>, floor: int, live: set<Post>, p: Post)
    requires NewestFirst(server) && p in server
    requires forall y :: y in live <==> y in server && (y.createAt >= floor || y == p)
    ensures GapFree(live, server) <==> Touches(server, floor, p)
  {
    forall y | y in server && y.createAt == p.createAt ensures y == p {
      var i :| 0 <= i < |server| && server[i] == y;
      var j :| 0 <= j < |server| && server[j] == p;
      assert i == j;
    }
    if !Touches(server, floor, p) {
      var y :| y in server && y.createAt < floor && y.createAt > p.createAt;
      assert y !in live && p in live;
    }
  }

  lemma StrayRow(t: State, id: Id)
    requires Keyed(t.posts) && LiveRow(t.posts, id) && t.posts[id] !in t.server
    ensures !GapFree(LiveSet(t.posts), t.server)
  {
    assert t.posts[id] in LiveSet(t.posts);
  }

  // ---- stale pages -------------------------------------------------------------------------------------------

  /** The upserts of a page's posts, in some order. */
  function Upserts(job: nat, qs: seq<Post>): seq<Step> {
    if qs == [] then [] else [UpsertOne(job, qs[0])] + Upserts(job, qs[1..])
  }

  /** The rows after the rest of a page is stored: the page's versions, and the other rows as they were. */
  ghost predicate Overwritten(before: map<Id, Post>, left: set<Post>, after: map<Id, Post>) {
    && (forall q :: q in left ==> q.id in after && after[q.id] == q)
    && (forall id :: (forall q :: q in left ==> q.id != id) ==>
          (id in after <==> id in before) && (id in before ==> after[id] == before[id]))
  }

  lemma OneOverwritten(before: map<Id, Post>, left: set<Post>, q: Post, after: map<Id, Post>)
    requires q in left && IdsApart(left) && SameTimes(before, left)
    requires Overwritten(PutPost(before, q), left - {q}, after)
    ensures Overwritten(before, left, after)
  {
    assert PutPost(before, q) == before[q.id := q] by {
      assert q.id in before ==> q.(createAt := before[q.id].createAt) == q;
    }
    assert forall r :: r in left - {q} ==> r.id != q.id;
    assert q.id in PutPost(before, q);
    forall r | r in left ensures r.id in after && after[r.id] == r {
      if r != q {
        assert r in left - {q};
      }
    }
    forall id | forall r :: r in left ==> r.id != id
      ensures (id in after <==> id in before) && (id in before ==> after[id] == before[id])
    {
      assert q.id != id;
    }
  }

  lemma {:induction false} UpsertsStore(s: State, job: nat, qs: seq<Post>, t: State)
    requires PossibleRun(s, Upserts(job, qs), t) && job in s.jobs && job in t.jobs && t.jobs[job].left == {}
    requires IdsApart(s.jobs[job].left) && SameTimes(s.posts, s.jobs[job].left)
    ensures Overwritten(s.posts, s.jobs[job].left, t.posts) && t.server == s.server
    decreases |qs|
  {
    if qs != [] {
      var step := UpsertOne(job, qs[0]);
      assert Upserts(job, qs)[0] == step && Upserts(job, qs)[1..] == Upserts(job, qs[1..]);
      var u := Next(s, step);
      UpsertsStore(u, job, qs[1..], t);
      OneOverwritten(s.posts, s.jobs[job].left, qs[0], t.posts);
    }
  }

  /** The live rows after the rest of a page is stored over them. */
  lemma LiveOverwritten(before: map<Id, Post>, left: set<Post>, after: map<Id, Post>, y: Post)
    requires Overwritten(before, left, after) && Keyed(before) && IdsApart(left)
    requires forall q :: q in left ==> q.deleteAt == 0
    ensures y in LiveSet(after) <==> y in left || (y in LiveSet(before) && forall q :: q in left ==> q.id != y.id)
  {
    if y in LiveSet(after) {
      var id :| id in after && after[id] == y;
      if q :| q in left && q.id == id {
        assert y == q;
      }
    }
    if y in left {
      assert after[y.id] == y;
    }
    if y in LiveSet(before) && forall q :: q in left ==> q.id != y.id {
      assert after[y.id] == y;
    }
  }

  /** The page of a job and the change of a post on it: the change is announced, applied, and then the rest of the page
      is stored. */
  ghost predicate StaleRun(s: State, job: nat, change: Step, qs: seq<Post>, t: State) {
    && Inv(s) && NothingAbsent(s) && s.connected && s.queue == [] && OnlyJob(s, job) && Enabled(s, change)
    && PossibleRun(s, [change, ApplyEvent] + Upserts(job, qs), t)
    && job in t.jobs && t.jobs[job].left == {}
  }

  lemma AfterChange(s: State, change: Step, rest: seq<Step>, t: State) returns (b: State)
    requires PossibleRun(s, [change, ApplyEvent] + rest, t)
    ensures Enabled(s, change) && Enabled(Next(s, change), ApplyEvent) && b == Next(Next(s, change), ApplyEvent)
    ensures PossibleRun(b, rest, t)
  {
    var steps := [change, ApplyEvent] + rest;
    assert steps[0] == change && steps[1..][0] == ApplyEvent && steps[1..][1..] == rest;
    b := Next(Next(s, change), ApplyEvent);
  }

  /** Everything about a stale page but the steps: the list, the live rows and the rest of the page that make it up, and
      the rows and the list after a change of post `p`. */
  ghost predicate Stale(server: seq<Post>, floor: int, live: set<Post>, left: set<Post>, p: Post) {
    && NewestFirst(server) && p in server && IdsApart(left)
    && (forall q :: q in left ==> q.deleteAt == 0)
    && (forall y :: y in live + left <==> y in server && y.createAt >= floor)
  }

  lemma DeletedMembers(server: seq<Post>, floor: int, live: set<Post>, left: set<Post>, p: Post, server': seq<Post>,
                       y: Post)
    requires Stale(server, floor, live, left, p) && p !in left
    requires forall q :: q in server' <==> q in server && q.id != p.id
    ensures y in server' && y.createAt >= floor <==>
            y in left || (y in live && y.id != p.id && forall q :: q in left ==> q.id != y.id)
  {
    ServerIdsDistinct(server);
    assert forall q :: q in left ==> q in live + left;
    assert y in live ==> y in live + left;
  }

  lemma DeletedRows(before: map<Id, Post>, id: Id, at: int, y: Post)
    requires Keyed(before) && at > 0
    ensures y in LiveSet(MarkDeleted(before, id, at)) <==> y in LiveSet(before) && y.id != id
  {
    var after := MarkDeleted(before, id, at);
    if y in LiveSet(before) && y.id != id {
      assert after[y.id] == y;
    }
  }

  lemma StaleDeletion(server: seq<Post>, floor: int, before: map<Id, Post>, left: set<Post>, p: Post, at: int,
                      server': seq<Post>, after: map<Id, Post>)
    requires Keyed(before) && at > 0 && Stale(server, floor, LiveSet(before), left, p)
    requires forall q :: q in server' <==> q in server && q.id != p.id
    requires Overwritten(MarkDeleted(before, p.id, at), left, after)
    ensures GapFree(LiveSet(after), server') <==> p !in left
  {
    if p in left {
      LiveOverwritten(MarkDeleted(before, p.id, at), left, after, p);
      assert p in LiveSet(after) && p !in server';
    } else {
      forall y ensures y in LiveSet(after) <==> y in server' && y.createAt >= floor {
        LiveOverwritten(MarkDeleted(before, p.id, at), left, after, y);
        DeletedRows(before, p.id, at, y);
        DeletedMembers(server, floor, LiveSet(before), left, p, server', y);
      }
    }
  }

  lemma JobIsStale(s: State, job: nat, i: nat)
    requires Inv(s) && NothingAbsent(s) && s.queue == [] && OnlyJob(s, job) && i < |s.server|
    ensures Stale(s.server, s.floor, LiveSet(s.posts), s.jobs[job].left, s.server[i])
  {
    JobCovers(s, job);
    assert forall q :: q in s.jobs[job].left ==> q in s.server;
  }

  /** A post is deleted while a page is being stored. Once the deletion is applied and the page stored, the cache is
      gap-free exactly when the post was not on the part of the page still to store: otherwise it is back. */
  lemma StalePageDeletionIff(s: State, job: nat, i: nat, at: int, qs: seq<Post>, t: State)
    requires StaleRun(s, job, ServerDelete(i, at), qs, t)
    ensures GapFree(LiveSet(t.posts), t.server) <==> s.server[i] !in s.jobs[job].left
  {
    var p, left := s.server[i], s.jobs[job].left;
    var b := AfterChange(s, ServerDelete(i, at), Upserts(job, qs), t);
    JobIsStale(s, job, i);
    UpsertsStore(b, job, qs, t);
    ShortenedList(s.server, i);
    StaleDeletion(s.server, s.floor, s.posts, left, p, at, t.server, t.posts);
  }

  lemma EditedRows(before: map<Id, Post>, p: Post, y: Post)
    requires Keyed(before) && p.deleteAt == 0 && SameTimes(before, {p})
    ensures y in LiveSet(PutPost(before, p)) <==> y == p || (y in LiveSet(before) && y.id != p.id)
  {
    var after := PutPost(before, p);
    assert after == before[p.id := p] by {
      assert p in {p};
      assert p.id in before ==> p.(createAt := before[p.id].createAt) == p;
    }
    assert y == p ==> after[y.id] == y;
    assert y in LiveSet(before) && y.id != p.id ==> after[y.id] == y;
  }

  /** The list after post `old` became `p`. */
  ghost predicate Revised(server: seq<Post>, was: Post, p: Post, server': seq<Post>) {
    && NewestFirst(server') && p.id == was.id && p.createAt == was.createAt && p.deleteAt == 0
    && forall q :: q in server' <==> q == p || (q in server && q.id != p.id)
  }

  lemma EditedMembers(server: seq<Post>, floor: int, live: set<Post>, left: set<Post>, was: Post, p: Post,
                      server': seq<Post>, y: Post)
    requires Stale(server, floor, live, left, was) && Revised(server, was, p, server') && was !in left
    ensures y in server' && (y.createAt >= floor || y == p) <==>
            y in left || ((y == p || (y in live && y.id != p.id)) && forall q :: q in left ==> q.id != y.id)
  {
    ServerIdsDistinct(server);
    assert forall q :: q in left ==> q in live + left;
    assert y in live ==> y in live + left;
  }

  lemma SameMembersUnder(server: seq<Post>, floor: int, live: set<Post>, left: set<Post>, p: Post,
                         server': seq<Post>, y: Post)
    requires Stale(server, floor, live, left, p) && Revised(server, p, p, server') && p in left
    ensures y in server' && y.createAt >= floor <==>
            y in left || ((y == p || (y in live && y.id != p.id)) && forall q :: q in left ==> q.id != y.id)
  {
    ServerIdsDistinct(server);
    assert forall q :: q in left ==> q in live + left;
    assert y in live ==> y in live + left;
  }

  lemma StaleEdit(server: seq<Post>, floor: int, before: map<Id, Post>, left: set<Post>, was: Post, p: Post,
                  server': seq<Post>, after: map<Id, Post>)
    requires Keyed(before) && SameTimes(before, {p}) && Stale(server, floor, LiveSet(before), left, was)
    requires Revised(server, was, p, server') && Overwritten(PutPost(before, p), left, after)
    ensures GapFree(LiveSet(after), server') <==> (was in left ==> p == was) && Touches(server', floor, p)
  {
    if was !in left {
      forall y ensures y in LiveSet(after) <==> y in server' && (y.createAt >= floor || y == p) {
        LiveOverwritten(PutPost(before, p), left, after, y);
        EditedRows(before, p, y);
        EditedMembers(server, floor, LiveSet(before), left, was, p, server', y);
      }
      PlusOneIff(server', floor, LiveSet(after), p);
    } else if p == was {
      forall y ensures y in LiveSet(after) <==> y in server' && y.createAt >= floor {
        LiveOverwritten(PutPost(before, p), left, after, y);
        EditedRows(before, p, y);
        SameMembersUnder(server, floor, LiveSet(before), left, p, server', y);
      }
      assert p in LiveSet(before) + left;
    } else {
      LiveOverwritten(PutPost(before, p), left, after, was);
      assert was in LiveSet(after) && was !in server';
    }
  }

  /** A post is edited while a page is being stored. Once the edit is applied and the page stored, the cache is gap-free
      exactly when the part of the page still to store did not hold another version of it, and the post is in the
      covered range or right behind it. */
  lemma StalePageEditIff(s: State, job: nat, i: nat, p: Post, qs: seq<Post>, t: State)
    requires StaleRun(s, job, ServerEdit(i, p), qs, t)
    ensures GapFree(LiveSet(t.posts), t.server) <==>
            (s.server[i] in s.jobs[job].left ==> p == s.server[i]) && Touches(t.server, s.floor, p)
  {
    var left := s.jobs[job].left;
    var b := AfterChange(s, ServerEdit(i, p), Upserts(job, qs), t);
    JobIsStale(s, job, i);
    UpsertsStore(b, job, qs, t);
    EditedList(s.server, i, p);
    assert s.server[i] in s.server;
    StaleEdit(s.server, s.floor, s.posts, left, s.server[i], p, t.server, t.posts);
  }

  /** A page given up half stored leaves the cache gap-free exactly when each post it still owes is there already or is
      older than all that is live. */
  lemma AbandonIff(s: State, job: nat)
    requires Inv(s) && NothingAbsent(s) && s.queue == [] && OnlyJob(s, job)
    ensures GapFree(LiveSet(Next(s, Abandon(job)).posts), s.server) <==>
            forall q :: q in s.jobs[job].left ==>
              q in LiveSet(s.posts) || forall r :: r in LiveSet(s.posts) ==> r.createAt > q.createAt
  {
    var live, left := LiveSet(s.posts), s.jobs[job].left;
    JobCovers(s, job);
    forall y | y in live ensures y in s.server && y.createAt >= s.floor {
      assert y in live + left;
    }
    forall q | q in left ensures q in s.server {
      assert q in live + left;
    }
    if !GapFree(live, s.server) {
      var y, r :| y in s.server && r in live && r.createAt <= y.createAt && y !in live;
      assert y in live + left;
    }
  }

  // ---- changes nobody hears of -------------------------------------------------------------------------------

  /** A change that never reaches the daemon: it is made while the stream is down, or the stream drops before the event
      is applied. */
  function Unheard(s: State, change: Step): seq<Step> {
    if s.connected then [change, Drop, Connect] else [change]
  }

  lemma UnheardRun(s: State, change: Step, t: State)
    requires Enabled(s, change) && (change.ServerDelete? || change.ServerEdit?)
    requires PossibleRun(s, Unheard(s, change), t)
    ensures t.posts == s.posts && t.server == Next(s, change).server && (s.queue == [] ==> t.queue == [])
  {
    var u := Next(s, change);
    if s.connected {
      assert Unheard(s, change)[1..] == [Drop, Connect] && PossibleRun(u, [Drop, Connect], t);
    } else {
      assert Unheard(s, change)[1..] == [];
    }
  }

  /** A deletion nobody hears of leaves the cache gap-free exactly when the post is not live in it. */
  lemma LostDeletionIff(s: State, i: nat, at: int, t: State)
    requires Quiet(s) && Enabled(s, ServerDelete(i, at)) && PossibleRun(s, Unheard(s, ServerDelete(i, at)), t)
    ensures GapFree(LiveSet(t.posts), t.server) <==> !LiveRow(s.posts, s.server[i].id)
  {
    UnheardRun(s, ServerDelete(i, at), t);
    QuietCovers(s);
    ShortenedList(s.server, i);
    var p := s.server[i];
    assert p in s.server;
    if LiveRow(s.posts, p.id) {
      StrayRow(t, p.id);
    } else {
      LiveAreCovered(s, p.id);
    }
  }

  /** The live rows are the covered posts; a post without a live row is behind the floor. */
  lemma LiveAreCovered(s: State, id: Id)
    requires Quiet(s) && !LiveRow(s.posts, id)
    ensures forall y :: y in LiveSet(s.posts) <==> y in s.server && y.createAt >= s.floor
    ensures forall y :: y in s.server && y.id == id ==> y.createAt < s.floor
  {
    QuietCovers(s);
    assert LiveSet(s.posts) + {} == LiveSet(s.posts);
    forall y | y in s.server && y.id == id ensures y.createAt < s.floor {
      assert y in LiveSet(s.posts) ==> LiveRow(s.posts, y.id);
    }
  }

  /** An edit nobody hears of does exactly when it changes nothing or the post is not live in the cache. */
  lemma LostEditIff(s: State, i: nat, p: Post, t: State)
    requires Quiet(s) && Enabled(s, ServerEdit(i, p)) && PossibleRun(s, Unheard(s, ServerEdit(i, p)), t)
    ensures GapFree(LiveSet(t.posts), t.server) <==> p == s.server[i] || !LiveRow(s.posts, p.id)
  {
    UnheardRun(s, ServerEdit(i, p), t);
    EditedList(s.server, i, p);
    assert s.server[i] in s.server;
    if !LiveRow(s.posts, p.id) {
      LiveAreCovered(s, p.id);
      assert p.createAt < s.floor;
    } else {
      assert s.posts[p.id] in s.server;
      SameIdSamePost(s.server, s.server[i], s.posts[p.id]);
      if p == s.server[i] {
        assert t.server == s.server;
        QuietIsGapFree(s);
      } else {
        StrayRow(t, p.id);
      }
    }
  }

  /** Every event about a live row that is still waiting says what the row holds already. */
  ghost predicate NothingNews(s: State) {
    forall id :: LiveRow(s.posts, id) && Last(s.queue, id).Some? ==>
      var e := Last(s.queue, id).value; !e.Deleted? && s.posts[id] == e.post
  }

  /** A connection drops with events waiting. What the cache holds is still right exactly when none of them had news of
      a live row; the posts made and announced in vain are what the reconcile is for. */
  lemma DropIff(s: State)
    requires Inv(s) && Enabled(s, Drop)
    ensures Inv(Next(s, Drop)) <==> NothingNews(s)
    ensures Benign(s, Drop) <==> NothingNews(s)
    ensures NothingAbsent(s) && NothingInFlight(s) ==>
      (GapFree(LiveSet(Next(s, Drop).posts), s.server) <==> NothingNews(s))
  {
    forall id | LiveRow(s.posts, id) && Last(s.queue, id).Some?
      ensures s.posts[id] in s.server <==>
              !Last(s.queue, id).value.Deleted? && s.posts[id] == Last(s.queue, id).value.post
    {
      NewsIsNew(s, id);
    }
    assert NothingNews(s) ==> Benign(s, Drop);
    if Benign(s, Drop) {
      DropKeeps(s);
      if NothingAbsent(s) && NothingInFlight(s) {
        var t := Next(s, Drop);
        assert forall y :: Absent(t, y) ==> Absent(s, y);
        QuietIsGapFree(t);
      }
    } else {
      var id :| LiveRow(s.posts, id) && Last(s.queue, id).Some? && s.posts[id] !in s.server;
      StrayRow(Next(s, Drop), id);
      assert !CacheOk(Next(s, Drop));
    }
  }

  /** The handler of an event fails: the invariant survives exactly when the step is benign. */
  lemma LoseEventIff(s: State)
    requires Inv(s) && Enabled(s, LoseEvent)
    ensures Inv(Next(s, LoseEvent)) <==> Benign(s, LoseEvent)
  {
    if Benign(s, LoseEvent) {
      StepKeeps(s, LoseEvent);
    } else {
      assert !CacheOk(Next(s, LoseEvent));
    }
  }

  /** What the lost event `e` would have brought is there already, or it is about a post older than all that is live. */
  ghost predicate NoLoss(s: State, e: Event) {
    if e.Deleted? then !LiveRow(s.posts, e.id)
    else
      e.post in LiveSet(s.posts) ||
      (!LiveRow(s.posts, e.post.id) && forall r :: r in LiveSet(s.posts) ==> r.createAt > e.post.createAt)
  }

  /** The last event waiting is lost, and nothing is missing but what it may bring: the cache is gap-free exactly when
      there was no loss. */
  lemma LostEventIff(s: State, e: Event)
    requires Inv(s) && s.connected && s.queue == [e] && NothingInFlight(s)
    requires forall y :: Absent(s, y) ==> y.id == Subject(e)
    ensures GapFree(LiveSet(Next(s, LoseEvent).posts), s.server) <==> NoLoss(s, e)
  {
    var id := Subject(e);
    OnlyWord(s, e);
    forall y, r | y in s.server && y.id != id && r in LiveSet(s.posts) && r.createAt <= y.createAt
      ensures y in LiveSet(s.posts)
    {
      assert !Absent(s, y);
      SameIdSamePost(s.server, y, s.posts[y.id]);
    }
    if LiveRow(s.posts, id) {
      assert s.posts[id] in LiveSet(s.posts);
    } else if e.Deleted? {
      assert forall y :: y in s.server ==> y.id != id;
    } else {
      LostPost(s, e);
    }
  }

  lemma OnlyWord(s: State, e: Event)
    requires Inv(s) && s.queue == [e]
    ensures forall x :: Last(s.queue, x) == if x == Subject(e) then Some(e) else None
    ensures forall x :: LiveRow(s.posts, x) && x != Subject(e) ==> s.posts[x] in s.server
    ensures if e.Deleted? then !OnServer(s.server, e.id) else e.post in s.server
  {
    assert [e][..0] == [];
    forall x ensures Last(s.queue, x) == if x == Subject(e) then Some(e) else None {
      assert Last([e], x) == if Subject(e) == x then Some(e) else Last([e][..0], x);
    }
    assert e in s.queue;
    assert !e.Deleted? ==> Last(s.queue, e.post.id) == Some(e);
  }

  lemma LostPost(s: State, e: Event)
    requires Inv(s) && s.queue == [e] && !e.Deleted? && !LiveRow(s.posts, e.post.id)
    ensures e.post in s.server && e.post !in LiveSet(s.posts)
    ensures forall y :: y in s.server && y.id == e.post.id ==> y == e.post
  {
    OnlyWord(s, e);
    ServerIdsDistinct(s.server);
  }

  lemma NewsIsNew(s: State, id: Id)
    requires Inv(s) && LiveRow(s.posts, id) && Last(s.queue, id).Some?
    ensures s.posts[id] in s.server <==>
            !Last(s.queue, id).value.Deleted? && s.posts[id] == Last(s.queue, id).value.post
  {
    LastIn(s.queue, id);
    var e := Last(s.queue, id).value;
    if s.posts[id] in s.server {
      assert OnServer(s.server, id);
      if !e.Deleted? {
        SameIdSamePost(s.server, s.posts[id], e.post);
      }
    }
  }

  /** An ingest keeps a quiet cache gap-free exactly when it brings the current version of a post of the covered range
      or right behind it. */
  lemma IngestIff(s: State, p: Post)
    requires Quiet(s) && Enabled(s, Ingest(p))
    ensures GapFree(LiveSet(Next(s, Ingest(p)).posts), s.server) <==> p in s.server && Touches(s.server, s.floor, p)
  {
    var t := Next(s, Ingest(p));
    QuietCovers(s);
    assert LiveSet(s.posts) + {} == LiveSet(s.posts);
    forall y ensures y in LiveSet(t.posts) <==> y == p || (y in LiveSet(s.posts) && y.id != p.id) {
      EditedRows(s.posts, p, y);
    }
    ServerIdsDistinct(s.server);
    if p in s.server {
      PlusOneIff(s.server, s.floor, LiveSet(t.posts), p);
    } else {
      assert p in LiveSet(t.posts);
    }
  }

  // ---- what stays wrong --------------------------------------------------------------------------------------

  /** A deleted post is live in the cache, and nothing under way says otherwise. */
  ghost predicate Revenant(s: State, id: Id) {
    && Keyed(s.posts) && LiveRow(s.posts, id) && id in s.born && !OnServer(s.server, id)
    && (forall e :: e in s.queue && Subject(e) == id ==> !e.Deleted? && e.post.deleteAt == 0)
    && (forall j, q :: j in s.jobs && q in s.jobs[j].left && q.id == id ==> q.deleteAt == 0)
  }

  lemma RevenantStep(s: State, id: Id, step: Step)
    requires Revenant(s, id) && Enabled(s, step)
    ensures Revenant(Next(s, step), id)
  {
    match step
    case ServerPost(p) =>
      assert p.id != id;
    case ServerEdit(i, p) =>
      assert s.server[i] in s.server;
      assert forall q :: q in s.server[i := p] ==> q == p || q in s.server;
    case ServerDelete(i, at) =>
      assert s.server[i] in s.server;
      assert forall q :: q in RemoveAt(s.server, i) ==> q in s.server;
    case ApplyEvent =>
      assert s.queue[0] in s.queue;
    case Fetch(job, from, to) =>
      assert forall q :: q in s.server[from..to] ==> q in s.server;
    case _ =>
  }

  /** It stays, whatever happens after: no page, no event and no reconcile ever removes it, so the cache is never
      gap-free again. */
  lemma {:induction false} RevenantStays(s: State, id: Id, steps: seq<Step>, t: State)
    requires Revenant(s, id) && PossibleRun(s, steps, t)
    ensures LiveRow(t.posts, id) && !GapFree(LiveSet(t.posts), t.server)
    decreases |steps|
  {
    if steps == [] {
      StrayRow(s, id);
    } else {
      RevenantStep(s, id, steps[0]);
      RevenantStays(Next(s, steps[0]), id, steps[1..], t);
    }
  }

  // ---- such a run --------------------------------------------------------------------------------------------

  const ONE_POST := Post("p", "c", "u", "", "hello", 1, 1, 0, 0, 0, Props(None, None, ""), [])
  const START := State([ONE_POST], 1, map["p" := 1], false, [], map[], None, map[], 2)

  /** From an empty cache: the stream connects, a page is fetched (`s`), its post is deleted, the deletion is applied,
      and the page is stored (`t`). The post is live in the cache for good. */
  lemma StalePageIsReached() returns (s: State, t: State)
    ensures Inv(START) && NothingAbsent(START) && PossibleRun(START, [Connect, Fetch(0, 0, 1)], s)
    ensures StaleRun(s, 0, ServerDelete(0, 2), [ONE_POST], t) && Revenant(t, "p")
  {
    var a := StartConnected();
    s := Next(a, Fetch(0, 0, 1));
    PageBelowStoredIsBenign(a, 0, 0, 1);
    StepKeeps(a, Fetch(0, 0, 1));
    assert [Connect, Fetch(0, 0, 1)][1..] == [Fetch(0, 0, 1)] && [Fetch(0, 0, 1)][1..] == [];
    t := AfterDeletion(s);
  }

  lemma StartConnected() returns (a: State)
    ensures Inv(START) && NothingAbsent(START) && Enabled(START, Connect) && a == Next(START, Connect)
    ensures Inv(a) && NothingAbsent(a) && Enabled(a, Fetch(0, 0, 1))
  {
    StartOk(START.server, START.clock, START.born);
    a := Next(START, Connect);
    StepKeeps(START, Connect);
    assert forall y :: Absent(a, y) ==> Absent(START, y);
  }

  lemma AfterDeletion(s: State) returns (t: State)
    requires s == Next(Next(START, Connect), Fetch(0, 0, 1)) && Inv(s) && NothingAbsent(s)
    ensures StaleRun(s, 0, ServerDelete(0, 2), [ONE_POST], t) && Revenant(t, "p")
  {
    var page := {ONE_POST};
    assert s.server[0..1] == [ONE_POST] && Elems([ONE_POST]) == page;
    assert s == START.(connected := true, jobs := map[0 := Job(page, page)], floor := 1);
    var b := Next(Next(s, ServerDelete(0, 2)), ApplyEvent);
    assert RemoveAt([ONE_POST], 0) == [];
    t := Next(b, UpsertOne(0, ONE_POST));
    ThreeSteps(s, ServerDelete(0, 2), ApplyEvent, UpsertOne(0, ONE_POST));
    assert Upserts(0, [ONE_POST]) == [UpsertOne(0, ONE_POST)];
    assert [ServerDelete(0, 2), ApplyEvent] + Upserts(0, [ONE_POST]) ==
           [ServerDelete(0, 2), ApplyEvent, UpsertOne(0, ONE_POST)];
  }

  lemma ThreeSteps(s: State, x: Step, y: Step, z: Step)
    requires Enabled(s, x) && Enabled(Next(s, x), y) && Enabled(Next(Next(s, x), y), z)
    ensures PossibleRun(s, [x, y, z], Next(Next(Next(s, x), y), z))
  {
    var a, b := Next(s, x), Next(Next(s, x), y);
    assert PossibleRun(Next(b, z), [], Next(b, z));
    assert [z][1..] == [] && PossibleRun(b, [z], Next(b, z));
    assert [y, z][1..] == [z] && PossibleRun(a, [y, z], Next(b, z));
    assert [x, y, z][1..] == [y, z];
  }
}
