/** The turn of one channel in a reconcile (internal/syncd/reconcile.go) is the reconcile step of the protocol, followed
    by the upserts of its page and the cursor update. */
module Rejoin {
  import opened Prelude
  import opened Model
  import opened Tables
  import opened Blocks
  import opened Protocol
  import opened ProtocolRuns
  import Gaps
  import Paging
  import Reconcile

  /** The rows of a channel. */
  function ChannelRows(posts: map<Id, Post>, channelId: Id): map<Id, Post> {
    map id | id in posts && posts[id].channelId == channelId :: posts[id]
  }

  /** The state shows what the tables hold of the channel. */
  ghost predicate Shows(s: State, channelId: Id, posts: map<Id, Post>, cursors: map<Id, Cursor>) {
    && s.posts == ChannelRows(posts, channelId)
    && s.cursor == if channelId in cursors then Some(cursors[channelId]) else None
  }

  /** What the server serves are posts of the channel, with the create times of their rows. */
  ghost predicate ServesChannel(server: seq<Post>, channelId: Id, posts: map<Id, Post>) {
    && NewestFirst(server) && (forall p :: p in server ==> p.channelId == channelId)
    && forall p :: p in server && p.id in posts ==>
         posts[p.id].channelId == channelId && posts[p.id].createAt == p.createAt
  }

  /** A turn that ends well, on a channel whose state is `s`: the protocol's reconcile step leads to `u`, and the steps
      after it to `t`, which shows the tables after the turn. */
  lemma TurnReconciles(s: State, l: Reconcile.Listed, posts: map<Id, Post>, cursors: map<Id, Cursor>,
                       posts': map<Id, Post>, cursors': map<Id, Cursor>)
    returns (u: State, steps: seq<Step>, t: State)
    requires Shows(s, l.ch.id, posts, cursors) && ServesChannel(s.server, l.ch.id, posts)
    requires l.view.Served? ==> l.view.server == s.server
    requires Reconcile.Turn(l, posts, cursors, posts', cursors')
    ensures Reconciles(s, l.ch.lastPostAt, u) && PossibleRun(u, steps, t)
    ensures Shows(t, l.ch.id, posts', cursors')
    ensures t == s.(posts := t.posts, cursor := t.cursor, floor := t.floor)
    ensures forall step :: step in steps ==> step.UpsertOne? || step.SetCursor?
  {
    if !Reconcile.Due(l, cursors) {
      return s, [], s;
    }
    var page := Reconcile.CatchUpPage(l);
    if s.server == [] {
      NothingStored(posts, posts');
      return s, [], s;
    }
    var job := FreshJob(s.jobs);
    var n := Min(CATCH_UP, |s.server|);
    u := Next(s, Fetch(job, 0, n));
    assert s.server[0..n] == page;
    assert Reconciles(s, l.ch.lastPostAt, u);
    steps, t := PageComesIn(s, l.ch.id, job, page, u, posts, posts');
    CursorShown(s.cursor, cursors, l.ch.id, page, cursors');
  }

  lemma CursorShown(cursor: Option<Cursor>, cursors: map<Id, Cursor>, id: Id, page: seq<Post>,
                    cursors': map<Id, Cursor>)
    requires page != [] && cursor == if id in cursors then Some(cursors[id]) else None
    requires Paging.CursorOver(cursors, id, page, cursors')
    ensures id in cursors' && cursors'[id] == Merge(cursor, page[|page| - 1].createAt, page[0].createAt)
  {
  }

  /** From the fetch to the cursor update. */
  lemma PageComesIn(s: State, channelId: Id, job: nat, page: seq<Post>, u: State, posts: map<Id, Post>,
                    posts': map<Id, Post>)
    returns (steps: seq<Step>, t: State)
    requires s.posts == ChannelRows(posts, channelId) && ServesChannel(s.server, channelId, posts)
    requires page != [] && page <= s.server && job !in s.jobs && Paging.PageStored(posts, Elems(page), posts')
    requires u == s.(jobs := s.jobs[job := Job(Elems(page), Elems(page))], floor := u.floor)
    ensures PossibleRun(u, steps, t)
    ensures t == s.(posts := ChannelRows(posts', channelId), floor := u.floor,
                    cursor := Some(Merge(s.cursor, page[|page| - 1].createAt, page[0].createAt)))
    ensures forall step :: step in steps ==> step.UpsertOne? || step.SetCursor?
  {
    PageOfServer(s.server, page);
    assert SameTimes(u.posts, Elems(page)) by {
      assert forall p :: p in Elems(page) ==> p in s.server;
    }
    var v := UpsertsPossible(u, job, page);
    Gaps.UpsertsStore(u, job, page, v);
    PageRows(channelId, s.server, page, posts, posts', v.posts);
    steps, t := WithCursor(s, job, page, u, v);
  }

  lemma PageOfServer(server: seq<Post>, page: seq<Post>)
    requires NewestFirst(server) && page <= server
    ensures NewestFirst(page) && Distinct(page) && IdsApart(Elems(page)) && forall p :: p in page ==> p in server
  {
    ServerIdsDistinct(server);
    assert page == server[..|page|];
  }

  lemma NothingStored(posts: map<Id, Post>, posts': map<Id, Post>)
    requires Paging.PageStored(posts, Elems([]), posts')
    ensures posts' == posts
  {
    assert forall id :: !Paging.Carries(Elems([]), id);
  }

  lemma FreshJob(jobs: map<nat, Job>) returns (job: nat)
    ensures job !in jobs
  {
    job := Above(jobs.Keys);
  }

  lemma {:induction false} Above(used: set<nat>) returns (n: nat)
    ensures forall j :: j in used ==> j < n
    decreases |used|
  {
    n := 0;
    if used != {} {
      var j :| j in used;
      var m := Above(used - {j});
      n := Max(m, j + 1);
      assert forall k :: k in used ==> k == j || k in used - {j};
    }
  }

  /** All of a page can be upserted. */
  lemma {:induction false} UpsertsPossible(u: State, job: nat, page: seq<Post>) returns (v: State)
    requires job in u.jobs && u.jobs[job].left == Elems(page) && Distinct(page)
    ensures PossibleRun(u, Gaps.Upserts(job, page), v)
    ensures v == u.(posts := v.posts, jobs := u.jobs[job := Job(u.jobs[job].page, {})])
    decreases |page|
  {
    if page == [] {
      v := u;
      assert u.jobs[job] == Job(u.jobs[job].page, {});
      assert u.jobs[job := Job(u.jobs[job].page, {})] == u.jobs;
    } else {
      var step := UpsertOne(job, page[0]);
      var w := Next(u, step);
      assert Elems(page) == {page[0]} + Elems(page[1..]) && page[0] !in page[1..];
      v := UpsertsPossible(w, job, page[1..]);
      var done := Job(u.jobs[job].page, {});
      assert w.jobs[job].page == u.jobs[job].page && w.jobs[job := done] == u.jobs[job := done];
      assert Gaps.Upserts(job, page)[0] == step && Gaps.Upserts(job, page)[1..] == Gaps.Upserts(job, page[1..]);
    }
  }

  /** The rows of the channel after the page, told by the upserts and by the tables. */
  lemma PageRows(channelId: Id, server: seq<Post>, page: seq<Post>, posts: map<Id, Post>, posts': map<Id, Post>,
                 after: map<Id, Post>)
    requires ServesChannel(server, channelId, posts) && (forall p :: p in page ==> p in server)
    requires Paging.PageStored(posts, Elems(page), posts')
    requires Gaps.Overwritten(ChannelRows(posts, channelId), Elems(page), after)
    ensures after == ChannelRows(posts', channelId)
  {
    forall id ensures id in after <==> id in ChannelRows(posts', channelId) {
      SameRow(channelId, server, page, posts, posts', after, id);
    }
    forall id | id in after ensures after[id] == ChannelRows(posts', channelId)[id] {
      SameRow(channelId, server, page, posts, posts', after, id);
    }
  }

  lemma SameRow(channelId: Id, server: seq<Post>, page: seq<Post>, posts: map<Id, Post>, posts': map<Id, Post>,
                after: map<Id, Post>, id: Id)
    requires ServesChannel(server, channelId, posts) && (forall p :: p in page ==> p in server)
    requires Paging.PageStored(posts, Elems(page), posts')
    requires Gaps.Overwritten(ChannelRows(posts, channelId), Elems(page), after)
    ensures id in after <==> id in posts' && posts'[id].channelId == channelId
    ensures id in after ==> after[id] == posts'[id]
  {
    if Paging.Carries(Elems(page), id) {
      var p :| p in Elems(page) && p.id == id;
      assert p in page && p in server;
      assert posts'[id] == Paging.RowFor(posts, p) == p && after[id] == p;
    } else {
      assert forall p :: p in Elems(page) ==> p.id != id;
      assert id in after <==> id in ChannelRows(posts, channelId);
      assert id in posts' ==> id in posts && posts'[id] == posts[id];
    }
  }

  /** The cursor update after the upserts. */
  lemma WithCursor(s: State, job: nat, page: seq<Post>, u: State, v: State) returns (steps: seq<Step>, t: State)
    requires page != [] && NewestFirst(page) && job !in s.jobs
    requires u == s.(jobs := s.jobs[job := Job(Elems(page), Elems(page))], floor := u.floor)
    requires PossibleRun(u, Gaps.Upserts(job, page), v)
    requires v == u.(posts := v.posts, jobs := u.jobs[job := Job(Elems(page), {})])
    ensures PossibleRun(u, steps, t)
    ensures t == s.(posts := v.posts, floor := u.floor,
                    cursor := Some(Merge(s.cursor, page[|page| - 1].createAt, page[0].createAt)))
    ensures forall step :: step in steps ==> step.UpsertOne? || step.SetCursor?
  {
    var last := SetCursor(job, page[|page| - 1].createAt, page[0].createAt);
    PageEnds(page);
    t := Next(v, last);
    assert t.jobs == s.jobs;
    steps := Gaps.Upserts(job, page) + [last];
    OneStep(v, last, t);
    RunThenRun(u, Gaps.Upserts(job, page), v, [last], t);
    UpsertsOnly(job, page);
  }

  lemma PageEnds(page: seq<Post>)
    requires NewestFirst(page) && page != []
    ensures PageBounds(Elems(page), page[|page| - 1].createAt, page[0].createAt)
  {
    assert page[|page| - 1] in Elems(page) && page[0] in Elems(page);
    forall p | p in Elems(page) ensures page[|page| - 1].createAt <= p.createAt <= page[0].createAt {
      Paging.InOrder(page, p);
    }
  }

  lemma OneStep(s: State, step: Step, t: State)
    requires Enabled(s, step) && t == Next(s, step)
    ensures PossibleRun(s, [step], t)
  {
    assert [step][1..] == [];
  }

  lemma {:induction false} RunThenRun(s: State, a: seq<Step>, t: State, b: seq<Step>, u: State)
    requires PossibleRun(s, a, t) && PossibleRun(t, b, u)
    ensures PossibleRun(s, a + b, u)
    decreases |a|
  {
    if a == [] {
      assert a + b == b;
    } else {
      RunThenRun(Next(s, a[0]), a[1..], t, b, u);
      assert (a + b)[1..] == a[1..] + b;
    }
  }

  lemma {:induction false} UpsertsOnly(job: nat, qs: seq<Post>)
    ensures forall step :: step in Gaps.Upserts(job, qs) ==> step.UpsertOne?
    decreases |qs|
  {
    if qs != [] {
      UpsertsOnly(job, qs[1..]);
    }
  }
}
