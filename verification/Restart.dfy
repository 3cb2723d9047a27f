/** A daemon that starts over an old cache (internal/syncd/backfill.go, daemon.go): the backfill takes a window sized by
    the unread count, from the top, whatever the cache holds, while posts are made and ingested. */
module Restart {
  import opened Prelude
  import opened Model
  import opened Tables
  import opened Blocks
  import opened Protocol
  import opened ProtocolRuns
  import Paging
  import Reader

  /** The rows of a channel before and after a backfill, which leaves a block of the list: from the newest stored post
      on they are gap-free exactly when the block reaches down to what was there. */
  lemma RestartIff(channelId: Id, list: seq<Post>, g: nat, h: nat, lo: nat, hi: nat, before: map<Id, Post>,
                   after: map<Id, Post>)
    requires NewestFirst(list) && lo <= g < h <= |list| && lo <= hi <= |list|
    requires OfChannel(list, channelId, before) && Keyed(before) && HoldsBlock(before, channelId, list, g, h)
    requires Paging.PageStored(before, Elems(list[lo..hi]), after)
    ensures GapFree(Live(after, channelId), list[lo..]) <==> g <= hi
  {
    var page := Elems(list[lo..hi]);
    ServerIdsDistinct(list);
    forall p | p in page ensures p in list {}
    forall q | q in Live(before, channelId) ensures q in list {
      assert q in list[g..h];
    }
    Paging.LiveAfterStore(channelId, before, page, after);
    TopStretchIff(list, list[lo..], lo, g, h, hi, Elems(list[g..h]), page);
  }

  /** The backfill itself over a cache that `g` posts of the first list served have come in front of; `d` more come
      while it runs. The cache is gap-free from its newest post on exactly when the stored block reaches the old one:
      surely when no more came in all than the whole pages of the window, and never when more had come before. */
  method BackfillOver(daemon: Paging.Daemon, channelId: Id, unread: int, views: seq<Paging.View>,
                      ghost server: seq<Post>, ghost g: nat, ghost hi: nat)
    returns (outcome: Paging.Outcome, ghost list: seq<Post>, ghost d: nat, ghost lo: nat, ghost top: nat)
    requires daemon.store.Valid() && Paging.AllNewestFirst(views) && Paging.FrontGrowth(views, 2 * Paging.PAGE)
    requires Paging.At(views, 0).Served? ==> Paging.At(views, 0).server == server
    requires forall v :: v in views && v.Served? ==> OfChannel(v.server, channelId, daemon.store.posts)
    requires g < hi && HoldsBlock(daemon.store.posts, channelId, server, g, hi)
    modifies daemon.store`posts, daemon.store`index, daemon.store`files, daemon.store`reactions, daemon.store`cursors,
             daemon.store`log
    ensures outcome == Paging.Done ==>
      OverOld(daemon.store.posts, channelId, server, g, Paging.WholePagesOf(unread), list, d, lo, top)
    ensures outcome == Paging.Done && Paging.FrontGrowth(views, 0) ==> d == 0
    ensures daemon.store.log.faults == old(daemon.store.log).faults + if outcome == Paging.StoreFailed then 1 else 0
    ensures outcome.Done? || outcome.StoreFailed? || exists n: nat :: n < 3 && Paging.At(views, n).Failed?
  {
    ghost var before := daemon.store.posts;
    ghost var calls;
    outcome, calls, list, lo, top := daemon.BackfillChannelPosts(channelId, unread, views);
    d := 0;
    if outcome == Paging.Done {
      d := OverOldBlock(channelId, unread, views, calls, server, g, hi, list, lo, top, before, daemon.store.posts);
    }
  }

  lemma OverOldBlock(channelId: Id, unread: int, views: seq<Paging.View>, calls: nat, server: seq<Post>, g: nat,
                     hi: nat, list: seq<Post>, lo: nat, top: nat, before: map<Id, Post>, after: map<Id, Post>)
    returns (d: nat)
    requires Paging.AllNewestFirst(views) && Keyed(before)
    requires Paging.At(views, 0).Served? ==> Paging.At(views, 0).server == server
    requires forall v :: v in views && v.Served? ==> OfChannel(v.server, channelId, before)
    requires g < hi && HoldsBlock(before, channelId, server, g, hi)
    requires Paging.BlockStored(before, views, calls, list, lo, top, after)
    requires Paging.WindowFilled(unread, views, calls, list, lo, top)
    ensures OverOld(after, channelId, server, g, Paging.WholePagesOf(unread), list, d, lo, top)
    ensures Paging.FrontGrowth(views, 0) ==> d == 0
  {
    d := |list| - |server|;
    assert list == views[calls - 1].server && views[calls - 1] in views;
    BlockOverOld(channelId, server, g, hi, Paging.WholePagesOf(unread), list, d, lo, top, before, after);
  }

  lemma BlockOverOld(channelId: Id, server: seq<Post>, g: nat, hi: nat, n: nat, list: seq<Post>, d: nat, lo: nat,
                     top: nat, before: map<Id, Post>, after: map<Id, Post>)
    requires NewestFirst(list) && OfChannel(list, channelId, before) && Keyed(before)
    requires g < hi && HoldsBlock(before, channelId, server, g, hi)
    requires |list| == |server| + d && list[d..] == server && lo <= d && lo <= top <= |list|
    requires Min(n, |list|) <= top <= d + n && Paging.PageStored(before, Elems(list[lo..top]), after)
    ensures OverOld(after, channelId, server, g, n, list, d, lo, top)
  {
    var g', h' := g + d, hi + d;
    OldBlock(before, channelId, server, list, d, g, hi, g', h');
    RestartIff(channelId, list, g', h', lo, top, before, after);
  }

  /** The live rows are a block of the channel's list. */
  ghost predicate HoldsBlock(posts: map<Id, Post>, channelId: Id, list: seq<Post>, g: nat, h: nat) {
    g <= h <= |list| && Live(posts, channelId) == Elems(list[g..h])
  }

  lemma OldBlock(posts: map<Id, Post>, channelId: Id, server: seq<Post>, list: seq<Post>, d: nat, g: nat, hi: nat,
                 g': nat, h': nat)
    requires |list| == |server| + d && list[d..] == server && HoldsBlock(posts, channelId, server, g, hi)
    requires g' == g + d && h' == hi + d
    ensures HoldsBlock(posts, channelId, list, g', h')
  {
    Paging.Shifted(server, list, d, g, hi);
  }

  /** A list of the channel, whose posts have the create times of their rows. */
  ghost predicate OfChannel(list: seq<Post>, channelId: Id, posts: map<Id, Post>) {
    forall p :: p in list ==> p.channelId == channelId && (p.id in posts ==> posts[p.id].createAt == p.createAt)
  }

  /** What a backfill with a window of `n` posts makes of a cache with `g` posts in front of it. */
  ghost predicate OverOld(posts: map<Id, Post>, channelId: Id, server: seq<Post>, g: nat, n: nat, list: seq<Post>,
                          d: nat, lo: nat, top: nat)
  {
    && |list| == |server| + d && list[d..] == server && lo <= d && Min(n, |list|) <= top <= d + n
    && (GapFree(Live(posts, channelId), list[lo..]) <==> g + d <= top)
    && (g + d <= n ==> GapFree(Live(posts, channelId), list[lo..]))
    && (g > n ==> !GapFree(Live(posts, channelId), list[lo..]))
  }

  // ---- a backfill as steps -----------------------------------------------------------------------------------

  /** While a backfill is under way the posts made from `low` to `top` are there or on their way, nothing made up to
      `time` is missing, and nothing that was fetched is newer than `top`: all of the invariant but that what is missing
      is newer than what was fetched. */
  ghost predicate Filling(s: State, time: int, low: int, top: int) {
    && Core(s) && s.floor <= low && time <= top <= s.clock
    && (forall y :: Absent(s, y) ==> y.createAt > time && (y.createAt < low || y.createAt > top))
    && (forall j, q :: j in s.jobs && q in s.jobs[j].page ==> q.createAt <= top)
    && (s.cursor.Some? ==> s.cursor.value.newest <= top)
  }

  /** A page that makes one stretch with what the backfill has: a post between the two would be skipped. */
  ghost predicate Joins(server: seq<Post>, from: nat, to: nat, low: int, top: int) {
    && from < to <= |server|
    && (from > 0 ==> server[from - 1].createAt >= low)
    && (to < |server| ==> server[to].createAt <= top)
  }

  /** A page that starts behind a covered post, like those of history. */
  ghost predicate Behind(s: State, from: nat, top: int) {
    0 < from < |s.server| && s.server[from - 1].createAt >= s.floor && s.server[from].createAt <= top
  }

  /** What may happen during a backfill: its own pages, loads of history, and every benign step of all the others. */
  ghost predicate FillStep(s: State, low: int, top: int, step: Step) {
    match step
    case Fetch(_, from, to) => Joins(s.server, from, to, low, top) || Behind(s, from, top)
    case _ => Benign(s, step)
  }

  ghost function Low(s: State, low: int, top: int, step: Step): int {
    if step.Fetch? && Joins(s.server, step.from, step.to, low, top) then Min(low, s.server[step.to - 1].createAt)
    else low
  }

  ghost function Top(s: State, low: int, top: int, step: Step): int {
    if step.Fetch? && Joins(s.server, step.from, step.to, low, top) then Max(top, s.server[step.from].createAt)
    else top
  }

  /** A run of such steps; the stretch from `low` to `top` widens to that from `low'` to `top'`. */
  ghost predicate FillRun(s: State, low: int, top: int, steps: seq<Step>, t: State, low': int, top': int)
    decreases |steps|
  {
    if steps == [] then s == t && low == low' && top == top'
    else
      Enabled(s, steps[0]) && FillStep(s, low, top, steps[0]) &&
      FillRun(Next(s, steps[0]), Low(s, low, top, steps[0]), Top(s, low, top, steps[0]), steps[1..], t, low', top')
  }

  /** The newest `n` posts of the list are no older than `low`. */
  ghost predicate Deep(server: seq<Post>, low: int, n: nat) {
    forall i :: 0 <= i < n && i < |server| ==> server[i].createAt >= low
  }

  /** The backfill of a channel with a window of `n` posts, from its first page to its last, with whatever happens in
      between; of an empty channel it fetches nothing. */
  ghost predicate Backfills(s: State, n: nat, steps: seq<Step>, t: State) {
    if s.server == [] then t == s
    else
      steps != [] && steps[0].Fetch? && steps[0].from == 0 && Enabled(s, steps[0]) &&
      exists low, top :: FillsTo(s, n, steps, t, low, top)
  }

  ghost predicate FillsTo(s: State, n: nat, steps: seq<Step>, t: State, low: int, top: int)
    requires steps != [] && steps[0].Fetch? && Enabled(s, steps[0])
  {
    && Deep(t.server, low, n)
    && FillRun(Next(s, steps[0]), s.server[steps[0].to - 1].createAt, s.clock, steps[1..], t, low, top)
  }

  lemma ClockBounds(s: State)
    requires Core(s)
    ensures forall j, q :: j in s.jobs && q in s.jobs[j].page ==> q.createAt <= s.clock
    ensures s.cursor.Some? ==> s.cursor.value.newest <= s.clock
    ensures forall p :: p in s.server ==> p.createAt <= s.clock
  {
    forall j, q | j in s.jobs && q in s.jobs[j].page ensures q.createAt <= s.clock {
      assert Known(s, q);
    }
  }

  /** The first page, from the top: whatever is missing now is older than it. */
  lemma FillStarts(s: State, time: int, job: nat, to: nat)
    requires Inv(s) && AbsentSince(s, time) && time <= s.clock && Enabled(s, Fetch(job, 0, to))
    ensures Filling(Next(s, Fetch(job, 0, to)), time, s.server[to - 1].createAt, s.clock)
  {
    var step := Fetch(job, 0, to);
    var t := Next(s, step);
    CoreStep(s, step);
    ClockBounds(t);
    forall y | Absent(t, y) ensures y.createAt > time && y.createAt < s.server[to - 1].createAt {
      FetchFlight(s, job, 0, to, y.id);
      var k :| 0 <= k < |s.server| && s.server[k] == y;
      assert k >= to && y.createAt < s.server[to - 1].createAt;
      assert Absent(s, y);
    }
  }

  /** Where a post still missing after a fetch is: it was missing before, and is in front of the page or behind it. */
  lemma MissingOutside(s: State, job: nat, from: nat, to: nat, y: Post) returns (k: nat)
    requires Core(s) && Enabled(s, Fetch(job, from, to)) && Absent(Next(s, Fetch(job, from, to)), y)
    requires from > 0 ==> s.server[from - 1].createAt >= s.floor
    ensures Absent(s, y) && k < |s.server| && s.server[k] == y && (k < from || to <= k)
  {
    FetchFlight(s, job, from, to, y.id);
    k :| 0 <= k < |s.server| && s.server[k] == y;
    assert k < from ==> k == from - 1 || s.server[k].createAt > s.server[from - 1].createAt;
    assert to <= k ==> y.createAt < s.server[to - 1].createAt;
  }

  lemma PageFills(s: State, time: int, low: int, top: int, step: Step)
    requires Filling(s, time, low, top) && step.Fetch? && Enabled(s, step) && FillStep(s, low, top, step)
    ensures Filling(Next(s, step), time, Low(s, low, top, step), Top(s, low, top, step))
  {
    var t, low', top' := Next(s, step), Low(s, low, top, step), Top(s, low, top, step);
    CoreStep(s, step);
    ClockBounds(s);
    assert s.server[step.from] in s.server && t.floor <= low';
    forall y | Absent(t, y) ensures y.createAt > time && (y.createAt < low' || y.createAt > top') {
      MissingStill(s, time, low, top, step, y);
    }
    PagesUnder(s, step, top, top');
  }

  /** What is missing after the page was missing before, and is not in the wider stretch. */
  lemma MissingStill(s: State, time: int, low: int, top: int, step: Step, y: Post)
    requires Filling(s, time, low, top) && step.Fetch? && Enabled(s, step) && FillStep(s, low, top, step)
    requires Absent(Next(s, step), y)
    ensures y.createAt > time && (y.createAt < Low(s, low, top, step) || y.createAt > Top(s, low, top, step))
  {
    var k := MissingOutside(s, step.job, step.from, step.to, y);
  }

  lemma PagesUnder(s: State, step: Step, top: int, top': int)
    requires Enabled(s, step) && step.Fetch? && top <= top'
    requires forall j, q :: j in s.jobs && q in s.jobs[j].page ==> q.createAt <= top
    requires NewestFirst(s.server) && s.server[step.from].createAt <= top'
    ensures var t := Next(s, step); forall j, q :: j in t.jobs && q in t.jobs[j].page ==> q.createAt <= top'
  {
    var t := Next(s, step);
    forall j, q | j in t.jobs && q in t.jobs[j].page ensures q.createAt <= top' {
      if j != step.job {
        assert j in s.jobs && t.jobs[j] == s.jobs[j];
      } else {
        var m :| step.from <= m < step.to && s.server[m] == q;
      }
    }
  }

  lemma FillKeeps(s: State, time: int, low: int, top: int, step: Step)
    requires Filling(s, time, low, top) && Enabled(s, step) && FillStep(s, low, top, step)
    ensures Filling(Next(s, step), time, Low(s, low, top, step), Top(s, low, top, step))
  {
    if step.Fetch? {
      PageFills(s, time, low, top, step);
    } else {
      var t := Next(s, step);
      CoreStep(s, step);
      forall y | Absent(t, y) ensures y.createAt > time && (y.createAt < low || y.createAt > top) {
        AbsentStep(s, step, y);
      }
    }
  }

  lemma {:induction false} FillRunKeeps(s: State, time: int, low: int, top: int, steps: seq<Step>, t: State, low': int,
                                        top': int)
    requires Filling(s, time, low, top) && FillRun(s, low, top, steps, t, low', top')
    ensures Filling(t, time, low', top') && top <= top'
    decreases |steps|
  {
    if steps != [] {
      FillKeeps(s, time, low, top, steps[0]);
      FillRunKeeps(Next(s, steps[0]), time, Low(s, low, top, steps[0]), Top(s, low, top, steps[0]), steps[1..], t, low',
                   top');
    }
  }

  /** Once it is deep enough that nothing behind it is missing, the invariant holds again, and only what came in front
      is missing. */
  lemma FillEnds(s: State, time: int, low: int, top: int, n: nat)
    requires Filling(s, time, low, top) && Deep(s.server, low, n) && GainedAtMost(s, time, n)
    ensures Inv(s) && AbsentSince(s, top)
  {
    assert forall i :: n <= i < |s.server| ==> s.server[i].createAt <= s.server[n].createAt;
    forall y | Absent(s, y) ensures y.createAt > top {
      var k :| 0 <= k < |s.server| && s.server[k] == y;
    }
  }

  /** A backfill whose window holds what was gained restores the invariant, and leaves nothing missing but what was made
      after it began. */
  lemma BackfillKeeps(s: State, time: int, n: nat, steps: seq<Step>, t: State)
    requires Inv(s) && AbsentSince(s, time) && time <= s.clock
    requires Backfills(s, n, steps, t) && GainedAtMost(t, time, n)
    ensures Inv(t) && AbsentSince(t, s.clock) && s.clock <= t.clock
  {
    if s.server != [] {
      var low, top :| FillsTo(s, n, steps, t, low, top);
      FillStarts(s, time, steps[0].job, steps[0].to);
      FillRunKeeps(Next(s, steps[0]), time, s.server[steps[0].to - 1].createAt, s.clock, steps[1..], t, low, top);
      FillEnds(t, time, low, top, n);
    }
  }

  /** A restart restores gap-freedom when the window holds what was gained. Nothing made up to `time` is missing in
      `s0`; a benign run follows (`s1`); the daemon backfills the channel (`s2`) while posts are made and ingested and
      history is loaded, and at its end at most as many posts are newer than `time` as the window has. Then, as after
      any reconnect, the cache is gap-free at every quiet moment of the connection, if at most 60 posts were made since
      the backfill began. */
  lemma RestartRestoresGapFreedom(
    s0: State, time: int, down: seq<Step>, s1: State, unread: int, filling: seq<Step>, s2: State, offline: seq<Step>,
    s3: State, listing: seq<Step>, s4: State, s4': State, after: seq<Step>, s5: State)
    requires Inv(s0) && AbsentSince(s0, time) && time <= s0.clock && Run(s0, down, s1)
    requires Backfills(s1, Paging.WholePagesOf(unread), filling, s2)
    requires GainedAtMost(s2, time, Paging.WholePagesOf(unread))
    requires Run(s2, offline, s3) && ConnectedRun(s3, listing, s4)
    requires Reconciles(s4, s3.clock, s4') && GainedAtMost(s4, s1.clock, CATCH_UP)
    requires ConnectedRun(s4', after, s5) && s5.queue == [] && NothingInFlight(s5)
    ensures GapFree(LiveSet(s5.posts), s5.server)
  {
    RunMissesNewPostsOnly(s0, down, s1, time);
    ClockRises(s0, down, s1);
    BackfillKeeps(s1, time, Paging.WholePagesOf(unread), filling, s2);
    ReconnectRestoresGapFreedom(s2, s1.clock, offline, s3, listing, s4, s4', after, s5);
  }

  // ---- the loop of the backfill ------------------------------------------------------------------------------

  /** The run of the loop: its calls are served the lists of `views`, `n` of them so far, and its pages are the slices
      of these. Loads of history and every benign step of the others come in between. */
  ghost predicate LoopRun(s: State, mark: int, views: seq<Paging.View>, n: nat, steps: seq<Step>, t: State, m: nat)
    decreases |steps|
  {
    if steps == [] then s == t && n == m
    else if LoopFetch(s, views, n, steps[0]) then
      Enabled(s, steps[0]) && LoopRun(Next(s, steps[0]), mark, views, n + 1, steps[1..], t, m)
    else
      Enabled(s, steps[0]) && (if steps[0].Fetch? then Behind(s, steps[0].from, mark) else Benign(s, steps[0])) &&
      LoopRun(Next(s, steps[0]), mark, views, n, steps[1..], t, m)
  }

  /** Call `n` of the loop, after a full page. */
  ghost predicate LoopFetch(s: State, views: seq<Paging.View>, n: nat, step: Step) {
    && step.Fetch? && Paging.At(views, n) == Paging.Served(s.server)
    && step.from == n * Paging.PAGE && step.to == Min((n + 1) * Paging.PAGE, |s.server|)
    && (n > 0 ==> Paging.At(views, n - 1).Served? && n * Paging.PAGE <= |Paging.At(views, n - 1).server|)
  }

  /** The stretch that the run keeps covers the block of the loop. */
  ghost predicate Spanned(views: seq<Paging.View>, n: nat, list: seq<Post>, lo: nat, hi: nat, low: int, top: int) {
    && Paging.SpansTo(views, n, list, lo, hi) && lo < hi && NewestFirst(list)
    && (n * Paging.PAGE <= |list| ==> Paging.Spans(views, n, list, lo, hi))
    && low <= list[hi - 1].createAt && list[lo].createAt <= top
  }

  /** A page that reaches up to a block of the list, come down by `d` places, and down to where it begins. */
  lemma JoinsBlock(was: seq<Post>, list: seq<Post>, d: nat, lo: nat, hi: nat, from: nat, to: nat, low: int, top: int)
    requires NewestFirst(list) && |list| == |was| + d && list[d..] == was && lo < hi <= |was|
    requires from < to <= |list| && from <= hi + d && lo + d <= to
    requires low <= was[hi - 1].createAt && was[lo].createAt <= top
    ensures Joins(list, from, to, low, top)
  {
    assert was[lo] == list[lo + d] && was[hi - 1] == list[hi - 1 + d] by {
      assert list[d..][lo] == list[lo + d] && list[d..][hi - 1] == list[hi - 1 + d];
    }
    assert forall i, j :: 0 <= i <= j < |list| ==> list[i].createAt >= list[j].createAt;
  }

  /** While the list grows at the front, by at most two pages between calls, each page of the loop joins what it has. */
  lemma LoopPageJoins(s: State, views: seq<Paging.View>, n: nat, step: Step, was: seq<Post>, lo: nat, hi: nat, low: int,
                      top: int)
    requires n > 0 && Paging.FrontGrowth(views, 2 * Paging.PAGE) && Spanned(views, n, was, lo, hi, low, top)
    requires NewestFirst(s.server) && Enabled(s, step) && LoopFetch(s, views, n, step)
    ensures Joins(s.server, step.from, step.to, low, top)
  {
    assert Paging.GrowsAt(views, n - 1, 2 * Paging.PAGE);
    var d := PagePlace(views, n, was, lo, hi, s.server, step.from, step.to);
    JoinsBlock(was, s.server, d, lo, hi, step.from, step.to, low, top);
  }

  lemma PagePlace(views: seq<Paging.View>, n: nat, was: seq<Post>, lo: nat, hi: nat, list: seq<Post>, from: nat,
                  to: nat)
    returns (d: nat)
    requires n > 0 && Paging.Spans(views, n, was, lo, hi) && Paging.Extends(was, list, 2 * Paging.PAGE)
    requires from == n * Paging.PAGE && to == Min((n + 1) * Paging.PAGE, |list|) && from <= |list|
    ensures |list| == |was| + d && list[d..] == was && from <= hi + d && lo + d <= to
  {
    d := |list| - |was|;
    assert (n - 1) * Paging.PAGE + 2 * Paging.PAGE == (n + 1) * Paging.PAGE;
  }

  /** And the block with it is the wider stretch. */
  lemma LoopPageSpans(s: State, views: seq<Paging.View>, n: nat, step: Step, was: seq<Post>, lo: nat, hi: nat, low: int,
                      top: int, n': nat)
    returns (lo': nat, hi': nat)
    requires n > 0 && Paging.FrontGrowth(views, 2 * Paging.PAGE) && Spanned(views, n, was, lo, hi, low, top)
    requires NewestFirst(s.server) && Enabled(s, step) && LoopFetch(s, views, n, step) && n' == n + 1
    ensures Spanned(views, n', s.server, lo', hi', Low(s, low, top, step), Top(s, low, top, step))
  {
    LoopPageJoins(s, views, n, step, was, lo, hi, low, top);
    lo', hi' := LoopSpan(views, n, was, lo, hi, low, top, s.server, step.from, step.to, n',
                         Low(s, low, top, step), Top(s, low, top, step));
  }

  lemma LoopSpan(views: seq<Paging.View>, n: nat, was: seq<Post>, lo: nat, hi: nat, low: int, top: int, list: seq<Post>,
                 from: nat, to: nat, n': nat, low': int, top': int)
    returns (lo': nat, hi': nat)
    requires n > 0 && Paging.FrontGrowth(views, 2 * Paging.PAGE) && Spanned(views, n, was, lo, hi, low, top)
    requires NewestFirst(list) && Paging.At(views, n) == Paging.Served(list) && n' == n + 1
    requires from < to <= |list| && from == n * Paging.PAGE && to == Min((n + 1) * Paging.PAGE, |list|)
    requires low' == Min(low, list[to - 1].createAt) && top' == Max(top, list[from].createAt)
    requires n * Paging.PAGE <= |was|
    ensures Spanned(views, n', list, lo', hi', low', top')
  {
    lo', hi' := Paging.SpanStep(views, n, was, lo, hi, list, n');
    assert Paging.Slice(list, n) == list[from..to];
    StretchWidens(was, lo, hi, list, from, to, lo', hi', low, top);
  }

  lemma StretchWidens(was: seq<Post>, lo: nat, hi: nat, list: seq<Post>, from: nat, to: nat, lo': nat, hi': nat,
                      low: int, top: int)
    requires NewestFirst(was) && NewestFirst(list) && lo < hi <= |was| && from < to <= |list| && lo' <= hi' <= |list|
    requires low <= was[hi - 1].createAt && was[lo].createAt <= top
    requires Elems(was[lo..hi]) + Elems(list[from..to]) == Elems(list[lo'..hi'])
    ensures lo' < hi' && Min(low, list[to - 1].createAt) <= list[hi' - 1].createAt
    ensures list[lo'].createAt <= Max(top, list[from].createAt)
  {
    StretchEnds(was, lo, hi, list, from, to, lo', hi');
  }

  lemma StretchEnds(was: seq<Post>, lo: nat, hi: nat, list: seq<Post>, from: nat, to: nat, lo': nat, hi': nat)
    requires NewestFirst(was) && NewestFirst(list) && lo < hi <= |was| && from < to <= |list| && lo' <= hi' <= |list|
    requires Elems(was[lo..hi]) + Elems(list[from..to]) == Elems(list[lo'..hi'])
    ensures lo' < hi' && list[hi' - 1].createAt == Min(was[hi - 1].createAt, list[to - 1].createAt)
    ensures list[lo'].createAt == Max(was[lo].createAt, list[from].createAt)
  {
    var a, b, c := was[lo..hi], list[from..to], list[lo'..hi'];
    Paging.StretchNewestFirst(list, from, to);
    Paging.StretchNewestFirst(list, lo', hi');
    Paging.StretchNewestFirst(was, lo, hi);
    Paging.UnionBounds(a, b, c);
    assert c != [] && |c| == hi' - lo';
    Edge(was, lo, hi, a);
    Edge(list, from, to, b);
    Edge(list, lo', hi', c);
  }

  lemma Edge(list: seq<Post>, lo: nat, hi: nat, stretch: seq<Post>)
    requires lo < hi <= |list| && stretch == list[lo..hi]
    ensures stretch != [] && stretch[0] == list[lo] && stretch[|stretch| - 1] == list[hi - 1]
  {
  }

  lemma {:induction false} LoopRunFills(s: State, mark: int, views: seq<Paging.View>, n: nat, steps: seq<Step>,
                                        t: State, m: nat, was: seq<Post>, lo: nat, hi: nat, low: int, top: int)
    returns (low': int, top': int, list: seq<Post>, lo': nat, hi': nat)
    requires Core(s) && n > 0 && Paging.FrontGrowth(views, 2 * Paging.PAGE) && mark <= top
    requires Spanned(views, n, was, lo, hi, low, top) && LoopRun(s, mark, views, n, steps, t, m)
    ensures FillRun(s, low, top, steps, t, low', top') && Spanned(views, m, list, lo', hi', low', top') && m > 0
    decreases |steps|
  {
    if steps == [] {
      return low, top, was, lo, hi;
    }
    var step := steps[0];
    var u, wider, higher := Next(s, step), Low(s, low, top, step), Top(s, low, top, step);
    CoreStep(s, step);
    if LoopFetch(s, views, n, step) {
      LoopPageJoins(s, views, n, step, was, lo, hi, low, top);
      var a, b := LoopPageSpans(s, views, n, step, was, lo, hi, low, top, n + 1);
      low', top', list, lo', hi' :=
        LoopRunFills(u, mark, views, n + 1, steps[1..], t, m, s.server, a, b, wider, higher);
    } else {
      low', top', list, lo', hi' := LoopRunFills(u, mark, views, n, steps[1..], t, m, was, lo, hi, wider, higher);
    }
  }

  /** The loop's first page. */
  lemma LoopStarts(s: State, views: seq<Paging.View>, step: Step)
    requires Core(s) && Paging.FrontGrowth(views, 2 * Paging.PAGE) && s.server != []
    requires Enabled(s, step) && LoopFetch(s, views, 0, step)
    ensures Spanned(views, 1, s.server, 0, step.to, s.server[step.to - 1].createAt, s.clock)
  {
    var lo, hi := Paging.SpanStep(views, 0, [], 0, 0, s.server, 1);
    assert lo == 0 && hi == step.to;
    assert s.server[0] in s.server;
  }

  /** The loop is done after `m` pages: they fill the window, or there are no more. */
  ghost predicate LoopDone(unread: int, views: seq<Paging.View>, m: nat, list: seq<Post>) {
    && m > 0 && Paging.At(views, m - 1) == Paging.Served(list)
    && (Paging.ClampWindow(unread) <= m * Paging.PAGE || |list| <= m * Paging.PAGE)
  }

  lemma LoopIsDeep(unread: int, views: seq<Paging.View>, m: nat, list: seq<Post>, lo: nat, hi: nat, low: int, top: int)
    requires LoopDone(unread, views, m, list) && Spanned(views, m, list, lo, hi, low, top)
    ensures Deep(list, low, Paging.WholePagesOf(unread))
  {
    assert Paging.ClampWindow(unread) <= m * Paging.PAGE ==> Paging.WholePagesOf(unread) <= m * Paging.PAGE;
    forall i | 0 <= i < Paging.WholePagesOf(unread) && i < |list| ensures list[i].createAt >= low {
      assert i == hi - 1 || list[i].createAt > list[hi - 1].createAt;
    }
  }

  /** The loop of the backfill is such a backfill, while the list grows at the front, by at most two pages between
      calls, whatever else is going on. */
  lemma LoopBackfills(s: State, unread: int, views: seq<Paging.View>, steps: seq<Step>, t: State, m: nat)
    requires Inv(s) && s.server != [] && steps != [] && Paging.FrontGrowth(views, 2 * Paging.PAGE)
    requires LoopFetch(s, views, 0, steps[0]) && LoopRun(s, s.clock, views, 0, steps, t, m)
    requires LoopDone(unread, views, m, t.server)
    ensures Backfills(s, Paging.WholePagesOf(unread), steps, t)
  {
    var step := steps[0];
    LoopStarts(s, views, step);
    CoreStep(s, step);
    var low, top := LoopRestFills(Next(s, step), s.clock, unread, views, steps[1..], t, m, s.server, step.to,
                                  s.server[step.to - 1].createAt);
    assert FillsTo(s, Paging.WholePagesOf(unread), steps, t, low, top);
  }

  lemma LoopRestFills(u: State, mark: int, unread: int, views: seq<Paging.View>, rest: seq<Step>, t: State, m: nat,
                      first: seq<Post>, to: nat, low: int)
    returns (low': int, top': int)
    requires Core(u) && Paging.FrontGrowth(views, 2 * Paging.PAGE) && Spanned(views, 1, first, 0, to, low, mark)
    requires LoopRun(u, mark, views, 1, rest, t, m) && LoopDone(unread, views, m, t.server)
    ensures FillRun(u, low, mark, rest, t, low', top') && Deep(t.server, low', Paging.WholePagesOf(unread))
  {
    var list, lo, hi;
    low', top', list, lo, hi := LoopRunFills(u, mark, views, 1, rest, t, m, first, 0, to, low, mark);
    assert list == t.server;
    LoopIsDeep(unread, views, m, list, lo, hi, low', top');
  }

  // ---- a window too short ------------------------------------------------------------------------------------

  /** A hole: `y` is not cached and nothing under way will bring it, it is not among the newest `n` posts, and the older
      `r` is live in the cache. */
  ghost predicate Passed(s: State, y: Post, r: Post, n: nat) {
    && Keyed(s.posts) && NewestFirst(s.server) && y.createAt > r.createAt && y.id != r.id
    && (exists k :: n <= k < |s.server| && s.server[k] == y) && r in s.server
    && !LiveRow(s.posts, y.id) && r.id in s.posts && s.posts[r.id] == r
    && y.id in s.born && r.id in s.born
    && (forall e :: e in s.queue ==> Subject(e) != y.id && Subject(e) != r.id)
    && (forall j, q :: j in s.jobs && q in s.jobs[j].left ==> q.id != y.id && q.id != r.id)
  }

  /** What leaves the hole alone: pages from within the newest `n` posts, as a backfill with that window and the
      reconciles fetch, and pages behind all rows, as history loads; everything else but deletions, and edits and
      ingests of the two posts. */
  ghost predicate Passes(s: State, y: Post, r: Post, n: nat, step: Step) {
    match step
    case ServerEdit(_, p) => p.id != y.id && p.id != r.id
    case ServerDelete(_, _) => false
    case Ingest(p) => p.id != y.id && p.id != r.id
    case Fetch(_, from, to) => to <= n || BehindRows(s, from)
    case _ => true
  }

  ghost predicate BehindRows(s: State, from: nat) {
    from < |s.server| && forall id :: id in s.posts ==> s.posts[id].createAt > s.server[from].createAt
  }

  lemma PassedStep(s: State, y: Post, r: Post, n: nat, step: Step)
    requires Passed(s, y, r, n) && ServerOk(s) && Enabled(s, step) && Passes(s, y, r, n, step)
    ensures Passed(Next(s, step), y, r, n)
  {
    match step
    case ServerPost(p) => PassedNews(s, y, r, n, p);
    case ServerEdit(i, p) => PassedEdit(s, y, r, n, i, p);
    case ApplyEvent => PassedEvent(s, y, r, n, step);
    case LoseEvent => PassedEvent(s, y, r, n, step);
    case Fetch(_, from, to) => PassedFetch(s, y, r, n, from, to);
    case _ => PassedRest(s, y, r, n, step);
  }

  lemma ServerKept(s: State, step: Step)
    requires ServerOk(s) && Enabled(s, step)
    ensures ServerOk(Next(s, step))
  {
    match step
    case ServerPost(p) => GrownList(s.server, p);
    case ServerEdit(i, p) => EditedList(s.server, i, p); assert s.server[i] in s.server;
    case ServerDelete(i, _) => ShortenedList(s.server, i);
    case Fetch(_, from, to) => assert s.server[to - 1] in s.server;
    case _ =>
  }

  lemma PassedRest(s: State, y: Post, r: Post, n: nat, step: Step)
    requires Passed(s, y, r, n) && ServerOk(s) && Enabled(s, step) && Passes(s, y, r, n, step)
    requires step.Connect? || step.Drop? || step.SetCursor? || step.Abandon? || step.UpsertOne? || step.Ingest?
    ensures Passed(Next(s, step), y, r, n)
  {
  }

  lemma PassedNews(s: State, y: Post, r: Post, n: nat, p: Post)
    requires Passed(s, y, r, n) && ServerOk(s) && Enabled(s, ServerPost(p))
    ensures Passed(Next(s, ServerPost(p)), y, r, n)
  {
    var k :| n <= k < |s.server| && s.server[k] == y;
    GrownList(s.server, p);
    InGrownList(s.server, p, n, k, r);
  }

  lemma InGrownList(server: seq<Post>, p: Post, n: nat, k: nat, r: Post)
    requires n <= k < |server| && r in server
    ensures exists i :: n <= i < |[p] + server| && ([p] + server)[i] == server[k]
    ensures r in [p] + server
  {
    assert ([p] + server)[k + 1] == server[k];
  }

  lemma GrownList(server: seq<Post>, p: Post)
    requires NewestFirst(server) && p.deleteAt == 0 && p.createAt > 0
    requires forall q :: q in server ==> q.createAt < p.createAt && q.id != p.id
    ensures NewestFirst([p] + server)
  {
    assert forall i :: 0 <= i < |server| ==> server[i] in server;
  }

  lemma PassedEdit(s: State, y: Post, r: Post, n: nat, i: nat, p: Post)
    requires Passed(s, y, r, n) && ServerOk(s) && Enabled(s, ServerEdit(i, p)) && p.id != y.id && p.id != r.id
    ensures Passed(Next(s, ServerEdit(i, p)), y, r, n)
  {
    var k :| n <= k < |s.server| && s.server[k] == y;
    EditedList(s.server, i, p);
    assert s.server[i] in s.server && s.server[i := p][k] == y;
  }

  lemma PassedEvent(s: State, y: Post, r: Post, n: nat, step: Step)
    requires Passed(s, y, r, n) && ServerOk(s) && Enabled(s, step) && (step.ApplyEvent? || step.LoseEvent?)
    ensures Passed(Next(s, step), y, r, n)
  {
    assert s.queue[0] in s.queue;
    assert forall e :: e in s.queue[1..] ==> e in s.queue;
  }

  lemma PassedFetch(s: State, y: Post, r: Post, n: nat, from: nat, to: nat)
    requires Passed(s, y, r, n) && from < to <= |s.server| && (to <= n || BehindRows(s, from))
    ensures forall q :: q in s.server[from..to] ==> q.id != y.id && q.id != r.id
  {
    var k :| n <= k < |s.server| && s.server[k] == y;
    var m :| 0 <= m < |s.server| && s.server[m] == r;
    assert k < m;
    assert to <= k || m < from by {
      assert BehindRows(s, from) ==> s.server[m].createAt > s.server[from].createAt;
    }
  }

  ghost predicate PassingRun(s: State, y: Post, r: Post, n: nat, steps: seq<Step>, t: State)
    decreases |steps|
  {
    if steps == [] then s == t
    else Enabled(s, steps[0]) && Passes(s, y, r, n, steps[0]) && PassingRun(Next(s, steps[0]), y, r, n, steps[1..], t)
  }

  /** The hole stays over every such run: no reconcile closes it, and history goes on behind it. */
  lemma {:induction false} HoleStays(s: State, y: Post, r: Post, n: nat, steps: seq<Step>, t: State)
    requires Passed(s, y, r, n) && ServerOk(s) && PassingRun(s, y, r, n, steps, t)
    ensures !GapFree(LiveSet(t.posts), t.server)
    decreases |steps|
  {
    if steps == [] {
      HoleShows(s, y, r, n);
    } else {
      PassedStep(s, y, r, n, steps[0]);
      ServerKept(s, steps[0]);
      HoleStays(Next(s, steps[0]), y, r, n, steps[1..], t);
    }
  }

  lemma HoleShows(s: State, y: Post, r: Post, n: nat)
    requires Passed(s, y, r, n)
    ensures !GapFree(LiveSet(s.posts), s.server)
  {
    assert r.deleteAt == 0;
    assert r in LiveSet(s.posts);
    assert y in LiveSet(s.posts) ==> LiveRow(s.posts, y.id);
  }

  /** A daemon starts: no connection, and nothing under way. The cache holds a block that `g` posts have come in front
      of. */
  ghost predicate OldCache(s: State, g: nat, hi: nat) {
    && Inv(s) && !s.connected && NothingInFlight(s) && g < hi <= |s.server|
    && LiveSet(s.posts) == Elems(s.server[g..hi])
  }

  /** A window too short leaves a hole for good. More posts have come in front of the cache than the window has. Then
      the backfill fetches its window and stores it, the stream comes and goes, posts are made and edited and ingested,
      events are applied or lost, reconciles skip the channel or fetch their page, and history is loaded: the cache is
      not gap-free at any moment, though the cursor, which a reconcile goes by, is past every page stored. */
  lemma ShortWindowLeavesHole(s: State, g: nat, hi: nat, unread: int, steps: seq<Step>, u: State)
    requires OldCache(s, g, hi) && g > Paging.WholePagesOf(unread)
    requires PassingRun(s, s.server[Paging.WholePagesOf(unread)], s.server[g], Paging.WholePagesOf(unread), steps, u)
    ensures !GapFree(LiveSet(u.posts), u.server)
    ensures forall step :: step in steps && step.SetCursor? ==> step.newest <= NewestSynced(u)
  {
    var n := Paging.WholePagesOf(unread);
    HoleIsThere(s, g, hi, n);
    HoleStays(s, s.server[n], s.server[g], n, steps, u);
    CursorPast(s, s.server[n], s.server[g], n, steps, u);
  }

  lemma HoleIsThere(s: State, g: nat, hi: nat, n: nat)
    requires OldCache(s, g, hi) && n < g
    ensures Passed(s, s.server[n], s.server[g], n) && ServerOk(s)
  {
    var y, r := s.server[n], s.server[g];
    assert s.server[g..hi][0] == r && r in LiveSet(s.posts);
    assert y in s.server && r in s.server;
    assert forall id :: LiveRow(s.posts, id) ==> s.posts[id] in LiveSet(s.posts) && s.posts[id].id == id;
    forall p | p in s.server[g..hi] ensures p.id != y.id {
      var k :| g <= k < hi && s.server[k] == p;
    }
  }

  lemma {:induction false} CursorPast(s: State, y: Post, r: Post, n: nat, steps: seq<Step>, t: State)
    requires PassingRun(s, y, r, n, steps, t)
    ensures NewestSynced(s) <= NewestSynced(t) || s.cursor.None?
    ensures s.cursor.Some? ==> t.cursor.Some?
    ensures forall step :: step in steps && step.SetCursor? ==> step.newest <= NewestSynced(t)
    decreases |steps|
  {
    if steps != [] {
      CursorPast(Next(s, steps[0]), y, r, n, steps[1..], t);
      assert steps == [steps[0]] + steps[1..];
    }
  }

  lemma Births(server: seq<Post>) returns (born: map<Id, int>)
    requires NewestFirst(server)
    ensures forall p :: p in server ==> p.id in born && born[p.id] == p.createAt
    ensures forall id :: id in born ==> exists p :: p in server && born[id] == p.createAt
  {
    ServerIdsDistinct(server);
    born := map p | p in server :: p.id := p.createAt;
  }

  /** Of a channel's list, only the oldest post is cached. */
  lemma OldestCached(server: seq<Post>, clock: int, born: map<Id, int>, r: Post) returns (s: State)
    requires NewestFirst(server) && r in server && 0 <= clock
    requires forall p :: p in server ==> p.id in born && born[p.id] == p.createAt
    requires forall id :: id in born ==> born[id] <= clock
    ensures s.server == server && Inv(s) && !s.connected && NothingInFlight(s) && LiveSet(s.posts) == {r}
  {
    s := State(server, clock, born, false, [], map[r.id := r], None, map[], r.createAt);
    assert s.posts[r.id] == r;
    assert born[r.id] <= clock;
  }

  /** All of the list has come in front of it. */
  lemma OldestIsOld(server: seq<Post>, clock: int, n: nat) returns (s: State)
    requires NewestFirst(server) && |server| == n + 1 && forall p :: p in server ==> p.createAt <= clock
    ensures OldCache(s, n, n + 1)
  {
    var r := server[n];
    assert r in server && r.createAt <= clock;
    var born := Births(server);
    s := OldestCached(server, clock, born, r);
    OneOf(server, n);
  }

  lemma OneOf(server: seq<Post>, n: nat)
    requires n < |server|
    ensures Elems(server[n..n + 1]) == {server[n]}
  {
    assert server[n..n + 1] == [server[n]];
  }

  /** Such a start: a channel of 202 posts, of which the oldest is cached and none is unread. */
  lemma ShortWindowExists() returns (s: State)
    ensures OldCache(s, 201, 202) && 201 > Paging.WholePagesOf(0)
  {
    Reader.NumberedNewestFirst(202);
    forall i | 0 <= i < 202 ensures Reader.Numbered(202)[i].createAt <= 202 {
      assert Reader.Numbered(202)[i] == Reader.NumberedPost(202 - i);
    }
    s := OldestIsOld(Reader.Numbered(202), 202, 201);
  }
}
