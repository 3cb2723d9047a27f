/** Gap-freedom over whole runs of the sync protocol. */
module ProtocolRuns {
  import opened Prelude
  import opened Model
  import opened Tables
  import opened Protocol

  /** A run of possible steps, each of which the environment keeps harmless. */
  ghost predicate Run(s: State, steps: seq<Step>, t: State)
    decreases |steps|
  {
    if steps == [] then s == t
    else Enabled(s, steps[0]) && Benign(s, steps[0]) && Run(Next(s, steps[0]), steps[1..], t)
  }

  /** The stream stays up, and no event is lost that alone would bring a missing post. */
  ghost predicate Heard(s: State, step: Step) {
    match step
    case Drop => false
    case LoseEvent =>
      s.queue != [] && var id := Subject(s.queue[0]);
        Last(s.queue[1..], id).None? ==> forall y :: Absent(s, y) ==> y.id != id
    case _ => true
  }

  ghost predicate ConnectedStep(s: State, step: Step) { Enabled(s, step) && Benign(s, step) && Heard(s, step) }

  /** A run during which the event stream stays connected, and brings what it announces. */
  ghost predicate ConnectedRun(s: State, steps: seq<Step>, t: State)
    decreases |steps|
  {
    && s.connected
    && if steps == [] then s == t else ConnectedStep(s, steps[0]) && ConnectedRun(Next(s, steps[0]), steps[1..], t)
  }

  lemma {:induction false} ConnectedIsRun(s: State, steps: seq<Step>, t: State)
    requires ConnectedRun(s, steps, t)
    ensures Run(s, steps, t) && t.connected
    decreases |steps|
  {
    if steps != [] {
      ConnectedIsRun(Next(s, steps[0]), steps[1..], t);
    }
  }

  ghost function LiveSet(posts: map<Id, Post>): set<Post> {
    set id | id in posts && posts[id].deleteAt == 0 :: posts[id]
  }

  ghost predicate NothingAbsent(s: State) { forall y :: !Absent(s, y) }

  /** Every page fetched is stored. */
  ghost predicate NothingInFlight(s: State) { forall j :: j in s.jobs ==> s.jobs[j].left == {} }

  ghost predicate HolesUpTo(s: State, time: int) { forall y :: Hole(s, y) ==> y.createAt <= time }

  ghost predicate AbsentSince(s: State, time: int) { forall y :: Absent(s, y) ==> y.createAt > time }

  /** At most `n` of the posts on the server were made after `time`. */
  ghost predicate GainedAtMost(s: State, time: int, n: nat) {
    |s.server| <= n || s.server[n].createAt <= time
  }

  ghost function NewestSynced(s: State): int { if s.cursor.Some? then s.cursor.value.newest else 0 }

  lemma {:induction false} RunKeeps(s: State, steps: seq<Step>, t: State)
    requires Inv(s) && Run(s, steps, t)
    ensures Inv(t)
    decreases |steps|
  {
    if steps != [] {
      StepKeeps(s, steps[0]);
      RunKeeps(Next(s, steps[0]), steps[1..], t);
    }
  }

  /** An empty cache in front of any server is a start. */
  lemma StartOk(server: seq<Post>, clock: int, born: map<Id, int>)
    requires NewestFirst(server) && 0 <= clock
    requires forall p :: p in server ==> p.id in born && p.createAt == born[p.id]
    requires forall id :: id in born ==> born[id] <= clock
    ensures var s := State(server, clock, born, false, [], map[], None, map[], clock + 1);
      Inv(s) && NothingAbsent(s)
  {
  }

  /** With every event applied, every page stored and nothing missing, the cache is gap-free. */
  lemma QuietIsGapFree(s: State)
    requires Inv(s) && s.queue == [] && NothingInFlight(s) && NothingAbsent(s)
    ensures GapFree(LiveSet(s.posts), s.server)
  {
    forall id | LiveRow(s.posts, id) ensures s.posts[id] in s.server {}
    forall y, r | y in s.server && r in LiveSet(s.posts) && r.createAt <= y.createAt
      ensures y in LiveSet(s.posts)
    {
      assert !Absent(s, y);
      assert LiveRow(s.posts, y.id);
      SameIdSamePost(s.server, y, s.posts[y.id]);
    }
  }

  lemma SameIdSamePost(server: seq<Post>, p: Post, q: Post)
    requires NewestFirst(server) && p in server && q in server && p.id == q.id
    ensures p == q
  {
    var i :| 0 <= i < |server| && server[i] == p;
    var j :| 0 <= j < |server| && server[j] == q;
    assert i == j;
  }

  // ---- what can newly be missing -----------------------------------------------------------------------------

  /** A step makes only the post it creates newly absent; an edit carries absence over to the new version. */
  lemma AbsentStep(s: State, step: Step, y: Post)
    requires Core(s) && (step.Fetch? ==> AbsentOk(s))
    requires Enabled(s, step) && Benign(s, step) && Absent(Next(s, step), y)
    ensures (step.ServerPost? && y == step.p) || (exists x :: Absent(s, x) && x.createAt == y.createAt && x.id == y.id)
  {
    var t := Next(s, step);
    match step
    case ServerPost(p) =>
      FlightKept(s, step, y.id);
      assert y == p || Absent(s, y);
    case ServerEdit(i, p) =>
      EditedList(s.server, i, p);
      FlightKept(s, step, y.id);
      assert Absent(s, if y == p then s.server[i] else y);
    case ServerDelete(i, at) =>
      ShortenedList(s.server, i);
      FlightKept(s, step, y.id);
      assert Absent(s, y);
    case ApplyEvent =>
      ApplyAbsent(s, y);
    case Ingest(p) =>
      FlightKept(s, step, y.id);
      assert Absent(s, y);
    case Fetch(job, from, to) =>
      FetchMissing(s, job, from, to, y);
    case UpsertOne(job, p) =>
      if InFlight(s, y.id) { StillInFlight(s, job, p, y.id); }
      assert Absent(s, y);
    case SetCursor(job, oldest, newest) =>
      if InFlight(s, y.id) { DoneFlight(s, job, t, y.id); }
      assert Absent(s, y);
    case Abandon(job) =>
      if InFlight(s, y.id) { DoneFlight(s, job, t, y.id); }
      assert Absent(s, y);
    case _ =>
      FlightKept(s, step, y.id);
      assert Absent(s, y);
  }

  lemma FlightKept(s: State, step: Step, id: Id)
    requires Enabled(s, step) && Next(s, step).jobs == s.jobs
    ensures InFlight(s, id) <==> InFlight(Next(s, step), id)
  {
  }

  lemma ApplyAbsent(s: State, y: Post)
    requires Core(s) && Enabled(s, ApplyEvent) && Absent(Next(s, ApplyEvent), y)
    ensures Absent(s, y)
  {
    FlightKept(s, ApplyEvent, y.id);
    var e := s.queue[0];
    assert e in s.queue;
    assert e.Deleted? ==> e.id != y.id;
  }

  /** While the stream is connected no hole opens: a new post comes with its event. */
  lemma HoleStep(s: State, step: Step, y: Post)
    requires Inv(s) && Enabled(s, step) && Benign(s, step) && s.connected && Heard(s, step)
    requires Hole(Next(s, step), y)
    ensures exists x :: Hole(s, x) && x.createAt == y.createAt && x.id == y.id
  {
    AbsentStep(s, step, y);
    var t := Next(s, step);
    if step.ApplyEvent? {
      ApplyAbsent(s, y);
      LastOfRest(s.queue, y.id);
      assert s.queue[0] in s.queue;
      assert Hole(s, y);
    } else if step.LoseEvent? {
      FlightKept(s, step, y.id);
      LastOfRest(s.queue, y.id);
      assert Hole(s, y);
    } else {
      EventsKept(s, step, y.id);
      assert step.ServerPost? ==> y != step.p;
      var x :| Absent(s, x) && x.createAt == y.createAt && x.id == y.id;
      assert Hole(s, x);
    }
  }

  lemma EventsKept(s: State, step: Step, id: Id)
    requires Enabled(s, step) && s.connected && !step.ApplyEvent? && !step.LoseEvent? && step != Drop
    ensures Last(Next(s, step).queue, id).None? ==> Last(s.queue, id).None?
    ensures step.ServerPost? ==> Last(Next(s, step).queue, step.p.id).Some?
  {
    match step
    case ServerPost(p) => LastAnnounced(s.queue, Posted(p));
    case ServerEdit(i, p) => LastAnnounced(s.queue, Edited(p));
    case ServerDelete(i, at) => LastAnnounced(s.queue, Deleted(s.server[i].id, at));
    case _ =>
  }

  lemma {:induction false} ConnectedRunKeepsHoles(s: State, steps: seq<Step>, t: State, time: int)
    requires Inv(s) && ConnectedRun(s, steps, t) && HolesUpTo(s, time)
    ensures Inv(t) && t.connected && HolesUpTo(t, time)
    decreases |steps|
  {
    if steps != [] {
      var u := Next(s, steps[0]);
      StepKeeps(s, steps[0]);
      forall y | Hole(u, y) ensures y.createAt <= time {
        HoleStep(s, steps[0], y);
      }
      ConnectedRunKeepsHoles(u, steps[1..], t, time);
    }
  }

  /** Whatever is missing at the end of a run in which nothing was missing at first was posted during the run. */
  lemma {:induction false} RunMissesNewPostsOnly(s: State, steps: seq<Step>, t: State, time: int)
    requires Inv(s) && Run(s, steps, t) && AbsentSince(s, time) && time <= s.clock
    ensures Inv(t) && AbsentSince(t, time)
    decreases |steps|
  {
    if steps != [] {
      var u := Next(s, steps[0]);
      StepKeeps(s, steps[0]);
      forall y | Absent(u, y) ensures y.createAt > time {
        AbsentStep(s, steps[0], y);
      }
      RunMissesNewPostsOnly(u, steps[1..], t, time);
    }
  }

  // ---- reconcile ---------------------------------------------------------------------------------------------

  /** What `Reconcile` does for a channel it listed with `lastPostAt`: skip it, find it empty, or fetch one page. */
  ghost predicate Reconciles(s: State, lastPostAt: int, t: State) {
    if lastPostAt <= NewestSynced(s) || s.server == [] then t == s
    else
      exists job: nat :: job !in s.jobs && t == Next(s, Fetch(job, 0, Min(CATCH_UP, |s.server|)))
  }

  /** The skip is safe: had the channel a hole from before the listing, it would be newer than the cursor. */
  lemma SkipIsSafe(s: State, lastPostAt: int)
    requires Inv(s) && HolesUpTo(s, lastPostAt) && lastPostAt <= NewestSynced(s)
    ensures HolesUpTo(s, 0)
  {
    assert forall y :: Absent(s, y) ==> y.createAt > lastPostAt;
  }

  /** One catch-up page reaches everything that is missing if at most 60 posts were gained since nothing was. */
  lemma CatchUpReaches(s: State, job: nat, time: int)
    requires Inv(s) && s.server != [] && job !in s.jobs
    requires AbsentSince(s, time) && GainedAtMost(s, time, CATCH_UP)
    ensures var step := Fetch(job, 0, Min(CATCH_UP, |s.server|));
      Benign(s, step) && Inv(Next(s, step)) && NothingAbsent(Next(s, step))
  {
    var n := Min(CATCH_UP, |s.server|);
    var step := Fetch(job, 0, n);
    forall i | n <= i < |s.server| ensures !Absent(s, s.server[i]) {
      assert i == CATCH_UP || s.server[i].createAt < s.server[CATCH_UP].createAt;
    }
    StepKeeps(s, step);
    forall y ensures !Absent(Next(s, step), y) {
      if Absent(Next(s, step), y) {
        CatchUpMissing(s, job, n, y);
      }
    }
  }

  lemma CatchUpMissing(s: State, job: nat, n: nat, y: Post)
    requires Inv(s) && Enabled(s, Fetch(job, 0, n)) && Benign(s, Fetch(job, 0, n))
    ensures !Absent(Next(s, Fetch(job, 0, n)), y)
  {
    assert s.server[0] == s.server[0..n][0];
    forall x | x in s.server ensures x.createAt <= s.server[0].createAt {
      var k :| 0 <= k < |s.server| && s.server[k] == x;
    }
    if Absent(Next(s, Fetch(job, 0, n)), y) {
      FetchMissing(s, job, 0, n, y);
      assert false;
    }
  }

  /** Reconciling a channel on a connected stream leaves no hole, whether it skips the channel or not. */
  lemma ReconcileClosesHoles(s: State, lastPostAt: int, t: State, time: int)
    requires Inv(s) && s.connected && Reconciles(s, lastPostAt, t)
    requires HolesUpTo(s, lastPostAt) && AbsentSince(s, time) && GainedAtMost(s, time, CATCH_UP)
    ensures Inv(t) && t.connected && HolesUpTo(t, 0)
  {
    if lastPostAt <= NewestSynced(s) {
      SkipIsSafe(s, lastPostAt);
    } else if s.server != [] {
      var job: nat :| job !in s.jobs && t == Next(s, Fetch(job, 0, Min(CATCH_UP, |s.server|)));
      CatchUpReaches(s, job, time);
    }
  }

  /** The protocol's promise. Nothing made up to `time` is missing in `s0`. Any benign run follows: the stream may drop
      and reconnect, posts are made and applied, handlers fail, pages are fetched and stored. On the new connection the
      channel is listed (`s1`) and, any connected steps later (`s2`), reconciled, when at most 60 of its posts are newer
      than `time`. Then, as long as the connection lasts and loses no post, whenever the events are applied and the
      pages stored (`s3`), the cache is gap-free. */
  lemma ReconnectRestoresGapFreedom(
    s0: State, time: int, offline: seq<Step>, s1: State, listing: seq<Step>, s2: State, s2': State, after: seq<Step>,
    s3: State)
    requires Inv(s0) && AbsentSince(s0, time) && time <= s0.clock
    requires Run(s0, offline, s1)
    requires ConnectedRun(s1, listing, s2)
    requires Reconciles(s2, s1.clock, s2') && GainedAtMost(s2, time, CATCH_UP)
    requires ConnectedRun(s2', after, s3)
    requires s3.queue == [] && NothingInFlight(s3)
    ensures GapFree(LiveSet(s3.posts), s3.server)
  {
    RunKeeps(s0, offline, s1);
    assert HolesUpTo(s1, s1.clock);
    ConnectedRunKeepsHoles(s1, listing, s2, s1.clock);
    RunMissesNewPostsOnly(s0, offline, s1, time);
    ClockRises(s0, offline, s1);
    ConnectedIsRun(s1, listing, s2);
    RunMissesNewPostsOnly(s1, listing, s2, time);
    ReconcileClosesHoles(s2, s1.clock, s2', time);
    ConnectedRunKeepsHoles(s2', after, s3, 0);
    forall y ensures !Absent(s3, y) {
      assert Absent(s3, y) ==> Hole(s3, y);
    }
    QuietIsGapFree(s3);
  }

  lemma {:induction false} ClockRises(s: State, steps: seq<Step>, t: State)
    requires Run(s, steps, t)
    ensures s.clock <= t.clock
    decreases |steps|
  {
    if steps != [] {
      ClockRises(Next(s, steps[0]), steps[1..], t);
    }
  }

  // ---- the daemon's other pages ------------------------------------------------------------------------------

  /** A page that starts behind a covered post no newer than the cursor is harmless, whatever is missing in front of
      it: so every page of history below the synced posts, and of a backfill below its first. */
  lemma PageBelowCursorIsBenign(s: State, job: nat, from: nat, to: nat)
    requires Inv(s) && Enabled(s, Fetch(job, from, to)) && from > 0 && s.cursor.Some?
    requires s.floor <= s.server[from - 1].createAt <= s.cursor.value.newest
    ensures Benign(s, Fetch(job, from, to)) && PageAbuts(s, from, to)
  {
    AnchoredAbuts(s, from, to);
  }

  /** So is a page behind a post of a page that is still being stored. */
  lemma PageBelowJobIsBenign(s: State, job: nat, from: nat, to: nat, j: nat, q: Post)
    requires Inv(s) && Enabled(s, Fetch(job, from, to)) && from > 0
    requires j in s.jobs && q in s.jobs[j].page && q.createAt == s.server[from - 1].createAt
    ensures Benign(s, Fetch(job, from, to)) && PageAbuts(s, from, to)
  {
    assert Known(s, q);
    AnchoredAbuts(s, from, to);
  }

  /** A page from the top is, when the post behind it is no newer than the cursor. */
  lemma PageDownToCursorIsBenign(s: State, job: nat, to: nat)
    requires Inv(s) && Enabled(s, Fetch(job, 0, to)) && s.cursor.Some?
    requires GainedAtMost(s, s.cursor.value.newest, to)
    ensures Benign(s, Fetch(job, 0, to)) && PageAbuts(s, 0, to)
  {
    AnchoredAbuts(s, 0, to);
  }

  /** And any page with nothing missing on it or behind it that starts right below a post that is stored or on its way,
      as below the oldest row of a channel that was never paged. */
  lemma PageBelowStoredIsBenign(s: State, job: nat, from: nat, to: nat)
    requires Inv(s) && Enabled(s, Fetch(job, from, to))
    requires forall i :: from <= i < |s.server| ==> !Absent(s, s.server[i])
    requires from == 0 || s.server[from - 1].id in s.posts || InFlight(s, s.server[from - 1].id)
    ensures Benign(s, Fetch(job, from, to))
    ensures forall y :: Absent(Next(s, Fetch(job, from, to)), y) ==> Absent(s, y)
  {
    if from > 0 {
      var p := s.server[from - 1];
      assert p in s.server;
      if InFlight(s, p.id) {
        var j, q :| j in s.jobs && q in s.jobs[j].left && q.id == p.id;
        assert Known(s, q);
      }
    }
    assert Benign(s, Fetch(job, from, to));
    forall y | Absent(Next(s, Fetch(job, from, to)), y) ensures Absent(s, y) {
      FetchMissing(s, job, from, to, y);
    }
  }

  // ---- cursors -----------------------------------------------------------------------------------------------

  /** Any possible run: pages may be abandoned half stored, and the environment may do what it likes. */
  ghost predicate PossibleRun(s: State, steps: seq<Step>, t: State)
    decreases |steps|
  {
    if steps == [] then s == t
    else Enabled(s, steps[0]) && PossibleRun(Next(s, steps[0]), steps[1..], t)
  }

  ghost predicate BornWith(s: State, p: Post) { p.id in s.born && p.createAt == s.born[p.id] }

  /** Everything that names a post has its create time, and what a page no longer owes is stored. */
  ghost predicate Dated(s: State) {
    && (forall id :: id in s.posts ==> s.posts[id].id == id && BornWith(s, s.posts[id]))
    && (forall p :: p in s.server ==> BornWith(s, p))
    && (forall e :: e in s.queue ==> e.Deleted? || BornWith(s, e.post))
    && (forall j, p :: j in s.jobs && p in s.jobs[j].page ==>
          BornWith(s, p) && (p.id in s.posts || p in s.jobs[j].left))
    && (forall j, p :: j in s.jobs && p in s.jobs[j].left ==> p in s.jobs[j].page)
  }

  ghost predicate CursorAdvances(s: State, t: State) {
    s.cursor.Some? ==>
      t.cursor.Some? && t.cursor.value.oldest <= s.cursor.value.oldest && s.cursor.value.newest <= t.cursor.value.newest
  }

  lemma DatedServer(s: State, step: Step, p: Post)
    requires Dated(s) && Enabled(s, step) && p in Next(s, step).server
    ensures BornWith(Next(s, step), p)
  {
    if step.ServerEdit? {
      assert s.server[step.i] in s.server;
      assert p == step.p || p in s.server;
    } else if step.ServerDelete? {
      assert p in s.server;
    }
  }

  lemma DatedQueue(s: State, step: Step, e: Event)
    requires Dated(s) && Enabled(s, step) && e in Next(s, step).queue && !e.Deleted?
    ensures BornWith(Next(s, step), e.post)
  {
    if step.ServerEdit? {
      assert s.server[step.i] in s.server;
      assert e in s.queue || e.post == step.p;
    } else if step.ServerPost? {
      assert e in s.queue || e.post == step.p;
    } else {
      assert e in s.queue;
    }
  }

  lemma DatedJobs(s: State, step: Step, j: nat, p: Post)
    requires Dated(s) && Enabled(s, step)
    requires var t := Next(s, step); j in t.jobs && p in t.jobs[j].page
    ensures var t := Next(s, step); BornWith(t, p) && (p.id in t.posts || p in t.jobs[j].left)
  {
    if step.Fetch? && j == step.job {
      assert p in s.server[step.from..step.to];
      assert p in s.server;
    }
    if step.ApplyEvent? {
      assert s.queue[0] in s.queue;
    }
  }

  lemma DatedStep(s: State, step: Step)
    requires Dated(s) && Enabled(s, step)
    ensures Dated(Next(s, step))
  {
    var t := Next(s, step);
    forall id | id in t.posts ensures t.posts[id].id == id && BornWith(t, t.posts[id]) {  }
    forall p | p in t.server ensures BornWith(t, p) { DatedServer(s, step, p); }
    forall e | e in t.queue ensures e.Deleted? || BornWith(t, e.post) { if !e.Deleted? { DatedQueue(s, step, e); } }
    forall j, p | j in t.jobs && p in t.jobs[j].page
      ensures BornWith(t, p) && (p.id in t.posts || p in t.jobs[j].left)
    {
      DatedJobs(s, step, j, p);
    }
  }

  /** Rows are never removed and never change their create time. */
  lemma RowsStay(s: State, step: Step, id: Id)
    requires Dated(s) && Enabled(s, step) && id in s.posts
    ensures var t := Next(s, step); id in t.posts && t.posts[id].createAt == s.posts[id].createAt
  {
    if step.ApplyEvent? {
      assert s.queue[0] in s.queue;
    }
  }

  /** Only a page that is stored moves the cursor, and it moves it onto stored posts. */
  lemma CursorStep(s: State, step: Step)
    requires Dated(s) && CursorOk(s) && Enabled(s, step)
    ensures CursorOk(Next(s, step)) && CursorAdvances(s, Next(s, step))
    ensures !step.SetCursor? ==> Next(s, step).cursor == s.cursor
  {
    var t := Next(s, step);
    if s.cursor.Some? {
      var a :| a in s.posts && s.posts[a].createAt == s.cursor.value.oldest;
      var b :| b in s.posts && s.posts[b].createAt == s.cursor.value.newest;
      RowsStay(s, step, a);
      RowsStay(s, step, b);
    }
    if step.SetCursor? {
      var page := s.jobs[step.job].page;
      var p :| p in page && p.createAt == step.oldest;
      var q :| q in page && q.createAt == step.newest;
      assert p.id in t.posts && q.id in t.posts;
    }
  }

  /** In every reachable state stored posts sit at both ends of the cursor, it only widens, and a reconcile that skips
      a channel does so because a post at least as new as the channel's last one is stored. */
  lemma {:induction false} CursorsFollowStoredPosts(s: State, steps: seq<Step>, t: State, lastPostAt: int)
    requires Dated(s) && CursorOk(s) && PossibleRun(s, steps, t)
    ensures Dated(t) && CursorOk(t) && CursorAdvances(s, t)
    ensures 0 < lastPostAt <= NewestSynced(t) ==> exists id :: id in t.posts && t.posts[id].createAt >= lastPostAt
    decreases |steps|
  {
    if steps != [] {
      DatedStep(s, steps[0]);
      CursorStep(s, steps[0]);
      CursorsFollowStoredPosts(Next(s, steps[0]), steps[1..], t, lastPostAt);
    }
  }
}