/** The sync protocol of one channel as a state machine: the server, the event stream, and the cache.
    Every step is one server action, one page fetch, or one SQL statement or transaction of the daemon, so all the
    daemon's goroutines and the server interleave freely. */
module Protocol {
  import opened Prelude
  import opened Model
  import opened Tables

  datatype Event = Posted(post: Post) | Edited(post: Post) | Deleted(id: Id, at: int)

  function Subject(e: Event): Id { if e.Deleted? then e.id else e.post.id }

  /** A page between its fetch and its cursor update: all of it, and what is not upserted yet. */
  datatype Job = Job(page: set<Post>, left: set<Post>)

  /** `clock` is the create time of the newest post ever made (the server's LastPostAt), `born` the create time of
      every id ever used, `floor` a lower bound on everything the daemon was ever told of: history variables. */
  datatype State = State(
    server: seq<Post>, clock: int, born: map<Id, int>,
    connected: bool, queue: seq<Event>,
    posts: map<Id, Post>, cursor: Option<Cursor>, jobs: map<nat, Job>, floor: int)

  datatype Step =
    | ServerPost(p: Post)
    | ServerEdit(i: nat, p: Post)
    | ServerDelete(i: nat, at: int)
    | Connect
    | Drop
    | ApplyEvent
    | LoseEvent
    | Ingest(p: Post)
    | Fetch(job: nat, from: nat, to: nat)
    | UpsertOne(job: nat, p: Post)
    | SetCursor(job: nat, oldest: int, newest: int)
    | Abandon(job: nat)

  // ---- the server's list -------------------------------------------------------------------------------------

  ghost predicate OnServer(server: seq<Post>, id: Id) { exists p :: p in server && p.id == id }

  function RemoveAt<T>(s: seq<T>, i: nat): seq<T>
    requires i < |s|
  {
    s[..i] + s[i + 1..]
  }

  // ---- steps -------------------------------------------------------------------------------------------------

  function Announce(s: State, e: Event): seq<Event> { if s.connected then s.queue + [e] else s.queue }

  function ApplyTo(posts: map<Id, Post>, e: Event): map<Id, Post> {
    match e
    case Posted(p) => PutPost(posts, p)
    case Edited(p) => PutPost(posts, p)
    case Deleted(id, at) => MarkDeleted(posts, id, at)
  }

  function Merge(cursor: Option<Cursor>, oldest: int, newest: int): Cursor {
    if cursor.None? then Cursor(oldest, newest)
    else Cursor(Min(cursor.value.oldest, oldest), Max(cursor.value.newest, newest))
  }

  /** The step can happen at all. An IPC ingest carries any version of a post the server ever sent. When the handler of
      an event fails, the error is recorded and the event is lost; a handler that fails after it wrote the row has
      applied the event. */
  ghost predicate Enabled(s: State, step: Step) {
    match step
    case ServerPost(p) => p.id !in s.born && p.createAt > s.clock && p.deleteAt == 0
    case ServerEdit(i, p) =>
      i < |s.server| && p.id == s.server[i].id && p.createAt == s.server[i].createAt && p.deleteAt == 0
    case ServerDelete(i, at) => i < |s.server| && at > 0
    case Connect => !s.connected
    case Drop => s.connected
    case ApplyEvent => s.connected && s.queue != []
    case LoseEvent => s.connected && s.queue != []
    case Ingest(p) => p.id in s.born && p.createAt == s.born[p.id] && p.deleteAt == 0
    case Fetch(job, from, to) => job !in s.jobs && from < to <= |s.server|
    case UpsertOne(job, p) => job in s.jobs && p in s.jobs[job].left
    case SetCursor(job, oldest, newest) =>
      job in s.jobs && s.jobs[job].left == {} && PageBounds(s.jobs[job].page, oldest, newest)
    case Abandon(job) => job in s.jobs
  }

  ghost function Next(s: State, step: Step): State
    requires Enabled(s, step)
  {
    match step
    case ServerPost(p) =>
      s.(server := [p] + s.server, clock := p.createAt, born := s.born[p.id := p.createAt],
         queue := Announce(s, Posted(p)))
    case ServerEdit(i, p) => s.(server := s.server[i := p], queue := Announce(s, Edited(p)))
    case ServerDelete(i, at) =>
      s.(server := RemoveAt(s.server, i), queue := Announce(s, Deleted(s.server[i].id, at)))
    case Connect => s.(connected := true, queue := [])
    case Drop => s.(connected := false, queue := [])
    case ApplyEvent => s.(posts := ApplyTo(s.posts, s.queue[0]), queue := s.queue[1..])
    case LoseEvent => s.(queue := s.queue[1..])
    case Ingest(p) => s.(posts := PutPost(s.posts, p))
    case Fetch(job, from, to) =>
      var page := Elems(s.server[from..to]);
      s.(jobs := s.jobs[job := Job(page, page)], floor := Min(s.floor, s.server[to - 1].createAt))
    case UpsertOne(job, p) =>
      s.(posts := PutPost(s.posts, p), jobs := s.jobs[job := Job(s.jobs[job].page, s.jobs[job].left - {p})])
    case SetCursor(job, oldest, newest) =>
      s.(cursor := Some(Merge(s.cursor, oldest, newest)), jobs := s.jobs - {job})
    case Abandon(job) => s.(jobs := s.jobs - {job})
  }

  // ---- what the daemon still owes the cache ------------------------------------------------------------------

  ghost predicate LiveRow(posts: map<Id, Post>, id: Id) { id in posts && posts[id].deleteAt == 0 }

  ghost predicate InFlight(s: State, id: Id) {
    exists j, p :: j in s.jobs && p in s.jobs[j].left && p.id == id
  }

  /** A live server post the cache should hold, by its age, and neither holds nor is about to get from a page. */
  ghost predicate Absent(s: State, y: Post) {
    y in s.server && y.createAt >= s.floor && !LiveRow(s.posts, y.id) && !InFlight(s, y.id)
  }

  /** The last queued event about a post. */
  ghost function Last(queue: seq<Event>, id: Id): Option<Event> {
    if queue == [] then None
    else if Subject(queue[|queue| - 1]) == id then Some(queue[|queue| - 1])
    else Last(queue[..|queue| - 1], id)
  }

  /** A post no queued event will bring either. */
  ghost predicate Hole(s: State, y: Post) { Absent(s, y) && Last(s.queue, y.id).None? }

  /** What has to hold of the environment for a step not to damage the cache. */
  ghost predicate Benign(s: State, step: Step) {
    match step
    case ServerEdit(i, p) =>
      i < |s.server| && !InFlight(s, p.id) && if s.connected then p.createAt >= s.floor else !LiveRow(s.posts, p.id)
    case ServerDelete(i, at) =>
      i < |s.server| && !InFlight(s, s.server[i].id) && (s.connected || !LiveRow(s.posts, s.server[i].id))
    case Drop => forall id :: LiveRow(s.posts, id) && Last(s.queue, id).Some? ==> s.posts[id] in s.server
    case LoseEvent =>
      s.queue != [] && var id := Subject(s.queue[0]);
        LiveRow(s.posts, id) && Last(s.queue[1..], id).None? ==> s.posts[id] in s.server
    case Ingest(p) => p in s.server && p.createAt >= s.floor
    case Fetch(job, from, to) => from < to <= |s.server| && (Anchored(s, from, to) || PageAbuts(s, from, to))
    case Abandon(job) => job in s.jobs && s.jobs[job].left == {}
    case _ => true
  }

  /** A page has been fetched, or the cursor moved, that holds a post at least as new as `time`. */
  ghost predicate Synced(s: State, time: int) {
    || (s.cursor.Some? && time <= s.cursor.value.newest)
    || exists j, q :: j in s.jobs && q in s.jobs[j].page && time <= q.createAt
  }

  /** The page starts at the top or behind a covered post, and reaches down to what was synced before, or to the end.
      It is so of every page behind a post of an earlier page: the later pages of a backfill, and history. */
  ghost predicate Anchored(s: State, from: nat, to: nat)
    requires from < to <= |s.server|
  {
    && (from > 0 ==> s.server[from - 1].createAt >= s.floor)
    && (to < |s.server| ==> Synced(s, s.server[to].createAt))
  }

  /** The page touches what is covered, and nothing older than the page is missing. */
  ghost predicate PageAbuts(s: State, from: nat, to: nat)
    requires from < to <= |s.server|
  {
    && (from > 0 ==> s.server[from - 1].createAt >= s.floor)
    && (forall i :: to <= i < |s.server| ==> !Absent(s, s.server[i]))
  }

  // ---- the invariant -----------------------------------------------------------------------------------------

  ghost predicate Known(s: State, p: Post) { p.id in s.born && p.createAt == s.born[p.id] && p.createAt >= s.floor }

  ghost predicate ServerOk(s: State) {
    && NewestFirst(s.server)
    && (forall p :: p in s.server ==> p.id in s.born && p.createAt == s.born[p.id])
    && (forall id :: id in s.born ==> s.born[id] <= s.clock)
    && 0 <= s.clock && s.floor <= s.clock + 1
  }

  ghost predicate RowsOk(s: State) {
    Keyed(s.posts) && forall id :: id in s.posts ==> Known(s, s.posts[id])
  }

  ghost predicate QueueOk(s: State) {
    && (!s.connected ==> s.queue == [])
    && (forall e :: e in s.queue ==>
          if e.Deleted? then e.id in s.born && !OnServer(s.server, e.id) && e.at > 0
          else Known(s, e.post) && e.post.deleteAt == 0)
    && (forall id :: Last(s.queue, id).Some? && !Last(s.queue, id).value.Deleted? ==>
          Last(s.queue, id).value.post in s.server)
  }

  ghost predicate JobsOk(s: State) {
    && (forall j :: j in s.jobs ==> s.jobs[j].left <= s.jobs[j].page)
    && (forall j, p :: j in s.jobs && p in s.jobs[j].page ==> Known(s, p) && (p.id in s.posts || p in s.jobs[j].left))
    && (forall j, p :: j in s.jobs && p in s.jobs[j].left ==> p in s.server)
  }

  /** A live row no queued event speaks of is what the server has. */
  ghost predicate CacheOk(s: State) {
    forall id :: LiveRow(s.posts, id) && Last(s.queue, id).None? ==> s.posts[id] in s.server
  }

  /** Whatever is missing is newer than every page fetched, hence newer than the cursor. */
  ghost predicate AbsentOk(s: State) {
    forall y :: Absent(s, y) ==>
      && (forall j, q :: j in s.jobs && q in s.jobs[j].page ==> y.createAt > q.createAt)
      && (s.cursor.Some? ==> y.createAt > s.cursor.value.newest)
  }

  /** The cursor speaks of stored posts. */
  ghost predicate CursorOk(s: State) {
    s.cursor.Some? ==>
      && (exists id :: id in s.posts && s.posts[id].createAt == s.cursor.value.oldest)
      && (exists id :: id in s.posts && s.posts[id].createAt == s.cursor.value.newest)
  }

  /** All but what is said of missing posts. */
  ghost predicate Core(s: State) {
    ServerOk(s) && RowsOk(s) && QueueOk(s) && JobsOk(s) && CacheOk(s) && CursorOk(s)
  }

  ghost predicate Inv(s: State) { Core(s) && AbsentOk(s) }

  // ---- events ------------------------------------------------------------------------------------------------

  lemma {:induction false} LastIn(queue: seq<Event>, id: Id)
    ensures Last(queue, id).Some? ==> Last(queue, id).value in queue && Subject(Last(queue, id).value) == id
    ensures Last(queue, id).None? ==> forall e :: e in queue ==> Subject(e) != id
  {
    if queue != [] {
      LastIn(queue[..|queue| - 1], id);
      assert queue == queue[..|queue| - 1] + [queue[|queue| - 1]];
    }
  }

  /** Taking the oldest event off the queue changes the last word only on a post it was the only word on. */
  lemma {:induction false} LastOfRest(queue: seq<Event>, id: Id)
    requires queue != []
    ensures Last(queue, id) ==
      if Last(queue[1..], id).Some? then Last(queue[1..], id)
      else if Subject(queue[0]) == id then Some(queue[0]) else None
  {
    if |queue| > 1 {
      LastOfRest(queue[..|queue| - 1], id);
      assert queue[..|queue| - 1][1..] == queue[1..][..|queue| - 2];
    }
  }

  lemma LastOfAnnounced(queue: seq<Event>, e: Event, id: Id)
    ensures Last(queue + [e], id) == if Subject(e) == id then Some(e) else Last(queue, id)
  {
    assert (queue + [e])[..|queue|] == queue;
  }

  lemma LastAnnounced(queue: seq<Event>, e: Event)
    ensures forall id :: Last(queue + [e], id) == if Subject(e) == id then Some(e) else Last(queue, id)
  {
    forall id ensures Last(queue + [e], id) == if Subject(e) == id then Some(e) else Last(queue, id) {
      LastOfAnnounced(queue, e, id);
    }
  }

  // ---- every benign step keeps the invariant -----------------------------------------------------------------

  lemma ServerPostFacts(s: State, p: Post)
    requires ServerOk(s) && RowsOk(s) && QueueOk(s) && Enabled(s, ServerPost(p))
    ensures var t := Next(s, ServerPost(p)); ServerOk(t) && RowsOk(t) && QueueOk(t)
  {
    LastAnnounced(s.queue, Posted(p));
  }

  lemma ServerPostCover(s: State, p: Post)
    requires RowsOk(s) && JobsOk(s) && CacheOk(s) && Enabled(s, ServerPost(p))
    ensures var t := Next(s, ServerPost(p)); JobsOk(t) && CacheOk(t)
  {
    LastAnnounced(s.queue, Posted(p));
  }

  /** A new post is the one thing that can newly be missing, and it is newer than every page. */
  lemma ServerPostAbsent(s: State, p: Post)
    requires ServerOk(s) && RowsOk(s) && JobsOk(s) && CursorOk(s) && AbsentOk(s) && Enabled(s, ServerPost(p))
    ensures AbsentOk(Next(s, ServerPost(p)))
  {
    var t := Next(s, ServerPost(p));
    forall y | Absent(t, y) ensures y == p || Absent(s, y) {
      if InFlight(s, y.id) {
        assert InFlight(t, y.id);
      }
    }
  }

  lemma EditedList(server: seq<Post>, i: nat, p: Post)
    requires NewestFirst(server) && i < |server|
    requires p.id == server[i].id && p.createAt == server[i].createAt && p.deleteAt == 0
    ensures NewestFirst(server[i := p])
    ensures forall q :: q in server[i := p] <==> q == p || (q in server && q.id != p.id)
  {
    var server' := server[i := p];
    assert server[i] in server;
    forall q | q in server && q.id != p.id ensures q in server' {
      var k :| 0 <= k < |server| && server[k] == q;
      assert server'[k] == q;
    }
    assert server'[i] == p;
  }

  lemma ServerEditFacts(s: State, i: nat, p: Post)
    requires ServerOk(s) && RowsOk(s) && QueueOk(s) && Enabled(s, ServerEdit(i, p)) && Benign(s, ServerEdit(i, p))
    ensures var t := Next(s, ServerEdit(i, p)); ServerOk(t) && RowsOk(t) && QueueOk(t)
  {
    LastAnnounced(s.queue, Edited(p));
    EditedList(s.server, i, p);
    assert s.server[i] in s.server;
    forall id | Last(s.queue, id).Some? ensures Subject(Last(s.queue, id).value) == id {
      LastIn(s.queue, id);
    }
  }

  lemma ServerEditCover(s: State, i: nat, p: Post)
    requires ServerOk(s) && RowsOk(s) && JobsOk(s) && CacheOk(s)
    requires Enabled(s, ServerEdit(i, p)) && Benign(s, ServerEdit(i, p))
    ensures var t := Next(s, ServerEdit(i, p)); JobsOk(t) && CacheOk(t)
  {
    LastAnnounced(s.queue, Edited(p));
    EditedList(s.server, i, p);
    forall j, q | j in s.jobs && q in s.jobs[j].left ensures q in s.server[i := p] {
      assert q.id == p.id ==> InFlight(s, p.id);
    }
  }

  lemma ServerEditAbsent(s: State, i: nat, p: Post)
    requires ServerOk(s) && AbsentOk(s) && Enabled(s, ServerEdit(i, p))
    ensures AbsentOk(Next(s, ServerEdit(i, p)))
  {
    var t := Next(s, ServerEdit(i, p));
    EditedList(s.server, i, p);
    forall y | Absent(t, y) ensures Absent(s, if y == p then s.server[i] else y) {
      assert InFlight(s, y.id) ==> InFlight(t, y.id);
    }
  }

  lemma ShortenedList(server: seq<Post>, i: nat)
    requires NewestFirst(server) && i < |server|
    ensures NewestFirst(RemoveAt(server, i))
    ensures forall q :: q in RemoveAt(server, i) <==> q in server && q.id != server[i].id
  {
    RemoveAtIs(server, i);
    var server' := RemoveAt(server, i);
    forall q | q in server && q.id != server[i].id ensures q in server' {
      var k :| 0 <= k < |server| && server[k] == q;
      assert server'[if k < i then k else k - 1] == q;
    }
  }

  lemma RemoveAtIs(server: seq<Post>, i: nat)
    requires i < |server|
    ensures |RemoveAt(server, i)| == |server| - 1
    ensures forall k :: 0 <= k < |server| - 1 ==> RemoveAt(server, i)[k] == server[if k < i then k else k + 1]
  {
  }

  lemma ServerDeleteFacts(s: State, i: nat, at: int)
    requires ServerOk(s) && RowsOk(s) && QueueOk(s) && Enabled(s, ServerDelete(i, at))
    ensures var t := Next(s, ServerDelete(i, at)); ServerOk(t) && RowsOk(t) && QueueOk(t)
  {
    LastAnnounced(s.queue, Deleted(s.server[i].id, at));
    ShortenedList(s.server, i);
    assert s.server[i] in s.server;
    forall id | Last(s.queue, id).Some? ensures Subject(Last(s.queue, id).value) == id {
      LastIn(s.queue, id);
    }
  }

  lemma ServerDeleteCover(s: State, i: nat, at: int)
    requires ServerOk(s) && RowsOk(s) && JobsOk(s) && CacheOk(s)
    requires Enabled(s, ServerDelete(i, at)) && Benign(s, ServerDelete(i, at))
    ensures var t := Next(s, ServerDelete(i, at)); JobsOk(t) && CacheOk(t)
  {
    LastAnnounced(s.queue, Deleted(s.server[i].id, at));
    ShortenedList(s.server, i);
    var x := s.server[i].id;
    forall j, q | j in s.jobs && q in s.jobs[j].left ensures q in RemoveAt(s.server, i) {
      assert q.id == x ==> InFlight(s, x);
    }
  }

  lemma ServerDeleteAbsent(s: State, i: nat, at: int)
    requires ServerOk(s) && AbsentOk(s) && Enabled(s, ServerDelete(i, at))
    ensures AbsentOk(Next(s, ServerDelete(i, at)))
  {
    var t := Next(s, ServerDelete(i, at));
    ShortenedList(s.server, i);
    forall y | Absent(t, y) ensures Absent(s, y) {
      assert InFlight(s, y.id) ==> InFlight(t, y.id);
    }
  }

  lemma ConnectKeeps(s: State)
    requires Core(s) && Enabled(s, Connect)
    ensures Core(Next(s, Connect))
  {
  }

  lemma DropKeeps(s: State)
    requires Core(s) && Enabled(s, Drop) && Benign(s, Drop)
    ensures Core(Next(s, Drop)) && (AbsentOk(s) ==> AbsentOk(Next(s, Drop)))
  {
  }

  /** What stays put when a row is upserted under a version with the same create time. */
  lemma PutKeepsRows(s: State, p: Post, t: State)
    requires RowsOk(s) && CursorOk(s) && Known(s, p)
    requires t == s.(posts := PutPost(s.posts, p), jobs := t.jobs, queue := t.queue)
    ensures RowsOk(t) && CursorOk(t) && t.posts == s.posts[p.id := p]
  {
    assert PutPost(s.posts, p) == s.posts[p.id := p] by {
      assert p.id in s.posts ==> p.(createAt := s.posts[p.id].createAt) == p;
    }
    if s.cursor.Some? {
      var a :| a in s.posts && s.posts[a].createAt == s.cursor.value.oldest;
      var b :| b in s.posts && s.posts[b].createAt == s.cursor.value.newest;
      assert a in t.posts && t.posts[a].createAt == s.cursor.value.oldest;
      assert b in t.posts && t.posts[b].createAt == s.cursor.value.newest;
    }
  }

  lemma IngestCover(s: State, p: Post)
    requires ServerOk(s) && RowsOk(s) && QueueOk(s) && JobsOk(s) && CacheOk(s) && CursorOk(s)
    requires Enabled(s, Ingest(p)) && Benign(s, Ingest(p))
    ensures var t := Next(s, Ingest(p));
      ServerOk(t) && RowsOk(t) && QueueOk(t) && JobsOk(t) && CacheOk(t) && CursorOk(t)
  {
    PutKeepsRows(s, p, Next(s, Ingest(p)));
  }

  lemma IngestAbsent(s: State, p: Post)
    requires ServerOk(s) && RowsOk(s) && CursorOk(s) && AbsentOk(s)
    requires Enabled(s, Ingest(p)) && Benign(s, Ingest(p))
    ensures AbsentOk(Next(s, Ingest(p)))
  {
    var t := Next(s, Ingest(p));
    PutKeepsRows(s, p, t);
    forall y | Absent(t, y) ensures Absent(s, y) {
      assert InFlight(s, y.id) ==> InFlight(t, y.id);
    }
  }

  lemma UpsertOneCover(s: State, job: nat, p: Post)
    requires ServerOk(s) && RowsOk(s) && QueueOk(s) && JobsOk(s) && CacheOk(s) && CursorOk(s)
    requires Enabled(s, UpsertOne(job, p))
    ensures var t := Next(s, UpsertOne(job, p));
      ServerOk(t) && RowsOk(t) && QueueOk(t) && JobsOk(t) && CacheOk(t) && CursorOk(t)
  {
    PutKeepsRows(s, p, Next(s, UpsertOne(job, p)));
  }

  lemma StillInFlight(s: State, job: nat, p: Post, id: Id)
    requires Enabled(s, UpsertOne(job, p)) && InFlight(s, id) && id != p.id
    ensures InFlight(Next(s, UpsertOne(job, p)), id)
  {
    var t := Next(s, UpsertOne(job, p));
    var j, q :| j in s.jobs && q in s.jobs[j].left && q.id == id;
    assert j in t.jobs && q in t.jobs[j].left;
  }

  lemma UpsertOneAbsent(s: State, job: nat, p: Post)
    requires ServerOk(s) && RowsOk(s) && JobsOk(s) && CursorOk(s) && AbsentOk(s) && Enabled(s, UpsertOne(job, p))
    ensures AbsentOk(Next(s, UpsertOne(job, p)))
  {
    var t := Next(s, UpsertOne(job, p));
    PutKeepsRows(s, p, t);
    forall y | Absent(t, y) ensures Absent(s, y) {
      assert LiveRow(t.posts, p.id);
      if InFlight(s, y.id) {
        StillInFlight(s, job, p, y.id);
      }
    }
  }

  /** A page that is stored may go. */
  lemma DoneFlight(s: State, job: nat, t: State, id: Id)
    requires job in s.jobs && s.jobs[job].left == {} && t.jobs == s.jobs - {job} && InFlight(s, id)
    ensures InFlight(t, id)
  {
    var j, q :| j in s.jobs && q in s.jobs[j].left && q.id == id;
    assert j in t.jobs && q in t.jobs[j].left;
  }

  lemma SetCursorAbsent(s: State, job: nat, oldest: int, newest: int)
    requires JobsOk(s) && AbsentOk(s) && Enabled(s, SetCursor(job, oldest, newest))
    ensures AbsentOk(Next(s, SetCursor(job, oldest, newest)))
  {
    var t := Next(s, SetCursor(job, oldest, newest));
    forall y | Absent(t, y) ensures Absent(s, y) {
      if InFlight(s, y.id) {
        DoneFlight(s, job, t, y.id);
      }
    }
  }

  lemma SetCursorKeeps(s: State, job: nat, oldest: int, newest: int)
    requires Core(s) && Enabled(s, SetCursor(job, oldest, newest))
    ensures Core(Next(s, SetCursor(job, oldest, newest)))
  {
    assert CursorOk(Next(s, SetCursor(job, oldest, newest)));
  }

  lemma AbandonAbsent(s: State, job: nat)
    requires AbsentOk(s) && Enabled(s, Abandon(job)) && Benign(s, Abandon(job))
    ensures AbsentOk(Next(s, Abandon(job)))
  {
    var t := Next(s, Abandon(job));
    forall y | Absent(t, y) ensures Absent(s, y) {
      if InFlight(s, y.id) {
        DoneFlight(s, job, t, y.id);
      }
    }
  }

  /** A soft delete moves no row in time. */
  lemma DeleteKeepsRows(s: State, id: Id, at: int, t: State)
    requires RowsOk(s) && CursorOk(s)
    requires t == s.(posts := MarkDeleted(s.posts, id, at), queue := t.queue)
    ensures RowsOk(t) && CursorOk(t)
  {
    if s.cursor.Some? {
      var a :| a in s.posts && s.posts[a].createAt == s.cursor.value.oldest;
      var b :| b in s.posts && s.posts[b].createAt == s.cursor.value.newest;
      assert a in t.posts && t.posts[a].createAt == s.cursor.value.oldest;
      assert b in t.posts && t.posts[b].createAt == s.cursor.value.newest;
    }
  }

  lemma ApplyEventFacts(s: State)
    requires ServerOk(s) && RowsOk(s) && QueueOk(s) && CursorOk(s) && Enabled(s, ApplyEvent)
    ensures var t := Next(s, ApplyEvent); ServerOk(t) && RowsOk(t) && CursorOk(t)
  {
    var t := Next(s, ApplyEvent);
    var e := s.queue[0];
    assert e in s.queue;
    if e.Deleted? {
      DeleteKeepsRows(s, e.id, e.at, t);
    } else {
      PutKeepsRows(s, e.post, t);
    }
  }

  /** The last word on a post, told from the head of the queue and the rest. */
  ghost function HeadThenRest(queue: seq<Event>, id: Id): Option<Event>
    requires queue != []
  {
    var rest := Last(queue[1..], id);
    if rest.Some? then rest else if Subject(queue[0]) == id then Some(queue[0]) else None
  }

  lemma RestOfQueue(s: State)
    requires QueueOk(s) && Enabled(s, ApplyEvent)
    ensures QueueOk(Next(s, ApplyEvent))
    ensures forall id :: Last(s.queue, id) == HeadThenRest(s.queue, id)
  {
    forall id ensures Last(s.queue, id) == HeadThenRest(s.queue, id) {
      LastOfRest(s.queue, id);
    }
    forall id | Last(s.queue[1..], id).Some? ensures Last(s.queue[1..], id) == Last(s.queue, id) {
      LastOfRest(s.queue, id);
    }
  }

  lemma LoseEventKeeps(s: State)
    requires Core(s) && Enabled(s, LoseEvent) && Benign(s, LoseEvent)
    ensures Core(Next(s, LoseEvent))
  {
    RestOfQueue(s);
  }

  lemma ApplyEventCache(s: State)
    requires RowsOk(s) && QueueOk(s) && CacheOk(s) && CursorOk(s) && Enabled(s, ApplyEvent)
    ensures CacheOk(Next(s, ApplyEvent))
  {
    var t := Next(s, ApplyEvent);
    var e := s.queue[0];
    assert e in s.queue;
    if !e.Deleted? {
      PutKeepsRows(s, e.post, t);
    }
    forall id | LiveRow(t.posts, id) && Last(t.queue, id).None? ensures t.posts[id] in s.server {
      LastOfRest(s.queue, id);
    }
  }

  lemma ApplyEventCore(s: State)
    requires Core(s) && Enabled(s, ApplyEvent)
    ensures Core(Next(s, ApplyEvent))
  {
    ApplyEventFacts(s);
    RestOfQueue(s);
    ApplyEventCache(s);
  }

  lemma ApplyEventAbsent(s: State)
    requires ServerOk(s) && RowsOk(s) && QueueOk(s) && AbsentOk(s) && CursorOk(s) && Enabled(s, ApplyEvent)
    ensures AbsentOk(Next(s, ApplyEvent))
  {
    var t := Next(s, ApplyEvent);
    var e := s.queue[0];
    assert e in s.queue;
    if !e.Deleted? {
      PutKeepsRows(s, e.post, t);
    }
    forall y | Absent(t, y) ensures Absent(s, y) {
      assert InFlight(s, y.id) ==> InFlight(t, y.id);
      assert e.Deleted? ==> e.id != y.id;
    }
  }

  lemma FetchFacts(s: State, job: nat, from: nat, to: nat)
    requires ServerOk(s) && RowsOk(s) && QueueOk(s) && CursorOk(s) && CacheOk(s)
    requires Enabled(s, Fetch(job, from, to))
    ensures var t := Next(s, Fetch(job, from, to));
      ServerOk(t) && RowsOk(t) && QueueOk(t) && CursorOk(t) && CacheOk(t)
  {
  }

  lemma FetchPage(s: State, job: nat, from: nat, to: nat)
    requires ServerOk(s) && Enabled(s, Fetch(job, from, to))
    ensures var t := Next(s, Fetch(job, from, to));
      forall p :: p in t.jobs[job].page ==> Known(t, p) && p in s.server
  {
    var t := Next(s, Fetch(job, from, to));
    forall p | p in t.jobs[job].page ensures Known(t, p) && p in s.server {
      var k :| from <= k < to && s.server[k] == p;
      assert k == to - 1 || s.server[k].createAt > s.server[to - 1].createAt;
    }
  }

  lemma FetchJobs(s: State, job: nat, from: nat, to: nat)
    requires ServerOk(s) && JobsOk(s) && Enabled(s, Fetch(job, from, to))
    ensures JobsOk(Next(s, Fetch(job, from, to)))
  {
    FetchPage(s, job, from, to);
  }

  lemma FetchFlight(s: State, job: nat, from: nat, to: nat, id: Id)
    requires Enabled(s, Fetch(job, from, to))
    ensures InFlight(s, id) ==> InFlight(Next(s, Fetch(job, from, to)), id)
    ensures forall k :: from <= k < to && s.server[k].id == id ==> InFlight(Next(s, Fetch(job, from, to)), id)
  {
    var t := Next(s, Fetch(job, from, to));
    if InFlight(s, id) {
      var j, q :| j in s.jobs && q in s.jobs[j].left && q.id == id;
      assert j in t.jobs && q in t.jobs[j].left;
    }
    forall k | from <= k < to && s.server[k].id == id ensures InFlight(t, id) {
      assert s.server[k] == s.server[from..to][k - from];
      assert s.server[k] in t.jobs[job].left;
    }
  }

  /** Nothing older than an anchored page is missing: what is missing is newer than all that was synced. */
  lemma AnchoredAbuts(s: State, from: nat, to: nat)
    requires ServerOk(s) && AbsentOk(s) && from < to <= |s.server| && Anchored(s, from, to)
    ensures PageAbuts(s, from, to)
  {
    forall i | to <= i < |s.server| ensures !Absent(s, s.server[i]) {
      assert i == to || s.server[i].createAt < s.server[to].createAt;
    }
  }

  /** The posts still missing after a fetch were missing before and are newer than the page. */
  lemma FetchMissing(s: State, job: nat, from: nat, to: nat, y: Post)
    requires ServerOk(s) && AbsentOk(s) && Enabled(s, Fetch(job, from, to)) && Benign(s, Fetch(job, from, to))
    requires Absent(Next(s, Fetch(job, from, to)), y)
    ensures Absent(s, y)
    ensures forall q :: q in s.server[from..to] ==> y.createAt > q.createAt
  {
    FetchFlight(s, job, from, to, y.id);
    if Anchored(s, from, to) {
      AnchoredAbuts(s, from, to);
    }
    var k := MissingIndex(s, from, to, y);
  }

  lemma MissingIndex(s: State, from: nat, to: nat, y: Post) returns (k: nat)
    requires NewestFirst(s.server) && from < to <= |s.server| && PageAbuts(s, from, to)
    requires y in s.server && y.createAt >= Min(s.floor, s.server[to - 1].createAt)
    requires !LiveRow(s.posts, y.id) && !InFlight(s, y.id)
    requires forall i :: from <= i < to ==> s.server[i].id != y.id
    ensures k < from && s.server[k] == y && y.createAt >= s.floor
  {
    assert forall i :: to <= i < |s.server| ==> s.server[i].createAt < s.server[to - 1].createAt;
    assert forall i :: 0 <= i < from - 1 ==> s.server[i].createAt > s.server[from - 1].createAt;
    k :| 0 <= k < |s.server| && s.server[k] == y;
  }

  lemma FetchAbsent(s: State, job: nat, from: nat, to: nat)
    requires ServerOk(s) && AbsentOk(s)
    requires Enabled(s, Fetch(job, from, to)) && Benign(s, Fetch(job, from, to))
    ensures AbsentOk(Next(s, Fetch(job, from, to)))
  {
    var t := Next(s, Fetch(job, from, to));
    forall y | Absent(t, y)
      ensures Absent(s, y) && forall q :: q in t.jobs[job].page ==> y.createAt > q.createAt
    {
      FetchMissing(s, job, from, to, y);
    }
  }

  /** All but the missing posts is kept by any page fetched, and by any other benign step. */
  lemma CoreStep(s: State, step: Step)
    requires Core(s) && Enabled(s, step) && (step.Fetch? || Benign(s, step))
    ensures Core(Next(s, step))
  {
    match step
    case ServerPost(p) => ServerPostFacts(s, p); ServerPostCover(s, p);
    case ServerEdit(i, p) => ServerEditFacts(s, i, p); ServerEditCover(s, i, p);
    case ServerDelete(i, at) => ServerDeleteFacts(s, i, at); ServerDeleteCover(s, i, at);
    case Connect => ConnectKeeps(s);
    case Drop => DropKeeps(s);
    case ApplyEvent => ApplyEventCore(s);
    case LoseEvent => LoseEventKeeps(s);
    case Ingest(p) => IngestCover(s, p);
    case Fetch(job, from, to) => FetchFacts(s, job, from, to); FetchJobs(s, job, from, to);
    case UpsertOne(job, p) => UpsertOneCover(s, job, p);
    case SetCursor(job, oldest, newest) => SetCursorKeeps(s, job, oldest, newest);
    case Abandon(job) =>
  }

  lemma StepKeeps(s: State, step: Step)
    requires Inv(s) && Enabled(s, step) && Benign(s, step)
    ensures Inv(Next(s, step))
  {
    CoreStep(s, step);
    AbsentKept(s, step);
  }

  lemma AbsentKept(s: State, step: Step)
    requires Inv(s) && Enabled(s, step) && Benign(s, step)
    ensures AbsentOk(Next(s, step))
  {
    match step
    case ServerPost(p) => ServerPostAbsent(s, p);
    case ServerEdit(i, p) => ServerEditAbsent(s, i, p);
    case ServerDelete(i, at) => ServerDeleteAbsent(s, i, at);
    case Drop => DropKeeps(s);
    case ApplyEvent => ApplyEventAbsent(s);
    case Ingest(p) => IngestAbsent(s, p);
    case Fetch(job, from, to) => FetchAbsent(s, job, from, to);
    case UpsertOne(job, p) => UpsertOneAbsent(s, job, p);
    case SetCursor(job, oldest, newest) => SetCursorAbsent(s, job, oldest, newest);
    case Abandon(job) => AbandonAbsent(s, job);
    case _ =>
  }
}
