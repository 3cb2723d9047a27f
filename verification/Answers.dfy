/** What `messages` shows: the enriched posts of the selection, from the cache and from the server
    (internal/cli/messages.go, internal/store/read.go, internal/format/format.go). */
module Answers {
  import opened Prelude
  import opened Model
  import opened Tables
  import opened Messages
  import opened Reader
  import opened Blocks
  import Enrich
  import Timestamp
  import Paging

  /** The rows with what the loading query attaches to each: all of `ChannelPosts`. */
  method LoadPosts(db: Db, channelId: Id, includeDeleted: bool)
    returns (rows: seq<Post>, oldest: int, loaded: map<Id, Metadata>)
    requires Keyed(db.posts) && forall id :: id in db.posts ==> db.posts[id].createAt > 0
    requires forall k :: k in db.files ==> db.files[k].id == k
    ensures Distinct(rows)
    ensures Elems(rows) == set id | id in db.posts && db.posts[id].channelId == channelId
                                    && (includeDeleted || db.posts[id].deleteAt == 0) :: db.posts[id]
    ensures if rows == [] then oldest == 0 else (exists p :: p in rows && p.createAt == oldest)
    ensures forall p :: p in rows ==> 0 < oldest <= p.createAt
    ensures forall p :: p in rows ==> p.id in loaded && Enrich.LoadsAs(db, p.id, loaded[p.id])
  {
    rows, oldest := ChannelPosts(db.posts, channelId, includeDeleted);
    var ids := set p | p in rows :: p.id;
    assert forall p :: p in rows ==> p in Elems(rows);
    var files := Enrich.AttachFiles(db.files, db.posts, channelId, ids);
    var reactions := Enrich.AttachReactions(db.reactions, db.posts, channelId, ids);
    loaded := map id | id in ids :: Metadata(files[id], reactions[id]);
  }

  /** The author as shown: a name that is missing or empty is unknown. */
  function AuthorOf(usernames: map<Id, string>, userId: Id): string {
    if userId in usernames && usernames[userId] != "" then "@" + usernames[userId] else "unknown"
  }

  /** What is shown of the posts with what is attached to them. */
  function ShownOf(p: Post, meta: map<Id, Metadata>, usernames: map<Id, string>, channelName: string):
    Enrich.EnrichedPost
  {
    var m := if p.id in meta then meta[p.id] else Metadata([], []);
    Enrich.Shown(p, m, AuthorOf(usernames, p.userId), channelName, "")
  }

  function ShownList(posts: seq<Post>, meta: map<Id, Metadata>, usernames: map<Id, string>, channelName: string):
    seq<Enrich.EnrichedPost>
  {
    seq(|posts|, i requires 0 <= i < |posts| => ShownOf(posts[i], meta, usernames, channelName))
  }

  /** Field by field: the post, its files, its author's name with a mark, or "unknown", and its time as text. */
  predicate ShowsPost(
    p: Post, meta: map<Id, Metadata>, usernames: map<Id, string>, channelName: string, e: Enrich.EnrichedPost)
  {
    && Enrich.EnrichmentOf(p, e.post) && e.createdAt == Timestamp.TimestampMS(p.createAt)
    && e.channel == channelName && e.team == ""
    && (p.id in meta ==> Enrich.EntriesOf(meta[p.id].files, e.post.files))
    && (p.userId in usernames && usernames[p.userId] != "" ==> e.author == "@" + usernames[p.userId])
    && (p.userId !in usernames || usernames[p.userId] == "" ==> e.author == "unknown")
  }

  lemma ListShows(posts: seq<Post>, meta: map<Id, Metadata>, usernames: map<Id, string>, channelName: string, i: nat)
    requires i < |posts|
    ensures ShowsPost(posts[i], meta, usernames, channelName, ShownList(posts, meta, usernames, channelName)[i])
  {
    if posts[i].id in meta {
      Enrich.EntriesAre(meta[posts[i].id].files);
    }
  }

  /** `enrichPosts`. */
  method EnrichPosts(posts: seq<PostRef>, meta: map<Id, Metadata>, usernames: map<Id, string>, channelName: string)
    returns (out: seq<Enrich.EnrichedPost>)
    ensures out == ShownList(NotNil(posts), meta, usernames, channelName)
    ensures |out| == |NotNil(posts)| &&
            forall i :: 0 <= i < |out| ==> ShowsPost(NotNil(posts)[i], meta, usernames, channelName, out[i])
  {
    out := [];
    for i := 0 to |posts|
      invariant out == ShownList(NotNil(posts[..i]), meta, usernames, channelName)
    {
      NextShown(posts, i, meta, usernames, channelName);
      if posts[i].Some? {
        var e := ShowPost(posts[i].value, meta, usernames, channelName);
        out := out + [e];
      }
    }
    assert posts[..|posts|] == posts;
    forall i | 0 <= i < |out| ensures ShowsPost(NotNil(posts)[i], meta, usernames, channelName, out[i]) {
      ListShows(NotNil(posts), meta, usernames, channelName, i);
    }
  }

  lemma NextShown(posts: seq<PostRef>, i: nat, meta: map<Id, Metadata>, usernames: map<Id, string>,
                  channelName: string)
    requires i < |posts|
    ensures ShownList(NotNil(posts[..i + 1]), meta, usernames, channelName) ==
            ShownList(NotNil(posts[..i]), meta, usernames, channelName) +
            if posts[i].Some? then [ShownOf(posts[i].value, meta, usernames, channelName)] else []
  {
    assert posts[..i + 1][..i] == posts[..i];
    var init := NotNil(posts[..i]);
    if posts[i].Some? {
      assert NotNil(posts[..i + 1]) == init + [posts[i].value];
    } else {
      assert NotNil(posts[..i + 1]) == init;
    }
  }

  /** One turn of its loop. */
  method ShowPost(p: Post, meta: map<Id, Metadata>, usernames: map<Id, string>, channelName: string)
    returns (e: Enrich.EnrichedPost)
    ensures e == ShownOf(p, meta, usernames, channelName)
  {
    var author := "unknown";
    if p.userId in usernames && usernames[p.userId] != "" {
      author := "@" + usernames[p.userId];
    }
    e := Enrich.EnrichPost(Some(p), if p.id in meta then Some(meta[p.id]) else None, author, channelName, "");
  }

  function NotNil(posts: seq<PostRef>): seq<Post> {
    if posts == [] then []
    else NotNil(posts[..|posts| - 1]) + if posts[|posts| - 1].Some? then [posts[|posts| - 1].value] else []
  }

  /** The shown lists agree, post by post, but for the order of a post's files. */
  ghost predicate SameAnswer(a: seq<Enrich.EnrichedPost>, b: seq<Enrich.EnrichedPost>) {
    && |a| == |b|
    && forall i :: 0 <= i < |a| ==> Enrich.SameButOrder(a[i].post, b[i].post) && a[i] == b[i].(post := a[i].post)
  }

  lemma SelectedFromWindow(posts: seq<PostRef>, sinceMS: int, limit: int, p: Post)
    requires p in Select(posts, sinceMS, limit)
    ensures p in Window(posts, sinceMS)
  {
    SelectIsNewest(posts, sinceMS, limit);
  }

  lemma SelectionIsOfRows(rows: seq<Post>, sinceMS: int, limit: int, p: Post)
    requires Distinct(rows) && p in Select(Refs(rows), sinceMS, limit)
    ensures p in rows
  {
    WindowDistinct(rows, sinceMS);
    SelectedFromWindow(Refs(rows), sinceMS, limit, p);
  }

  /** The promise of the cached path for what is shown. The cache is gap-free and covers the request, its limit is one
      page, and it holds the names the server gives the authors, and the files and reactions it sends with each cached
      post: then what is shown from the cache is what is shown from the server's page. `loaded` and `sent` are what
      either side attaches to a post, `cached` and `names` what it calls the authors. */
  lemma CachedShowsLive(db: Db, channel: Id, rows: seq<Post>, server: seq<Post>, loaded: map<Id, Metadata>,
                        sent: map<Id, Metadata>, cached: map<Id, string>, names: map<Id, string>, channelName: string,
                        limit: int, since: Since)
    requires NewestFirst(server) && Distinct(rows) && Elems(rows) == Live(db.posts, channel)
    requires GapFree(Elems(rows), server) && !since.BadSince? && Covered(rows, Floor(since), limit)
    requires 1 <= limit <= SERVER_CAP || CountSince(server, Floor(since)) <= SERVER_CAP
    requires forall p :: p in rows ==>
      p.id in loaded && p.id in sent && Enrich.LoadsAs(db, p.id, loaded[p.id]) && Enrich.HeldAsSent(db, p, sent[p.id])
    requires forall p :: p in rows ==> AuthorOf(cached, p.userId) == AuthorOf(names, p.userId)
    ensures SameAnswer(
      ShownList(Select(Refs(rows), Floor(since), limit), loaded, cached, channelName),
      ShownList(Select(Refs(LivePage(server, limit, since)), Floor(since), limit), sent, names, channelName))
  {
    CachedEqualsLiveIff(rows, server, limit, since);
    var sel := Select(Refs(rows), Floor(since), limit);
    forall i | 0 <= i < |sel|
      ensures sel[i] in rows &&
              Enrich.SameButOrder(Enrich.Enrich(sel[i], loaded[sel[i].id]), Enrich.Enrich(sel[i], sent[sel[i].id]))
    {
      SelectionIsOfRows(rows, Floor(since), limit, sel[i]);
      Enrich.HeldEnriches(db, sel[i], sent[sel[i].id], loaded[sel[i].id]);
    }
  }

  /** Where that comes from: a page is stored whole with what its posts were sent with, and nothing was stored for them
      before. */
  lemma PageHeldAsSent(db: Db, page: set<Post>, sent: map<Id, Metadata>)
    requires Paging.SentProperly(page, sent) && Paging.MetaHeld(page, sent, db.files, db.reactions)
    requires Paging.OnlySent(page, sent, db.files, db.reactions)
    ensures forall p :: p in page && p.id in sent ==> Enrich.HeldAsSent(db, p, sent[p.id])
  {
    forall p | p in page && p.id in sent ensures Enrich.HeldAsSent(db, p, sent[p.id]) {
    }
  }

  /** Nothing stored is nothing but what is sent. */
  lemma NothingBefore(page: set<Post>, sent: map<Id, Metadata>, files: map<Id, FileInfo>,
                      reactions: map<ReactionKey, int>)
    requires forall p, k :: p in page && k in files ==> files[k].postId != p.id
    requires forall p, k :: p in page && k in reactions ==> k.0 != p.id
    ensures Paging.OnlySent(page, sent, files, reactions)
  {
  }

  /** A page of a channel never seen before, stored whole, is held as it was sent. */
  method FirstPage(daemon: Paging.Daemon, channelId: Id, page: seq<Post>, sent: map<Id, Metadata>) returns (ok: bool)
    requires daemon.store.Valid() && NewestFirst(page) && Paging.SentProperly(Elems(page), sent)
    requires forall p, k :: p in page && k in daemon.store.files ==> daemon.store.files[k].postId != p.id
    requires forall p, k :: p in page && k in daemon.store.reactions ==> k.0 != p.id
    modifies daemon.store`posts, daemon.store`index, daemon.store`files, daemon.store`reactions, daemon.store`cursors,
             daemon.store`log
    ensures daemon.store.log.faults == old(daemon.store.log).faults + if ok then 0 else 1
    ensures ok ==> forall p :: p in page && p.id in sent ==>
      Enrich.HeldAsSent(daemon.store.Contents(), p, sent[p.id])
  {
    ServerIdsDistinct(page);
    NothingBefore(Elems(page), sent, daemon.store.files, daemon.store.reactions);
    ghost var stored, oldest, newest;
    ok, stored, oldest, newest := daemon.IngestPosts(channelId, page, sent);
    if ok {
      PageHeldAsSent(daemon.store.Contents(), Elems(page), sent);
    }
  }
}
