/** The cache tables and the effect of each SQL statement on them (internal/store/write.go, read.go). */
module Tables {
  import opened Prelude
  import opened Model

  datatype Reading = Reading(msgCount: int, mentionCount: int, lastViewedAt: int)

  datatype Cursor = Cursor(oldest: int, newest: int)

  type ReactionKey = (Id, Id, string)

  datatype Db = Db(
    channels: map<Id, Channel>, members: map<(Id, Id), Reading>, users: map<Id, string>,
    posts: map<Id, Post>, files: map<Id, FileInfo>, reactions: map<ReactionKey, int>,
    cursors: map<Id, Cursor>, seen: map<string, int>)

  /** The size of the page a reconcile fetches. */
  const CATCH_UP := 60

  const EMPTY_DB := Db(map[], map[], map[], map[], map[], map[], map[], map[])

  /** `INSERT ... ON CONFLICT(id) DO UPDATE` on posts: every column follows the new values but `create_at`. */
  function PutPost(posts: map<Id, Post>, p: Post): map<Id, Post> {
    posts[p.id := if p.id in posts then p.(createAt := posts[p.id].createAt) else p]
  }

  function MarkDeleted(posts: map<Id, Post>, id: Id, deleteAt: int): map<Id, Post> {
    if id in posts then posts[id := posts[id].(deleteAt := deleteAt)] else posts
  }

  /** Column by column. */
  lemma ColumnsPut(posts: map<Id, Post>, p: Post)
    ensures var put := PutPost(posts, p);
      && put.Keys == posts.Keys + {p.id} && put - {p.id} == posts - {p.id}
      && put[p.id] == Post(p.id, p.channelId, p.userId, p.rootId, p.message,
                           if p.id in posts then posts[p.id].createAt else p.createAt,
                           p.updateAt, p.editAt, p.deleteAt, p.replyCount, p.props, p.fileIds)
  {
  }

  lemma ColumnsDeleted(posts: map<Id, Post>, id: Id, deleteAt: int)
    ensures var marked := MarkDeleted(posts, id, deleteAt);
      && marked.Keys == posts.Keys && marked - {id} == posts - {id}
      && (id in posts ==> marked[id].deleteAt == deleteAt && marked[id].(deleteAt := 0) == posts[id].(deleteAt := 0))
  {
  }

  function PutFiles(files: map<Id, FileInfo>, fs: seq<FileInfo>): map<Id, FileInfo> {
    if fs == [] then files
    else PutFiles(files, fs[..|fs| - 1])[fs[|fs| - 1].id := fs[|fs| - 1]]
  }

  function Key(r: Reaction): ReactionKey { (r.postId, r.userId, r.emojiName) }

  function PutReactions(reactions: map<ReactionKey, int>, rs: seq<Reaction>): map<ReactionKey, int> {
    if rs == [] then reactions
    else PutReactions(reactions, rs[..|rs| - 1])[Key(rs[|rs| - 1]) := rs[|rs| - 1].createAt]
  }

  function DropReactions(reactions: map<ReactionKey, int>, postId: Id): map<ReactionKey, int> {
    map k | k in reactions && k.0 != postId :: reactions[k]
  }

  function MetaFiles(files: map<Id, FileInfo>, meta: Option<Metadata>): map<Id, FileInfo> {
    if meta.None? then files else PutFiles(files, meta.value.files)
  }

  /** An empty reaction list leaves the stored reactions alone. */
  function MetaReactions(reactions: map<ReactionKey, int>, postId: Id, meta: Option<Metadata>): map<ReactionKey, int> {
    if meta.None? || meta.value.reactions == [] then reactions
    else PutReactions(DropReactions(reactions, postId), meta.value.reactions)
  }

  function UpsertPost(db: Db, p: Post, meta: Option<Metadata>): Db {
    db.(posts := PutPost(db.posts, p), files := MetaFiles(db.files, meta),
        reactions := MetaReactions(db.reactions, p.id, meta))
  }

  function PutMember(db: Db, m: ChannelMember): Db {
    db.(members := db.members[(m.channelId, m.userId) := Reading(m.msgCount, m.mentionCount, m.lastViewedAt)])
  }

  /** `BumpChannelOnPost`: no row, no effect. */
  function Bump(db: Db, channelId: Id, createAt: int): Db {
    if channelId !in db.channels then db
    else
      var c := db.channels[channelId];
      db.(channels := db.channels[channelId :=
        c.(totalMsgCount := c.totalMsgCount + 1, lastPostAt := Max(createAt, c.lastPostAt))])
  }

  /** `MarkChannelViewed` would write NULL into a NOT NULL column: a member row whose channel is missing. */
  predicate ViewFails(db: Db, channelId: Id, userId: Id) {
    (channelId, userId) in db.members && channelId !in db.channels
  }

  function View(db: Db, channelId: Id, userId: Id, viewedAt: int): Db
    requires !ViewFails(db, channelId, userId)
  {
    if (channelId, userId) !in db.members then db
    else
      var total := db.channels[channelId].totalMsgCount;
      db.(members := db.members[(channelId, userId) := Reading(total, 0, viewedAt)])
  }

  function MergeCursor(cursors: map<Id, Cursor>, channelId: Id, oldest: int, newest: int): map<Id, Cursor> {
    if channelId !in cursors then cursors[channelId := Cursor(oldest, newest)]
    else
      var c := cursors[channelId];
      cursors[channelId := Cursor(Min(c.oldest, oldest), Max(c.newest, newest))]
  }

  function NewestPostAt(cursors: map<Id, Cursor>, channelId: Id): int {
    if channelId in cursors then cursors[channelId].newest else 0
  }

  /** `ingestPosts` computes the page's oldest and newest create times before it sets the cursor. */
  ghost predicate PageBounds(page: set<Post>, oldest: int, newest: int) {
    && (exists p :: p in page && p.createAt == oldest)
    && (exists p :: p in page && p.createAt == newest)
    && (forall p :: p in page ==> oldest <= p.createAt <= newest)
  }

  /** The live rows of a channel: what `ChannelPosts` selects when deleted posts are not asked for. */
  ghost function Live(posts: map<Id, Post>, channelId: Id): set<Post> {
    set id | id in posts && posts[id].channelId == channelId && posts[id].deleteAt == 0 :: posts[id]
  }

  /** The cache holds a newest part of what the server has: every live server post at least as new as the oldest
      live cached one is cached as it is, and nothing live is cached that the server does not have. */
  ghost predicate GapFree(live: set<Post>, server: seq<Post>) {
    && live <= Elems(server)
    && forall y, r :: y in server && r in live && r.createAt <= y.createAt ==> y in live
  }

  /** A channel's live posts on the server, newest first, with create times that tell them apart. */
  ghost predicate NewestFirst(server: seq<Post>) {
    && (forall i, j :: 0 <= i < j < |server| ==> server[i].createAt > server[j].createAt)
    && (forall i, j :: 0 <= i < j < |server| ==> server[i].id != server[j].id)
    && (forall p :: p in server ==> p.deleteAt == 0 && p.createAt > 0)
  }

  /** Ids name the posts of a set: no two different ones share one. */
  ghost predicate IdsApart(page: set<Post>) { forall p, q :: p in page && q in page && p.id == q.id ==> p == q }

  /** A post that is stored has the create time it is sent with. */
  ghost predicate SameTimes(posts: map<Id, Post>, page: set<Post>) {
    forall p :: p in page && p.id in posts ==> posts[p.id].createAt == p.createAt
  }

  /** Rows are stored under their own id. */
  ghost predicate Keyed(posts: map<Id, Post>) {
    forall id :: id in posts ==> posts[id].id == id
  }

  function MessagesOf(posts: map<Id, Post>): map<Id, string> { map id | id in posts :: posts[id].message }
}
