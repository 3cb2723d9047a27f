/** Enrichment of a post, from the server, from the cache, and by the view
    (internal/format/format.go, internal/store/read.go, internal/store/views.sql). */
module Enrich {
  import opened Prelude
  import opened Model
  import opened Tables
  import Timestamp

  datatype FileEntry = FileEntry(
    id: Id, name: string, size: int, mimeType: string, extension: string, width: int, height: int)

  /** What enrichment makes of the post itself, with its create time as it is. */
  datatype Enriched = Enriched(
    id: Id, threadId: Id, isReply: bool, message: string, createAt: int, channelId: Id, fileCount: nat,
    replyCount: int, files: seq<FileEntry>, isBot: bool, botName: string, reactions: map<string, nat>)

  /** All of an enriched post: the names are the caller's, and the create time is shown as text. */
  datatype EnrichedPost = EnrichedPost(post: Enriched, author: string, createdAt: string, channel: string, team: string)

  const NO_POST := EnrichedPost(Enriched("", "", false, "", 0, "", 0, 0, [], false, "", map[]), "", "", "", "")

  function Entry(f: FileInfo): FileEntry {
    FileEntry(f.id, f.name, f.size, f.mimeType, f.extension, f.width, f.height)
  }

  function Entries(files: seq<FileInfo>): seq<FileEntry> {
    if files == [] then [] else Entries(files[..|files| - 1]) + [Entry(files[|files| - 1])]
  }

  function Tally(reactions: seq<Reaction>): map<string, nat> {
    if reactions == [] then map[]
    else
      var counts := Tally(reactions[..|reactions| - 1]);
      var e := reactions[|reactions| - 1].emojiName;
      counts[e := (if e in counts then counts[e] else 0) + 1]
  }

  predicate FromWebhook(p: Post) { p.props.fromWebhook == Some("true") }

  function Text(o: Option<string>): string { if o.Some? then o.value else "" }

  function Enrich(p: Post, m: Metadata): Enriched {
    var bot := FromWebhook(p);
    Enriched(
      p.id, if p.rootId == "" then p.id else p.rootId, p.rootId != "",
      if bot && p.message == "" then p.props.attachmentsText else p.message,
      p.createAt, p.channelId, |p.fileIds|,
      if p.rootId == "" && p.replyCount > 0 then p.replyCount else 0,
      Entries(m.files), bot, if bot then Text(p.props.overrideUsername) else "", Tally(m.reactions))
  }

  function Shown(p: Post, m: Metadata, author: string, channelName: string, teamName: string): EnrichedPost {
    EnrichedPost(Enrich(p, m), author, Timestamp.TimestampMS(p.createAt), channelName, teamName)
  }

  /** Field by field. */
  predicate EnrichmentOf(p: Post, e: Enriched) {
    var bot := p.props.fromWebhook.Some? && p.props.fromWebhook.value == "true";
    && e.id == p.id && e.createAt == p.createAt && e.channelId == p.channelId && e.fileCount == |p.fileIds|
    && e.isReply == (p.rootId != "") && e.threadId == (if p.rootId != "" then p.rootId else p.id)
    && e.replyCount == (if p.rootId != "" || p.replyCount < 0 then 0 else p.replyCount)
    && e.isBot == bot && e.message == (if p.message == "" && bot then p.props.attachmentsText else p.message)
    && (bot && p.props.overrideUsername.Some? ==> e.botName == p.props.overrideUsername.value)
    && (!bot || p.props.overrideUsername.None? ==> e.botName == "")
  }

  predicate EntryOf(f: FileInfo, e: FileEntry) {
    && e.id == f.id && e.name == f.name && e.size == f.size && e.mimeType == f.mimeType
    && e.extension == f.extension && e.width == f.width && e.height == f.height
  }

  predicate EntriesOf(files: seq<FileInfo>, entries: seq<FileEntry>) {
    |entries| == |files| && forall i :: 0 <= i < |files| ==> EntryOf(files[i], entries[i])
  }

  /** `EnrichPost`; a post without metadata is one with two empty lists. */
  method EnrichPost(post: Option<Post>, m: Option<Metadata>, author: string, channelName: string, teamName: string)
    returns (e: EnrichedPost)
    ensures e == if post.None? then NO_POST else Shown(post.value, Given(m), author, channelName, teamName)
    ensures post.Some? ==> e.author == author && e.channel == channelName && e.team == teamName
    ensures post.Some? ==> e.createdAt == Timestamp.TimestampMS(post.value.createAt)
    ensures post.Some? ==> EnrichmentOf(post.value, e.post)
    ensures post.Some? && m.Some? ==> EntriesOf(m.value.files, e.post.files)
    ensures m.None? ==> e.post.files == [] && e.post.reactions == map[]
  {
    if post.None? { return NO_POST; }
    var enriched := EnrichFields(post.value, m);
    EntriesAre(Given(m).files);
    e := EnrichedPost(enriched, author, Timestamp.TimestampMS(post.value.createAt), "", "");
    if channelName != "" {
      e := e.(channel := channelName);
    }
    if teamName != "" {
      e := e.(team := teamName);
    }
  }

  /** Its field updates and loops. */
  method EnrichFields(p: Post, m: Option<Metadata>) returns (e: Enriched)
    ensures e == Enrich(p, Given(m))
  {
    var threadId := p.rootId;
    if threadId == "" { threadId := p.id; }
    e := Enriched(
      p.id, threadId, p.rootId != "", p.message, p.createAt, p.channelId, |p.fileIds|, 0, [], false, "", map[]);
    if p.rootId == "" && p.replyCount > 0 {
      e := e.(replyCount := p.replyCount);
    }
    if m.Some? {
      var files := ListFiles(m.value.files);
      e := e.(files := files);
    }
    if p.props.fromWebhook.Some? && p.props.fromWebhook.value == "true" {
      e := e.(isBot := true);
      if p.props.overrideUsername.Some? && p.props.overrideUsername.value != "" {
        e := e.(botName := p.props.overrideUsername.value);
      }
      if e.message == "" && p.props.attachmentsText != "" {
        e := e.(message := p.props.attachmentsText);
      }
    }
    if m.Some? {
      var counts := CountReactions(m.value.reactions);
      e := e.(reactions := counts);
    }
  }

  function Given(m: Option<Metadata>): Metadata { if m.Some? then m.value else Metadata([], []) }

  method ListFiles(files: seq<FileInfo>) returns (out: seq<FileEntry>)
    ensures out == Entries(files)
  {
    out := [];
    for i := 0 to |files|
      invariant out == Entries(files[..i])
    {
      assert files[..i + 1][..i] == files[..i];
      out := out + [Entry(files[i])];
    }
    assert files[..|files|] == files;
  }

  method CountReactions(reactions: seq<Reaction>) returns (counts: map<string, nat>)
    ensures counts == Tally(reactions)
  {
    counts := map[];
    for i := 0 to |reactions|
      invariant counts == Tally(reactions[..i])
    {
      assert reactions[..i + 1][..i] == reactions[..i];
      var e := reactions[i].emojiName;
      counts := counts[e := (if e in counts then counts[e] else 0) + 1];
    }
    assert reactions[..|reactions|] == reactions;
  }

  // ---- loading -----------------------------------------------------------------------------------------------

  ghost function FileRows(files: map<Id, FileInfo>, postId: Id): set<FileInfo> {
    set k | k in files && files[k].postId == postId :: files[k]
  }

  function RowOf(k: ReactionKey, createAt: int): Reaction { Reaction(k.0, k.1, k.2, createAt) }

  ghost function ReactionRows(reactions: map<ReactionKey, int>, postId: Id): set<Reaction> {
    set k | k in reactions && k.0 == postId :: RowOf(k, reactions[k])
  }

  /** `attachFiles`: appends each file row of the channel to its post, if that was loaded. */
  method AttachFiles(files: map<Id, FileInfo>, posts: map<Id, Post>, channelId: Id, loaded: set<Id>)
    returns (attached: map<Id, seq<FileInfo>>)
    requires forall k :: k in files ==> files[k].id == k
    requires forall id :: id in loaded ==> id in posts && posts[id].channelId == channelId
    ensures attached.Keys == loaded
    ensures forall id :: id in loaded ==> Distinct(attached[id]) && Elems(attached[id]) == FileRows(files, id)
  {
    attached := map id | id in loaded :: [];
    var left := files.Keys;
    while left != {}
      invariant left <= files.Keys && attached.Keys == loaded
      invariant forall id :: id in loaded ==> HoldsFiles(files, left, id, attached[id])
      decreases left
    {
      var k :| k in left;
      var f := files[k];
      if f.postId in posts && posts[f.postId].channelId == channelId && f.postId in loaded {
        attached := attached[f.postId := attached[f.postId] + [f]];
      }
      left := left - {k};
    }
  }

  ghost predicate HoldsFiles(files: map<Id, FileInfo>, left: set<Id>, id: Id, fs: seq<FileInfo>) {
    && Distinct(fs)
    && forall f :: f in fs <==> f.id in files && f.id !in left && files[f.id] == f && f.postId == id
  }

  /** `attachReactions`, likewise. */
  method AttachReactions(reactions: map<ReactionKey, int>, posts: map<Id, Post>, channelId: Id, loaded: set<Id>)
    returns (attached: map<Id, seq<Reaction>>)
    requires forall id :: id in loaded ==> id in posts && posts[id].channelId == channelId
    ensures attached.Keys == loaded
    ensures forall id :: id in loaded ==>
      Distinct(attached[id]) && Elems(attached[id]) == ReactionRows(reactions, id)
  {
    attached := map id | id in loaded :: [];
    var left := reactions.Keys;
    while left != {}
      invariant left <= reactions.Keys && attached.Keys == loaded
      invariant forall id :: id in loaded ==> HoldsReactions(reactions, left, id, attached[id])
      decreases left
    {
      var k :| k in left;
      if k.0 in posts && posts[k.0].channelId == channelId && k.0 in loaded {
        attached := attached[k.0 := attached[k.0] + [RowOf(k, reactions[k])]];
      }
      left := left - {k};
    }
    forall id | id in loaded ensures Elems(attached[id]) == ReactionRows(reactions, id) {
    }
  }

  ghost predicate HoldsReactions(
    reactions: map<ReactionKey, int>, left: set<ReactionKey>, id: Id, rs: seq<Reaction>)
  {
    && Distinct(rs)
    && forall r :: r in rs <==>
      Key(r) in reactions && Key(r) !in left && reactions[Key(r)] == r.createAt && r.postId == id
  }

  /** What loading a stored post attaches to it, in some order. */
  ghost predicate LoadsAs(db: Db, id: Id, m: Metadata) {
    && Distinct(m.files) && Elems(m.files) == FileRows(db.files, id)
    && Distinct(m.reactions) && Elems(m.reactions) == ReactionRows(db.reactions, id)
  }

  // ---- counts ------------------------------------------------------------------------------------------------

  ghost predicate DistinctKeys(rs: seq<Reaction>) {
    forall i, j :: 0 <= i < j < |rs| ==> Key(rs[i]) != Key(rs[j])
  }

  /** The reactions with an emoji; their number is what the view's GROUP BY counts. */
  ghost function WithEmoji(rows: set<Reaction>, emoji: string): set<Reaction> {
    set r | r in rows && r.emojiName == emoji
  }

  ghost predicate Counts(counts: map<string, nat>, rows: set<Reaction>) {
    && (forall e :: e in counts <==> WithEmoji(rows, e) != {})
    && (forall e :: e in counts ==> counts[e] == |WithEmoji(rows, e)|)
  }

  lemma {:induction false} TallyCounts(rs: seq<Reaction>)
    requires Distinct(rs)
    ensures Counts(Tally(rs), Elems(rs))
  {
    if rs != [] {
      var init, last := rs[..|rs| - 1], rs[|rs| - 1];
      TallyCounts(init);
      assert rs == init + [last];
      assert last !in Elems(init) && Elems(rs) == Elems(init) + {last};
      var e := last.emojiName;
      OneMoreCounts(Tally(init), Elems(init), last);
    }
  }

  lemma OneMoreCounts(counts: map<string, nat>, rows: set<Reaction>, r: Reaction)
    requires Counts(counts, rows) && r !in rows
    ensures Counts(counts[r.emojiName := (if r.emojiName in counts then counts[r.emojiName] else 0) + 1], rows + {r})
  {
    var more := rows + {r};
    assert WithEmoji(more, r.emojiName) == WithEmoji(rows, r.emojiName) + {r};
    forall e | e != r.emojiName ensures WithEmoji(more, e) == WithEmoji(rows, e) {}
  }

  /** Counting does not depend on the order of the reactions. */
  lemma TallyOrderFree(a: seq<Reaction>, b: seq<Reaction>)
    requires Distinct(a) && Distinct(b) && Elems(a) == Elems(b)
    ensures Tally(a) == Tally(b)
  {
    TallyCounts(a);
    TallyCounts(b);
  }

  // ---- the round trip ----------------------------------------------------------------------------------------

  /** A post as the server sends it: its files and reactions are its own, each once. */
  ghost predicate Proper(p: Post, m: Metadata) {
    && (forall f :: f in m.files ==> f.postId == p.id)
    && (forall i, j :: 0 <= i < j < |m.files| ==> m.files[i].id != m.files[j].id)
    && (forall r :: r in m.reactions ==> r.postId == p.id)
    && DistinctKeys(m.reactions)
  }

  ghost function Ids(files: seq<FileInfo>): set<Id> {
    if files == [] then {} else Ids(files[..|files| - 1]) + {files[|files| - 1].id}
  }

  lemma {:induction false} IdsAre(files: seq<FileInfo>)
    ensures forall k :: k in Ids(files) <==> exists i :: 0 <= i < |files| && files[i].id == k
  {
    if files != [] {
      IdsAre(files[..|files| - 1]);
    }
  }

  /** Rows left over from an earlier version of the post, that storing this one does not replace. */
  ghost function LeftFiles(db: Db, p: Post, m: Metadata): set<FileInfo> {
    set f | f in FileRows(db.files, p.id) && f.id !in Ids(m.files)
  }

  ghost function LeftReactions(db: Db, p: Post, m: Metadata): set<Reaction> {
    if m.reactions == [] then ReactionRows(db.reactions, p.id) else {}
  }

  lemma {:induction false} FilesPut(files: map<Id, FileInfo>, fs: seq<FileInfo>)
    requires forall i, j :: 0 <= i < j < |fs| ==> fs[i].id != fs[j].id
    ensures var put := PutFiles(files, fs);
            (forall i :: 0 <= i < |fs| ==> fs[i].id in put && put[fs[i].id] == fs[i]) &&
            (forall k :: k !in Ids(fs) ==> (k in put <==> k in files) && (k in files ==> put[k] == files[k]))
  {
    if fs != [] {
      FilesPut(files, fs[..|fs| - 1]);
    }
  }

  lemma {:induction false} ReactionsPut(reactions: map<ReactionKey, int>, rs: seq<Reaction>)
    requires DistinctKeys(rs)
    ensures var put := PutReactions(reactions, rs);
            (forall i :: 0 <= i < |rs| ==> Key(rs[i]) in put && put[Key(rs[i])] == rs[i].createAt) &&
            (forall k :: k in put ==> k in reactions || exists i :: 0 <= i < |rs| && Key(rs[i]) == k) &&
            (forall k :: k in reactions ==> k in put)
  {
    if rs != [] {
      ReactionsPut(reactions, rs[..|rs| - 1]);
    }
  }

  /** Only the keys of the list change. */
  lemma {:induction false} OtherReactionsKept(reactions: map<ReactionKey, int>, rs: seq<Reaction>, k: ReactionKey)
    requires forall r :: r in rs ==> Key(r) != k
    ensures var put := PutReactions(reactions, rs);
            (k in put <==> k in reactions) && (k in reactions ==> put[k] == reactions[k])
  {
    if rs != [] {
      OtherReactionsKept(reactions, rs[..|rs| - 1], k);
      assert rs[|rs| - 1] in rs;
    }
  }

  /** A post's files and reactions are stored. */
  ghost predicate Holds(m: Metadata, files: map<Id, FileInfo>, reactions: map<ReactionKey, int>) {
    && (forall f :: f in m.files ==> f.id in files && files[f.id] == f)
    && (forall r :: r in m.reactions ==> Key(r) in reactions && reactions[Key(r)] == r.createAt)
  }

  /** Upserting a post stores its own. */
  lemma StoresOwn(p: Post, m: Metadata, files: map<Id, FileInfo>, reactions: map<ReactionKey, int>)
    requires Proper(p, m)
    ensures Holds(m, MetaFiles(files, Some(m)), MetaReactions(reactions, p.id, Some(m)))
  {
    FilesPut(files, m.files);
    ReactionsPut(DropReactions(reactions, p.id), m.reactions);
    forall f | f in m.files ensures f.id in PutFiles(files, m.files) && PutFiles(files, m.files)[f.id] == f {
      var i :| 0 <= i < |m.files| && m.files[i] == f;
    }
    var put := PutReactions(DropReactions(reactions, p.id), m.reactions);
    forall r | r in m.reactions ensures Key(r) in put && put[Key(r)] == r.createAt {
      var i :| 0 <= i < |m.reactions| && m.reactions[i] == r;
    }
  }

  /** It leaves those of another post alone. */
  lemma LeavesOthers(p: Post, m: Metadata, q: Post, n: Metadata, files: map<Id, FileInfo>,
                     reactions: map<ReactionKey, int>)
    requires Proper(p, m) && Proper(q, n) && p.id != q.id && Holds(n, files, reactions)
    requires forall f, g :: f in m.files && g in n.files ==> f.id != g.id
    ensures Holds(n, MetaFiles(files, Some(m)), MetaReactions(reactions, p.id, Some(m)))
  {
    FilesPut(files, m.files);
    IdsAre(m.files);
    forall g | g in n.files ensures g.id !in Ids(m.files) {}
    forall r | r in n.reactions
      ensures Key(r) in MetaReactions(reactions, p.id, Some(m)) &&
              MetaReactions(reactions, p.id, Some(m))[Key(r)] == r.createAt
    {
      if m.reactions != [] {
        OtherReactionsKept(DropReactions(reactions, p.id), m.reactions, Key(r));
      }
    }
  }

  /** Nothing is stored under a post's id that it was not sent with. */
  ghost predicate Only(id: Id, m: Metadata, files: map<Id, FileInfo>, reactions: map<ReactionKey, int>) {
    && (forall k :: k in files && files[k].postId == id ==> files[k] in m.files)
    && (forall k :: k in reactions && k.0 == id ==> HasKey(m.reactions, k))
  }

  ghost predicate HasKey(rs: seq<Reaction>, k: ReactionKey) { exists i :: 0 <= i < |rs| && Key(rs[i]) == k }

  lemma {:induction false} FilesFrom(files: map<Id, FileInfo>, fs: seq<FileInfo>)
    ensures var put := PutFiles(files, fs); forall k :: k in put ==> put[k] in fs || (k in files && put[k] == files[k])
  {
    if fs != [] {
      FilesFrom(files, fs[..|fs| - 1]);
    }
  }

  /** So it stays when this post or another is upserted with its own. */
  lemma OnlyStays(p: Post, m: Metadata, id: Id, n: Metadata, files: map<Id, FileInfo>, reactions: map<ReactionKey, int>)
    requires Proper(p, m) && Only(id, n, files, reactions) && (p.id == id ==> n == m)
    ensures Only(id, n, MetaFiles(files, Some(m)), MetaReactions(reactions, p.id, Some(m)))
  {
    FilesFrom(files, m.files);
    ReactionsPut(DropReactions(reactions, p.id), m.reactions);
    var put := MetaReactions(reactions, p.id, Some(m));
    forall k | k in put && k.0 == id ensures HasKey(n.reactions, k) {
      if k !in reactions {
        assert HasKey(m.reactions, k);
        var i :| 0 <= i < |m.reactions| && Key(m.reactions[i]) == k;
        assert m.reactions[i] in m.reactions;
      }
    }
  }

  /** The file rows of a stored post: the ones it came with, and what was left over. */
  lemma StoredFiles(db: Db, p: Post, m: Metadata)
    requires Proper(p, m) && forall k :: k in db.files ==> db.files[k].id == k
    ensures FileRows(PutFiles(db.files, m.files), p.id) == Elems(m.files) + LeftFiles(db, p, m)
  {
    FilesPut(db.files, m.files);
    IdsAre(m.files);
    var put := PutFiles(db.files, m.files);
    forall f | f in FileRows(put, p.id) ensures f in Elems(m.files) + LeftFiles(db, p, m) {
      var k :| k in put && put[k] == f;
      if k in Ids(m.files) {
        var i :| 0 <= i < |m.files| && m.files[i].id == k;
        assert f == m.files[i];
      }
    }
    forall f | f in Elems(m.files) ensures f in FileRows(put, p.id) {
      var i :| 0 <= i < |m.files| && m.files[i] == f;
    }
  }

  lemma StoredReactions(db: Db, p: Post, m: Metadata)
    requires Proper(p, m)
    ensures ReactionRows(MetaReactions(db.reactions, p.id, Some(m)), p.id) ==
            Elems(m.reactions) + LeftReactions(db, p, m)
  {
    if m.reactions != [] {
      var kept := DropReactions(db.reactions, p.id);
      var put := PutReactions(kept, m.reactions);
      ReactionsPut(kept, m.reactions);
      forall r | r in ReactionRows(put, p.id) ensures r in Elems(m.reactions) {
        var k :| k in put && k.0 == p.id && RowOf(k, put[k]) == r;
        var i :| 0 <= i < |m.reactions| && Key(m.reactions[i]) == k;
        assert r == m.reactions[i];
      }
      forall r | r in Elems(m.reactions) ensures r in ReactionRows(put, p.id) {
        var i :| 0 <= i < |m.reactions| && m.reactions[i] == r;
        assert RowOf(Key(r), put[Key(r)]) == r;
      }
    }
  }

  /** Equal but for the order of the files. */
  ghost predicate SameButOrder(a: Enriched, b: Enriched) {
    a.(files := []) == b.(files := []) && multiset(a.files) == multiset(b.files)
  }

  lemma {:induction false} EntriesPermute(a: seq<FileInfo>, b: seq<FileInfo>)
    requires multiset(a) == multiset(b)
    ensures multiset(Entries(a)) == multiset(Entries(b))
    decreases |a|
  {
    if a != [] {
      var init, rest := TakeOut(a, b);
      EntriesPermute(init, rest);
    } else {
      assert |b| == |multiset(b)| == 0;
    }
  }

  /** The last file of one list is taken out of both. */
  lemma TakeOut(a: seq<FileInfo>, b: seq<FileInfo>) returns (init: seq<FileInfo>, rest: seq<FileInfo>)
    requires a != [] && multiset(a) == multiset(b)
    ensures |init| == |a| - 1 && multiset(init) == multiset(rest)
    ensures var e := Entry(a[|a| - 1]);
            multiset(Entries(a)) == multiset(Entries(init)) + multiset{e} &&
            multiset(Entries(b)) == multiset(Entries(rest)) + multiset{e}
  {
    var last := a[|a| - 1];
    assert last in multiset(b);
    var i :| 0 <= i < |b| && b[i] == last;
    init, rest := a[..|a| - 1], b[..i] + b[i + 1..];
    assert a == init + [last] + [] && init + [] == init;
    assert b == b[..i] + [last] + b[i + 1..];
    TakenOut(init, [], last);
    TakenOut(b[..i], b[i + 1..], last);
    Cancel(multiset(init), multiset(rest), last);
  }

  lemma TakenOut(left: seq<FileInfo>, right: seq<FileInfo>, f: FileInfo)
    ensures multiset(left + [f] + right) == multiset(left + right) + multiset{f}
    ensures multiset(Entries(left + [f] + right)) == multiset(Entries(left + right)) + multiset{Entry(f)}
  {
    EntriesSplit(left, right, f);
  }

  lemma {:induction false} EntriesAppend(a: seq<FileInfo>, b: seq<FileInfo>)
    ensures Entries(a + b) == Entries(a) + Entries(b)
  {
    if b == [] {
      assert a + b == a;
    } else {
      EntriesAppend(a, b[..|b| - 1]);
      assert (a + b)[..|a + b| - 1] == a + b[..|b| - 1];
    }
  }

  lemma EntriesSplit(a: seq<FileInfo>, b: seq<FileInfo>, f: FileInfo)
    ensures multiset(Entries(a + [f] + b)) == multiset(Entries(a + b)) + multiset{Entry(f)}
  {
    EntriesAppend(a + [f], b);
    EntriesAppend(a, [f]);
    EntriesAppend(a, b);
    assert Entries([f]) == [Entry(f)];
  }

  lemma {:induction false} EntriesLength(a: seq<FileInfo>)
    ensures |Entries(a)| == |a|
  {
    if a != [] {
      EntriesLength(a[..|a| - 1]);
    }
  }

  /** The cache round trip. A post stored and loaded again enriches to the same, up to the order of its files, exactly
      when the row kept the create time, no other file of the post was stored before, and either it carries reactions
      or none was stored. So it does for every post of which the cache holds nothing yet. */
  lemma RoundTripIff(db: Db, p: Post, m: Metadata, loaded: Metadata)
    requires Proper(p, m) && forall k :: k in db.files ==> db.files[k].id == k
    requires LoadsAs(UpsertPost(db, p, Some(m)), p.id, loaded)
    ensures SameButOrder(Enrich(UpsertPost(db, p, Some(m)).posts[p.id], loaded), Enrich(p, m)) <==>
            (p.id in db.posts ==> db.posts[p.id].createAt == p.createAt) &&
            LeftFiles(db, p, m) == {} && LeftReactions(db, p, m) == {}
  {
    StoredFiles(db, p, m);
    StoredReactions(db, p, m);
    FilesSame(db, p, m, loaded);
    ReactionsSame(db, p, m, loaded);
  }

  lemma FilesSame(db: Db, p: Post, m: Metadata, loaded: Metadata)
    requires Proper(p, m) && Distinct(loaded.files) && Elems(loaded.files) == Elems(m.files) + LeftFiles(db, p, m)
    ensures multiset(Entries(loaded.files)) == multiset(Entries(m.files)) <==> LeftFiles(db, p, m) == {}
  {
    var left := LeftFiles(db, p, m);
    assert Distinct(m.files);
    DistinctSize(loaded.files);
    DistinctSize(m.files);
    EntriesLength(loaded.files);
    EntriesLength(m.files);
    if left == {} {
      SameElems(loaded.files, m.files);
      EntriesPermute(loaded.files, m.files);
    } else {
      NotLeft(db, p, m);
      assert |Elems(loaded.files)| == |m.files| + |left|;
      assert |multiset(Entries(loaded.files))| == |loaded.files| && |multiset(Entries(m.files))| == |m.files|;
    }
  }

  lemma NotLeft(db: Db, p: Post, m: Metadata)
    ensures Elems(m.files) !! LeftFiles(db, p, m)
  {
    IdsAre(m.files);
  }

  lemma SameElems<T>(a: seq<T>, b: seq<T>)
    requires Distinct(a) && Distinct(b) && Elems(a) == Elems(b)
    ensures multiset(a) == multiset(b)
  {
    forall x ensures x in a <==> x in b {
      assert x in a <==> x in Elems(a);
      assert x in b <==> x in Elems(b);
    }
    DistinctSameMultiset(a, b);
  }

  lemma ReactionsSame(db: Db, p: Post, m: Metadata, loaded: Metadata)
    requires Proper(p, m) && Distinct(loaded.reactions)
    requires Elems(loaded.reactions) == Elems(m.reactions) + LeftReactions(db, p, m)
    ensures Tally(loaded.reactions) == Tally(m.reactions) <==> LeftReactions(db, p, m) == {}
  {
    assert Distinct(m.reactions);
    if LeftReactions(db, p, m) == {} {
      TallyOrderFree(loaded.reactions, m.reactions);
    } else {
      TallyCounts(loaded.reactions);
      var r :| r in LeftReactions(db, p, m);
      assert r in WithEmoji(Elems(loaded.reactions), r.emojiName);
    }
  }

  // ---- the view ----------------------------------------------------------------------------------------------

  /** The columns of `v_post` that enrichment computes as well; `botName` is NULL when there is no such prop. */
  datatype ViewRow = ViewRow(
    id: Id, threadId: Id, isReply: int, message: string, fileCount: nat, replyCount: int, isBot: int,
    botName: Option<string>, reactions: map<string, nat>)

  /** A row of the view over the tables. */
  ghost predicate InView(db: Db, v: ViewRow) {
    && v.id in db.posts
    && var p := db.posts[v.id];
       && v.threadId == (if p.rootId == "" then p.id else p.rootId) && v.isReply == (if p.rootId == "" then 0 else 1)
       && v.message == p.message && v.fileCount == |p.fileIds|
       && v.replyCount == (if p.rootId == "" then p.replyCount else 0)
       && v.isBot == (if FromWebhook(p) then 1 else 0) && v.botName == p.props.overrideUsername
       && Counts(v.reactions, ReactionRows(db.reactions, v.id))
  }

  /** The view and the enrichment of the loaded post always agree on thread, reply, file count, bot flag and reaction
      counts. They agree on the rest exactly when: the reply count is not negative, unless the post is a reply; only a
      webhook post sets a name to override; and no webhook post shows its attachments for an empty message. */
  lemma ViewAgreesIff(db: Db, v: ViewRow, loaded: Metadata)
    requires Keyed(db.posts) && InView(db, v) && LoadsAs(db, v.id, loaded)
    ensures var p := db.posts[v.id];
            var e := Enrich(p, loaded);
            && e.threadId == v.threadId && e.isReply == (v.isReply == 1) && e.fileCount == v.fileCount
            && e.isBot == (v.isBot == 1) && e.reactions == v.reactions
            && (e.replyCount == v.replyCount <==> p.rootId != "" || p.replyCount >= 0)
            && (e.botName == Text(v.botName) <==> FromWebhook(p) || Text(p.props.overrideUsername) == "")
            && (e.message == v.message <==> !FromWebhook(p) || p.message != "" || p.props.attachmentsText == "")
  {
    TallyCounts(loaded.reactions);
  }

  // ---- inputs on which they differ ---------------------------------------------------------------------------

  function Sample(message: string, replyCount: int, props: Props): Post {
    Post("p", "c", "u", "", message, 1, 1, 0, 0, replyCount, props, [])
  }

  const NO_PROPS := Props(None, None, "")

  /** A post loses its only file in an edit; storing the new version leaves the file's row, and the loaded post shows
      it. */
  lemma LeftOverFileShows(db: Db, f: FileInfo, loaded: Metadata)
    requires f.postId == "p" && db == EMPTY_DB.(files := map[f.id := f])
    requires LoadsAs(UpsertPost(db, Sample("", 0, NO_PROPS), Some(Metadata([], []))), "p", loaded)
    ensures var p := Sample("", 0, NO_PROPS); var stored := UpsertPost(db, p, Some(Metadata([], [])));
            !SameButOrder(Enrich(stored.posts["p"], loaded), Enrich(p, Metadata([], [])))
  {
    var p, m := Sample("", 0, NO_PROPS), Metadata([], []);
    assert db.files[f.id] == f && f in LeftFiles(db, p, m);
    RoundTripIff(db, p, m, loaded);
  }

  /** The view's row of a root post without reactions. */
  function RootRow(p: Post): ViewRow {
    ViewRow(p.id, p.id, 0, p.message, |p.fileIds|, p.replyCount, if FromWebhook(p) then 1 else 0,
            p.props.overrideUsername, map[])
  }

  /** A row of the view for each way it differs: a negative reply count, a name to override without a webhook, and a
      webhook post that shows its attachments. */
  lemma ViewDiffers(p: Post)
    requires p in {Sample("", -1, NO_PROPS), Sample("", 0, Props(None, Some("name"), "")),
                   Sample("", 0, Props(Some("true"), None, "text"))}
    ensures InView(EMPTY_DB.(posts := map["p" := p]), RootRow(p))
    ensures var v, e := RootRow(p), Enrich(p, Metadata([], []));
            if p.replyCount < 0 then v.replyCount == -1 && e.replyCount == 0
            else if FromWebhook(p) then v.message == "" && e.message == "text"
            else v.botName == Some("name") && e.botName == ""
  {
    var db := EMPTY_DB.(posts := map["p" := p]);
    assert ReactionRows(db.reactions, "p") == {};
    assert forall e :: WithEmoji({}, e) == {};
  }

  // ---- lists of enriched posts -------------------------------------------------------------------------------

  /** The cache holds just the files and reactions a post was sent with. */
  ghost predicate HeldAsSent(db: Db, p: Post, sent: Metadata) {
    && Proper(p, sent)
    && FileRows(db.files, p.id) == Elems(sent.files) && ReactionRows(db.reactions, p.id) == Elems(sent.reactions)
  }

  lemma HeldEnriches(db: Db, p: Post, sent: Metadata, loaded: Metadata)
    requires HeldAsSent(db, p, sent) && LoadsAs(db, p.id, loaded)
    ensures SameButOrder(Enrich(p, loaded), Enrich(p, sent))
  {
    assert Distinct(sent.files) && Distinct(sent.reactions);
    SameElems(loaded.files, sent.files);
    EntriesPermute(loaded.files, sent.files);
    TallyOrderFree(loaded.reactions, sent.reactions);
  }

  lemma {:induction false} EntryAt(files: seq<FileInfo>, i: nat)
    requires i < |files|
    ensures |Entries(files)| == |files| && Entries(files)[i] == Entry(files[i])
  {
    if i < |files| - 1 {
      EntryAt(files[..|files| - 1], i);
    } else if |files| > 1 {
      EntryAt(files[..|files| - 1], 0);
    }
  }

  lemma EntriesAre(files: seq<FileInfo>)
    ensures EntriesOf(files, Entries(files))
  {
    forall i | 0 <= i < |files| ensures |Entries(files)| == |files| && EntryOf(files[i], Entries(files)[i]) {
      EntryAt(files, i);
    }
    EntriesLength(files);
  }

  /** The query for the files gives no order: every load of a post shows just what was sent exactly when it has at most
      one file. */
  lemma FileOrderIff(db: Db, p: Post, sent: Metadata)
    requires HeldAsSent(db, p, sent)
    ensures (forall loaded :: LoadsAs(db, p.id, loaded) ==> Enrich(p, loaded) == Enrich(p, sent)) <==>
            |sent.files| <= 1
  {
    if |sent.files| <= 1 {
      forall loaded | LoadsAs(db, p.id, loaded) ensures Enrich(p, loaded) == Enrich(p, sent) {
        AtMostOne(loaded.files, sent.files);
        TallyOrderFree(loaded.reactions, sent.reactions);
      }
    } else {
      var swapped := [sent.files[1], sent.files[0]] + sent.files[2..];
      var loaded := Metadata(swapped, sent.reactions);
      assert LoadsAs(db, p.id, loaded);
      EntryAt(swapped, 0);
      EntryAt(sent.files, 0);
      assert Enrich(p, loaded).files[0].id != Enrich(p, sent).files[0].id;
    }
  }

  lemma AtMostOne(a: seq<FileInfo>, b: seq<FileInfo>)
    requires Distinct(a) && Elems(a) == Elems(b) && |b| <= 1
    ensures a == b
  {
    DistinctSize(a);
    DistinctSize(b);
    if b != [] {
      assert b[0] in Elems(b) && a[0] in Elems(a);
    }
  }
}
