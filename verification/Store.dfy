/** The SQLite cache as an object (internal/store): one method per write helper. Any statement may fail; `works` says
    which do not, by their number. */
module Store {
  import opened Prelude
  import opened Model
  import opened Tables
  import Fts

  /** How many statements were run so far, and how many of them failed. */
  datatype Log = Log(statements: nat, faults: nat)

  function Logged(log: Log, ok: bool): Log { Log(log.statements + 1, if ok then log.faults else log.faults + 1) }

  /** The files of an upsert that broke off: some of them are in, in their order. */
  ghost predicate FilesBegun(before: map<Id, FileInfo>, fs: seq<FileInfo>, after: map<Id, FileInfo>) {
    exists n: nat :: n <= |fs| && after == PutFiles(before, fs[..n])
  }

  /** Likewise the reactions: the old ones, or after their removal some of the new. */
  ghost predicate ReactionsBegun(
    before: map<ReactionKey, int>, postId: Id, rs: seq<Reaction>, after: map<ReactionKey, int>)
  {
    after == before || exists n: nat :: n <= |rs| && after == PutReactions(DropReactions(before, postId), rs[..n])
  }

  /** What an upsert leaves of files and reactions, whether it broke off or not. */
  ghost predicate MetaBegun(
    files: map<Id, FileInfo>, reactions: map<ReactionKey, int>, postId: Id, meta: Option<Metadata>,
    files': map<Id, FileInfo>, reactions': map<ReactionKey, int>)
  {
    if meta.None? then files' == files && reactions' == reactions
    else
      FilesBegun(files, meta.value.files, files') && ReactionsBegun(reactions, postId, meta.value.reactions, reactions')
  }

  class Store {
    const tokenize: Fts.Tokenizer
    const works: nat -> bool
    var channels: map<Id, Channel>
    var members: map<(Id, Id), Reading>
    var users: map<Id, string>
    var posts: map<Id, Post>
    var files: map<Id, FileInfo>
    var reactions: map<ReactionKey, int>
    var cursors: map<Id, Cursor>
    var seen: map<string, int>
    var index: Fts.Index
    var log: Log

    /** Rows are keyed by id, and each has its rowid. */
    ghost predicate Valid()
      reads `posts, `index
    {
      Keyed(posts) && index.rowid.Keys == posts.Keys
    }

    /** The full-text index agrees with the messages. */
    ghost predicate Indexed()
      reads `posts, `index
    {
      Fts.Agrees(tokenize, MessagesOf(posts), index)
    }

    /** The tables as one value. */
    function Contents(): Db
      reads this
    {
      Db(channels, members, users, posts, files, reactions, cursors, seen)
    }

    constructor (tokenize: Fts.Tokenizer, works: nat -> bool)
      ensures Valid() && Indexed() && Contents() == EMPTY_DB && this.tokenize == tokenize && this.works == works
      ensures log == Log(0, 0)
    {
      this.tokenize, this.works, log := tokenize, works, Log(0, 0);
      channels, members, users, posts := map[], map[], map[], map[];
      files, reactions, cursors, seen := map[], map[], map[], map[];
      index := Fts.EMPTY;
    }

    /** The next statement. */
    method Attempt() returns (ok: bool)
      modifies `log
      ensures ok == works(old(log).statements) && log == Logged(old(log), ok)
    {
      ok := works(log.statements);
      log := Logged(log, ok);
    }

    method UpsertChannel(ch: Channel) returns (ok: bool)
      requires Valid()
      modifies `channels, `log
      ensures Valid() && ok == works(old(log).statements) && log == Logged(old(log), ok)
      ensures Contents() == if ok then old(Contents()).(channels := old(channels)[ch.id := ch]) else old(Contents())
    {
      ok := Attempt();
      if !ok { return; }
      channels := channels[ch.id := ch];
    }

    method UpsertChannelMember(m: ChannelMember) returns (ok: bool)
      requires Valid()
      modifies `members, `log
      ensures Valid() && ok == works(old(log).statements) && log == Logged(old(log), ok)
      ensures Contents() == if ok then PutMember(old(Contents()), m) else old(Contents())
      ensures ok ==> (m.channelId, m.userId) in members && var row := members[(m.channelId, m.userId)];
        row.msgCount == m.msgCount && row.mentionCount == m.mentionCount && row.lastViewedAt == m.lastViewedAt
      ensures members - {(m.channelId, m.userId)} == old(members) - {(m.channelId, m.userId)}
    {
      ok := Attempt();
      if !ok { return; }
      members := members[(m.channelId, m.userId) := Reading(m.msgCount, m.mentionCount, m.lastViewedAt)];
    }

    method UpsertUser(id: Id, username: string) returns (ok: bool)
      requires Valid()
      modifies `users, `log
      ensures Valid() && ok == works(old(log).statements) && log == Logged(old(log), ok)
      ensures Contents() == if ok then old(Contents()).(users := old(users)[id := username]) else old(Contents())
    {
      ok := Attempt();
      if !ok { return; }
      users := users[id := username];
    }

    /** The upsert of the posts row alone, with the trigger it fires. */
    method PutPostRow(p: Post) returns (ok: bool)
      requires Valid()
      modifies `posts, `index, `log
      ensures Valid() && ok == works(old(log).statements) && log == Logged(old(log), ok)
      ensures posts == if ok then PutPost(old(posts), p) else old(posts)
      ensures old(Indexed()) ==> Indexed()
    {
      ok := Attempt();
      if ok {
        if Indexed() {
          Fts.StatementAgrees(tokenize, MessagesOf(posts), index, Fts.Upsert(p.id, p.message));
        }
        index := Fts.IndexAfter(tokenize, MessagesOf(posts), index, Fts.Upsert(p.id, p.message));
        posts := PutPost(posts, p);
      }
    }

    method UpsertFiles(fs: seq<FileInfo>) returns (ok: bool)
      modifies `files, `log
      ensures ok ==> files == PutFiles(old(files), fs)
      ensures FilesBegun(old(files), fs, files)
      ensures log.faults == old(log).faults + if ok then 0 else 1
    {
      for i := 0 to |fs|
        invariant files == PutFiles(old(files), fs[..i]) && log.faults == old(log).faults
      {
        ok := Attempt();
        if !ok { return; }
        assert fs[..i + 1][..i] == fs[..i];
        files := files[fs[i].id := fs[i]];
      }
      assert fs[..|fs|] == fs;
      ok := true;
    }

    /** Replaces the stored reactions of a post by the ones it came with. */
    method ReplaceReactions(postId: Id, rs: seq<Reaction>) returns (ok: bool)
      modifies `reactions, `log
      ensures ok ==> reactions == PutReactions(DropReactions(old(reactions), postId), rs)
      ensures ReactionsBegun(old(reactions), postId, rs, reactions)
      ensures log.faults == old(log).faults + if ok then 0 else 1
    {
      ok := Attempt();
      if !ok { return; }
      reactions := DropReactions(reactions, postId);
      ghost var kept := reactions;
      for i := 0 to |rs|
        invariant reactions == PutReactions(kept, rs[..i]) && log.faults == old(log).faults
      {
        ok := Attempt();
        if !ok { return; }
        assert rs[..i + 1][..i] == rs[..i];
        reactions := reactions[Key(rs[i]) := rs[i].createAt];
      }
      assert rs[..|rs|] == rs;
      ok := true;
    }

    method UpsertMetadata(postId: Id, meta: Option<Metadata>) returns (ok: bool)
      modifies `files, `reactions, `log
      ensures ok ==> files == MetaFiles(old(files), meta) && reactions == MetaReactions(old(reactions), postId, meta)
      ensures MetaBegun(old(files), old(reactions), postId, meta, files, reactions)
      ensures log.faults == old(log).faults + if ok then 0 else 1
    {
      if meta.None? { return true; }
      ok := UpsertFiles(meta.value.files);
      if ok && |meta.value.reactions| > 0 {
        ok := ReplaceReactions(postId, meta.value.reactions);
      }
    }

    /** A failure after the first statement leaves the row written but its files or reactions incomplete. */
    method UpsertPost(p: Post, meta: Option<Metadata>) returns (ok: bool)
      requires Valid()
      modifies `posts, `index, `files, `reactions, `log
      ensures Valid()
      ensures old(Indexed()) ==> Indexed()
      ensures posts == if works(old(log).statements) then PutPost(old(posts), p) else old(posts)
      ensures ok ==> works(old(log).statements)
      ensures ok ==> files == MetaFiles(old(files), meta) && reactions == MetaReactions(old(reactions), p.id, meta)
      ensures MetaBegun(old(files), old(reactions), p.id, meta, files, reactions)
      ensures log.faults == old(log).faults + if ok then 0 else 1
    {
      ok := PutPostRow(p);
      if ok {
        ok := UpsertMetadata(p.id, meta);
      } else {
        assert meta.Some? ==> meta.value.files[..0] == [];
      }
    }

    method MarkPostDeleted(id: Id, deleteAt: int) returns (ok: bool)
      requires Valid()
      modifies `posts, `index, `log
      ensures Valid() && ok == works(old(log).statements) && log == Logged(old(log), ok)
      ensures posts == if ok then MarkDeleted(old(posts), id, deleteAt) else old(posts)
      ensures old(Indexed()) ==> Indexed()
    {
      ok := Attempt();
      if ok {
        if Indexed() {
          Fts.StatementAgrees(tokenize, MessagesOf(posts), index, Fts.SoftDelete(id));
        }
        index := Fts.IndexAfter(tokenize, MessagesOf(posts), index, Fts.SoftDelete(id));
        posts := MarkDeleted(posts, id, deleteAt);
      }
    }

    method UpsertReaction(r: Reaction) returns (ok: bool)
      requires Valid()
      modifies `reactions, `log
      ensures Valid() && ok == works(old(log).statements) && log == Logged(old(log), ok)
      ensures Contents() == if ok then old(Contents()).(reactions := old(reactions)[Key(r) := r.createAt])
                            else old(Contents())
      ensures ok ==> reactions == old(reactions)[(r.postId, r.userId, r.emojiName) := r.createAt]
    {
      ok := Attempt();
      if !ok { return; }
      reactions := reactions[Key(r) := r.createAt];
    }

    method DeleteReaction(r: Reaction) returns (ok: bool)
      requires Valid()
      modifies `reactions, `log
      ensures Valid() && ok == works(old(log).statements) && log == Logged(old(log), ok)
      ensures Contents() == if ok then old(Contents()).(reactions := old(reactions) - {Key(r)}) else old(Contents())
      ensures ok ==> reactions == old(reactions) - {(r.postId, r.userId, r.emojiName)}
    {
      ok := Attempt();
      if !ok { return; }
      reactions := reactions - {Key(r)};
    }

    method BumpChannelOnPost(channelId: Id, createAt: int) returns (ok: bool)
      requires Valid()
      modifies `channels, `log
      ensures Valid() && ok == works(old(log).statements) && log == Logged(old(log), ok)
      ensures Contents() == if ok then Bump(old(Contents()), channelId, createAt) else old(Contents())
      ensures channels.Keys == old(channels).Keys && channels - {channelId} == old(channels) - {channelId}
      ensures ok && channelId in channels ==> var was, c := old(channels)[channelId], channels[channelId];
        c == was.(totalMsgCount := was.totalMsgCount + 1, lastPostAt := c.lastPostAt) &&
        c.lastPostAt == if createAt > was.lastPostAt then createAt else was.lastPostAt
    {
      ok := Attempt();
      if !ok { return; }
      if channelId in channels {
        var c := channels[channelId];
        var last := if createAt > c.lastPostAt then createAt else c.lastPostAt;
        channels := channels[channelId := c.(totalMsgCount := c.totalMsgCount + 1, lastPostAt := last)];
      }
    }

    /** Fails on its own account exactly when the sub-select finds no channel for an existing member row. */
    method MarkChannelViewed(channelId: Id, userId: Id, viewedAt: int) returns (ok: bool)
      requires Valid()
      modifies `members, `log
      ensures Valid() && log == Logged(old(log), ok)
      ensures ok <==> works(old(log).statements) && !ViewFails(old(Contents()), channelId, userId)
      ensures ok <==> works(old(log).statements) && ((channelId, userId) in old(members) ==> channelId in channels)
      ensures Contents() == if ok then View(old(Contents()), channelId, userId, viewedAt) else old(Contents())
      ensures members.Keys == old(members).Keys
      ensures members - {(channelId, userId)} == old(members) - {(channelId, userId)}
      ensures ok && (channelId, userId) in members ==> channelId in channels && var row := members[(channelId, userId)];
        row.msgCount == channels[channelId].totalMsgCount && row.mentionCount == 0 && row.lastViewedAt == viewedAt
    {
      ok := works(log.statements) && !((channelId, userId) in members && channelId !in channels);
      log := Logged(log, ok);
      if ok && (channelId, userId) in members {
        members := members[(channelId, userId) := Reading(channels[channelId].totalMsgCount, 0, viewedAt)];
      }
    }

    method SetChannelCursor(channelId: Id, oldest: int, newest: int) returns (ok: bool)
      requires Valid()
      modifies `cursors, `log
      ensures Valid() && ok == works(old(log).statements) && log == Logged(old(log), ok)
      ensures Contents() == if ok then old(Contents()).(cursors := MergeCursor(old(cursors), channelId, oldest, newest))
                            else old(Contents())
      ensures ok ==> channelId in cursors && var c := cursors[channelId];
        if channelId !in old(cursors) then c.oldest == oldest && c.newest == newest
        else
          && c.oldest == (if oldest < old(cursors)[channelId].oldest then oldest else old(cursors)[channelId].oldest)
          && c.newest == (if newest > old(cursors)[channelId].newest then newest else old(cursors)[channelId].newest)
    {
      ok := Attempt();
      if !ok { return; }
      if channelId in cursors {
        var c := cursors[channelId];
        cursors := cursors[channelId := Cursor(Min(c.oldest, oldest), Max(c.newest, newest))];
      } else {
        cursors := cursors[channelId := Cursor(oldest, newest)];
      }
    }

    method SetSeenCursor(scope: string, throughAt: int) returns (ok: bool)
      requires Valid()
      modifies `seen, `log
      ensures Valid() && ok == works(old(log).statements) && log == Logged(old(log), ok)
      ensures Contents() == if ok then old(Contents()).(seen := old(seen)[scope := throughAt]) else old(Contents())
    {
      ok := Attempt();
      if !ok { return; }
      seen := seen[scope := throughAt];
    }

    /** The newest time synced of a channel, 0 when nothing was. */
    method NewestPostAt(channelId: Id) returns (ok: bool, newest: int)
      modifies `log
      ensures ok == works(old(log).statements) && log == Logged(old(log), ok)
      ensures ok ==> newest == if channelId in cursors then cursors[channelId].newest else 0
    {
      newest := 0;
      ok := Attempt();
      if ok && channelId in cursors {
        newest := cursors[channelId].newest;
      }
    }

    /** The oldest row of a channel, soft-deleted rows included; "" when the channel has none. */
    method OldestPostID(channelId: Id) returns (ok: bool, id: Id)
      requires Valid()
      requires "" !in posts
      modifies `log
      ensures ok == works(old(log).statements) && log == Logged(old(log), ok)
      ensures ok ==> (id == "" <==> forall k :: k in posts ==> posts[k].channelId != channelId)
      ensures ok && id != "" ==> id in posts && posts[id].channelId == channelId
      ensures ok && id != "" ==> forall k :: k in posts && posts[k].channelId == channelId ==>
        posts[id].createAt <= posts[k].createAt
    {
      id := "";
      ok := Attempt();
      if !ok { return; }
      var rest := posts.Keys;
      while rest != {}
        invariant rest <= posts.Keys
        invariant id == "" <==> forall k :: k in posts.Keys - rest ==> posts[k].channelId != channelId
        invariant id != "" ==> id in posts && posts[id].channelId == channelId
        invariant id != "" ==> forall k :: k in posts.Keys - rest && posts[k].channelId == channelId ==>
          posts[id].createAt <= posts[k].createAt
        decreases rest
      {
        var k :| k in rest;
        rest := rest - {k};
        if posts[k].channelId == channelId && (id == "" || posts[k].createAt < posts[id].createAt) {
          id := k;
        }
      }
    }

    /** Rolls a transaction back to the tables it started from. */
    method Rollback(db: Db, index: Fts.Index)
      requires Keyed(db.posts) && index.rowid.Keys == db.posts.Keys
      modifies this
      ensures Valid() && Contents() == db && this.index == index && log == old(log)
    {
      channels, members, users, posts := db.channels, db.members, db.users, db.posts;
      files, reactions, cursors, seen := db.files, db.reactions, db.cursors, db.seen;
      this.index := index;
    }
  }
}
