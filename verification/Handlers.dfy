/** The WebSocket and IPC handlers (internal/syncd/handlers.go, ipcserver.go), each against the store. */
module Handlers {
  import opened Prelude
  import opened Model
  import opened Tables
  import opened Store
  import Users

  const CURSOR_GLOBAL := "global"

  /** The members table after the user viewed some channels: each position at its channel's total. */
  ghost predicate AllViewed(was: Db, me: Id, viewed: set<Id>, now: int, members: map<(Id, Id), Reading>) {
    && (forall k :: k in members <==> k in was.members)
    && (forall k :: k in members && !(k.1 == me && k.0 in viewed) ==> members[k] == was.members[k])
    && (forall k :: k in members && k.1 == me && k.0 in viewed ==> ViewedNow(was, k.0, now, members[k]))
  }

  predicate ViewedNow(was: Db, c: Id, now: int, r: Reading) {
    c in was.channels && r == Reading(was.channels[c].totalMsgCount, 0, now)
  }

  ghost predicate SomeViewed(was: Db, me: Id, all: set<Id>, now: int, members: map<(Id, Id), Reading>) {
    exists viewed :: viewed <= all && AllViewed(was, me, viewed, now, members)
  }

  /** The channels a viewed event names: the keys of its `channel_times` map, or the one `channel_id` of older
      payloads. */
  function ViewedIds(times: Option<set<Id>>, single: Id): set<Id> {
    (if times.Some? then times.value else {single}) - {""}
  }

  lemma OneMoreViewed(was: Db, db: Db, me: Id, viewed: set<Id>, c: Id, now: int)
    requires db == was.(members := db.members) && AllViewed(was, me, viewed, now, db.members)
    requires !ViewFails(db, c, me)
    ensures AllViewed(was, me, viewed + {c}, now, View(db, c, me, now).members)
  {
  }

  /** At most the author was added; after success it is there, if the server knows it and it could be looked up. */
  ghost predicate AuthorFetched(
    before: Users.Directory, author: Id, ok: bool, broken: set<Id>, directory: Users.Directory, after: Users.Directory)
  {
    && Users.Filled(before, {author}, directory, after)
    && (ok && author != "" && author in directory && author !in broken ==> author in after)
  }

  /** The author is asked for only when it is not cached, by one call. */
  predicate AuthorCall(before: Users.Directory, author: Id, broken: set<Id>, calls: seq<bool>) {
    author == "" || author in before || author in broken || (calls != [] && calls[0])
  }

  lemma OneCall(before: Users.Directory, author: Id, broken: set<Id>, calls: seq<bool>)
    requires author != ""
    ensures Users.AllServed(calls, |Users.Missing([author], before.Keys + broken)|) <==>
            AuthorCall(before, author, broken, calls)
  {
    assert [author][..0] == [];
    assert Users.ServedAt(calls, 0) <==> calls != [] && calls[0];
  }

  class Handlers {
    const store: Store
    const me: Id

    constructor (store: Store, me: Id)
      ensures this.store == store && this.me == me
    {
      this.store, this.me := store, me;
    }

    /** `handlePosted`: the upsert and the count bump are one transaction; then the author is fetched, if it is not
        cached. A payload without an id is ignored. `broken` are the ids whose lookup fails, `directory` what the server
        knows of users, `calls` says whether its call is served. */
    method HandlePosted(p: Post, meta: Option<Metadata>, broken: set<Id>, directory: Users.Directory, calls: seq<bool>)
      returns (committed: bool, ok: bool)
      requires store.Valid()
      modifies store
      ensures store.Valid()
      ensures p.id == "" ==> !committed && store.log == old(store.log)
      ensures !committed ==> p.id == "" || store.log.faults > old(store.log).faults
      ensures ok <==> store.log.faults == old(store.log).faults &&
                      (p.id == "" || AuthorCall(old(store.users), p.userId, broken, calls))
      ensures old(store.Indexed()) ==> store.Indexed()
      ensures store.Contents().(users := old(store.users)) ==
        if committed then Bump(Tables.UpsertPost(old(store.Contents()), p, meta), p.channelId, p.createAt)
        else old(store.Contents())
      ensures AuthorFetched(old(store.users), p.userId, committed && ok, broken, directory, store.users)
      ensures !committed ==> store.users == old(store.users)
    {
      if p.id == "" { return false, true; }
      committed := SavePosted(p, meta);
      ok := committed;
      if committed {
        ok := FetchAuthor(p.userId, broken, directory, calls);
      }
    }

    /** The author of a post that is stored. */
    method FetchAuthor(author: Id, broken: set<Id>, directory: Users.Directory, calls: seq<bool>) returns (ok: bool)
      requires store.Valid()
      modifies store`users, store`log
      ensures store.Valid() && old(store.log).faults <= store.log.faults
      ensures ok <==>
        store.log.faults == old(store.log).faults && AuthorCall(old(store.users), author, broken, calls)
      ensures AuthorFetched(old(store.users), author, ok, broken, directory, store.users)
    {
      if author == "" { return true; }
      OneCall(store.users, author, broken, calls);
      ok := Users.EnsureUsers(store, [author], broken, directory, calls);
    }

    /** The transaction of `handlePosted`. */
    method SavePosted(p: Post, meta: Option<Metadata>) returns (committed: bool)
      requires store.Valid()
      modifies store
      ensures store.Valid()
      ensures store.log.faults == old(store.log).faults + if committed then 0 else 1
      ensures old(store.Indexed()) ==> store.Indexed()
      ensures store.Contents() ==
        if committed then Bump(Tables.UpsertPost(old(store.Contents()), p, meta), p.channelId, p.createAt)
        else old(store.Contents())
    {
      committed := store.Attempt();
      if !committed { return; }
      var saved, index := store.Contents(), store.index;
      committed := UpsertAndBump(p, meta);
      if committed {
        committed := store.Attempt();
      }
      if !committed {
        store.Rollback(saved, index);
      }
    }

    /** Its two statements; after a failure it is rolled back. */
    method UpsertAndBump(p: Post, meta: Option<Metadata>) returns (ok: bool)
      requires store.Valid()
      modifies store
      ensures store.Valid() && (old(store.Indexed()) ==> store.Indexed())
      ensures store.log.faults == old(store.log).faults + if ok then 0 else 1
      ensures ok ==>
        store.Contents() == Bump(Tables.UpsertPost(old(store.Contents()), p, meta), p.channelId, p.createAt)
    {
      ok := store.UpsertPost(p, meta);
      if ok {
        ok := store.BumpChannelOnPost(p.channelId, p.createAt);
      }
    }

    /** `handlePostEdited`: an upsert without a bump. */
    method HandlePostEdited(p: Post, meta: Option<Metadata>) returns (ok: bool)
      requires store.Valid()
      modifies store`posts, store`index, store`files, store`reactions, store`log
      ensures store.Valid()
      ensures store.log.faults == old(store.log).faults + if ok then 0 else 1
      ensures old(store.Indexed()) ==> store.Indexed()
      ensures p.id == "" ==> ok && store.Contents() == old(store.Contents())
      ensures ok && p.id != "" ==> store.Contents() == Tables.UpsertPost(old(store.Contents()), p, meta)
      ensures store.posts ==
        if p.id != "" && store.works(old(store.log).statements) then PutPost(old(store.posts), p) else old(store.posts)
      ensures p.id != "" ==>
        MetaBegun(old(store.files), old(store.reactions), p.id, meta, store.files, store.reactions)
    {
      if p.id == "" { return true; }
      ok := store.UpsertPost(p, meta);
    }

    /** `handlePostDeleted`: a soft delete, dated now when the payload has no date. */
    method HandlePostDeleted(p: Post, now: int) returns (ok: bool)
      requires store.Valid()
      modifies store`posts, store`index, store`log
      ensures store.Valid()
      ensures ok <==> p.id == "" || store.works(old(store.log).statements)
      ensures old(store.Indexed()) ==> store.Indexed()
      ensures store.Contents() ==
        if ok && p.id != "" then
          old(store.Contents()).(
            posts := MarkDeleted(old(store.posts), p.id, if p.deleteAt == 0 then now else p.deleteAt))
        else old(store.Contents())
    {
      if p.id == "" { return true; }
      ok := store.MarkPostDeleted(p.id, if p.deleteAt == 0 then now else p.deleteAt);
    }

    /** `handleReaction`. */
    method HandleReaction(r: Reaction, added: bool) returns (ok: bool)
      requires store.Valid()
      modifies store`reactions, store`log
      ensures store.Valid()
      ensures ok <==> r.postId == "" || r.emojiName == "" || store.works(old(store.log).statements)
      ensures store.reactions ==
        if !ok || r.postId == "" || r.emojiName == "" then old(store.reactions)
        else if added then old(store.reactions)[Key(r) := r.createAt] else old(store.reactions) - {Key(r)}
    {
      if r.postId == "" || r.emojiName == "" { return true; }
      if added {
        ok := store.UpsertReaction(r);
      } else {
        ok := store.DeleteReaction(r);
      }
    }

    /** `handleChannelsViewed`: the channels in any order, stopping at the first failure. */
    method HandleChannelsViewed(times: Option<set<Id>>, single: Id, now: int) returns (ok: bool)
      requires store.Valid()
      modifies store`members, store`log
      ensures store.Valid() && store.log.faults == old(store.log).faults + if ok then 0 else 1
      ensures ok ==> AllViewed(old(store.Contents()), me, ViewedIds(times, single), now, store.members)
      ensures SomeViewed(old(store.Contents()), me, ViewedIds(times, single), now, store.members)
      ensures ok ==> forall k :: k in store.members ==>
        if k.1 == me && k.0 != "" && (if times.Some? then k.0 in times.value else k.0 == single) then
          k.0 in store.channels && store.members[k] == Reading(store.channels[k.0].totalMsgCount, 0, now)
        else k in old(store.members) && store.members[k] == old(store.members)[k]
    {
      var all := ViewedIds(times, single);
      var left := all;
      while left != {}
        invariant store.Valid() && left <= all && store.log.faults == old(store.log).faults
        invariant AllViewed(old(store.Contents()), me, all - left, now, store.members)
        decreases left
      {
        var c :| c in left;
        ghost var db := store.Contents();
        ok := store.MarkChannelViewed(c, me, now);
        if !ok {
          assert SomeViewed(old(store.Contents()), me, all, now, store.members);
          return;
        }
        OneMoreViewed(old(store.Contents()), db, me, all - left, c, now);
        assert all - left + {c} == all - (left - {c});
        left := left - {c};
      }
      assert all - left == all;
      ok := true;
    }

    /** `handleIngestPost`: an upsert that leaves the counts to the WebSocket echo; a body without an id is refused. The
        author is fetched if it is not cached, and a failure of that is not reported. */
    method HandleIngestPost(p: Post, meta: Option<Metadata>, broken: set<Id>, directory: Users.Directory,
                            calls: seq<bool>)
      returns (ok: bool)
      requires store.Valid()
      modifies store`posts, store`index, store`files, store`reactions, store`users, store`log
      ensures store.Valid()
      ensures !ok ==> p.id == "" || store.log.faults > old(store.log).faults
      ensures old(store.Indexed()) ==> store.Indexed()
      ensures p.id == "" ==> !ok && store.Contents() == old(store.Contents())
      ensures ok ==>
        store.Contents().(users := old(store.users)) == Tables.UpsertPost(old(store.Contents()), p, meta)
      ensures store.posts ==
        if p.id != "" && store.works(old(store.log).statements) then PutPost(old(store.posts), p) else old(store.posts)
      ensures p.id != "" ==>
        MetaBegun(old(store.files), old(store.reactions), p.id, meta, store.files, store.reactions)
      ensures var fetched := store.log.faults == old(store.log).faults &&
                             AuthorCall(old(store.users), p.userId, broken, calls);
              AuthorFetched(old(store.users), p.userId, ok && fetched, broken, directory, store.users)
    {
      if p.id == "" { return false; }
      ok := store.UpsertPost(p, meta);
      if ok {
        var _ := FetchAuthor(p.userId, broken, directory, calls);
      }
    }

    /** `handleSeen`: without a positive mark the cursor moves to now. */
    method HandleSeen(throughAt: int, now: int) returns (ok: bool)
      requires store.Valid()
      modifies store`seen, store`log
      ensures store.Valid() && ok == store.works(old(store.log).statements)
      ensures store.seen ==
        if ok then old(store.seen)["global" := if throughAt <= 0 then now else throughAt] else old(store.seen)
    {
      ok := store.SetSeenCursor(CURSOR_GLOBAL, if throughAt <= 0 then now else throughAt);
    }
  }
}
