/** Fetching the authors the cache does not know (internal/syncd/daemon.go). */
module Users {
  import opened Prelude
  import opened Store

  const CHUNK := 100

  /** What the server knows of users: id to username. */
  type Directory = map<Id, string>

  function Flatten(chunks: seq<seq<Id>>): seq<Id> {
    if chunks == [] then [] else Flatten(chunks[..|chunks| - 1]) + chunks[|chunks| - 1]
  }

  /** The ids asked for so far that have no row: each once, in order of appearance. */
  function Missing(ids: seq<Id>, known: set<Id>): seq<Id> {
    if ids == [] then []
    else
      var rest, id := Missing(ids[..|ids| - 1], known), ids[|ids| - 1];
      if id == "" || id in rest || id in known then rest else rest + [id]
  }

  lemma {:induction false} MissingOnce(ids: seq<Id>, known: set<Id>)
    ensures Distinct(Missing(ids, known))
    ensures forall id :: id in Missing(ids, known) <==> id != "" && id in ids && id !in known
  {
    if ids != [] {
      var init := ids[..|ids| - 1];
      MissingOnce(init, known);
      assert ids == init + [ids[|ids| - 1]];
    }
  }

  /** `missingUserIDs`: an id is looked up when it first comes up. `known` are the ids with a row, and those whose
      lookup fails otherwise than for want of a row. */
  method MissingUserIDs(ids: seq<Id>, known: set<Id>) returns (missing: seq<Id>)
    ensures missing == Missing(ids, known)
  {
    missing := [];
    var seen: set<Id> := {};
    for i := 0 to |ids|
      invariant missing == Missing(ids[..i], known)
      invariant forall id :: id in seen <==> id != "" && id in ids[..i]
    {
      assert ids[..i + 1][..i] == ids[..i] && ids[..i + 1] == ids[..i] + [ids[i]];
      MissingOnce(ids[..i], known);
      if ids[i] == "" || ids[i] in seen { continue; }
      seen := seen + {ids[i]};
      if ids[i] !in known {
        missing := missing + [ids[i]];
      }
    }
    assert ids[..|ids|] == ids;
  }

  /** `chunkStrings`: consecutive pieces of the given size, the last one what is left. */
  method ChunkStrings(s: seq<Id>, size: int) returns (chunks: seq<seq<Id>>)
    ensures Flatten(chunks) == s
    ensures forall k :: 0 <= k < |chunks| ==> chunks[k] != [] && (size > 0 ==> |chunks[k]| <= size)
    ensures size > 0 ==> forall k :: 0 <= k < |chunks| - 1 ==> |chunks[k]| == size
  {
    if |s| == 0 { return []; }
    if size <= 0 {
      assert Flatten([s]) == Flatten([]) + s;
      return [s];
    }
    chunks := [];
    var i := 0;
    while i < |s|
      invariant 0 <= i && Flatten(chunks) == s[..Min(i, |s|)]
      invariant forall k :: 0 <= k < |chunks| ==> chunks[k] != [] && |chunks[k]| <= size
      invariant i <= |s| ==> forall k :: 0 <= k < |chunks| ==> |chunks[k]| == size
      invariant forall k :: 0 <= k < |chunks| - 1 ==> |chunks[k]| == size
      decreases |s| - i
    {
      var end := Min(i + size, |s|);
      var more := chunks + [s[i..end]];
      assert more[..|more| - 1] == chunks;
      assert s[..end] == s[..i] + s[i..end];
      chunks := more;
      i := i + size;
    }
    assert s[..|s|] == s;
  }

  lemma {:induction false} FullLength(chunks: seq<seq<Id>>)
    requires forall k :: 0 <= k < |chunks| ==> |chunks[k]| == CHUNK
    ensures |Flatten(chunks)| == |chunks| * CHUNK
  {
    if chunks != [] {
      FullLength(chunks[..|chunks| - 1]);
    }
  }

  /** As many pieces as it takes: the full ones, and the last. */
  lemma PiecesOf(chunks: seq<seq<Id>>)
    requires forall k :: 0 <= k < |chunks| ==> 0 < |chunks[k]| <= CHUNK
    requires forall k :: 0 <= k < |chunks| - 1 ==> |chunks[k]| == CHUNK
    ensures |chunks| == (|Flatten(chunks)| + 99) / 100
  {
    if chunks != [] {
      FullLength(chunks[..|chunks| - 1]);
    }
  }

  /** Rows were only added, for ids asked for, as the server has them. */
  ghost predicate Filled(before: Directory, asked: set<Id>, server: Directory, after: Directory) {
    && (forall id :: id in before ==> id in after && after[id] == before[id])
    && (forall id :: id in after && id !in before ==> id in asked && id in server && after[id] == server[id])
  }

  /** The users of one chunk are in, but for some. */
  ghost predicate Holds(chunk: seq<Id>, server: Directory, users: Directory, left: set<Id>) {
    forall id :: id in chunk && id in server && id !in left ==> id in users
  }

  /** One chunk: the call may not be served; the server leaves out the ids it does not know; the rest are upserted as
      they come. */
  method FetchChunk(store: Store, chunk: seq<Id>, server: Directory, served: bool, ghost before: Directory,
                    ghost asked: set<Id>)
    returns (ok: bool)
    requires store.Valid() && Filled(before, asked, server, store.users)
    requires forall id :: id in chunk ==> id in asked && id !in before
    modifies store`users, store`log
    ensures store.Valid() && Filled(before, asked, server, store.users)
    ensures store.log.faults == old(store.log).faults + if served && !ok then 1 else 0
    ensures forall id :: id in old(store.users) ==> id in store.users
    ensures ok ==> served
    ensures ok ==> Holds(chunk, server, store.users, {})
  {
    if !served { return false; }
    ok := true;
    var left := set id | id in chunk && id in server;
    while left != {}
      invariant store.Valid() && forall id :: id in left ==> id in chunk && id in server
      invariant Filled(before, asked, server, store.users) && Holds(chunk, server, store.users, left)
      invariant forall id :: id in old(store.users) ==> id in store.users
      invariant ok && store.log.faults == old(store.log).faults
      decreases left
    {
      var id :| id in left;
      ok := store.UpsertUser(id, server[id]);
      if !ok { return; }
      left := left - {id};
    }
  }

  lemma {:induction false} InFlatten(chunks: seq<seq<Id>>, k: nat, id: Id)
    requires k < |chunks| && id in chunks[k]
    ensures id in Flatten(chunks)
  {
    if k < |chunks| - 1 {
      InFlatten(chunks[..|chunks| - 1], k, id);
    }
  }

  lemma {:induction false} OfFlatten(chunks: seq<seq<Id>>, id: Id) returns (k: nat)
    requires id in Flatten(chunks)
    ensures k < |chunks| && id in chunks[k]
  {
    if id in chunks[|chunks| - 1] {
      k := |chunks| - 1;
    } else {
      k := OfFlatten(chunks[..|chunks| - 1], id);
    }
  }

  predicate ServedAt(calls: seq<bool>, k: nat) { k < |calls| && calls[k] }

  /** The calls for so many ids are served, a hundred at a time. */
  predicate AllServed(calls: seq<bool>, missing: nat) {
    forall k :: 0 <= k < (missing + 99) / 100 ==> ServedAt(calls, k)
  }

  /** `ensureUsers`: rows are only added, and only for missing ids, also when it fails half way; when it succeeds, every
      id asked for that the server knows has its row, if it could be looked up. `broken` are the ids that could not;
      `calls` says which of the calls, one for each hundred missing ids, are served. */
  method EnsureUsers(store: Store, ids: seq<Id>, broken: set<Id>, server: Directory, calls: seq<bool>)
    returns (ok: bool)
    requires store.Valid()
    modifies store`users, store`log
    ensures store.Valid() && Filled(old(store.users), Elems(ids), server, store.users)
    ensures old(store.log).faults <= store.log.faults
    ensures ok <==> store.log.faults == old(store.log).faults &&
                    AllServed(calls, |Missing(ids, old(store.users).Keys + broken)|)
    ensures ok ==> forall id :: id in ids && id != "" && id in server && id !in broken ==> id in store.users
  {
    ghost var before := store.users;
    var known := store.users.Keys + broken;
    var missing := MissingUserIDs(ids, known);
    MissingOnce(ids, known);
    var chunks := ChunkStrings(missing, CHUNK);
    PiecesOf(chunks);
    forall k, id | 0 <= k < |chunks| && id in chunks[k] ensures id in missing {
      InFlatten(chunks, k, id);
    }
    for i := 0 to |chunks|
      invariant store.Valid() && Filled(before, Elems(ids), server, store.users)
      invariant forall k :: 0 <= k < i ==> Holds(chunks[k], server, store.users, {})
      invariant store.log.faults == old(store.log).faults && forall k :: 0 <= k < i ==> ServedAt(calls, k)
    {
      ok := FetchChunk(store, chunks[i], server, ServedAt(calls, i), before, Elems(ids));
      if !ok { return; }
    }
    ok := true;
    forall id | id in missing && id in server ensures id in store.users {
      var k := OfFlatten(chunks, id);
    }
  }
}
