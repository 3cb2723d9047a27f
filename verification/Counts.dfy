/** Read state under interleaving: channel totals, read positions and deliveries as the statements that write them
    arrive in any order (internal/store/write.go, internal/syncd/reconcile.go, handlers.go, ipcserver.go). */
module Counts {
  import opened Prelude
  import opened Model
  import opened Tables

  /** One statement or transaction: a channel or member row of a listing, a posted event with its count bump, an upsert
      without one (an IPC ingest, a page, an edit), or a viewed event of the account's user. */
  datatype Act =
    | ListChannel(ch: Channel)
    | ListMember(m: ChannelMember)
    | PostedEvent(post: Post)
    | Upsert(post: Post)
    | ViewedEvent(channelId: Id, at: int)

  /** A statement that fails leaves the tables as they are. */
  function Exec(db: Db, me: Id, act: Act): Db {
    match act
    case ListChannel(ch) => db.(channels := db.channels[ch.id := ch])
    case ListMember(m) => PutMember(db, m)
    case PostedEvent(p) => Bump(db.(posts := PutPost(db.posts, p)), p.channelId, p.createAt)
    case Upsert(p) => db.(posts := PutPost(db.posts, p))
    case ViewedEvent(c, at) => if ViewFails(db, c, me) then db else View(db, c, me, at)
  }

  function Run(db: Db, me: Id, acts: seq<Act>): Db
    decreases |acts|
  {
    if acts == [] then db else Run(Exec(db, me, acts[0]), me, acts[1..])
  }

  predicate Lists(act: Act, c: Id) { act.ListChannel? && act.ch.id == c }

  predicate ListsMember(act: Act, c: Id, user: Id) { act.ListMember? && act.m.channelId == c && act.m.userId == user }

  predicate Views(act: Act, c: Id) { act.ViewedEvent? && act.channelId == c }

  /** The posted events of a channel. */
  function PostsTo(acts: seq<Act>, c: Id): nat
    decreases |acts|
  {
    if acts == [] then 0
    else (if acts[0].PostedEvent? && acts[0].post.channelId == c then 1 else 0) + PostsTo(acts[1..], c)
  }

  lemma {:induction false} RunSplits(db: Db, me: Id, a: seq<Act>, b: seq<Act>)
    ensures Run(db, me, a + b) == Run(Run(db, me, a), me, b)
    decreases |a|
  {
    if a == [] {
      assert a + b == b;
    } else {
      assert (a + b)[1..] == a[1..] + b;
      RunSplits(Exec(db, me, a[0]), me, a[1..], b);
    }
  }

  lemma TotalStep(db: Db, me: Id, act: Act, c: Id)
    requires c in db.channels && !Lists(act, c)
    ensures var t := Exec(db, me, act).channels;
      c in t && t[c].totalMsgCount == db.channels[c].totalMsgCount + PostsTo([act], c)
  {
  }

  lemma RunOne(db: Db, me: Id, act: Act)
    ensures Run(db, me, [act]) == Exec(db, me, act)
  {
    assert [act][1..] == [];
  }

  /** Between listings a known channel's total rises by exactly its number of posted events: ingests and pages that
      carry the same posts do not count them again. */
  lemma {:induction false} TotalCountsPosts(db: Db, me: Id, acts: seq<Act>, c: Id)
    requires c in db.channels && forall a :: a in acts ==> !Lists(a, c)
    ensures var t := Run(db, me, acts);
      c in t.channels && t.channels[c].totalMsgCount == db.channels[c].totalMsgCount + PostsTo(acts, c)
    decreases |acts|
  {
    if acts != [] {
      assert acts[0] in acts;
      TotalStep(db, me, acts[0], c);
      TotalCountsPosts(Exec(db, me, acts[0]), me, acts[1..], c);
    }
  }

  lemma ReadingStep(db: Db, me: Id, act: Act, c: Id)
    requires (c, me) in db.members && !ListsMember(act, c, me) && !Views(act, c)
    ensures var t := Exec(db, me, act); (c, me) in t.members && t.members[(c, me)] == db.members[(c, me)]
  {
  }

  /** A read position nobody lists or views stays as it is. */
  lemma {:induction false} ReadingStays(db: Db, me: Id, acts: seq<Act>, c: Id)
    requires (c, me) in db.members && forall a :: a in acts ==> !ListsMember(a, c, me) && !Views(a, c)
    ensures var t := Run(db, me, acts); (c, me) in t.members && t.members[(c, me)] == db.members[(c, me)]
    decreases |acts|
  {
    if acts != [] {
      assert acts[0] in acts;
      ReadingStep(db, me, acts[0], c);
      ReadingStays(Exec(db, me, acts[0]), me, acts[1..], c);
    }
  }

  /** Reconcile wins over whatever was in the cache and whatever happens meanwhile. In a run of statements that contains
      the channel's listing (`k` its last one), the channel ends with the listed total plus one for each post announced
      since. */
  lemma TotalStabilizes(db: Db, me: Id, acts: seq<Act>, k: nat, c: Id)
    requires k < |acts| && Lists(acts[k], c) && forall a :: a in acts[k + 1..] ==> !Lists(a, c)
    ensures var t := Run(db, me, acts);
      c in t.channels && t.channels[c].totalMsgCount == acts[k].ch.totalMsgCount + PostsTo(acts[k + 1..], c)
  {
    var at := Run(db, me, acts[..k + 1]);
    assert acts[..k + 1] == acts[..k] + [acts[k]];
    RunSplits(db, me, acts[..k], [acts[k]]);
    RunOne(Run(db, me, acts[..k]), me, acts[k]);
    assert acts == acts[..k + 1] + acts[k + 1..];
    RunSplits(db, me, acts[..k + 1], acts[k + 1..]);
    TotalCountsPosts(at, me, acts[k + 1..], c);
  }

  /** Likewise its read position (`m` the last listing of the member): as listed, if the channel is not viewed after. */
  lemma ReadingStabilizes(db: Db, me: Id, acts: seq<Act>, m: nat, c: Id)
    requires m < |acts| && ListsMember(acts[m], c, me)
    requires forall a :: a in acts[m + 1..] ==> !ListsMember(a, c, me) && !Views(a, c)
    ensures var t := Run(db, me, acts); var l := acts[m].m;
      (c, me) in t.members && t.members[(c, me)] == Reading(l.msgCount, l.mentionCount, l.lastViewedAt)
  {
    var at := Run(db, me, acts[..m + 1]);
    assert acts[..m + 1] == acts[..m] + [acts[m]];
    RunSplits(db, me, acts[..m], [acts[m]]);
    RunOne(Run(db, me, acts[..m]), me, acts[m]);
    assert acts == acts[..m + 1] + acts[m + 1..];
    RunSplits(db, me, acts[..m + 1], acts[m + 1..]);
    ReadingStays(at, me, acts[m + 1..], c);
  }

  /** If it is viewed after (`v` the last time), the position is the total of that moment, so that exactly the posts
      announced since the view, or counted by a later listing, are unread; mentions are cleared. */
  lemma ViewedReading(db: Db, me: Id, acts: seq<Act>, v: nat, c: Id)
    requires v < |acts| && Views(acts[v], c)
    requires forall a :: a in acts[v + 1..] ==> !ListsMember(a, c, me) && !Views(a, c)
    requires var then_ := Run(db, me, acts[..v]); (c, me) in then_.members && c in then_.channels
    ensures var then_, t := Run(db, me, acts[..v]), Run(db, me, acts);
      (c, me) in t.members && t.members[(c, me)] == Reading(then_.channels[c].totalMsgCount, 0, acts[v].at)
  {
    var at := Run(db, me, acts[..v + 1]);
    assert acts[..v + 1] == acts[..v] + [acts[v]];
    RunSplits(db, me, acts[..v], [acts[v]]);
    RunOne(Run(db, me, acts[..v]), me, acts[v]);
    assert acts == acts[..v + 1] + acts[v + 1..];
    RunSplits(db, me, acts[..v + 1], acts[v + 1..]);
    ReadingStays(at, me, acts[v + 1..], c);
  }

  // ---- a member row never lacks its channel ------------------------------------------------------------------

  ghost predicate MembersHaveChannels(db: Db) { forall k :: k in db.members ==> k.0 in db.channels }

  /** Every member row is written after its channel's: already cached, or listed earlier in the run. */
  ghost predicate ChannelsFirst(known: set<Id>, acts: seq<Act>)
    decreases |acts|
  {
    acts != [] ==>
      && (acts[0].ListMember? ==> acts[0].m.channelId in known)
      && ChannelsFirst(if acts[0].ListChannel? then known + {acts[0].ch.id} else known, acts[1..])
  }

  lemma MembersStep(db: Db, me: Id, act: Act)
    requires MembersHaveChannels(db) && (act.ListMember? ==> act.m.channelId in db.channels)
    ensures MembersHaveChannels(Exec(db, me, act))
    ensures Exec(db, me, act).channels.Keys ==
      if act.ListChannel? then db.channels.Keys + {act.ch.id} else db.channels.Keys
  {
  }

  /** So no viewed event ever writes NULL into a read position: it never fails on that account. */
  lemma {:induction false} ViewsNeverFail(db: Db, me: Id, acts: seq<Act>, c: Id)
    requires MembersHaveChannels(db) && ChannelsFirst(db.channels.Keys, acts)
    ensures MembersHaveChannels(Run(db, me, acts)) && !ViewFails(Run(db, me, acts), c, me)
    decreases |acts|
  {
    if acts == [] {
      assert (c, me) in db.members ==> (c, me).0 in db.channels;
    } else {
      MembersStep(db, me, acts[0]);
      ViewsNeverFail(Exec(db, me, acts[0]), me, acts[1..], c);
    }
  }

  // ---- deliveries commute ------------------------------------------------------------------------------------

  predicate Delivers(act: Act) { act.PostedEvent? || act.Upsert? }

  /** Every delivery of a post carries the same version of it, with the create time its row has if there is one. */
  ghost predicate OneVersion(posts: map<Id, Post>, acts: seq<Act>) {
    && (forall a :: a in acts ==> Delivers(a))
    && (forall a, b :: a in acts && b in acts && a.post.id == b.post.id ==> a.post == b.post)
    && (forall a :: a in acts && a.post.id in posts ==> posts[a.post.id].createAt == a.post.createAt)
  }

  /** The posts a run of deliveries carries. */
  ghost function Carried(acts: seq<Act>): set<Post> {
    set a | a in acts && Delivers(a) :: a.post
  }

  /** What the posts table comes to: each delivered post as delivered, every other row as it was. */
  ghost predicate Overlaid(posts: map<Id, Post>, carried: set<Post>, t: map<Id, Post>) {
    && (forall p :: p in carried ==> p.id in t && t[p.id] == p)
    && (forall id :: id in t && (forall p :: p in carried ==> p.id != id) ==> id in posts && t[id] == posts[id])
    && (forall id :: id in posts ==> id in t)
  }

  lemma DeliverStep(db: Db, me: Id, act: Act)
    requires Delivers(act) && OneVersion(db.posts, [act])
    ensures Exec(db, me, act).posts == db.posts[act.post.id := act.post]
  {
    assert act in [act];
    var p := act.post;
    assert PutPost(db.posts, p) == db.posts[p.id := p] by {
      assert p.id in db.posts ==> p.(createAt := db.posts[p.id].createAt) == p;
    }
  }

  lemma {:induction false} DeliveredRows(db: Db, me: Id, acts: seq<Act>)
    requires OneVersion(db.posts, acts)
    ensures Overlaid(db.posts, Carried(acts), Run(db, me, acts).posts)
    decreases |acts|
  {
    if acts != [] {
      var first, rest := acts[0], acts[1..];
      assert acts == [first] + rest;
      DeliverStep(db, me, first);
      var u := Exec(db, me, first);
      DeliveredRows(u, me, rest);
      assert Carried(acts) == Carried(rest) + {first.post};
    }
  }

  /** Order and repetition of IPC ingests, WebSocket echoes and pages do not matter to the posts table. */
  lemma DeliveriesCommute(db: Db, me: Id, a: seq<Act>, b: seq<Act>)
    requires OneVersion(db.posts, a) && OneVersion(db.posts, b) && Carried(a) == Carried(b)
    ensures Run(db, me, a).posts == Run(db, me, b).posts
  {
    DeliveredRows(db, me, a);
    DeliveredRows(db, me, b);
  }
}
