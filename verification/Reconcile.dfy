/** `Reconcile` (internal/syncd/reconcile.go): the authoritative counts of every listed channel, and a catch-up page
    for those that advanced. */
module Reconcile {
  import opened Prelude
  import opened Model
  import opened Tables
  import opened Store
  import opened Blocks
  import Counts
  import Paging

  /** A channel of a listing, with what a fetch of its newest posts would find. */
  datatype Listed = Listed(ch: Channel, view: Paging.View)

  /** A team's listing: either call may fail. In the end the authors of the pages are fetched, if that works. */
  datatype Team = Unlisted | Team(id: Id, channels: seq<Listed>, members: seq<ChannelMember>, authors: bool)

  datatype Outcome = Done | Failed

  /** `indexMembers`: the last entry of a channel counts. */
  function IndexMembers(members: seq<ChannelMember>): map<Id, ChannelMember> {
    if members == [] then map[]
    else IndexMembers(members[..|members| - 1])[members[|members| - 1].channelId := members[|members| - 1]]
  }

  /** Direct channels have no team of their own and are tagged with the listing one. */
  function Tagged(ch: Channel, teamId: Id): Channel { if ch.teamId == "" then ch.(teamId := teamId) else ch }

  /** The listing statements of one channel: its row, then the member row if the user has one. */
  function ChannelActs(ch: Channel, teamId: Id, members: map<Id, ChannelMember>): seq<Counts.Act> {
    [Counts.ListChannel(Tagged(ch, teamId))] + if ch.id in members then [Counts.ListMember(members[ch.id])] else []
  }

  function TeamActs(teamId: Id, channels: seq<Listed>, members: map<Id, ChannelMember>): seq<Counts.Act> {
    if channels == [] then []
    else
      var last := channels[|channels| - 1].ch;
      TeamActs(teamId, channels[..|channels| - 1], members) + ChannelActs(last, teamId, members)
  }

  /** The listing statements of a whole reconcile, in order. */
  function Program(teams: seq<Team>): seq<Counts.Act> {
    if teams == [] then []
    else
      var t := teams[|teams| - 1];
      Program(teams[..|teams| - 1]) + if t.Unlisted? then [] else TeamActs(t.id, t.channels, IndexMembers(t.members))
  }

  ghost predicate ServerOk(l: Listed) { l.view.Served? ==> NewestFirst(l.view.server) }

  /** The part of the tables that listings write. */
  function ReadState(db: Db): (map<Id, Channel>, map<(Id, Id), Reading>) { (db.channels, db.members) }

  ghost predicate Listing(acts: seq<Counts.Act>) { forall a :: a in acts ==> a.ListChannel? || a.ListMember? }

  lemma ListingStep(a: Db, b: Db, me: Id, act: Counts.Act)
    requires ReadState(a) == ReadState(b) && (act.ListChannel? || act.ListMember?)
    ensures ReadState(Counts.Exec(a, me, act)) == ReadState(Counts.Exec(b, me, act))
  {
  }

  /** Listings neither read nor write the posts. */
  lemma {:induction false} ListingRun(a: Db, b: Db, me: Id, acts: seq<Counts.Act>)
    requires ReadState(a) == ReadState(b) && Listing(acts)
    ensures ReadState(Counts.Run(a, me, acts)) == ReadState(Counts.Run(b, me, acts))
    decreases |acts|
  {
    if acts != [] {
      assert acts[0] in acts;
      ListingStep(a, b, me, acts[0]);
      ListingRun(Counts.Exec(a, me, acts[0]), Counts.Exec(b, me, acts[0]), me, acts[1..]);
    }
  }

  /** Channels and members are as the statements leave them on the given tables. */
  ghost predicate ReadsAs(now: Db, was: Db, me: Id, acts: seq<Counts.Act>) {
    ReadState(now) == ReadState(Counts.Run(was, me, acts))
  }

  /** Two listings one after the other. */
  lemma ListingThen(was: Db, me: Id, a: seq<Counts.Act>, mid: Db, b: seq<Counts.Act>, now: Db)
    requires Listing(b) && ReadsAs(mid, was, me, a) && ReadsAs(now, mid, me, b)
    ensures ReadsAs(now, was, me, a + b)
  {
    Counts.RunSplits(was, me, a, b);
    ListingRun(mid, Counts.Run(was, me, a), me, b);
  }

  /** One more channel of a team. */
  lemma ChannelThen(was: Db, me: Id, teamId: Id, channels: seq<Listed>, members: map<Id, ChannelMember>, i: nat,
                    mid: Db, now: Db)
    requires i < |channels| && ReadsAs(mid, was, me, TeamActs(teamId, channels[..i], members))
    requires ReadsAs(now, mid, me, ChannelActs(channels[i].ch, teamId, members))
    ensures ReadsAs(now, was, me, TeamActs(teamId, channels[..i + 1], members))
  {
    assert channels[..i + 1][..i] == channels[..i];
    ListingThen(
      was, me, TeamActs(teamId, channels[..i], members), mid, ChannelActs(channels[i].ch, teamId, members), now);
  }

  /** One more team. */
  lemma TeamThen(was: Db, me: Id, teams: seq<Team>, i: nat, mid: Db, now: Db)
    requires i < |teams| && teams[i].Team? && ReadsAs(mid, was, me, Program(teams[..i]))
    requires var t := teams[i]; ReadsAs(now, mid, me, TeamActs(t.id, t.channels, IndexMembers(t.members)))
    ensures ReadsAs(now, was, me, Program(teams[..i + 1]))
  {
    var t := teams[i];
    var acts := TeamActs(t.id, t.channels, IndexMembers(t.members));
    assert teams[..i + 1][..i] == teams[..i];
    TeamListing(t.id, t.channels, IndexMembers(t.members));
    ListingThen(was, me, Program(teams[..i]), mid, acts, now);
  }

  lemma {:induction false} TeamListing(teamId: Id, channels: seq<Listed>, members: map<Id, ChannelMember>)
    ensures Listing(TeamActs(teamId, channels, members))
  {
    if channels != [] {
      TeamListing(teamId, channels[..|channels| - 1], members);
    }
  }

  /** The two statements of one channel. */
  lemma ChannelRun(db: Db, me: Id, ch: Channel, teamId: Id, members: map<Id, ChannelMember>)
    ensures Counts.Run(db, me, ChannelActs(ch, teamId, members)) ==
      var listed := db.(channels := db.channels[ch.id := Tagged(ch, teamId)]);
      if ch.id in members then PutMember(listed, members[ch.id]) else listed
  {
    var first := Counts.ListChannel(Tagged(ch, teamId));
    Counts.RunOne(db, me, first);
    if ch.id in members {
      var second := Counts.ListMember(members[ch.id]);
      Counts.RunSplits(db, me, [first], [second]);
      Counts.RunOne(Counts.Exec(db, me, first), me, second);
    } else {
      assert ChannelActs(ch, teamId, members) == [first];
    }
  }

  // ---- what the tables hold then -----------------------------------------------------------------------------

  /** The `j`-th member counts for its channel when it is the last of it. */
  ghost predicate LastOf(members: seq<ChannelMember>, j: nat) {
    j < |members| && forall k :: j < k < |members| ==> members[k].channelId != members[j].channelId
  }

  lemma {:induction false} IndexHolds(members: seq<ChannelMember>, j: nat)
    requires LastOf(members, j)
    ensures members[j].channelId in IndexMembers(members) && IndexMembers(members)[members[j].channelId] == members[j]
  {
    if j < |members| - 1 {
      IndexHolds(members[..|members| - 1], j);
    }
  }

  /** A listed channel's row is the one listed, with a team; and so is the member's, if there is one. */
  ghost predicate RowsOf(db: Db, teamId: Id, ch: Channel, members: map<Id, ChannelMember>) {
    && ch.id in db.channels
    && db.channels[ch.id] == ch.(teamId := if ch.teamId != "" then ch.teamId else teamId)
    && (ch.id in members ==> ReadingOf(db, members[ch.id]))
  }

  ghost predicate ReadingOf(db: Db, m: ChannelMember) {
    && (m.channelId, m.userId) in db.members
    && db.members[(m.channelId, m.userId)] == Reading(m.msgCount, m.mentionCount, m.lastViewedAt)
  }

  /** The members are under their channels. */
  ghost predicate Filed(members: map<Id, ChannelMember>) { forall c :: c in members ==> members[c].channelId == c }

  lemma {:induction false} IndexFiled(members: seq<ChannelMember>)
    ensures Filed(IndexMembers(members))
  {
    if members != [] {
      IndexFiled(members[..|members| - 1]);
    }
  }

  lemma {:induction false} TeamRows(db: Db, me: Id, teamId: Id, channels: seq<Listed>, members: map<Id, ChannelMember>,
                                    i: nat)
    requires Filed(members) && i < |channels|
    requires forall j :: i < j < |channels| ==> channels[j].ch.id != channels[i].ch.id
    ensures RowsOf(Counts.Run(db, me, TeamActs(teamId, channels, members)), teamId, channels[i].ch, members)
  {
    var n := |channels| - 1;
    var init, last := channels[..n], channels[n].ch;
    Counts.RunSplits(db, me, TeamActs(teamId, init, members), ChannelActs(last, teamId, members));
    ChannelRun(Counts.Run(db, me, TeamActs(teamId, init, members)), me, last, teamId, members);
    if i < n {
      TeamRows(db, me, teamId, init, members, i);
    }
  }

  /** A team that does not list the channel leaves its rows alone. */
  lemma {:induction false} OtherTeamRows(db: Db, me: Id, teamId: Id, channels: seq<Listed>,
                                         members: map<Id, ChannelMember>, id: Id, ch: Channel,
                                         own: map<Id, ChannelMember>)
    requires Filed(members) && Filed(own) && RowsOf(db, id, ch, own) && forall l :: l in channels ==> l.ch.id != ch.id
    ensures RowsOf(Counts.Run(db, me, TeamActs(teamId, channels, members)), id, ch, own)
  {
    if channels != [] {
      var n := |channels| - 1;
      var init, last := channels[..n], channels[n].ch;
      assert channels[n] in channels;
      OtherTeamRows(db, me, teamId, init, members, id, ch, own);
      Counts.RunSplits(db, me, TeamActs(teamId, init, members), ChannelActs(last, teamId, members));
      ChannelRun(Counts.Run(db, me, TeamActs(teamId, init, members)), me, last, teamId, members);
    }
  }

  /** No channel behind the `i`-th of the `k`-th team is the same. */
  ghost predicate LastListing(teams: seq<Team>, k: nat, i: nat) {
    && k < |teams| && teams[k].Team? && i < |teams[k].channels|
    && (forall j :: i < j < |teams[k].channels| ==> teams[k].channels[j].ch.id != teams[k].channels[i].ch.id)
    && forall n, l :: k < n < |teams| && teams[n].Team? && l in teams[n].channels ==>
         l.ch.id != teams[k].channels[i].ch.id
  }

  /** A team after the others. */
  lemma TeamLast(db: Db, me: Id, teams: seq<Team>)
    requires teams != []
    ensures var before, t := Counts.Run(db, me, Program(teams[..|teams| - 1])), teams[|teams| - 1];
      Counts.Run(db, me, Program(teams)) ==
        if t.Unlisted? then before else Counts.Run(before, me, TeamActs(t.id, t.channels, IndexMembers(t.members)))
  {
    var init, t := Program(teams[..|teams| - 1]), teams[|teams| - 1];
    if t.Unlisted? {
      assert init + [] == init;
    } else {
      Counts.RunSplits(db, me, init, TeamActs(t.id, t.channels, IndexMembers(t.members)));
    }
  }

  /** A later team keeps the rows of a channel it does not list. */
  lemma LaterTeamRows(db: Db, me: Id, t: Team, id: Id, ch: Channel, members: seq<ChannelMember>)
    requires t.Team? && RowsOf(db, id, ch, IndexMembers(members)) && forall l :: l in t.channels ==> l.ch.id != ch.id
    ensures RowsOf(Counts.Run(db, me, TeamActs(t.id, t.channels, IndexMembers(t.members))), id, ch,
                   IndexMembers(members))
  {
    IndexFiled(t.members);
    IndexFiled(members);
    OtherTeamRows(db, me, t.id, t.channels, IndexMembers(t.members), id, ch, IndexMembers(members));
  }

  /** After the listing statements of a whole reconcile, whatever the tables were before, each channel's rows are those
      of its last listing. */
  lemma {:induction false} ListedRows(db: Db, me: Id, teams: seq<Team>, k: nat, i: nat)
    requires LastListing(teams, k, i)
    ensures RowsOf(Counts.Run(db, me, Program(teams)), teams[k].id, teams[k].channels[i].ch,
                   IndexMembers(teams[k].members))
  {
    var n, own := |teams| - 1, teams[k];
    var before := Counts.Run(db, me, Program(teams[..n]));
    TeamLast(db, me, teams);
    if k == n {
      IndexFiled(own.members);
      TeamRows(before, me, own.id, own.channels, IndexMembers(own.members), i);
    } else {
      EarlierListing(teams, k, i);
      ListedRows(db, me, teams[..n], k, i);
      if teams[n].Team? {
        LaterTeamRows(before, me, teams[n], own.id, own.channels[i].ch, own.members);
      }
    }
  }

  lemma EarlierListing(teams: seq<Team>, k: nat, i: nat)
    requires LastListing(teams, k, i) && k < |teams| - 1
    ensures LastListing(teams[..|teams| - 1], k, i)
  {
    var init := teams[..|teams| - 1];
    assert forall n :: 0 <= n < |init| ==> init[n] == teams[n];
  }

  // ---- member rows come after their channels' -----------------------------------------------------------------

  lemma {:induction false} KnowingMore(known: set<Id>, more: set<Id>, acts: seq<Counts.Act>)
    requires Counts.ChannelsFirst(known, acts) && known <= more
    ensures Counts.ChannelsFirst(more, acts)
    decreases |acts|
  {
    if acts != [] {
      var c := acts[0];
      KnowingMore(Knows(known, c), Knows(more, c), acts[1..]);
    }
  }

  function Knows(known: set<Id>, act: Counts.Act): set<Id> {
    if act.ListChannel? then known + {act.ch.id} else known
  }

  lemma {:induction false} FirstThenFirst(known: set<Id>, a: seq<Counts.Act>, b: seq<Counts.Act>)
    requires Counts.ChannelsFirst(known, a) && Counts.ChannelsFirst(known, b)
    ensures Counts.ChannelsFirst(known, a + b)
    decreases |a|
  {
    if a == [] {
      assert a + b == b;
    } else {
      assert (a + b)[1..] == a[1..] + b;
      KnowingMore(known, Knows(known, a[0]), b);
      FirstThenFirst(Knows(known, a[0]), a[1..], b);
    }
  }

  /** An entry of the index is one of its own channel. */
  lemma {:induction false} IndexKeysChannels(members: seq<ChannelMember>)
    ensures forall c :: c in IndexMembers(members) ==> IndexMembers(members)[c].channelId == c
  {
    if members != [] {
      IndexKeysChannels(members[..|members| - 1]);
    }
  }

  lemma {:induction false} TeamActsFirst(
    known: set<Id>, teamId: Id, channels: seq<Listed>, members: map<Id, ChannelMember>)
    requires forall c :: c in members ==> members[c].channelId == c
    ensures Counts.ChannelsFirst(known, TeamActs(teamId, channels, members))
  {
    if channels != [] {
      TeamActsFirst(known, teamId, channels[..|channels| - 1], members);
      FirstThenFirst(known, TeamActs(teamId, channels[..|channels| - 1], members),
                     ChannelActs(channels[|channels| - 1].ch, teamId, members));
    }
  }

  /** Backfill and reconcile write every member row after its channel's, whatever was cached. */
  lemma {:induction false} ProgramFirst(known: set<Id>, teams: seq<Team>)
    ensures Counts.ChannelsFirst(known, Program(teams))
  {
    if teams != [] {
      var init, t := teams[..|teams| - 1], teams[|teams| - 1];
      ProgramFirst(known, init);
      if t.Unlisted? {
        assert Program(teams) == Program(init);
      } else {
        IndexKeysChannels(t.members);
        TeamActsFirst(known, t.id, t.channels, IndexMembers(t.members));
        FirstThenFirst(known, Program(init), TeamActs(t.id, t.channels, IndexMembers(t.members)));
      }
    }
  }

  /** A program that stops at any statement did so too. */
  lemma {:induction false} PrefixFirst(known: set<Id>, acts: seq<Counts.Act>, n: nat)
    requires Counts.ChannelsFirst(known, acts) && n <= |acts|
    ensures Counts.ChannelsFirst(known, acts[..n])
    decreases n
  {
    if n > 0 {
      PrefixFirst(Knows(known, acts[0]), acts[1..], n - 1);
      assert acts[..n][1..] == acts[1..][..n - 1];
    }
  }

  /** Statements of several goroutines, each its own in order, as they interleave. */
  ghost predicate Interleaves(acts: seq<Counts.Act>, threads: seq<seq<Counts.Act>>)
    decreases |acts|
  {
    if acts == [] then forall k :: 0 <= k < |threads| ==> threads[k] == []
    else exists k :: 0 <= k < |threads| && TakesFrom(acts, threads, k)
  }

  ghost predicate TakesFrom(acts: seq<Counts.Act>, threads: seq<seq<Counts.Act>>, k: nat)
    requires acts != [] && k < |threads|
    decreases |acts|, 0
  {
    threads[k] != [] && threads[k][0] == acts[0] && Interleaves(acts[1..], threads[k := threads[k][1..]])
  }

  lemma {:induction false} InterleavedFirst(known: set<Id>, acts: seq<Counts.Act>, threads: seq<seq<Counts.Act>>)
    requires Interleaves(acts, threads)
    requires forall k :: 0 <= k < |threads| ==> Counts.ChannelsFirst(known, threads[k])
    ensures Counts.ChannelsFirst(known, acts)
    decreases |acts|
  {
    if acts != [] {
      var k :| 0 <= k < |threads| && TakesFrom(acts, threads, k);
      var rest := threads[k := threads[k][1..]];
      var more := Knows(known, acts[0]);
      forall j | 0 <= j < |rest| ensures Counts.ChannelsFirst(more, rest[j]) {
        if j != k {
          KnowingMore(known, more, threads[j]);
        }
      }
      InterleavedFirst(more, acts[1..], rest);
    }
  }

  /** What a goroutine of the daemon does to channels and members: the listing statements of a backfill or a reconcile,
      up to any point, or events and ingests, which list nothing. */
  ghost predicate DaemonThread(acts: seq<Counts.Act>) {
    || (exists teams, n: nat :: n <= |Program(teams)| && acts == Program(teams)[..n])
    || (forall a :: a in acts ==> !a.ListMember? && !a.ListChannel?)
  }

  lemma {:induction false} EventsFirst(known: set<Id>, acts: seq<Counts.Act>)
    requires forall a :: a in acts ==> !a.ListMember? && !a.ListChannel?
    ensures Counts.ChannelsFirst(known, acts)
    decreases |acts|
  {
    if acts != [] {
      assert acts[0] in acts;
      EventsFirst(known, acts[1..]);
    }
  }

  /** Over every interleaving of listings, each possibly cut short, with posted and viewed events and ingests, from the
      empty database, no viewed event ever meets a member row without its channel: it never writes NULL. */
  lemma ViewsNeverFailInTheDaemon(acts: seq<Counts.Act>, threads: seq<seq<Counts.Act>>, me: Id, c: Id)
    requires Interleaves(acts, threads) && forall k :: 0 <= k < |threads| ==> DaemonThread(threads[k])
    ensures Counts.MembersHaveChannels(Counts.Run(EMPTY_DB, me, acts))
    ensures !ViewFails(Counts.Run(EMPTY_DB, me, acts), c, me)
  {
    forall k | 0 <= k < |threads| ensures Counts.ChannelsFirst({}, threads[k]) {
      if forall a :: a in threads[k] ==> !a.ListMember? && !a.ListChannel? {
        EventsFirst({}, threads[k]);
      } else {
        var teams, n: nat :| n <= |Program(teams)| && threads[k] == Program(teams)[..n];
        ProgramFirst({}, teams);
        PrefixFirst({}, Program(teams), n);
      }
    }
    InterleavedFirst({}, acts, threads);
    assert EMPTY_DB.channels.Keys == {};
    Counts.ViewsNeverFail(EMPTY_DB, me, acts, c);
  }

  // ---- catching up -------------------------------------------------------------------------------------------

  /** The page of a listed channel that has to catch up. */
  function CatchUpPage(l: Listed): seq<Post> {
    if l.view.Failed? then [] else l.view.server[..Min(CATCH_UP, |l.view.server|)]
  }

  ghost predicate Due(l: Listed, cursors: map<Id, Cursor>) { l.ch.lastPostAt > NewestPostAt(cursors, l.ch.id) }

  /** What the turn of one channel does to posts and cursors: nothing when it is synced as far as its last post, else
      its newest posts are stored and the cursor moves over them. */
  ghost predicate Turn(l: Listed, posts: map<Id, Post>, cursors: map<Id, Cursor>, posts': map<Id, Post>,
                       cursors': map<Id, Cursor>)
  {
    if !Due(l, cursors) then posts' == posts && cursors' == cursors
    else
      l.view.Served? && Paging.PageStored(posts, Elems(CatchUpPage(l)), posts') &&
      Paging.CursorOver(cursors, l.ch.id, CatchUpPage(l), cursors')
  }

  /** The turns of all channels of a listing, one after the other. */
  ghost predicate CatchesUp(listed: seq<Listed>, posts: map<Id, Post>, cursors: map<Id, Cursor>,
                            posts': map<Id, Post>, cursors': map<Id, Cursor>)
    decreases |listed|
  {
    if listed == [] then posts' == posts && cursors' == cursors
    else exists mid, at :: CatchesUpBy(listed, posts, cursors, mid, at, posts', cursors')
  }

  ghost predicate CatchesUpBy(listed: seq<Listed>, posts: map<Id, Post>, cursors: map<Id, Cursor>, mid: map<Id, Post>,
                              at: map<Id, Cursor>, posts': map<Id, Post>, cursors': map<Id, Cursor>)
    requires listed != []
    decreases |listed|, 0
  {
    && CatchesUp(listed[..|listed| - 1], posts, cursors, mid, at)
    && Turn(listed[|listed| - 1], mid, at, posts', cursors')
  }

  lemma OneMoreTurn(listed: seq<Listed>, i: nat, posts: map<Id, Post>, cursors: map<Id, Cursor>, mid: map<Id, Post>,
                    at: map<Id, Cursor>, posts': map<Id, Post>, cursors': map<Id, Cursor>)
    requires i < |listed| && CatchesUp(listed[..i], posts, cursors, mid, at)
    requires Turn(listed[i], mid, at, posts', cursors')
    ensures CatchesUp(listed[..i + 1], posts, cursors, posts', cursors')
  {
    var more := listed[..i + 1];
    assert more[..|more| - 1] == listed[..i];
    assert CatchesUpBy(more, posts, cursors, mid, at, posts', cursors');
  }

  lemma {:induction false} TurnsThenTurns(a: seq<Listed>, b: seq<Listed>, posts: map<Id, Post>,
                                          cursors: map<Id, Cursor>, mid: map<Id, Post>, at: map<Id, Cursor>,
                                          posts': map<Id, Post>, cursors': map<Id, Cursor>)
    requires CatchesUp(a, posts, cursors, mid, at) && CatchesUp(b, mid, at, posts', cursors')
    ensures CatchesUp(a + b, posts, cursors, posts', cursors')
    decreases |b|
  {
    if b == [] {
      assert a + b == a;
    } else {
      var init := b[..|b| - 1];
      var m, c :| CatchesUpBy(b, mid, at, m, c, posts', cursors');
      TurnsThenTurns(a, init, posts, cursors, mid, at, m, c);
      assert (a + b)[..|a + b| - 1] == a + init && (a + b)[|a + b| - 1] == b[|b| - 1];
      assert CatchesUpBy(a + b, posts, cursors, m, c, posts', cursors');
    }
  }

  // ---- passes that break off ---------------------------------------------------------------------------------

  /** A turn that broke off: some of the page is in, if one was due, and the cursor stays. */
  ghost predicate TurnBroken(l: Listed, posts: map<Id, Post>, cursors: map<Id, Cursor>, posts': map<Id, Post>,
                             cursors': map<Id, Cursor>)
  {
    cursors' == cursors && exists part :: PartOfTurn(l, posts, cursors, part, posts')
  }

  ghost predicate PartOfTurn(
    l: Listed, posts: map<Id, Post>, cursors: map<Id, Cursor>, part: set<Post>, posts': map<Id, Post>)
  {
    part <= Elems(CatchUpPage(l)) && (part != {} ==> Due(l, cursors)) && Paging.PageStored(posts, part, posts')
  }

  lemma NothingOfTurn(l: Listed, posts: map<Id, Post>, cursors: map<Id, Cursor>)
    ensures TurnBroken(l, posts, cursors, posts, cursors)
  {
    assert PartOfTurn(l, posts, cursors, {}, posts);
  }

  /** The first `k` turns went well, and the next broke off or was not begun. */
  ghost predicate BreaksAt(listed: seq<Listed>, k: nat, posts: map<Id, Post>, cursors: map<Id, Cursor>,
                           mid: map<Id, Post>, at: map<Id, Cursor>, posts': map<Id, Post>, cursors': map<Id, Cursor>)
  {
    && k <= |listed| && CatchesUp(listed[..k], posts, cursors, mid, at)
    && if k < |listed| then TurnBroken(listed[k], mid, at, posts', cursors') else posts' == mid && cursors' == at
  }

  ghost predicate BreaksOff(listed: seq<Listed>, posts: map<Id, Post>, cursors: map<Id, Cursor>,
                            posts': map<Id, Post>, cursors': map<Id, Cursor>)
  {
    exists k: nat, mid, at :: BreaksAt(listed, k, posts, cursors, mid, at, posts', cursors')
  }

  /** Wherever it breaks off, it breaks off a longer list there too, and one that begins with other turns. */
  lemma BreaksOffLonger(a: seq<Listed>, b: seq<Listed>, posts: map<Id, Post>, cursors: map<Id, Cursor>,
                        posts': map<Id, Post>, cursors': map<Id, Cursor>)
    requires a <= b && BreaksOff(a, posts, cursors, posts', cursors')
    ensures BreaksOff(b, posts, cursors, posts', cursors')
  {
    var k: nat, mid, at :| BreaksAt(a, k, posts, cursors, mid, at, posts', cursors');
    assert b[..k] == a[..k];
    if k == |a| < |b| {
      NothingOfTurn(b[k], mid, at);
    }
    assert BreaksAt(b, k, posts, cursors, mid, at, posts', cursors');
  }

  lemma BreaksOffLater(a: seq<Listed>, b: seq<Listed>, posts: map<Id, Post>, cursors: map<Id, Cursor>,
                       mid: map<Id, Post>, at: map<Id, Cursor>, posts': map<Id, Post>, cursors': map<Id, Cursor>)
    requires CatchesUp(a, posts, cursors, mid, at) && BreaksOff(b, mid, at, posts', cursors')
    ensures BreaksOff(a + b, posts, cursors, posts', cursors')
  {
    var k: nat, m, c :| BreaksAt(b, k, mid, at, m, c, posts', cursors');
    TurnsThenTurns(a, b[..k], posts, cursors, mid, at, m, c);
    assert (a + b)[..|a| + k] == a + b[..k];
    assert BreaksAt(a + b, |a| + k, posts, cursors, m, c, posts', cursors');
  }

  /** The tables are as a first part of the listing statements leaves them. */
  ghost predicate ReadsAsPart(now: Db, was: Db, me: Id, acts: seq<Counts.Act>) {
    exists n: nat :: n <= |acts| && ReadsAs(now, was, me, acts[..n])
  }

  lemma PartOfLonger(now: Db, was: Db, me: Id, a: seq<Counts.Act>, b: seq<Counts.Act>)
    requires a <= b && ReadsAsPart(now, was, me, a)
    ensures ReadsAsPart(now, was, me, b)
  {
    var n: nat :| n <= |a| && ReadsAs(now, was, me, a[..n]);
    assert b[..n] == a[..n];
  }

  lemma PartOfLater(was: Db, me: Id, a: seq<Counts.Act>, mid: Db, b: seq<Counts.Act>, now: Db)
    requires Listing(b) && ReadsAs(mid, was, me, a) && ReadsAsPart(now, mid, me, b)
    ensures ReadsAsPart(now, was, me, a + b)
  {
    var n: nat :| n <= |b| && ReadsAs(now, mid, me, b[..n]);
    assert forall act :: act in b[..n] ==> act in b;
    ListingThen(was, me, a, mid, b[..n], now);
    assert (a + b)[..|a| + n] == a + b[..n];
  }

  /** The statements of a channel broke off before the first, before the second, or after them. */
  lemma PartOfChannel(was: Db, me: Id, ch: Channel, teamId: Id, members: map<Id, ChannelMember>, now: Db)
    requires now == was || now == was.(channels := was.channels[ch.id := Tagged(ch, teamId)])
    ensures ReadsAsPart(now, was, me, ChannelActs(ch, teamId, members))
  {
    var acts := ChannelActs(ch, teamId, members);
    assert acts[..0] == [] && acts[..1] == [acts[0]];
    Counts.RunOne(was, me, acts[0]);
    var n := if now == was then 0 else 1;
    assert ReadsAs(now, was, me, acts[..n]);
  }

  lemma WholePart(now: Db, was: Db, me: Id, acts: seq<Counts.Act>)
    requires ReadsAs(now, was, me, acts)
    ensures ReadsAsPart(now, was, me, acts)
  {
    assert acts[..|acts|] == acts;
  }

  /** A channel of a team broke off. */
  lemma ChannelBreaks(was: Db, me: Id, teamId: Id, channels: seq<Listed>, members: map<Id, ChannelMember>, i: nat,
                      mid: Db, now: Db)
    requires i < |channels| && ReadsAs(mid, was, me, TeamActs(teamId, channels[..i], members))
    requires ReadsAsPart(now, mid, me, ChannelActs(channels[i].ch, teamId, members))
    ensures ReadsAsPart(now, was, me, TeamActs(teamId, channels, members))
  {
    var acts := ChannelActs(channels[i].ch, teamId, members);
    assert channels[..i + 1][..i] == channels[..i];
    PartOfLater(was, me, TeamActs(teamId, channels[..i], members), mid, acts, now);
    TeamActsGrow(teamId, channels, members, i + 1);
    PartOfLonger(
      now, was, me, TeamActs(teamId, channels[..i + 1], members), TeamActs(teamId, channels, members));
  }

  lemma {:induction false} TeamActsGrow(teamId: Id, channels: seq<Listed>, members: map<Id, ChannelMember>, n: nat)
    requires n <= |channels|
    ensures TeamActs(teamId, channels[..n], members) <= TeamActs(teamId, channels, members)
    decreases |channels| - n
  {
    if n == |channels| {
      assert channels[..n] == channels;
    } else {
      TeamActsGrow(teamId, channels, members, n + 1);
      assert channels[..n + 1][..n] == channels[..n];
    }
  }

  lemma {:induction false} ProgramGrows(teams: seq<Team>, n: nat)
    requires n <= |teams|
    ensures Program(teams[..n]) <= Program(teams) && Listings(teams[..n]) <= Listings(teams)
    decreases |teams| - n
  {
    if n == |teams| {
      assert teams[..n] == teams;
    } else {
      ProgramGrows(teams, n + 1);
      assert teams[..n + 1][..n] == teams[..n];
    }
  }

  /** The statements of a team broke off. */
  lemma TeamPart(was: Db, me: Id, teams: seq<Team>, i: nat, mid: Db, now: Db)
    requires i < |teams| && teams[i].Team? && ReadsAs(mid, was, me, Program(teams[..i]))
    requires var t := teams[i]; ReadsAsPart(now, mid, me, TeamActs(t.id, t.channels, IndexMembers(t.members)))
    ensures ReadsAsPart(now, was, me, Program(teams[..i + 1]))
  {
    var t := teams[i];
    var acts := TeamActs(t.id, t.channels, IndexMembers(t.members));
    assert teams[..i + 1][..i] == teams[..i];
    TeamListing(t.id, t.channels, IndexMembers(t.members));
    PartOfLater(was, me, Program(teams[..i]), mid, acts, now);
  }

  /** And its turns. */
  lemma TeamBreaks(was: Db, teams: seq<Team>, i: nat, mid: Db, now: Db)
    requires i < |teams| && teams[i].Team?
    requires CatchesUp(Listings(teams[..i]), was.posts, was.cursors, mid.posts, mid.cursors)
    requires BreaksOff(teams[i].channels, mid.posts, mid.cursors, now.posts, now.cursors)
    ensures BreaksOff(Listings(teams[..i + 1]), was.posts, was.cursors, now.posts, now.cursors)
  {
    assert teams[..i + 1][..i] == teams[..i];
    BreaksOffLater(Listings(teams[..i]), teams[i].channels, was.posts, was.cursors, mid.posts, mid.cursors, now.posts,
                   now.cursors);
  }

  lemma BreaksOffFurther(was: Db, me: Id, teams: seq<Team>, i: nat, now: Db)
    requires i <= |teams| && ReadsAsPart(now, was, me, Program(teams[..i]))
    requires BreaksOff(Listings(teams[..i]), was.posts, was.cursors, now.posts, now.cursors)
    ensures ReadsAsPart(now, was, me, Program(teams))
    ensures BreaksOff(Listings(teams), was.posts, was.cursors, now.posts, now.cursors)
  {
    ProgramGrows(teams, i);
    PartOfLonger(now, was, me, Program(teams[..i]), Program(teams));
    BreaksOffLonger(
      Listings(teams[..i]), Listings(teams), was.posts, was.cursors, now.posts, now.cursors);
  }

  lemma TurnBreaks(listed: seq<Listed>, i: nat, posts: map<Id, Post>, cursors: map<Id, Cursor>, mid: map<Id, Post>,
                   at: map<Id, Cursor>, posts': map<Id, Post>, cursors': map<Id, Cursor>)
    requires i < |listed| && CatchesUp(listed[..i], posts, cursors, mid, at)
    requires TurnBroken(listed[i], mid, at, posts', cursors')
    ensures BreaksOff(listed, posts, cursors, posts', cursors')
  {
    assert BreaksAt(listed, i, posts, cursors, mid, at, posts', cursors');
  }

  lemma AllTurns(listed: seq<Listed>, posts: map<Id, Post>, cursors: map<Id, Cursor>, posts': map<Id, Post>,
                 cursors': map<Id, Cursor>)
    requires CatchesUp(listed, posts, cursors, posts', cursors')
    ensures BreaksOff(listed, posts, cursors, posts', cursors')
  {
    assert listed[..|listed|] == listed;
    assert BreaksAt(listed, |listed|, posts, cursors, posts', cursors', posts', cursors');
  }

  /** The channels of all listings, in order. */
  function Listings(teams: seq<Team>): seq<Listed> {
    if teams == [] then []
    else
      var t := teams[|teams| - 1];
      Listings(teams[..|teams| - 1]) + if t.Unlisted? then [] else t.channels
  }

  predicate Serves(l: Listed, p: Post) { l.view.Served? && p in l.view.server }

  /** Each channel is listed once, and no two posts share an id. */
  ghost predicate Apart(listed: seq<Listed>) {
    && (forall i, j :: 0 <= i < j < |listed| ==> listed[i].ch.id != listed[j].ch.id)
    && (forall l, k, p, q :: l in listed && k in listed && Serves(l, p) && Serves(k, q) && p.id == q.id ==> p == q)
  }

  ghost predicate CursorStays(cursors: map<Id, Cursor>, cursors': map<Id, Cursor>, id: Id) {
    (id in cursors' <==> id in cursors) && (id in cursors ==> cursors'[id] == cursors[id])
  }

  /** A listed channel after the pass, told by its row, its posts and its cursor. When it is synced as far as its last
      post its cursor stays. Else its newest 60 posts are in, each with the create time it had if it was there before,
      and the cursor reaches from the oldest to the newest of them, and as far as it did. */
  ghost predicate UpToDate(l: Listed, posts: map<Id, Post>, cursors: map<Id, Cursor>, posts': map<Id, Post>,
                           cursors': map<Id, Cursor>)
  {
    var id := l.ch.id;
    if l.ch.lastPostAt <= (if id in cursors then cursors[id].newest else 0) then CursorStays(cursors, cursors', id)
    else
      && l.view.Served?
      && (forall i :: 0 <= i < |l.view.server| && i < 60 ==> var p := l.view.server[i];
            p.id in posts' &&
            posts'[p.id] == p.(createAt := if p.id in posts then posts[p.id].createAt else p.createAt))
      && if l.view.server == [] then CursorStays(cursors, cursors', id)
         else
           var first, last := l.view.server[0].createAt, l.view.server[Min(60, |l.view.server|) - 1].createAt;
           id in cursors' && cursors'[id] ==
             if id in cursors then Cursor(Min(cursors[id].oldest, last), Max(cursors[id].newest, first))
             else Cursor(last, first)
  }

  /** The posts a pass fetches. */
  ghost function Brought(listed: seq<Listed>, cursors: map<Id, Cursor>): set<Post> {
    set l, p | l in listed && Due(l, cursors) && p in CatchUpPage(l) :: p
  }

  ghost predicate Settled(l: Listed, cursors: map<Id, Cursor>, cursors': map<Id, Cursor>) {
    if !Due(l, cursors) then CursorStays(cursors, cursors', l.ch.id)
    else
      l.view.Served? && var page := CatchUpPage(l);
        if page == [] then CursorStays(cursors, cursors', l.ch.id)
        else
          l.ch.id in cursors' && cursors'[l.ch.id] ==
            MergeCursor(cursors, l.ch.id, page[|page| - 1].createAt, page[0].createAt)[l.ch.id]
  }

  /** All that a pass over channels listed once does. */
  ghost predicate Passed(listed: seq<Listed>, posts: map<Id, Post>, cursors: map<Id, Cursor>, posts': map<Id, Post>,
                         cursors': map<Id, Cursor>)
  {
    && Paging.PageStored(posts, Brought(listed, cursors), posts')
    && (forall l :: l in listed ==> Settled(l, cursors, cursors'))
    && (forall id :: (forall l :: l in listed ==> l.ch.id != id) ==> CursorStays(cursors, cursors', id))
  }

  lemma BroughtApart(listed: seq<Listed>, cursors: map<Id, Cursor>)
    requires Apart(listed)
    ensures IdsApart(Brought(listed, cursors))
  {
    forall p, q | p in Brought(listed, cursors) && q in Brought(listed, cursors) && p.id == q.id ensures p == q {
      var l :| l in listed && Due(l, cursors) && p in CatchUpPage(l);
      var k :| k in listed && Due(k, cursors) && q in CatchUpPage(k);
      assert Serves(l, p) && Serves(k, q);
    }
  }

  lemma ApartInit(listed: seq<Listed>)
    requires Apart(listed) && listed != []
    ensures Apart(listed[..|listed| - 1])
    ensures forall l :: l in listed[..|listed| - 1] ==> l in listed && l.ch.id != listed[|listed| - 1].ch.id
  {
    var init := listed[..|listed| - 1];
    forall l | l in init ensures l in listed && l.ch.id != listed[|listed| - 1].ch.id {
      var i :| 0 <= i < |init| && init[i] == l;
      assert listed[i] == l;
    }
  }

  lemma {:induction false} PassIs(listed: seq<Listed>, posts: map<Id, Post>, cursors: map<Id, Cursor>,
                                  posts': map<Id, Post>, cursors': map<Id, Cursor>)
    requires Apart(listed) && CatchesUp(listed, posts, cursors, posts', cursors')
    ensures Passed(listed, posts, cursors, posts', cursors')
    decreases |listed|
  {
    if listed == [] {
      assert Brought(listed, cursors) == {};
    } else {
      var init, l := listed[..|listed| - 1], listed[|listed| - 1];
      var mid, at :| CatchesUpBy(listed, posts, cursors, mid, at, posts', cursors');
      ApartInit(listed);
      PassIs(init, posts, cursors, mid, at);
      PassTurn(listed, init, l, posts, cursors, mid, at, posts', cursors');
    }
  }

  lemma PassTurn(listed: seq<Listed>, init: seq<Listed>, l: Listed, posts: map<Id, Post>, cursors: map<Id, Cursor>,
                 mid: map<Id, Post>, at: map<Id, Cursor>, posts': map<Id, Post>, cursors': map<Id, Cursor>)
    requires Apart(listed) && listed == init + [l] && forall k :: k in init ==> k.ch.id != l.ch.id
    requires Passed(init, posts, cursors, mid, at) && Turn(l, mid, at, posts', cursors')
    ensures Passed(listed, posts, cursors, posts', cursors')
  {
    assert CursorStays(cursors, at, l.ch.id);
    var page := if Due(l, cursors) then Elems(CatchUpPage(l)) else {};
    BroughtMore(listed, init, l, cursors);
    BroughtApart(listed, cursors);
    assert Paging.PageStored(mid, page, posts');
    Paging.StoredTwice(posts, Brought(init, cursors), mid, page, posts');
    PassCursors(listed, init, l, cursors, at, mid, posts', cursors');
  }

  lemma BroughtMore(listed: seq<Listed>, init: seq<Listed>, l: Listed, cursors: map<Id, Cursor>)
    requires listed == init + [l]
    ensures Brought(listed, cursors) ==
            Brought(init, cursors) + if Due(l, cursors) then Elems(CatchUpPage(l)) else {}
  {
    assert l in listed && forall k :: k in init ==> k in listed;
  }

  lemma PassCursors(listed: seq<Listed>, init: seq<Listed>, l: Listed, cursors: map<Id, Cursor>, at: map<Id, Cursor>,
                    mid: map<Id, Post>, posts': map<Id, Post>, cursors': map<Id, Cursor>)
    requires listed == init + [l] && (forall k :: k in init ==> k.ch.id != l.ch.id)
    requires CursorStays(cursors, at, l.ch.id) && Turn(l, mid, at, posts', cursors')
    requires forall k :: k in init ==> Settled(k, cursors, at)
    requires forall id :: (forall k :: k in init ==> k.ch.id != id) ==> CursorStays(cursors, at, id)
    ensures forall k :: k in listed ==> Settled(k, cursors, cursors')
    ensures forall id :: (forall k :: k in listed ==> k.ch.id != id) ==> CursorStays(cursors, cursors', id)
  {
    assert forall id :: id != l.ch.id ==> CursorStays(at, cursors', id);
    assert l in listed && forall k :: k in init ==> k in listed;
    forall k | k in listed ensures Settled(k, cursors, cursors') {
      if k in init {
        assert Settled(k, cursors, at);
      }
    }
    forall id | forall k :: k in listed ==> k.ch.id != id ensures CursorStays(cursors, cursors', id) {
      assert forall k :: k in init ==> k.ch.id != id;
      assert CursorStays(cursors, at, id) && id != l.ch.id;
    }
  }

  /** After a pass over channels listed once, every listed channel is up to date, and nothing else has changed. */
  lemma PassBrings(listed: seq<Listed>, posts: map<Id, Post>, cursors: map<Id, Cursor>, posts': map<Id, Post>,
                   cursors': map<Id, Cursor>)
    requires Apart(listed) && CatchesUp(listed, posts, cursors, posts', cursors')
    ensures forall l :: l in listed ==> UpToDate(l, posts, cursors, posts', cursors')
    ensures forall id :: id in posts ==> id in posts'
    ensures forall id :: id in posts' && NotServed(listed, id) ==> id in posts && posts'[id] == posts[id]
    ensures forall id :: (forall l :: l in listed ==> l.ch.id != id) ==> CursorStays(cursors, cursors', id)
  {
    PassIs(listed, posts, cursors, posts', cursors');
    forall l | l in listed ensures UpToDate(l, posts, cursors, posts', cursors') {
      ChannelIs(listed, l, posts, cursors, posts', cursors');
    }
    forall id | id in posts' && NotServed(listed, id) ensures id in posts && posts'[id] == posts[id] {
      OthersStay(listed, cursors, id);
    }
  }

  ghost predicate NotServed(listed: seq<Listed>, id: Id) {
    forall l, p :: l in listed && Serves(l, p) ==> p.id != id
  }

  lemma OthersStay(listed: seq<Listed>, cursors: map<Id, Cursor>, id: Id)
    requires NotServed(listed, id)
    ensures !Paging.Carries(Brought(listed, cursors), id)
  {
    forall p | p in Brought(listed, cursors) ensures p.id != id {
      var l :| l in listed && Due(l, cursors) && p in CatchUpPage(l);
      assert Serves(l, p);
    }
  }

  lemma ChannelIs(listed: seq<Listed>, l: Listed, posts: map<Id, Post>, cursors: map<Id, Cursor>,
                  posts': map<Id, Post>, cursors': map<Id, Cursor>)
    requires l in listed && Passed(listed, posts, cursors, posts', cursors')
    ensures UpToDate(l, posts, cursors, posts', cursors')
  {
    assert Settled(l, cursors, cursors');
    if Due(l, cursors) {
      forall i | 0 <= i < |l.view.server| && i < 60
        ensures var p := l.view.server[i]; p.id in posts' && posts'[p.id] == Paging.RowFor(posts, p)
      {
        var p := l.view.server[i];
        assert p == CatchUpPage(l)[i];
        assert l in listed && Due(l, cursors) && p in CatchUpPage(l);
      }
    }
  }

  /** However often a channel is listed, as direct channels are with every team: after the pass it is synced as far as
      each listing of it said, or as far as its newest post then. */
  lemma {:induction false} NoneLeftBehind(listed: seq<Listed>, posts: map<Id, Post>, cursors: map<Id, Cursor>,
                                          posts': map<Id, Post>, cursors': map<Id, Cursor>)
    requires CatchesUp(listed, posts, cursors, posts', cursors')
    ensures forall id :: NewestPostAt(cursors, id) <= NewestPostAt(cursors', id) || id !in cursors
    ensures forall id :: id in cursors ==> id in cursors'
    ensures forall id :: id in posts ==> id in posts'
    ensures forall l :: l in listed ==> Caught(l, posts', cursors')
    decreases |listed|
  {
    if listed != [] {
      var init, last := listed[..|listed| - 1], listed[|listed| - 1];
      var mid, at :| CatchesUpBy(listed, posts, cursors, mid, at, posts', cursors');
      NoneLeftBehind(init, posts, cursors, mid, at);
      forall l | l in listed ensures Caught(l, posts', cursors') {
        if l in init {
          assert Caught(l, mid, at);
        } else {
          assert l == last;
          JustCaught(l, mid, at, posts', cursors');
        }
      }
    }
  }

  ghost predicate Caught(l: Listed, posts: map<Id, Post>, cursors: map<Id, Cursor>) {
    || l.ch.lastPostAt <= 0
    || (l.ch.id in cursors && l.ch.lastPostAt <= cursors[l.ch.id].newest)
    || (l.view.Served? && (forall i :: 0 <= i < |l.view.server| && i < 60 ==> l.view.server[i].id in posts) &&
        (l.view.server == [] ||
         (l.ch.id in cursors && l.view.server[0].createAt <= cursors[l.ch.id].newest)))
  }

  lemma JustCaught(l: Listed, posts: map<Id, Post>, cursors: map<Id, Cursor>, posts': map<Id, Post>,
                   cursors': map<Id, Cursor>)
    requires Turn(l, posts, cursors, posts', cursors')
    ensures Caught(l, posts', cursors')
  {
    if Due(l, cursors) {
      forall i | 0 <= i < |l.view.server| && i < 60 ensures l.view.server[i].id in posts' {
        assert l.view.server[i] == CatchUpPage(l)[i];
      }
    }
  }

  /** What a pass may end badly for, other than a failure of the store: a listing, a page of a channel that was due, or
      the authors of a team. */
  ghost predicate Excused(teams: seq<Team>, cursors: map<Id, Cursor>) {
    exists t :: t in teams && (t.Unlisted? || !t.authors || exists l :: l in t.channels && Refused(l, cursors))
  }

  ghost predicate Refused(l: Listed, cursors: map<Id, Cursor>) { l.view.Failed? && Due(l, cursors) }

  class Reconciler {
    const store: Store
    const daemon: Paging.Daemon
    const me: Id

    constructor (daemon: Paging.Daemon, me: Id)
      ensures this.daemon == daemon && store == daemon.store && this.me == me
    {
      this.daemon, this.store, this.me := daemon, daemon.store, me;
    }

    /** The skip test and the catch-up page of one channel. */
    method CatchUp(l: Listed) returns (outcome: Outcome, fetched: bool)
      requires daemon.store == store && store.Valid() && ServerOk(l)
      modifies store`posts, store`index, store`files, store`reactions, store`cursors, store`log
      ensures store.Valid() && old(store.log).faults <= store.log.faults
      ensures outcome == Done <==> store.log.faults == old(store.log).faults && !Refused(l, old(store.cursors))
      ensures outcome == Done ==> Turn(l, old(store.posts), old(store.cursors), store.posts, store.cursors)
      ensures outcome == Failed ==> TurnBroken(l, old(store.posts), old(store.cursors), store.posts, store.cursors)
      ensures fetched ==> Due(l, old(store.cursors)) && l.view.Served?
      ensures outcome == Done ==> (fetched <==> Due(l, old(store.cursors)))
      ensures !fetched ==> store.posts == old(store.posts) && store.cursors == old(store.cursors)
    {
      NothingOfTurn(l, store.posts, store.cursors);
      var ok, newest := store.NewestPostAt(l.ch.id);
      if !ok { return Failed, false; }
      if l.ch.lastPostAt <= newest { return Done, false; }
      if l.view.Failed? { return Failed, false; }
      var page := l.view.server[..Min(CATCH_UP, |l.view.server|)];
      assert forall p :: p in page ==> p in l.view.server;
      ghost var stored;
      ok, stored := daemon.IngestPage(l.ch.id, page);
      assert PartOfTurn(l, old(store.posts), old(store.cursors), stored, store.posts);
      outcome, fetched := if ok then Done else Failed, true;
    }

    /** One channel of a listing. */
    method ReconcileChannel(l: Listed, teamId: Id, members: map<Id, ChannelMember>) returns (outcome: Outcome)
      requires daemon.store == store && store.Valid() && ServerOk(l)
      modifies store
      ensures store.Valid() && old(store.log).faults <= store.log.faults
      ensures outcome == Done ==>
        ReadsAs(store.Contents(), old(store.Contents()), me, ChannelActs(l.ch, teamId, members))
      ensures outcome == Done ==> Turn(l, old(store.posts), old(store.cursors), store.posts, store.cursors)
      ensures outcome == Done ==> store.log.faults == old(store.log).faults
      ensures outcome == Failed ==> store.log.faults > old(store.log).faults || Refused(l, store.cursors)
      ensures outcome == Failed ==>
        ReadsAsPart(store.Contents(), old(store.Contents()), me, ChannelActs(l.ch, teamId, members))
      ensures outcome == Failed ==> TurnBroken(l, old(store.posts), old(store.cursors), store.posts, store.cursors)
    {
      NothingOfTurn(l, store.posts, store.cursors);
      var listed := ListChannel(l, teamId, members);
      if !listed { return Failed; }
      var fetched;
      outcome, fetched := CatchUp(l);
      WholePart(store.Contents(), old(store.Contents()), me, ChannelActs(l.ch, teamId, members));
    }

    /** Its listing statements. */
    method ListChannel(l: Listed, teamId: Id, members: map<Id, ChannelMember>) returns (ok: bool)
      requires store.Valid()
      modifies store`channels, store`members, store`log
      ensures store.Valid() && old(store.log).faults <= store.log.faults
      ensures if ok then ReadsAs(store.Contents(), old(store.Contents()), me, ChannelActs(l.ch, teamId, members))
              else ReadsAsPart(store.Contents(), old(store.Contents()), me, ChannelActs(l.ch, teamId, members))
      ensures ok <==> store.log.faults == old(store.log).faults
    {
      ChannelRun(store.Contents(), me, l.ch, teamId, members);
      ok := store.UpsertChannel(Tagged(l.ch, teamId));
      if ok && l.ch.id in members {
        ok := store.UpsertChannelMember(members[l.ch.id]);
      }
      if !ok {
        PartOfChannel(old(store.Contents()), me, l.ch, teamId, members, store.Contents());
      }
    }

    /** The channels of a team; fetching the authors of their pages may fail at the end. */
    method ReconcileTeam(teamId: Id, channels: seq<Listed>, members: map<Id, ChannelMember>, authors: bool)
      returns (outcome: Outcome)
      requires daemon.store == store && store.Valid() && forall l :: l in channels ==> ServerOk(l)
      modifies store
      ensures store.Valid() && old(store.log).faults <= store.log.faults
      ensures outcome == Done ==>
        ReadsAs(store.Contents(), old(store.Contents()), me, TeamActs(teamId, channels, members))
      ensures outcome == Done ==> CatchesUp(channels, old(store.posts), old(store.cursors), store.posts, store.cursors)
      ensures outcome == Done ==> authors && store.log.faults == old(store.log).faults
      ensures outcome == Failed ==> store.log.faults > old(store.log).faults || !authors ||
                                    exists l :: l in channels && Refused(l, store.cursors)
      ensures outcome == Failed ==>
        ReadsAsPart(store.Contents(), old(store.Contents()), me, TeamActs(teamId, channels, members))
      ensures outcome == Failed ==>
        BreaksOff(channels, old(store.posts), old(store.cursors), store.posts, store.cursors)
    {
      for i := 0 to |channels|
        invariant store.Valid() && store.log.faults == old(store.log).faults
        invariant ReadsAs(store.Contents(), old(store.Contents()), me, TeamActs(teamId, channels[..i], members))
        invariant CatchesUp(channels[..i], old(store.posts), old(store.cursors), store.posts, store.cursors)
      {
        ghost var mid := store.Contents();
        outcome := ReconcileChannel(channels[i], teamId, members);
        if outcome == Failed {
          ChannelBreaks(old(store.Contents()), me, teamId, channels, members, i, mid, store.Contents());
          TurnBreaks(channels, i, old(store.posts), old(store.cursors), mid.posts, mid.cursors, store.posts,
                     store.cursors);
          return;
        }
        ChannelThen(old(store.Contents()), me, teamId, channels, members, i, mid, store.Contents());
        OneMoreTurn(channels, i, old(store.posts), old(store.cursors), mid.posts, mid.cursors, store.posts,
                    store.cursors);
      }
      assert channels[..|channels|] == channels;
      WholePart(store.Contents(), old(store.Contents()), me, TeamActs(teamId, channels, members));
      AllTurns(channels, old(store.posts), old(store.cursors), store.posts, store.cursors);
      outcome := if authors then Done else Failed;
    }

    /** A reconcile that ends well leaves the read state its listing statements give, whatever it was before, and every
        listed channel up to date. */
    method Reconcile(teams: seq<Team>) returns (outcome: Outcome)
      requires daemon.store == store && store.Valid()
      requires forall t, l :: t in teams && t.Team? && l in t.channels ==> ServerOk(l)
      modifies store
      ensures store.Valid()
      ensures outcome == Done ==> Unlisted !in teams && store.log.faults == old(store.log).faults
      ensures outcome == Failed ==> store.log.faults > old(store.log).faults || Excused(teams, store.cursors)
      ensures outcome == Done ==> ReadsAs(store.Contents(), old(store.Contents()), me, Program(teams))
      ensures outcome == Done ==>
        CatchesUp(Listings(teams), old(store.posts), old(store.cursors), store.posts, store.cursors)
      ensures outcome == Done && Apart(Listings(teams)) ==>
        forall l :: l in Listings(teams) ==>
          UpToDate(l, old(store.posts), old(store.cursors), store.posts, store.cursors)
      ensures outcome == Failed ==> ReadsAsPart(store.Contents(), old(store.Contents()), me, Program(teams))
      ensures outcome == Failed ==>
        BreaksOff(Listings(teams), old(store.posts), old(store.cursors), store.posts, store.cursors)
    {
      for i := 0 to |teams|
        invariant store.Valid() && Unlisted !in teams[..i] && store.log.faults == old(store.log).faults
        invariant ReadsAs(store.Contents(), old(store.Contents()), me, Program(teams[..i]))
        invariant CatchesUp(Listings(teams[..i]), old(store.posts), old(store.cursors), store.posts, store.cursors)
      {
        var t := teams[i];
        assert t in teams && teams[..i + 1][..i] == teams[..i];
        if t.Unlisted? {
          WholePart(store.Contents(), old(store.Contents()), me, Program(teams[..i]));
          AllTurns(Listings(teams[..i]), old(store.posts), old(store.cursors), store.posts, store.cursors);
          BreaksOffFurther(old(store.Contents()), me, teams, i, store.Contents());
          return Failed;
        }
        ghost var mid := store.Contents();
        outcome := ReconcileTeam(t.id, t.channels, IndexMembers(t.members), t.authors);
        if outcome == Failed {
          TeamPart(old(store.Contents()), me, teams, i, mid, store.Contents());
          TeamBreaks(old(store.Contents()), teams, i, mid, store.Contents());
          BreaksOffFurther(old(store.Contents()), me, teams, i + 1, store.Contents());
          return;
        }
        TeamThen(old(store.Contents()), me, teams, i, mid, store.Contents());
        TurnsThenTurns(Listings(teams[..i]), t.channels, old(store.posts), old(store.cursors), mid.posts, mid.cursors,
                       store.posts, store.cursors);
      }
      assert teams[..|teams|] == teams;
      outcome := Done;
      if Apart(Listings(teams)) {
        PassBrings(Listings(teams), old(store.posts), old(store.cursors), store.posts, store.cursors);
      }
    }
  }
}
