/** `unread` from the cache and from the server (internal/cli/unread.go): the same rows, most recent first. */
module Unread {
  import opened Prelude
  import opened Model
  import opened Tables
  import opened Sorting
  import Counts
  import Reconcile
  import Timestamp

  /** A row of the report; names and labels are left out. */
  datatype Row = Row(id: Id, unread: int, mentions: int, lastPostAt: string)

  /** One channel of a team's listing with the user's member entry for it, if any. */
  datatype Entry = Entry(ch: Channel, member: Option<ChannelMember>)

  predicate MoreRecent(a: Row, b: Row) { StrLess(b.lastPostAt, a.lastPostAt) }

  function RowOf(id: Id, ch: Channel, msgCount: int, mentions: int): Row {
    Row(id, ch.totalMsgCount - msgCount, mentions, Timestamp.TimestampMS(ch.lastPostAt))
  }

  // ---- the live computation ----------------------------------------------------------------------------------

  predicate Counted(e: Entry) { e.member.Some? && e.ch.totalMsgCount - e.member.value.msgCount > 0 }

  function LiveRow(e: Entry): Row
    requires e.member.Some?
  {
    RowOf(e.ch.id, e.ch, e.member.value.msgCount, e.member.value.mentionCount)
  }

  /** The channels that have their row already. */
  function SeenIds(entries: seq<Entry>): set<Id> { set e | e in entries && Counted(e) :: e.ch.id }

  /** The rows in listing order: a channel listed under several teams gets one. */
  function LiveRows(entries: seq<Entry>): seq<Row> {
    if entries == [] then []
    else
      var init, e := entries[..|entries| - 1], entries[|entries| - 1];
      LiveRows(init) + if Counted(e) && e.ch.id !in SeenIds(init) then [LiveRow(e)] else []
  }

  lemma OneMoreEntry(entries: seq<Entry>, i: nat)
    requires i < |entries|
    ensures var e := entries[i];
            SeenIds(entries[..i + 1]) == SeenIds(entries[..i]) + if Counted(e) then {e.ch.id} else {}
    ensures var e := entries[i];
            LiveRows(entries[..i + 1]) ==
            LiveRows(entries[..i]) + if Counted(e) && e.ch.id !in SeenIds(entries[..i]) then [LiveRow(e)] else []
  {
    assert entries[..i + 1][..i] == entries[..i] && entries[..i + 1] == entries[..i] + [entries[i]];
  }

  /** What a row shows, field by field, of a channel and the user's counts in it. */
  predicate Shows(r: Row, id: Id, total: int, read: int, mentions: int, lastPostAt: int) {
    && r.id == id && r.unread == total - read && r.unread > 0 && r.mentions == mentions
    && r.lastPostAt == Timestamp.TimestampMS(lastPostAt)
  }

  predicate ShowsEntry(r: Row, e: Entry) {
    e.member.Some? &&
    Shows(r, e.ch.id, e.ch.totalMsgCount, e.member.value.msgCount, e.member.value.mentionCount, e.ch.lastPostAt)
  }

  /** The first entry of a channel that has unread posts. */
  ghost predicate FirstUnread(entries: seq<Entry>, i: nat) {
    && i < |entries| && entries[i].member.Some?
    && entries[i].ch.totalMsgCount > entries[i].member.value.msgCount
    && forall j :: 0 <= j < i && entries[j].ch.id == entries[i].ch.id ==>
         entries[j].member.None? || entries[j].ch.totalMsgCount <= entries[j].member.value.msgCount
  }

  ghost predicate ShowsFirst(r: Row, entries: seq<Entry>, i: nat) {
    FirstUnread(entries, i) && ShowsEntry(r, entries[i])
  }

  /** The last entry has its row exactly when it is the first of its channel. */
  lemma LastEntry(init: seq<Entry>, e: Entry)
    ensures FirstUnread(init + [e], |init|) <==> Counted(e) && e.ch.id !in SeenIds(init)
    ensures forall i: nat :: i < |init| ==> (FirstUnread(init + [e], i) <==> FirstUnread(init, i))
  {
    var entries := init + [e];
    assert e.ch.id in SeenIds(init) <==> exists x :: x in init && Counted(x) && x.ch.id == e.ch.id;
    assert forall j :: 0 <= j < |init| ==> entries[j] == init[j] && init[j] in init;
    if Counted(e) && e.ch.id !in SeenIds(init) {
      forall j | 0 <= j < |init| && init[j].ch.id == e.ch.id ensures !Counted(init[j]) {}
    }
  }

  lemma {:induction false} LiveRowsShow(entries: seq<Entry>)
    ensures forall r :: r in LiveRows(entries) ==> exists i: nat :: ShowsFirst(r, entries, i)
  {
    if entries != [] {
      var init, e := entries[..|entries| - 1], entries[|entries| - 1];
      LiveRowsShow(init);
      assert entries == init + [e];
      LastEntry(init, e);
      forall r | r in LiveRows(entries) ensures exists i: nat :: ShowsFirst(r, entries, i) {
        if r in LiveRows(init) {
          var i: nat :| ShowsFirst(r, init, i);
          assert ShowsFirst(r, entries, i);
        } else {
          assert ShowsFirst(r, entries, |init|);
        }
      }
    }
  }

  lemma {:induction false} EntryShown(entries: seq<Entry>, i: nat) returns (r: Row)
    requires FirstUnread(entries, i)
    ensures r in LiveRows(entries) && ShowsEntry(r, entries[i])
  {
    var init, e := entries[..|entries| - 1], entries[|entries| - 1];
    assert entries == init + [e];
    LastEntry(init, e);
    if i < |init| {
      r := EntryShown(init, i);
    } else {
      r := LiveRow(e);
    }
  }

  lemma AllShown(entries: seq<Entry>)
    ensures forall i: nat :: FirstUnread(entries, i) ==> exists r :: r in LiveRows(entries) && ShowsEntry(r, entries[i])
  {
    forall i: nat | FirstUnread(entries, i) ensures exists r :: r in LiveRows(entries) && ShowsEntry(r, entries[i]) {
      var r := EntryShown(entries, i);
    }
  }

  /** The loop of `computeUnreadRows` over all listings, and its sort: one row for each channel with unread posts, by
      its first entry that has some, the most recent first. */
  method ComputeUnreadRows(entries: seq<Entry>) returns (rows: seq<Row>)
    ensures rows == StableSort(MoreRecent, LiveRows(entries))
    ensures forall r :: r in rows ==> exists i: nat :: ShowsFirst(r, entries, i)
    ensures forall i: nat :: FirstUnread(entries, i) ==> exists r :: r in rows && ShowsEntry(r, entries[i])
    ensures forall i, j :: 0 <= i < j < |rows| ==>
      rows[i].id != rows[j].id && !StrLess(rows[i].lastPostAt, rows[j].lastPostAt)
  {
    var seen: set<Id> := {};
    rows := [];
    for i := 0 to |entries|
      invariant rows == LiveRows(entries[..i]) && seen == SeenIds(entries[..i])
    {
      var e := entries[i];
      OneMoreEntry(entries, i);
      if e.ch.id !in seen && e.member.Some? {
        var unread := e.ch.totalMsgCount - e.member.value.msgCount;
        if unread > 0 {
          seen := seen + {e.ch.id};
          rows := rows + [Row(e.ch.id, unread, e.member.value.mentionCount, Timestamp.TimestampMS(e.ch.lastPostAt))];
        }
      }
    }
    assert entries[..|entries|] == entries;
    LiveRowsShow(entries);
    AllShown(entries);
    LiveRowsOnce(entries);
    SortedRows(rows);
    SortedOnce(rows);
    rows := SortSlice(rows, MoreRecent);
  }

  lemma SortedOnce(rows: seq<Row>)
    requires forall i, j :: 0 <= i < j < |rows| ==> rows[i].id != rows[j].id
    ensures var sorted := StableSort(MoreRecent, rows);
      forall i, j :: 0 <= i < j < |sorted| ==> sorted[i].id != sorted[j].id
  {
    var sorted := StableSort(MoreRecent, rows);
    SortPermutes(MoreRecent, rows);
    PermutedDistinct(rows, sorted);
    forall i, j | 0 <= i < j < |sorted| ensures sorted[i].id != sorted[j].id {
      assert sorted[i] in rows && sorted[j] in rows && sorted[i] != sorted[j];
    }
  }

  lemma SortedRows(rows: seq<Row>)
    ensures var sorted := StableSort(MoreRecent, rows);
      (forall r :: r in sorted <==> r in rows) &&
      (forall i, j :: 0 <= i < j < |sorted| ==> !StrLess(sorted[i].lastPostAt, sorted[j].lastPostAt))
  {
    MoreRecentIsStrictWeak();
    SortPermutes(MoreRecent, rows);
    SortSorted(MoreRecent, rows);
    var sorted := StableSort(MoreRecent, rows);
    forall i, j | 0 <= i < j < |sorted| ensures !StrLess(sorted[i].lastPostAt, sorted[j].lastPostAt) {
      assert !MoreRecent(sorted[j], sorted[i]);
    }
  }

  // ---- the cached computation --------------------------------------------------------------------------------

  predicate Selected(db: Db, k: (Id, Id)) {
    k in db.members && k.0 in db.channels && db.channels[k.0].deleteAt == 0 &&
    db.channels[k.0].totalMsgCount - db.members[k].msgCount > 0
  }

  function LocalRow(db: Db, k: (Id, Id)): Row
    requires k in db.members && k.0 in db.channels
  {
    RowOf(k.0, db.channels[k.0], db.members[k].msgCount, db.members[k].mentionCount)
  }

  /** The rows the join selects, one for each selected member row. */
  ghost predicate SelectsRows(db: Db, keys: seq<(Id, Id)>, rows: seq<Row>) {
    && |rows| == |keys| && Distinct(keys)
    && (forall k :: k in keys <==> Selected(db, k))
    && (forall i :: 0 <= i < |keys| ==> Selected(db, keys[i]) && rows[i] == LocalRow(db, keys[i]))
  }

  /** A membership with unread posts, in a channel that is not deleted. */
  ghost predicate Behind(db: Db, k: (Id, Id)) {
    && k in db.members && k.0 in db.channels && db.channels[k.0].deleteAt == 0
    && db.channels[k.0].totalMsgCount > db.members[k].msgCount
  }

  ghost predicate ShowsMember(r: Row, db: Db, k: (Id, Id)) {
    Behind(db, k) &&
    Shows(r, k.0, db.channels[k.0].totalMsgCount, db.members[k].msgCount, db.members[k].mentionCount,
          db.channels[k.0].lastPostAt)
  }

  /** `unreadRowsLocal`: the join yields its rows in any order, one for each membership with unread posts; they are then
      sorted, the most recent first. */
  method UnreadRowsLocal(db: Db) returns (rows: seq<Row>)
    ensures exists keys, unsorted :: SelectsRows(db, keys, unsorted) && rows == StableSort(MoreRecent, unsorted)
    ensures forall r :: r in rows ==> exists k :: ShowsMember(r, db, k)
    ensures forall k :: Behind(db, k) ==> exists r :: r in rows && ShowsMember(r, db, k)
    ensures forall i, j :: 0 <= i < j < |rows| ==> !StrLess(rows[i].lastPostAt, rows[j].lastPostAt)
  {
    rows := [];
    ghost var keys := [];
    var left := db.members.Keys;
    while left != {}
      invariant left <= db.members.Keys && |rows| == |keys| && Distinct(keys)
      invariant forall k :: k in keys <==> Selected(db, k) && k !in left
      invariant forall i :: 0 <= i < |keys| ==> Selected(db, keys[i]) && rows[i] == LocalRow(db, keys[i])
      decreases left
    {
      var k :| k in left;
      left := left - {k};
      if Selected(db, k) {
        rows := rows + [LocalRow(db, k)];
        keys := keys + [k];
      }
    }
    assert SelectsRows(db, keys, rows);
    LocalRowsShow(db, keys, rows);
    SortedRows(rows);
    rows := SortSlice(rows, MoreRecent);
  }

  lemma LocalRowsShow(db: Db, keys: seq<(Id, Id)>, rows: seq<Row>)
    requires SelectsRows(db, keys, rows)
    ensures forall r :: r in rows ==> exists k :: ShowsMember(r, db, k)
    ensures forall k :: Behind(db, k) ==> exists r :: r in rows && ShowsMember(r, db, k)
  {
    forall r | r in rows ensures exists k :: ShowsMember(r, db, k) {
      var i :| 0 <= i < |rows| && rows[i] == r;
      assert ShowsMember(r, db, keys[i]);
    }
    forall k | Behind(db, k) ensures exists r :: r in rows && ShowsMember(r, db, k) {
      assert k in keys;
      var i :| 0 <= i < |keys| && keys[i] == k;
      assert ShowsMember(rows[i], db, k);
    }
  }

  lemma MoreRecentIsStrictWeak()
    ensures StrictWeak(MoreRecent)
  {
    forall x: Row, y: Row ensures MoreRecent(x, y) ==> !MoreRecent(y, x) {
      StrLessTotal(x.lastPostAt, y.lastPostAt);
    }
    forall x: Row, y: Row, z: Row ensures MoreRecent(x, z) ==> MoreRecent(x, y) || MoreRecent(y, z) {
      StrLessTotal(x.lastPostAt, y.lastPostAt);
      if MoreRecent(x, z) && StrLess(x.lastPostAt, y.lastPostAt) {
        StrLessTransitive(z.lastPostAt, x.lastPostAt, y.lastPostAt);
      }
    }
  }

  /** Sorting by the formatted time sorts by last activity, to the second; channels without one come last. */
  lemma RowsByRecency(unsorted: seq<Row>, times: map<Id, int>, i: nat, j: nat)
    requires forall r :: r in unsorted ==>
      r.id in times && times[r.id] <= Timestamp.MAX_MS && r.lastPostAt == Timestamp.TimestampMS(times[r.id])
    requires i < j < |unsorted|
    ensures var rows := StableSort(MoreRecent, unsorted);
      && rows[i].id in times && rows[j].id in times
      && var a, b := times[rows[i].id], times[rows[j].id]; b > 0 ==> a > 0 && a / 1000 >= b / 1000
  {
    var rows := StableSort(MoreRecent, unsorted);
    MoreRecentIsStrictWeak();
    SortSorted(MoreRecent, unsorted);
    SortPermutes(MoreRecent, unsorted);
    assert rows[i] in unsorted && rows[j] in unsorted;
    Timestamp.TimestampSortsBySecond(times[rows[i].id], times[rows[j].id]);
    assert !MoreRecent(rows[j], rows[i]);
  }

  // ---- after a reconcile the two agree -----------------------------------------------------------------------

  function TeamEntries(teamId: Id, channels: seq<Reconcile.Listed>, members: map<Id, ChannelMember>): seq<Entry> {
    if channels == [] then []
    else
      var ch := channels[|channels| - 1].ch;
      var member := if ch.id in members then Some(members[ch.id]) else None;
      TeamEntries(teamId, channels[..|channels| - 1], members) + [Entry(Reconcile.Tagged(ch, teamId), member)]
  }

  /** The listings of a snapshot, team by team, as both sides go through them. */
  function Entries(teams: seq<Reconcile.Team>): seq<Entry> {
    if teams == [] then []
    else
      var t := teams[|teams| - 1];
      Entries(teams[..|teams| - 1]) +
      if t.Unlisted? then [] else TeamEntries(t.id, t.channels, Reconcile.IndexMembers(t.members))
  }

  function EntryActs(e: Entry): seq<Counts.Act> {
    [Counts.ListChannel(e.ch)] + if e.member.Some? then [Counts.ListMember(e.member.value)] else []
  }

  function ActsOf(entries: seq<Entry>): seq<Counts.Act> {
    if entries == [] then [] else ActsOf(entries[..|entries| - 1]) + EntryActs(entries[|entries| - 1])
  }

  lemma {:induction false} ActsOfJoin(a: seq<Entry>, b: seq<Entry>)
    ensures ActsOf(a + b) == ActsOf(a) + ActsOf(b)
  {
    if b == [] {
      assert a + b == a;
    } else {
      assert (a + b)[..|a + b| - 1] == a + b[..|b| - 1];
      ActsOfJoin(a, b[..|b| - 1]);
    }
  }

  lemma {:induction false} TeamActsAre(teamId: Id, channels: seq<Reconcile.Listed>, members: map<Id, ChannelMember>)
    ensures Reconcile.TeamActs(teamId, channels, members) == ActsOf(TeamEntries(teamId, channels, members))
  {
    if channels != [] {
      TeamActsAre(teamId, channels[..|channels| - 1], members);
      var es := TeamEntries(teamId, channels, members);
      assert es[..|es| - 1] == TeamEntries(teamId, channels[..|channels| - 1], members);
    }
  }

  /** What reconcile writes for a snapshot is its entries' statements. */
  lemma {:induction false} ProgramIs(teams: seq<Reconcile.Team>)
    ensures Reconcile.Program(teams) == ActsOf(Entries(teams))
  {
    if teams != [] {
      var t := teams[|teams| - 1];
      var last := if t.Unlisted? then [] else TeamEntries(t.id, t.channels, Reconcile.IndexMembers(t.members));
      ProgramIs(teams[..|teams| - 1]);
      ActsOfJoin(Entries(teams[..|teams| - 1]), last);
      if t.Team? {
        TeamActsAre(t.id, t.channels, Reconcile.IndexMembers(t.members));
      }
    }
  }

  /** A snapshot tells one story: live channels only, and the same numbers wherever a channel is listed. */
  ghost predicate Consistent(entries: seq<Entry>, me: Id) {
    && (forall e :: e in entries ==> e.ch.deleteAt == 0)
    && (forall e :: e in entries && e.member.Some? ==>
          e.member.value.channelId == e.ch.id && e.member.value.userId == me)
    && (forall e, f :: e in entries && f in entries && e.ch.id == f.ch.id ==> SameNumbers(e, f))
  }

  predicate SameNumbers(e: Entry, f: Entry) {
    && e.ch.totalMsgCount == f.ch.totalMsgCount && e.ch.lastPostAt == f.ch.lastPostAt
    && (e.member.Some? && f.member.Some? ==>
          e.member.value.msgCount == f.member.value.msgCount &&
          e.member.value.mentionCount == f.member.value.mentionCount)
  }

  /** The tables hold an entry's numbers. */
  predicate Holds(db: Db, me: Id, e: Entry) {
    && e.ch.id in db.channels && db.channels[e.ch.id].deleteAt == 0
    && db.channels[e.ch.id].totalMsgCount == e.ch.totalMsgCount
    && db.channels[e.ch.id].lastPostAt == e.ch.lastPostAt
    && (e.member.Some? ==>
          (e.ch.id, me) in db.members &&
          db.members[(e.ch.id, me)].msgCount == e.member.value.msgCount &&
          db.members[(e.ch.id, me)].mentionCount == e.member.value.mentionCount)
  }

  lemma EntryRun(db: Db, me: Id, e: Entry)
    ensures Counts.Run(db, me, EntryActs(e)) ==
      var listed := db.(channels := db.channels[e.ch.id := e.ch]);
      if e.member.Some? then PutMember(listed, e.member.value) else listed
  {
    var first := Counts.ListChannel(e.ch);
    Counts.RunOne(db, me, first);
    if e.member.Some? {
      var second := Counts.ListMember(e.member.value);
      Counts.RunSplits(db, me, [first], [second]);
      Counts.RunOne(Counts.Exec(db, me, first), me, second);
    } else {
      assert EntryActs(e) == [first];
    }
  }

  /** Writing entry `l` keeps what the tables hold of entry `e`, and makes them hold `l`. */
  lemma EntryKeeps(db: Db, me: Id, l: Entry, e: Entry)
    requires l.ch.deleteAt == 0
    requires l.member.Some? ==> l.member.value.channelId == l.ch.id && l.member.value.userId == me
    requires e == l || (Holds(db, me, e) && (e.ch.id == l.ch.id ==> SameNumbers(e, l)))
    ensures Holds(Counts.Run(db, me, EntryActs(l)), me, e)
  {
    EntryRun(db, me, l);
  }

  /** After the listing statements of a snapshot, in any cache, every entry's numbers are in the tables. */
  lemma {:induction false} SnapshotHolds(db: Db, me: Id, entries: seq<Entry>, e: Entry)
    requires Consistent(entries, me) && e in entries
    ensures Holds(Counts.Run(db, me, ActsOf(entries)), me, e)
  {
    var init, l := entries[..|entries| - 1], entries[|entries| - 1];
    assert entries == init + [l];
    Counts.RunSplits(db, me, ActsOf(init), EntryActs(l));
    if e != l {
      SnapshotHolds(db, me, init, e);
    }
    EntryKeeps(Counts.Run(db, me, ActsOf(init)), me, l, e);
  }

  ghost predicate FromCounted(entries: seq<Entry>, r: Row) {
    exists e :: e in entries && Counted(e) && r == LiveRow(e)
  }

  lemma FromOneMore(entries: seq<Entry>, r: Row)
    requires entries != []
    ensures var init, l := entries[..|entries| - 1], entries[|entries| - 1];
      FromCounted(entries, r) <==> FromCounted(init, r) || (Counted(l) && r == LiveRow(l))
  {
    var init, l := entries[..|entries| - 1], entries[|entries| - 1];
    assert entries == init + [l];
    if FromCounted(init, r) {
      var e :| e in init && Counted(e) && r == LiveRow(e);
      assert e in entries;
    }
  }

  lemma SameLiveRow(e: Entry, l: Entry)
    requires Counted(e) && Counted(l) && e.ch.id == l.ch.id && SameNumbers(e, l)
    ensures LiveRow(e) == LiveRow(l)
  {
  }

  /** A channel that was counted before has its row. */
  lemma CountedBefore(entries: seq<Entry>, me: Id, init: seq<Entry>, l: Entry)
    requires Consistent(entries, me) && entries == init + [l] && Counted(l) && l.ch.id in SeenIds(init)
    ensures FromCounted(init, LiveRow(l))
  {
    var e :| e in init && Counted(e) && e.ch.id == l.ch.id;
    assert e in entries && l in entries;
    SameLiveRow(e, l);
  }

  lemma PartConsistent(entries: seq<Entry>, me: Id, init: seq<Entry>, l: Entry)
    requires Consistent(entries, me) && entries == init + [l]
    ensures Consistent(init, me)
  {
    assert forall e :: e in init ==> e in entries;
  }

  /** The live rows are those of the counted entries. */
  lemma {:induction false} LiveRowsAre(entries: seq<Entry>, me: Id, r: Row)
    requires Consistent(entries, me)
    ensures r in LiveRows(entries) <==> FromCounted(entries, r)
  {
    if entries != [] {
      var init, l := entries[..|entries| - 1], entries[|entries| - 1];
      PartConsistent(entries, me, init, l);
      LiveRowsAre(init, me, r);
      FromOneMore(entries, r);
      if Counted(l) && l.ch.id in SeenIds(init) {
        CountedBefore(entries, me, init, l);
      }
    }
  }

  lemma {:induction false} LiveRowsOnce(entries: seq<Entry>)
    ensures forall i, j :: 0 <= i < j < |LiveRows(entries)| ==> LiveRows(entries)[i].id != LiveRows(entries)[j].id
    ensures forall r :: r in LiveRows(entries) ==> r.id in SeenIds(entries)
  {
    if entries != [] {
      var init, l := entries[..|entries| - 1], entries[|entries| - 1];
      assert entries == init + [l];
      LiveRowsOnce(init);
      assert SeenIds(init) <= SeenIds(entries);
      if Counted(l) {
        assert l.ch.id in SeenIds(entries);
      }
    }
  }

  lemma EntryAgrees(db: Db, me: Id, e: Entry)
    requires e.member.Some? && Holds(db, me, e)
    ensures Counted(e) <==> Selected(db, (e.ch.id, me))
    ensures LiveRow(e) == LocalRow(db, (e.ch.id, me))
  {
  }

  /** The entry's membership is selected from the cache, and `r` is its row. */
  predicate CachedRow(db: Db, me: Id, e: Entry, r: Row) {
    e.member.Some? && Selected(db, (e.ch.id, me)) && r == LocalRow(db, (e.ch.id, me))
  }

  /** After a reconcile with nothing interleaved, whatever the cache held before, the cached rows of the listed
      memberships are the live rows. */
  lemma UnreadAgrees(was: Db, me: Id, teams: seq<Reconcile.Team>, r: Row)
    requires Consistent(Entries(teams), me)
    ensures var db := Counts.Run(was, me, Reconcile.Program(teams));
      r in LiveRows(Entries(teams)) <==> exists e :: e in Entries(teams) && CachedRow(db, me, e, r)
  {
    var entries := Entries(teams);
    var db := Counts.Run(was, me, Reconcile.Program(teams));
    ProgramIs(teams);
    forall e | e in entries ensures CachedRow(db, me, e, r) <==> Counted(e) && r == LiveRow(e) {
      SnapshotHolds(was, me, entries, e);
      if e.member.Some? {
        EntryAgrees(db, me, e);
      }
    }
    LiveRowsAre(entries, me, r);
  }

  /** The user's memberships in the cache are listed ones. */
  ghost predicate OnlyListed(keys: seq<(Id, Id)>, me: Id, entries: seq<Entry>) {
    forall k :: k in keys ==> k.1 == me && exists e :: e in entries && e.member.Some? && e.ch.id == k.0
  }

  ghost predicate NoTimeTwice(rows: seq<Row>) {
    forall x, y :: x in rows && y in rows && x != y ==> x.lastPostAt != y.lastPostAt
  }

  lemma TimesTell(rows: seq<Row>)
    ensures Discriminates(MoreRecent, rows) <==> NoTimeTwice(rows)
  {
    forall x, y | x in rows && y in rows
      ensures x.lastPostAt != y.lastPostAt <==> MoreRecent(x, y) || MoreRecent(y, x)
    {
      StrLessTotal(x.lastPostAt, y.lastPostAt);
    }
  }

  /** When the cache holds no other memberships, the two reports sort the same rows, and they are the same list, in
      whatever order the join yields its rows, exactly when no two rows show the same time of last activity. */
  lemma UnreadReportsAgree(was: Db, me: Id, teams: seq<Reconcile.Team>, keys: seq<(Id, Id)>, unsorted: seq<Row>)
    requires Consistent(Entries(teams), me)
    requires SelectsRows(Counts.Run(was, me, Reconcile.Program(teams)), keys, unsorted)
    requires OnlyListed(keys, me, Entries(teams))
    ensures multiset(unsorted) == multiset(LiveRows(Entries(teams)))
    ensures NoTimeTwice(unsorted) <==>
            forall b: seq<Row> :: multiset(b) == multiset(unsorted) ==>
              StableSort(MoreRecent, b) == StableSort(MoreRecent, LiveRows(Entries(teams)))
  {
    var entries := Entries(teams);
    var db := Counts.Run(was, me, Reconcile.Program(teams));
    forall r ensures r in unsorted <==> r in LiveRows(entries) {
      UnreadAgrees(was, me, teams, r);
      if k :| k in keys && r == LocalRow(db, k) {
        var e :| e in entries && e.member.Some? && e.ch.id == k.0;
        assert k == (e.ch.id, me);
        assert CachedRow(db, me, e, r);
      }
    }
    LiveRowsOnce(entries);
    DistinctSameMultiset(unsorted, LiveRows(entries));
    MoreRecentIsStrictWeak();
    TimesTell(unsorted);
    SameMembers(unsorted, LiveRows(entries));
    SortOrderIndependentIff(MoreRecent, LiveRows(entries));
  }
}
