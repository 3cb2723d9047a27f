/** Processing by cursor: `new` lists, `seen` advances (internal/cli/inbox.go, query.go, internal/store/read.go). */
module Inbox {
  import opened Prelude
  import opened Model
  import opened Sorting
  import opened Tables
  import Timestamp

  const ROW_CAP := 5000

  predicate Earlier(a: Post, b: Post) { a.createAt < b.createAt }

  /** The rows `new` asks for: later than the floor, by others, not deleted. */
  predicate Eligible(p: Post, floor: int, me: Id) { p.createAt > floor && ToList(p, me) }

  predicate ToList(p: Post, me: Id) { p.userId != me && p.deleteAt == 0 }

  ghost function EligibleSet(posts: map<Id, Post>, floor: int, me: Id): set<Post> {
    set id | id in posts && Eligible(posts[id], floor, me) :: posts[id]
  }

  /** How many rows a limit lets through: the query's LIMIT, and the cap of the row reader. */
  function RowLimit(limit: int): nat { Min(if limit <= 0 then ROW_CAP else limit, ROW_CAP) }

  /** An answer to the query: the earliest eligible rows, as many as the limit lets through, by create time. */
  ghost predicate Answers(rows: seq<Post>, posts: map<Id, Post>, floor: int, me: Id, limit: int) {
    && Distinct(rows) && Elems(rows) <= EligibleSet(posts, floor, me)
    && |rows| == Min(RowLimit(limit), |EligibleSet(posts, floor, me)|)
    && (forall i, j :: 0 <= i < j < |rows| ==> rows[i].createAt <= rows[j].createAt)
    && (forall p, r :: p in EligibleSet(posts, floor, me) && p !in rows && r in rows ==> r.createAt <= p.createAt)
  }

  /** The rows the query selects, in the order the table gives them. */
  method SelectEligible(posts: map<Id, Post>, floor: int, me: Id) returns (rows: seq<Post>)
    requires Keyed(posts)
    ensures Distinct(rows) && Elems(rows) == EligibleSet(posts, floor, me)
  {
    rows := [];
    var left := posts.Keys;
    while left != {}
      invariant left <= posts.Keys && Distinct(rows)
      invariant forall p :: p in rows ==> p.id in posts && p.id !in left && posts[p.id] == p && Eligible(p, floor, me)
      invariant forall id :: id in posts && id !in left && Eligible(posts[id], floor, me) ==> posts[id] in rows
      decreases left
    {
      var id :| id in left;
      left := left - {id};
      if Eligible(posts[id], floor, me) {
        rows := rows + [posts[id]];
      }
    }
  }

  /** The posts `new` is for: later than the cursor and not before --since, by others, not deleted. */
  predicate IsNew(p: Post, cursor: int, since: Option<int>, me: Id) {
    p.createAt > cursor && (since.Some? ==> p.createAt > since.value) && p.userId != me && p.deleteAt == 0
  }

  /** The rows said without the query: new posts of the table, each once, oldest first, and no more than asked for or
      than 5000; one that is left out had no room, and none listed is newer. */
  ghost predicate ListsNew(
    rows: seq<Post>, posts: map<Id, Post>, cursor: int, since: Option<int>, me: Id, limit: int)
  {
    && |rows| <= 5000 && (limit > 0 ==> |rows| <= limit) && Distinct(rows)
    && (forall p :: p in rows ==> p.id in posts && posts[p.id] == p && IsNew(p, cursor, since, me))
    && (forall i, j :: 0 <= i < j < |rows| ==> rows[i].createAt <= rows[j].createAt)
    && forall id :: id in posts && IsNew(posts[id], cursor, since, me) && posts[id] !in rows ==>
         (|rows| == 5000 || |rows| == limit) && forall r :: r in rows ==> r.createAt <= posts[id].createAt
  }

  lemma AnswerListsNew(
    rows: seq<Post>, posts: map<Id, Post>, cursor: int, since: Option<int>, me: Id, limit: int, floor: int)
    requires Keyed(posts) && floor == (if since.Some? then Max(cursor, since.value) else cursor)
    requires Answers(rows, posts, floor, me, limit)
    ensures ListsNew(rows, posts, cursor, since, me, limit)
  {
    var e := EligibleSet(posts, floor, me);
    DistinctSize(rows);
    forall p | p in rows ensures p.id in posts && posts[p.id] == p && IsNew(p, cursor, since, me) {
      assert p in Elems(rows);
    }
    forall id | id in posts && IsNew(posts[id], cursor, since, me) && posts[id] !in rows
      ensures (|rows| == 5000 || |rows| == limit) && forall r :: r in rows ==> r.createAt <= posts[id].createAt
    {
      assert posts[id] in e && posts[id] !in Elems(rows);
      SubsetSize(Elems(rows), e);
    }
  }

  /** `new`: the floor is the stored cursor, or a later --since; no limit means the cap. */
  method New(posts: map<Id, Post>, cursor: int, since: Option<int>, me: Id, limit: int) returns (rows: seq<Post>)
    requires Keyed(posts)
    ensures Answers(rows, posts, if since.Some? then Max(cursor, since.value) else cursor, me, limit)
    ensures ListsNew(rows, posts, cursor, since, me, limit)
  {
    var floor := cursor;
    if since.Some? && since.value > floor { floor := since.value; }
    var n := if limit <= 0 then ROW_CAP else limit;
    var all := SelectEligible(posts, floor, me);
    var sorted := SortSlice(all, Earlier);
    rows := sorted[..Min(Min(n, ROW_CAP), |sorted|)];
    FirstRowsAnswer(all, sorted, rows, posts, floor, me, limit);
    AnswerListsNew(rows, posts, cursor, since, me, limit, floor);
  }

  lemma FirstRowsAnswer(
    all: seq<Post>, sorted: seq<Post>, rows: seq<Post>, posts: map<Id, Post>, floor: int, me: Id, limit: int)
    requires Distinct(all) && Elems(all) == EligibleSet(posts, floor, me)
    requires sorted == StableSort(Earlier, all) && rows == sorted[..Min(RowLimit(limit), |sorted|)]
    ensures Answers(rows, posts, floor, me, limit)
  {
    SortSorted(Earlier, all);
    SortedIsAll(all, sorted);
    var e := EligibleSet(posts, floor, me);
    assert |sorted| == |e|;
    forall p | p in e ensures p in sorted {
      assert p in Elems(all);
    }
    forall p | p in rows ensures p in e {
      assert p in sorted && p in Elems(all);
    }
  }

  lemma SortedIsAll(all: seq<Post>, sorted: seq<Post>)
    requires Distinct(all) && sorted == StableSort(Earlier, all)
    ensures Distinct(sorted) && |sorted| == |Elems(all)| && forall p :: p in sorted <==> p in all
  {
    SortPermutes(Earlier, all);
    DistinctSize(all);
    PermutedDistinct(all, sorted);
  }

  // ---- the cut -----------------------------------------------------------------------------------------------

  /** No eligible post left out has the create time of the last row. Posts of two channels may share one. */
  ghost predicate NoTieAtCut(rows: seq<Post>, posts: map<Id, Post>, floor: int, me: Id) {
    rows != [] ==> forall p :: p in EligibleSet(posts, floor, me) && p !in rows ==>
      p.createAt != rows[|rows| - 1].createAt
  }

  /** The rows come from the posts, and whatever is left out is no older than the last of them. */
  lemma AnswerRows(rows: seq<Post>, posts: map<Id, Post>, floor: int, me: Id, limit: int)
    requires Answers(rows, posts, floor, me, limit)
    ensures forall p :: p in rows ==> p in EligibleSet(posts, floor, me)
    ensures rows != [] ==> forall p :: p in rows ==> p.createAt <= rows[|rows| - 1].createAt
    ensures rows != [] ==> forall p :: p in EligibleSet(posts, floor, me) && p !in rows ==>
      rows[|rows| - 1].createAt <= p.createAt
  {
    forall p | p in rows ensures p in EligibleSet(posts, floor, me) {
      assert p in Elems(rows);
    }
  }

  /** Marking up to the last row takes just the rows out of what is still to be listed, exactly when there is no tie at
      the cut. */
  lemma CutIff(rows: seq<Post>, posts: map<Id, Post>, floor: int, me: Id, limit: int)
    requires Answers(rows, posts, floor, me, limit) && rows != []
    ensures EligibleSet(posts, rows[|rows| - 1].createAt, me) <= EligibleSet(posts, floor, me) - Elems(rows)
    ensures EligibleSet(posts, rows[|rows| - 1].createAt, me) == EligibleSet(posts, floor, me) - Elems(rows) <==>
            NoTieAtCut(rows, posts, floor, me)
  {
    var last := rows[|rows| - 1].createAt;
    var before, after := EligibleSet(posts, floor, me), EligibleSet(posts, last, me);
    AnswerRows(rows, posts, floor, me, limit);
    assert rows[|rows| - 1] in before;
    forall p | p in after ensures p in before && p !in rows {}
    if NoTieAtCut(rows, posts, floor, me) {
      forall p | p in before && p !in rows ensures p in after {}
    } else {
      var p :| p in before && p !in rows && p.createAt == last;
      assert p !in after;
    }
  }

  // ---- runs --------------------------------------------------------------------------------------------------

  /** The cache, the cursor, the rows listed but not marked yet, and all that was listed and marked. */
  datatype State = State(posts: map<Id, Post>, cursor: int, shown: seq<Post>, log: seq<Post>)

  /** A post is cached; a post changes, is deleted or comes back; `new --limit` lists rows; `seen --at` marks up to the
      last. */
  datatype Step = Arrive(p: Post) | Change(p: Post) | List(limit: int, rows: seq<Post>) | Mark

  ghost predicate Possible(s: State, me: Id, step: Step) {
    match step
    case Arrive(p) => p.id !in s.posts
    case Change(p) => p.id in s.posts && p.createAt == s.posts[p.id].createAt && p.userId == s.posts[p.id].userId
    case List(limit, rows) => Answers(rows, s.posts, s.cursor, me, limit)
    case Mark => s.shown != []
  }

  ghost function Next(s: State, me: Id, step: Step): State
    requires Possible(s, me, step)
  {
    match step
    case Arrive(p) => s.(posts := s.posts[p.id := p])
    case Change(p) => s.(posts := s.posts[p.id := p])
    case List(limit, rows) => s.(shown := rows)
    case Mark => s.(cursor := s.shown[|s.shown| - 1].createAt, shown := [], log := s.log + s.shown)
  }

  /** The latest create time listed. */
  function Horizon(s: State): int { if s.shown == [] then s.cursor else s.shown[|s.shown| - 1].createAt }

  /** What a run needs: a post to list that arrives, or comes back from deletion, is later than all that was listed;
      and no list is cut between posts of the same create time. */
  ghost predicate InTime(s: State, me: Id, step: Step) {
    match step
    case Arrive(p) => ToList(p, me) ==> p.createAt > Horizon(s)
    case Change(p) =>
      ToList(p, me) && p.id in s.posts && s.posts[p.id].deleteAt != 0 ==> p.createAt > Horizon(s)
    case List(limit, rows) => NoTieAtCut(rows, s.posts, s.cursor, me)
    case Mark => true
  }

  ghost predicate Run(s: State, me: Id, steps: seq<Step>, t: State)
    decreases |steps|
  {
    if steps == [] then s == t
    else Possible(s, me, steps[0]) && InTime(s, me, steps[0]) && Run(Next(s, me, steps[0]), me, steps[1..], t)
  }

  ghost predicate Has(rows: seq<Post>, id: Id) { exists i :: 0 <= i < |rows| && rows[i].id == id }

  /** Rows by others, each post once, none later than the next, all after `from` and up to `to`, and still cached. */
  ghost predicate InOrder(s: State, me: Id, rows: seq<Post>, from: int, to: int) {
    && (forall i, j :: 0 <= i < j < |rows| ==> rows[i].createAt <= rows[j].createAt && rows[i].id != rows[j].id)
    && (forall i :: 0 <= i < |rows| ==> rows[i].userId != me && from < rows[i].createAt <= to)
    && (forall i :: 0 <= i < |rows| ==> rows[i].id in s.posts && s.posts[rows[i].id].createAt == rows[i].createAt)
  }

  /** Every undeleted post by others made in the span is among the rows. */
  ghost predicate Complete(s: State, me: Id, rows: seq<Post>, from: int, to: int) {
    forall id :: id in s.posts && Spans(s.posts[id], me, from, to) ==> Has(rows, id)
  }

  predicate Spans(p: Post, me: Id, from: int, to: int) { from < p.createAt <= to && ToList(p, me) }

  /** What was marked is listed once, in order, and is all there is from `start` to the cursor; what is listed but not
      marked goes on from there. */
  ghost predicate Inv(s: State, me: Id, start: int) {
    && start <= s.cursor && Keyed(s.posts)
    && InOrder(s, me, s.log, start, s.cursor) && Complete(s, me, s.log, start, s.cursor)
    && InOrder(s, me, s.shown, s.cursor, Horizon(s)) && Complete(s, me, s.shown, s.cursor, Horizon(s))
  }

  lemma ArriveKeeps(s: State, me: Id, start: int, p: Post)
    requires Inv(s, me, start) && Possible(s, me, Arrive(p)) && InTime(s, me, Arrive(p))
    ensures Inv(Next(s, me, Arrive(p)), me, start)
  {
    var t := Next(s, me, Arrive(p));
    HorizonAhead(s, me, start);
    ArrivedBehind(s, me, s.log, start, s.cursor, p, t);
    ArrivedBehind(s, me, s.shown, s.cursor, Horizon(s), p, t);
  }

  /** A post that arrives behind a span changes nothing in it. */
  lemma ArrivedBehind(s: State, me: Id, rows: seq<Post>, from: int, to: int, p: Post, t: State)
    requires InOrder(s, me, rows, from, to) && Complete(s, me, rows, from, to)
    requires p.id !in s.posts && t.posts == s.posts[p.id := p] && (ToList(p, me) ==> p.createAt > to)
    ensures InOrder(t, me, rows, from, to) && Complete(t, me, rows, from, to)
  {
  }

  lemma HorizonAhead(s: State, me: Id, start: int)
    requires Inv(s, me, start)
    ensures s.cursor <= Horizon(s)
  {
    assert s.shown != [] ==> s.cursor < s.shown[|s.shown| - 1].createAt;
  }

  lemma ChangeKeeps(s: State, me: Id, start: int, p: Post)
    requires Inv(s, me, start) && Possible(s, me, Change(p)) && InTime(s, me, Change(p))
    ensures Inv(Next(s, me, Change(p)), me, start)
  {
    var t := Next(s, me, Change(p));
    HorizonAhead(s, me, start);
    assert Horizon(t) == Horizon(s) && Keyed(t.posts);
  }

  /** An answer lists each post once, in order, after the cursor and up to its last row. */
  lemma AnswerInOrder(s: State, me: Id, limit: int, rows: seq<Post>)
    requires Keyed(s.posts) && Answers(rows, s.posts, s.cursor, me, limit) && rows != []
    ensures InOrder(s, me, rows, s.cursor, rows[|rows| - 1].createAt)
  {
    AnswerRows(rows, s.posts, s.cursor, me, limit);
    forall i | 0 <= i < |rows| ensures rows[i] in EligibleSet(s.posts, s.cursor, me) {
      assert rows[i] in rows;
    }
    forall i, j | 0 <= i < j < |rows| ensures rows[i].id != rows[j].id {
      assert rows[i] != rows[j];
    }
  }

  /** It lists all there is in that span exactly when there is no tie at the cut. */
  lemma AnswerCompleteIff(s: State, me: Id, limit: int, rows: seq<Post>)
    requires Keyed(s.posts) && Answers(rows, s.posts, s.cursor, me, limit) && rows != []
    ensures Complete(s, me, rows, s.cursor, rows[|rows| - 1].createAt) <==>
            NoTieAtCut(rows, s.posts, s.cursor, me)
  {
    var last := rows[|rows| - 1].createAt;
    AnswerRows(rows, s.posts, s.cursor, me, limit);
    forall id | id in s.posts && Spans(s.posts[id], me, s.cursor, last)
      ensures Has(rows, id) <==> s.posts[id] in rows
    {
    }
    if !NoTieAtCut(rows, s.posts, s.cursor, me) {
      var p :| p in EligibleSet(s.posts, s.cursor, me) && p !in rows && p.createAt == last;
      assert Spans(s.posts[p.id], me, s.cursor, last);
    } else {
      forall id | id in s.posts && Spans(s.posts[id], me, s.cursor, last) ensures Has(rows, id) {
        assert s.posts[id] in EligibleSet(s.posts, s.cursor, me);
      }
    }
  }

  lemma ListKeeps(s: State, me: Id, start: int, limit: int, rows: seq<Post>)
    requires Inv(s, me, start) && Possible(s, me, List(limit, rows)) && InTime(s, me, List(limit, rows))
    ensures Inv(Next(s, me, List(limit, rows)), me, start)
  {
    var t := Next(s, me, List(limit, rows));
    SameTable(s, me, s.log, start, s.cursor, t);
    if rows == [] {
      assert Horizon(t) == s.cursor;
    } else {
      AnswerInOrder(s, me, limit, rows);
      AnswerCompleteIff(s, me, limit, rows);
      SameTable(s, me, rows, s.cursor, rows[|rows| - 1].createAt, t);
    }
  }

  lemma SameTable(s: State, me: Id, rows: seq<Post>, from: int, to: int, t: State)
    requires InOrder(s, me, rows, from, to) && Complete(s, me, rows, from, to) && t.posts == s.posts
    ensures InOrder(t, me, rows, from, to) && Complete(t, me, rows, from, to)
  {
  }

  lemma HasEither(a: seq<Post>, b: seq<Post>, id: Id)
    ensures Has(a + b, id) <==> Has(a, id) || Has(b, id)
  {
    if Has(a, id) {
      var i :| 0 <= i < |a| && a[i].id == id;
      assert (a + b)[i].id == id;
    }
    if Has(b, id) {
      var i :| 0 <= i < |b| && b[i].id == id;
      assert (a + b)[|a| + i].id == id;
    }
  }

  lemma JoinedComplete(s: State, me: Id, a: seq<Post>, from: int, mid: int, b: seq<Post>, to: int)
    requires Complete(s, me, a, from, mid) && Complete(s, me, b, mid, to) && from <= mid <= to
    ensures Complete(s, me, a + b, from, to)
  {
    forall id | id in s.posts && Spans(s.posts[id], me, from, to) ensures Has(a + b, id) {
      HasEither(a, b, id);
    }
  }

  lemma MarkKeeps(s: State, me: Id, start: int)
    requires Inv(s, me, start) && Possible(s, me, Mark)
    ensures Inv(Next(s, me, Mark), me, start)
  {
    HorizonAhead(s, me, start);
    JoinedComplete(s, me, s.log, start, s.cursor, s.shown, Horizon(s));
  }

  lemma {:induction false} RunKeeps(s: State, me: Id, start: int, steps: seq<Step>, t: State)
    requires Inv(s, me, start) && Run(s, me, steps, t)
    ensures Inv(t, me, start)
    decreases |steps|
  {
    if steps != [] {
      match steps[0] {
        case Arrive(p) => ArriveKeeps(s, me, start, p);
        case Change(p) => ChangeKeeps(s, me, start, p);
        case List(limit, rows) => ListKeeps(s, me, start, limit, rows);
        case Mark => MarkKeeps(s, me, start);
      }
      RunKeeps(Next(s, me, steps[0]), me, start, steps[1..], t);
    }
  }

  /** Exactly-once processing. Over any run of `new` and `seen --at <last>`, posts arriving in time, being edited,
      deleted and restored meanwhile, and no list cut at a tie, the marked rows never go back in time and no post comes
      twice; and every post by others that is still there and was made after the start and up to the cursor is among
      them. */
  lemma ExactlyOnce(posts: map<Id, Post>, me: Id, start: int, steps: seq<Step>, t: State)
    requires Keyed(posts) && Run(State(posts, start, [], []), me, steps, t)
    ensures forall i, j :: 0 <= i < j < |t.log| ==> t.log[i].createAt <= t.log[j].createAt && t.log[i].id != t.log[j].id
    ensures forall id :: id in t.posts && Eligible(t.posts[id], start, me) && t.posts[id].createAt <= t.cursor ==>
      Has(t.log, id)
    ensures forall i :: 0 <= i < |t.log| ==> t.log[i].userId != me && start < t.log[i].createAt <= t.cursor
  {
    RunKeeps(State(posts, start, [], []), me, start, steps, t);
  }

  /** When no two posts by others share a create time there is no tie, and the marked rows strictly increase. */
  lemma DistinctTimesNoTie(rows: seq<Post>, posts: map<Id, Post>, floor: int, me: Id, limit: int)
    requires Answers(rows, posts, floor, me, limit)
    requires forall a, b :: a in posts && b in posts && a != b && posts[a].userId != me && posts[b].userId != me ==>
      posts[a].createAt != posts[b].createAt
    ensures NoTieAtCut(rows, posts, floor, me)
    ensures forall i, j :: 0 <= i < j < |rows| ==> rows[i].createAt < rows[j].createAt
  {
    AnswerRows(rows, posts, floor, me, limit);
    assert forall p, q :: p in EligibleSet(posts, floor, me) && q in EligibleSet(posts, floor, me) && p != q ==>
      p.createAt != q.createAt;
    forall i, j | 0 <= i < j < |rows| ensures rows[i].createAt < rows[j].createAt {
      assert rows[i] in rows && rows[j] in rows;
    }
    assert rows != [] ==> rows[|rows| - 1] in rows;
  }

  // ---- rounds ------------------------------------------------------------------------------------------------

  /** One round: list, then mark up to the last row listed. */
  function AfterRound(s: State, rows: seq<Post>): State {
    if rows == [] then s.(shown := []) else State(s.posts, rows[|rows| - 1].createAt, [], s.log + rows)
  }

  /** Rounds one after the other, with nothing arriving, and what each listed. */
  ghost predicate Rounds(s: State, me: Id, limit: int, answers: seq<seq<Post>>)
    decreases |answers|
  {
    answers != [] ==>
      Answers(answers[0], s.posts, s.cursor, me, limit) && Rounds(AfterRound(s, answers[0]), me, limit, answers[1..])
  }

  function AfterRounds(s: State, answers: seq<seq<Post>>): State
    decreases |answers|
  {
    if answers == [] then s else AfterRounds(AfterRound(s, answers[0]), answers[1..])
  }

  /** No round was cut at a tie. */
  ghost predicate Clean(s: State, me: Id, answers: seq<seq<Post>>)
    decreases |answers|
  {
    answers != [] ==>
      NoTieAtCut(answers[0], s.posts, s.cursor, me) && Clean(AfterRound(s, answers[0]), me, answers[1..])
  }

  ghost function Listed(answers: seq<seq<Post>>): set<Post>
    decreases |answers|
  {
    if answers == [] then {} else Elems(answers[0]) + Listed(answers[1..])
  }

  ghost function Unseen(s: State, me: Id): set<Post> { EligibleSet(s.posts, s.cursor, me) }

  /** What a round leaves unseen: nothing it listed, and all the rest exactly when it was not cut at a tie. */
  lemma RoundLeaves(s: State, me: Id, limit: int, rows: seq<Post>)
    requires Answers(rows, s.posts, s.cursor, me, limit)
    ensures Unseen(AfterRound(s, rows), me) <= Unseen(s, me) - Elems(rows)
    ensures Unseen(AfterRound(s, rows), me) == Unseen(s, me) - Elems(rows) <==>
            NoTieAtCut(rows, s.posts, s.cursor, me)
    ensures |Unseen(AfterRound(s, rows), me)| <= |Unseen(s, me)| - Min(RowLimit(limit), |Unseen(s, me)|)
  {
    if rows == [] {
      assert Unseen(s, me) - Elems(rows) == Unseen(s, me);
      assert |rows| == 0;
    } else {
      CutIff(rows, s.posts, s.cursor, me, limit);
      DistinctSize(rows);
      SubsetSize(Unseen(AfterRound(s, rows), me), Unseen(s, me) - Elems(rows));
      assert Unseen(s, me) == (Unseen(s, me) - Elems(rows)) + Elems(rows);
    }
  }

  lemma {:induction false} ListedIsUnseen(s: State, me: Id, limit: int, answers: seq<seq<Post>>)
    requires Rounds(s, me, limit, answers)
    ensures Listed(answers) <= Unseen(s, me)
    decreases |answers|
  {
    if answers != [] {
      RoundLeaves(s, me, limit, answers[0]);
      ListedIsUnseen(AfterRound(s, answers[0]), me, limit, answers[1..]);
    }
  }

  /** With nothing arriving, as many rounds as it takes empty the inbox, whatever the limit and the cap; and they list
      every post there was exactly when none of them was cut at a tie. */
  lemma {:induction false} RoundsDrain(s: State, me: Id, limit: int, answers: seq<seq<Post>>)
    requires Rounds(s, me, limit, answers) && |Unseen(s, me)| <= |answers| * RowLimit(limit)
    ensures Unseen(AfterRounds(s, answers), me) == {}
    ensures Listed(answers) == Unseen(s, me) <==> Clean(s, me, answers)
    decreases |answers|
  {
    if answers == [] {
      assert 0 * RowLimit(limit) == 0;
    } else {
      var rows, rest := answers[0], answers[1..];
      var u := AfterRound(s, rows);
      RoundLeaves(s, me, limit, rows);
      OneLess(|Unseen(s, me)|, |answers|, RowLimit(limit));
      RoundsDrain(u, me, limit, rest);
      ListedIsUnseen(u, me, limit, rest);
    }
  }

  lemma OneLess(a: nat, n: nat, k: nat)
    requires a <= n * k && n > 0
    ensures a - Min(k, a) <= (n - 1) * k
  {
  }

  // ---- the limits of it --------------------------------------------------------------------------------------

  /** A list, then a mark: the marked rows are all there is up to the new cursor exactly when the list was not cut at a
      tie. */
  lemma ListMarkIff(s: State, me: Id, start: int, limit: int, rows: seq<Post>)
    requires Inv(s, me, start) && Possible(s, me, List(limit, rows)) && rows != []
    ensures var t := Next(Next(s, me, List(limit, rows)), me, Mark);
            Complete(t, me, t.log, start, t.cursor) <==> NoTieAtCut(rows, s.posts, s.cursor, me)
  {
    var t := Next(Next(s, me, List(limit, rows)), me, Mark);
    AnswerCompleteIff(s, me, limit, rows);
    AnswerInOrder(s, me, limit, rows);
    assert rows[0].createAt <= t.cursor && s.cursor < rows[0].createAt;
    if NoTieAtCut(rows, s.posts, s.cursor, me) {
      JoinedComplete(s, me, s.log, start, s.cursor, rows, t.cursor);
    } else {
      var id :| id in s.posts && Spans(s.posts[id], me, s.cursor, t.cursor) && !Has(rows, id);
      HasEither(s.log, rows, id);
      assert !Has(s.log, id);
    }
  }

  /** A post arrives, and then what was listed is marked: the marked rows are all there is up to the new cursor exactly
      when the post is later than all that was listed, or not one to list, or from before the start. */
  lemma ArrivalIff(s: State, me: Id, start: int, p: Post)
    requires Inv(s, me, start) && Possible(s, me, Arrive(p)) && s.shown != []
    ensures var t := Next(Next(s, me, Arrive(p)), me, Mark);
            Complete(t, me, t.log, start, t.cursor) <==>
            p.createAt > Horizon(s) || !ToList(p, me) || p.createAt <= start
  {
    var u := Next(s, me, Arrive(p));
    var t := Next(u, me, Mark);
    HorizonAhead(s, me, start);
    JoinedComplete(s, me, s.log, start, s.cursor, s.shown, Horizon(s));
    HasEither(s.log, s.shown, p.id);
    assert !Has(s.log, p.id) && !Has(s.shown, p.id);
    assert t.posts[p.id] == p;
    forall id | id in t.posts && id != p.id && Spans(t.posts[id], me, start, t.cursor) ensures Has(t.log, id) {
      assert s.posts[id] == t.posts[id];
    }
  }

  /** Two posts of two channels made in the same millisecond, by someone else. */
  const TWO := map["a" := InChannel("a", "c1"), "b" := InChannel("b", "c2")]

  function InChannel(id: Id, channelId: Id): Post {
    Post(id, channelId, "other", "", "", 7, 7, 0, 0, 0, Props(None, None, ""), [])
  }

  /** With a limit of one the second is lost: the first is listed and marked, and nothing is left to list. */
  lemma TieLosesAPost()
    ensures Answers([TWO["a"]], TWO, 0, "me", 1) && !NoTieAtCut([TWO["a"]], TWO, 0, "me")
    ensures EligibleSet(TWO, TWO["a"].createAt, "me") == {} && TWO["b"] in EligibleSet(TWO, 0, "me")
  {
    var a, b := TWO["a"], TWO["b"];
    assert EligibleSet(TWO, 0, "me") == {a, b} by {
      forall p ensures p in EligibleSet(TWO, 0, "me") <==> p in {a, b} {
        assert "a" in TWO && "b" in TWO;
      }
    }
    assert a != b && |{a, b}| == 2;
    assert Elems([a]) == {a};
    assert b !in [a];
  }

  /** The rows show their create times to the second: the millisecond a reader can tell from the text of one. */
  function ShownAt(createAt: int): int { createAt / 1000 * 1000 }

  lemma ShownAtReads(createAt: int)
    requires 1000 <= createAt <= Timestamp.MAX_MS
    ensures Timestamp.TimestampMS(ShownAt(createAt)) == Timestamp.TimestampMS(createAt)
    ensures forall ms :: 0 < ms < ShownAt(createAt) ==> Timestamp.TimestampMS(ms) != Timestamp.TimestampMS(createAt)
  {
    Timestamp.SameTextIff(ShownAt(createAt), createAt);
    forall ms | 0 < ms < ShownAt(createAt) ensures Timestamp.TimestampMS(ms) != Timestamp.TimestampMS(createAt) {
      Timestamp.SameTextIff(ms, createAt);
    }
  }

  /** `seen --at` the second shown by the last row. Nothing unlisted is lost exactly when no tie was cut at the very
      beginning of that second; the rows later than its beginning are listed again; and less is left to list than before
      exactly when the first row is not one of them. */
  lemma ShownSecondIff(rows: seq<Post>, posts: map<Id, Post>, floor: int, me: Id, limit: int)
    requires Answers(rows, posts, floor, me, limit) && rows != []
    ensures var last := rows[|rows| - 1].createAt;
      var left := EligibleSet(posts, ShownAt(last), me);
      (EligibleSet(posts, floor, me) - Elems(rows) <= left <==>
        NoTieAtCut(rows, posts, floor, me) || ShownAt(last) < last) &&
      (forall r :: r in rows ==> (r in left <==> r.createAt > ShownAt(last))) &&
      (left < EligibleSet(posts, floor, me) <==> rows[0].createAt <= ShownAt(last))
  {
    var last := rows[|rows| - 1].createAt;
    var before, left := EligibleSet(posts, floor, me), EligibleSet(posts, ShownAt(last), me);
    AnswerRows(rows, posts, floor, me, limit);
    assert rows[0] in rows;
    if !NoTieAtCut(rows, posts, floor, me) && ShownAt(last) == last {
      var p :| p in before && p !in rows && p.createAt == last;
      assert p in before - Elems(rows) && p !in left;
    }
    if rows[0].createAt <= ShownAt(last) {
      assert rows[0] in before && rows[0] !in left;
    } else {
      forall p | p in before ensures p in left {}
    }
  }

  /** When a whole list is later than the beginning of its one second, marking there gets nowhere: the same rows answer
      again. */
  lemma ShownSecondStalls(rows: seq<Post>, posts: map<Id, Post>, floor: int, me: Id, limit: int)
    requires Answers(rows, posts, floor, me, limit) && rows != []
    requires floor <= ShownAt(rows[|rows| - 1].createAt) < rows[0].createAt
    ensures Answers(rows, posts, ShownAt(rows[|rows| - 1].createAt), me, limit)
  {
    assert EligibleSet(posts, ShownAt(rows[|rows| - 1].createAt), me) == EligibleSet(posts, floor, me);
  }

  /** `seen` without --at marks up to now instead. Then the marked rows are still all there is up to the cursor
      exactly when no post by others was made after the last row listed and before now. */
  lemma SeenNowIff(s: State, me: Id, start: int, now: int, t: State)
    requires Inv(s, me, start) && Horizon(s) <= now
    requires t == State(s.posts, now, [], s.log + s.shown)
    ensures Complete(t, me, t.log, start, now) <==>
            forall id :: id in s.posts ==> !Spans(s.posts[id], me, Horizon(s), now)
  {
    var h := Horizon(s);
    HorizonAhead(s, me, start);
    JoinedComplete(s, me, s.log, start, s.cursor, s.shown, h);
    forall id | id in s.posts && Spans(s.posts[id], me, h, now) ensures !Has(t.log, id) {
      assert forall i :: 0 <= i < |t.log| && t.log[i].id == id ==> s.posts[id].createAt <= h;
    }
    assert forall id :: id in s.posts && Spans(s.posts[id], me, start, now) && s.posts[id].createAt <= h ==>
      Spans(s.posts[id], me, start, h);
  }
}
