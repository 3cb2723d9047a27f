/** The daemon's page loops (internal/syncd/backfill.go, history.go) against a server that moves between fetches. */
module Paging {
  import opened Prelude
  import opened Model
  import opened Tables
  import opened Blocks
  import opened Store
  import Enrich

  const PAGE := 200
  const WINDOW_FLOOR := 100
  const WINDOW_CAP := 500

  /** What one API call finds: an error that outlasted its retries, or the channel's live posts, newest first. */
  datatype View = Failed | Served(server: seq<Post>)

  datatype Outcome = Done | FetchFailed | StoreFailed | UsersFailed

  /** The view of the `n`-th call; calls past the end of the list fail, as after a cancellation. */
  function At(views: seq<View>, n: nat): View { if n < |views| then views[n] else Failed }

  /** Page `n` of a list of posts. */
  function Slice(list: seq<Post>, n: nat): seq<Post> {
    var from := Min(n * PAGE, |list|);
    list[from..Min(from + PAGE, |list|)]
  }

  /** The posts made before `time`: the rest of the list from the first such post on. */
  function Older(list: seq<Post>, time: int): seq<Post> {
    if list == [] || list[0].createAt < time then list else Older(list[1..], time)
  }

  function ClampWindow(unread: int): (r: nat)
    ensures 100 <= r <= 500
    ensures unread <= 100 ==> r == 100
    ensures unread >= 500 ==> r == 500
    ensures 100 <= unread <= 500 ==> r == unread
  {
    if unread < WINDOW_FLOOR then WINDOW_FLOOR else if unread > WINDOW_CAP then WINDOW_CAP else unread
  }

  /** The whole pages of the window: one, two or three pages of 200. */
  function WholePagesOf(unread: int): (r: nat)
    ensures r == if unread <= 200 then 200 else if unread <= 400 then 400 else 600
  {
    WholePages(ClampWindow(unread), PAGE)
  }

  /** Post `p` as the upsert leaves it in a table that may hold it already. */
  function RowFor(posts: map<Id, Post>, p: Post): Post {
    if p.id in posts then p.(createAt := posts[p.id].createAt) else p
  }

  /** `after` is `before` with the posts of `page` upserted, in whatever order. */
  ghost predicate PageStored(before: map<Id, Post>, page: set<Post>, after: map<Id, Post>) {
    && (forall p :: p in page ==> p.id in after && after[p.id] == RowFor(before, p))
    && (forall id :: id in before ==> id in after)
    && (forall id :: id in after && !Carries(page, id) ==> id in before && after[id] == before[id])
  }

  ghost predicate Carries(page: set<Post>, id: Id) { exists p :: p in page && p.id == id }

  lemma StoreOne(before: map<Id, Post>, page: set<Post>, after: map<Id, Post>, p: Post)
    requires PageStored(before, page, after) && IdsApart(page + {p}) && p !in page
    ensures PageStored(before, page + {p}, PutPost(after, p))
  {
    assert !Carries(page, p.id) by {
      assert forall q :: q in page ==> q in page + {p};
    }
    forall id ensures Carries(page + {p}, id) <==> Carries(page, id) || id == p.id {
      assert p in page + {p};
      if Carries(page, id) {
        var q :| q in page && q.id == id;
        assert q in page + {p};
      }
    }
  }

  /** One more post widens the bounds of the posts stored so far; zero stands for "none yet". */
  lemma BoundsGrow(stored: set<Post>, p: Post, oldest: int, newest: int)
    requires p.createAt > 0
    requires if stored == {} then oldest == newest == 0 else PageBounds(stored, oldest, newest) && oldest > 0
    ensures var lo := if oldest == 0 || p.createAt < oldest then p.createAt else oldest;
      PageBounds(stored + {p}, lo, Max(newest, p.createAt)) && lo > 0
  {
    var more := stored + {p};
    assert p in more;
    if stored != {} {
      var a :| a in stored && a.createAt == oldest;
      var b :| b in stored && b.createAt == newest;
      assert a in more && b in more;
    }
  }

  /** Two pages stored one after the other are one page stored, if they agree on the posts they share. */
  lemma StoredTwice(a: map<Id, Post>, s: set<Post>, b: map<Id, Post>, t: set<Post>, c: map<Id, Post>)
    requires PageStored(a, s, b) && PageStored(b, t, c) && IdsApart(s + t)
    ensures PageStored(a, s + t, c)
  {
    forall p | p in s + t ensures p.id in c && c[p.id] == RowFor(a, p) {
      if p in t {
        RowTwice(a, s, b, p);
      } else {
        assert forall q :: q in t ==> q in s + t;
        assert !Carries(t, p.id);
      }
    }
    forall id | id in c && !Carries(s + t, id) ensures id in a && c[id] == a[id] {
    }
  }

  lemma RowTwice(a: map<Id, Post>, s: set<Post>, b: map<Id, Post>, p: Post)
    requires PageStored(a, s, b) && forall q :: q in s && q.id == p.id ==> q == p
    ensures RowFor(b, p) == RowFor(a, p)
  {
    if p.id in b && !(p.id in a && b[p.id] == a[p.id]) {
      assert Carries(s, p.id);
      var q :| q in s && q.id == p.id;
    }
  }

  // ---- what posts carry --------------------------------------------------------------------------------------

  /** What the server sends with a post of a page, if anything. */
  function MetaOf(sent: map<Id, Metadata>, p: Post): Option<Metadata> {
    if p.id in sent then Some(sent[p.id]) else None
  }

  /** The posts of a page are sent with their own files and reactions, and no two with the same file. */
  ghost predicate SentProperly(page: set<Post>, sent: map<Id, Metadata>) {
    && (forall p :: p in page && p.id in sent ==> Enrich.Proper(p, sent[p.id]))
    && (forall p, q :: p in page && q in page && p.id != q.id && p.id in sent && q.id in sent ==>
          forall f, g :: f in sent[p.id].files && g in sent[q.id].files ==> f.id != g.id)
  }

  ghost predicate MetaHeld(
    page: set<Post>, sent: map<Id, Metadata>, files: map<Id, FileInfo>, reactions: map<ReactionKey, int>)
  {
    forall p :: p in page && p.id in sent ==> Enrich.Holds(sent[p.id], files, reactions)
  }

  /** Nothing is stored under the ids of a page's posts that they were not sent with. */
  ghost predicate OnlySent(
    page: set<Post>, sent: map<Id, Metadata>, files: map<Id, FileInfo>, reactions: map<ReactionKey, int>)
  {
    forall p :: p in page ==> Enrich.Only(p.id, Enrich.Given(MetaOf(sent, p)), files, reactions)
  }

  /** The loop of `ingestPosts`: what the posts of `page` upserted so far were sent with is held, and nothing else if it
      was so (`only`) before. */
  ghost predicate MetaSoFar(only: bool, page: set<Post>, left: set<Post>, sent: map<Id, Metadata>,
                            files: map<Id, FileInfo>, reactions: map<ReactionKey, int>)
  {
    SentProperly(page, sent) ==>
      MetaHeld(page - left, sent, files, reactions) && (only ==> OnlySent(page, sent, files, reactions))
  }

  lemma OnlyStep(page: set<Post>, p: Post, sent: map<Id, Metadata>, files: map<Id, FileInfo>,
                 reactions: map<ReactionKey, int>)
    requires IdsApart(page) && p in page && SentProperly(page, sent) && OnlySent(page, sent, files, reactions)
    ensures OnlySent(page, sent, MetaFiles(files, MetaOf(sent, p)), MetaReactions(reactions, p.id, MetaOf(sent, p)))
  {
    if p.id in sent {
      forall q | q in page
        ensures Enrich.Only(q.id, Enrich.Given(MetaOf(sent, q)), MetaFiles(files, Some(sent[p.id])),
                            MetaReactions(reactions, p.id, Some(sent[p.id])))
      {
        Enrich.OnlyStays(p, sent[p.id], q.id, Enrich.Given(MetaOf(sent, q)), files, reactions);
      }
    }
  }

  lemma MetaStep(only: bool, page: set<Post>, left: set<Post>, p: Post, sent: map<Id, Metadata>,
                 files: map<Id, FileInfo>, reactions: map<ReactionKey, int>)
    requires IdsApart(page) && left <= page && p in left && MetaSoFar(only, page, left, sent, files, reactions)
    ensures MetaSoFar(only, page, left - {p}, sent, MetaFiles(files, MetaOf(sent, p)),
                      MetaReactions(reactions, p.id, MetaOf(sent, p)))
  {
    HeldStep(page, left, p, sent, files, reactions);
    if SentProperly(page, sent) && only {
      OnlyStep(page, p, sent, files, reactions);
    }
  }

  lemma HeldStep(page: set<Post>, left: set<Post>, p: Post, sent: map<Id, Metadata>, files: map<Id, FileInfo>,
                 reactions: map<ReactionKey, int>)
    requires IdsApart(page) && left <= page && p in left
    requires SentProperly(page, sent) ==> MetaHeld(page - left, sent, files, reactions)
    ensures SentProperly(page, sent) ==>
      MetaHeld(page - (left - {p}), sent, MetaFiles(files, MetaOf(sent, p)),
               MetaReactions(reactions, p.id, MetaOf(sent, p)))
  {
    if SentProperly(page, sent) && p.id in sent {
      Enrich.StoresOwn(p, sent[p.id], files, reactions);
      forall q | q in page - left && q.id in sent
        ensures Enrich.Holds(sent[q.id], MetaFiles(files, Some(sent[p.id])),
                             MetaReactions(reactions, p.id, Some(sent[p.id])))
      {
        Enrich.LeavesOthers(p, sent[p.id], q, sent[q.id], files, reactions);
      }
    }
  }

  // ---- lists that grow at the front --------------------------------------------------------------------------

  /** Between one served call and the next the list gains at most `most` posts at the front and loses none. */
  ghost predicate FrontGrowth(views: seq<View>, most: nat) {
    forall n :: 0 <= n < |views| - 1 ==> GrowsAt(views, n, most)
  }

  ghost predicate GrowsAt(views: seq<View>, n: nat, most: nat)
    requires n + 1 < |views|
  {
    views[n].Served? && views[n + 1].Served? ==> Extends(views[n].server, views[n + 1].server, most)
  }

  ghost predicate Extends(was: seq<Post>, list: seq<Post>, most: nat) {
    |was| <= |list| <= |was| + most && list[|list| - |was|..] == was
  }

  ghost predicate AllNewestFirst(views: seq<View>) {
    forall v :: v in views && v.Served? ==> NewestFirst(v.server)
  }

  /** A block of the old list and page `n` of the new one make one block of the new list, as long as the block spans
      the page before and the list gained at most two pages. */
  lemma BlockAndPage(was: seq<Post>, list: seq<Post>, lo: nat, hi: nat, n: nat)
    returns (lo': nat, hi': nat)
    requires Extends(was, list, 2 * PAGE) && n > 0 && n * PAGE < |list|
    requires lo <= (n - 1) * PAGE && n * PAGE <= hi <= |was|
    ensures lo' <= n * PAGE && Min((n + 1) * PAGE, |list|) <= hi' <= |list|
    ensures lo' <= lo + (|list| - |was|) && hi + (|list| - |was|) <= hi' <= Max(hi + (|list| - |was|), (n + 1) * PAGE)
    ensures Elems(was[lo..hi]) + Elems(Slice(list, n)) == Elems(list[lo'..hi'])
  {
    var d := |list| - |was|;
    var from, to := n * PAGE, Min((n + 1) * PAGE, |list|);
    lo', hi' := Min(lo + d, from), Max(hi + d, to);
    assert Slice(list, n) == list[from..to];
    Joined(was, list, d, lo, hi, from, to);
  }

  lemma Joined(was: seq<Post>, list: seq<Post>, d: nat, lo: nat, hi: nat, from: nat, to: nat)
    requires |list| == |was| + d && list[d..] == was && lo <= hi <= |was|
    requires from <= to <= |list| && from <= hi + d && lo + d <= to
    ensures Elems(was[lo..hi]) + Elems(list[from..to]) == Elems(list[Min(lo + d, from)..Max(hi + d, to)])
  {
    Shifted(was, list, d, lo, hi);
    assert Elems(was[lo..hi]) == Elems(list[lo + d..hi + d]);
    UnionOfRanges(list, lo + d, hi + d, from, to);
  }

  /** What has come in front moves a stretch of the list back. */
  lemma Shifted(was: seq<Post>, list: seq<Post>, d: nat, lo: nat, hi: nat)
    requires |list| == |was| + d && list[d..] == was && lo <= hi <= |was|
    ensures was[lo..hi] == list[lo + d..hi + d]
  {
    forall k | lo <= k < hi ensures was[k] == list[k + d] {
      assert list[d..][k] == list[k + d];
    }
  }

  /** The loop of `ingestPosts` after some of the page: those posts are stored and `lo`, `hi` bound them. */
  ghost predicate Progress(
    before: map<Id, Post>, page: set<Post>, left: set<Post>, after: map<Id, Post>, lo: int, hi: int)
  {
    && left <= page && PageStored(before, page - left, after)
    && if left == page then lo == hi == 0 else PageBounds(page - left, lo, hi) && lo > 0
  }

  lemma ProgressStep(
    before: map<Id, Post>, page: set<Post>, left: set<Post>, after: map<Id, Post>, lo: int, hi: int, p: Post)
    requires Progress(before, page, left, after, lo, hi) && p in left
    requires IdsApart(page) && p.createAt > 0
    ensures Progress(before, page, left - {p}, PutPost(after, p),
                     if lo == 0 || p.createAt < lo then p.createAt else lo, Max(hi, p.createAt))
    ensures PageStored(before, page - left + {p}, PutPost(after, p))
  {
    var stored := page - left;
    assert page - (left - {p}) == stored + {p};
    StoreOne(before, stored, after, p);
    BoundsGrow(stored, p, lo, hi);
  }

  /** What of `page` is in after an upsert of `p` that failed: its row is written or not. */
  lemma TornPage(before: map<Id, Post>, page: set<Post>, left: set<Post>, mid: map<Id, Post>, lo: int, hi: int, p: Post,
                 after: map<Id, Post>)
    returns (stored: set<Post>)
    requires Progress(before, page, left, mid, lo, hi) && p in left && IdsApart(page) && p.createAt > 0
    requires after == mid || after == PutPost(mid, p)
    ensures stored <= page && PageStored(before, stored, after)
  {
    if after == mid {
      stored := page - left;
    } else {
      ProgressStep(before, page, left, mid, lo, hi, p);
      stored := page - left + {p};
    }
  }

  lemma PageIsProper(views: seq<View>, n: nat, server: seq<Post>)
    requires AllNewestFirst(views) && At(views, n) == Served(server)
    ensures NewestFirst(server) && NewestFirst(Slice(server, n))
    ensures |Slice(server, n)| <= PAGE && (Slice(server, n) == [] ==> |server| <= n * PAGE)
  {
    assert views[n] in views;
  }

  /** A block of the list that call `n - 1` served. */
  ghost predicate BlockOf(views: seq<View>, n: nat, list: seq<Post>, lo: nat, hi: nat) {
    && (if n == 0 then list == [] else n <= |views| && views[n - 1] == Served(list))
    && lo <= hi <= |list|
  }

  /** The state of the backfill loop before call `n`: a block of the list last seen is stored. */
  ghost predicate BlockStored(
    before: map<Id, Post>, views: seq<View>, n: nat, list: seq<Post>, lo: nat, hi: nat, after: map<Id, Post>)
  {
    BlockOf(views, n, list, lo, hi) && PageStored(before, Elems(list[lo..hi]), after)
  }

  /** The list has gained `d` posts since the first call. The block holds the first page that was served; what it leaves
      out in front came later, and it is no deeper than `depth` posts of the first list. */
  ghost predicate FromTop(views: seq<View>, list: seq<Post>, lo: nat, hi: nat, depth: nat) {
    && At(views, 0).Served?
    && var d := |list| - |At(views, 0).server|;
       d >= 0 && list[d..] == At(views, 0).server && (FrontGrowth(views, 0) ==> d == 0) &&
         lo <= d && d + Min(PAGE, |At(views, 0).server|) <= hi <= d + depth
  }

  /** Where the pages of `n` calls lie: the block spans from the first page to the page before. */
  ghost predicate Spans(views: seq<View>, n: nat, list: seq<Post>, lo: nat, hi: nat) {
    && BlockOf(views, n, list, lo, hi)
    && (if n == 0 then lo == hi == 0
        else lo <= (n - 1) * PAGE && n * PAGE <= hi && FromTop(views, list, lo, hi, n * PAGE))
  }

  /** The backfill loop's invariant. */
  ghost predicate Backfilling(
    before: map<Id, Post>, views: seq<View>, n: nat, list: seq<Post>, lo: nat, hi: nat, after: map<Id, Post>)
  {
    Spans(views, n, list, lo, hi) && PageStored(before, Elems(list[lo..hi]), after)
  }

  /** Where they lie when the last page may have been short: the block reaches the end of the list then. */
  ghost predicate SpansTo(views: seq<View>, n: nat, list: seq<Post>, lo: nat, hi: nat) {
    && BlockOf(views, n, list, lo, hi)
    && (n > 0 ==> FromTop(views, list, lo, hi, n * PAGE))
    && hi >= Min(n * PAGE, |list|)
  }

  /** Call `n` is served: the block grows by its page. */
  lemma SpanStep(views: seq<View>, n: nat, was: seq<Post>, lo: nat, hi: nat, list: seq<Post>, n': nat)
    returns (lo': nat, hi': nat)
    requires FrontGrowth(views, 2 * PAGE) && Spans(views, n, was, lo, hi) && n' == n + 1
    requires At(views, n) == Served(list) && n * PAGE < |list|
    ensures SpansTo(views, n', list, lo', hi') && (n' * PAGE <= |list| ==> Spans(views, n', list, lo', hi'))
    ensures Elems(was[lo..hi]) + Elems(Slice(list, n)) == Elems(list[lo'..hi'])
  {
    if n == 0 {
      lo', hi' := 0, Min(PAGE, |list|);
      assert Slice(list, 0) == list[lo'..hi'];
    } else {
      assert GrowsAt(views, n - 1, 2 * PAGE);
      lo', hi' := BlockAndPage(was, list, lo, hi, n);
      assert FrontGrowth(views, 0) ==> GrowsAt(views, n - 1, 0);
    }
  }

  /** Its page is stored. */
  lemma BlockStep(
    before: map<Id, Post>, views: seq<View>, n: nat, was: seq<Post>, lo: nat, hi: nat, mid: map<Id, Post>,
    list: seq<Post>, after: map<Id, Post>, n': nat)
    returns (lo': nat, hi': nat)
    requires AllNewestFirst(views) && FrontGrowth(views, 2 * PAGE) && n' == n + 1
    requires Backfilling(before, views, n, was, lo, hi, mid) && At(views, n) == Served(list)
    requires n * PAGE < |list| && PageStored(mid, Elems(Slice(list, n)), after)
    ensures SpansTo(views, n', list, lo', hi') && PageStored(before, Elems(list[lo'..hi']), after)
    ensures Elems(was[lo..hi]) + Elems(Slice(list, n)) == Elems(list[lo'..hi'])
    ensures n' * PAGE <= |list| ==> Spans(views, n', list, lo', hi')
  {
    lo', hi' := SpanStep(views, n, was, lo, hi, list, n');
    assert views[n] in views;
    ServerIdsDistinct(list);
    StoredTwice(before, Elems(was[lo..hi]), mid, Elems(Slice(list, n)), after);
  }

  lemma WholePagesBounds(target: nat, n: nat)
    ensures n * PAGE < target ==> (n + 1) * PAGE <= WholePages(target, PAGE)
    ensures n > 0 && (n - 1) * PAGE < target <= n * PAGE ==> n * PAGE == WholePages(target, PAGE)
  {
  }

  /** Where the loop ends on a page that is not full: the block reaches the end of the list. */
  ghost predicate Ended(
    before: map<Id, Post>, views: seq<View>, n: nat, list: seq<Post>, lo: nat, hi: nat, after: map<Id, Post>)
  {
    SpansTo(views, n, list, lo, hi) && hi == |list| <= n * PAGE && PageStored(before, Elems(list[lo..hi]), after)
  }

  /** A page that comes back empty ends the loop with what there is. */
  lemma NothingNew(before: map<Id, Post>, views: seq<View>, n: nat, was: seq<Post>, lo: nat, hi: nat,
                   after: map<Id, Post>, server: seq<Post>)
    requires Backfilling(before, views, n, was, lo, hi, after) && FrontGrowth(views, 2 * PAGE)
    requires At(views, n) == Served(server) && |server| <= n * PAGE
    ensures Ended(before, views, n, was, lo, hi, after)
  {
    assert n > 0 ==> GrowsAt(views, n - 1, 2 * PAGE);
  }

  /** The block, and some of page `n`, are stored: what a failure of the store leaves. */
  ghost predicate BlockTorn(
    before: map<Id, Post>, views: seq<View>, n: nat, list: seq<Post>, lo: nat, hi: nat, after: map<Id, Post>)
  {
    && lo <= hi <= |list| && At(views, n).Served?
    && exists part :: TornOver(before, list[lo..hi], Slice(At(views, n).server, n), part, after)
  }

  ghost predicate TornOver(
    before: map<Id, Post>, block: seq<Post>, page: seq<Post>, part: set<Post>, after: map<Id, Post>)
  {
    part <= Elems(page) && PageStored(before, Elems(block) + part, after)
  }

  lemma PageTears(before: map<Id, Post>, views: seq<View>, n: nat, was: seq<Post>, lo: nat, hi: nat, mid: map<Id, Post>,
                  list: seq<Post>, stored: set<Post>, after: map<Id, Post>)
    requires AllNewestFirst(views) && FrontGrowth(views, 2 * PAGE)
    requires Backfilling(before, views, n, was, lo, hi, mid) && At(views, n) == Served(list)
    requires stored <= Elems(Slice(list, n)) && PageStored(mid, stored, after)
    ensures BlockTorn(before, views, n, was, lo, hi, after)
  {
    BlockIsOfList(before, views, n, was, lo, hi, mid, list);
    StoredTwice(before, Elems(was[lo..hi]), mid, stored, after);
    assert TornOver(before, was[lo..hi], Slice(list, n), stored, after);
  }

  lemma BlockIsOfList(before: map<Id, Post>, views: seq<View>, n: nat, was: seq<Post>, lo: nat, hi: nat,
                      mid: map<Id, Post>, list: seq<Post>)
    requires AllNewestFirst(views) && FrontGrowth(views, 2 * PAGE)
    requires Backfilling(before, views, n, was, lo, hi, mid) && At(views, n) == Served(list)
    ensures Elems(was[lo..hi]) <= Elems(list) && IdsApart(Elems(list)) && Elems(Slice(list, n)) <= Elems(list)
  {
    assert views[n] in views;
    ServerIdsDistinct(list);
    assert n > 0 ==> GrowsAt(views, n - 1, 2 * PAGE);
    assert forall p :: p in was[lo..hi] ==> p in was;
  }

  /** A page that does not ends the loop when it is not full. */
  lemma PageIn(before: map<Id, Post>, views: seq<View>, n: nat, was: seq<Post>, lo: nat, hi: nat, mid: map<Id, Post>,
               list: seq<Post>, after: map<Id, Post>, n': nat)
    returns (lo': nat, hi': nat)
    requires n' == n + 1 && AllNewestFirst(views) && FrontGrowth(views, 2 * PAGE)
    requires Backfilling(before, views, n, was, lo, hi, mid) && At(views, n) == Served(list)
    requires Slice(list, n) != [] && PageStored(mid, Elems(Slice(list, n)), after)
    ensures lo' <= hi' <= |list| && Elems(was[lo..hi]) + Elems(Slice(list, n)) == Elems(list[lo'..hi'])
    ensures |Slice(list, n)| == PAGE ==> Backfilling(before, views, n', list, lo', hi', after)
    ensures |Slice(list, n)| < PAGE ==> Ended(before, views, n', list, lo', hi', after)
  {
    lo', hi' := BlockStep(before, views, n, was, lo, hi, mid, list, after, n');
  }

  /** What is stored when all went well: from the newest post of the first call or above, down at least to the end of
      the window in the list as last seen, and at most to its end in the first list. Without growth that is the newest
      whole pages. */
  ghost predicate WindowFilled(unread: int, views: seq<View>, calls: nat, list: seq<Post>, lo: nat, hi: nat) {
    && (calls == 0 ==> At(views, 0) == Served([]))
    && (calls > 0 ==> FromTop(views, list, lo, hi, WholePagesOf(unread)) && hi >= Min(WholePagesOf(unread), |list|))
  }

  lemma BackfillStops(unread: int, before: map<Id, Post>, views: seq<View>, n: nat, list: seq<Post>, lo: nat, hi: nat,
                      after: map<Id, Post>)
    requires Ended(before, views, n, list, lo, hi, after) && (n > 0 ==> (n - 1) * PAGE < ClampWindow(unread))
    requires n == 0 ==> At(views, 0) == Served([])
    ensures WindowFilled(unread, views, n, list, lo, hi)
  {
    if n > 0 {
      WholePagesBounds(ClampWindow(unread), n - 1);
    }
  }

  lemma BackfillFills(unread: int, before: map<Id, Post>, views: seq<View>, n: nat, list: seq<Post>, lo: nat, hi: nat,
                      after: map<Id, Post>)
    requires Backfilling(before, views, n, list, lo, hi, after) && ClampWindow(unread) <= n * PAGE
    requires n > 0 ==> (n - 1) * PAGE < ClampWindow(unread)
    ensures WindowFilled(unread, views, n, list, lo, hi)
  {
    WholePagesBounds(ClampWindow(unread), n);
  }

  /** What a backfill leaves. Call `n` failed, within the window, and the full pages of the calls before it are in; or
      it was served, and some of its page are in besides; or all went well, and the window is filled. */
  ghost predicate BackfillResult(outcome: Outcome, unread: int, before: map<Id, Post>, views: seq<View>, n: nat,
                                 list: seq<Post>, lo: nat, hi: nat, after: map<Id, Post>)
  {
    match outcome
    case Done => BlockStored(before, views, n, list, lo, hi, after) && WindowFilled(unread, views, n, list, lo, hi)
    case FetchFailed =>
      n * PAGE < ClampWindow(unread) && At(views, n).Failed? && Backfilling(before, views, n, list, lo, hi, after)
    case StoreFailed =>
      n * PAGE < ClampWindow(unread) && Spans(views, n, list, lo, hi) &&
      BlockTorn(before, views, n, list, lo, hi, after)
    case UsersFailed => false
  }

  /** The stored block holds the posts that were unread when paging began exactly when it reaches down to the last of
      them in the list as it is now, with `d` posts come in front meanwhile; so it does while no more come than the last
      page of the window has room for. */
  lemma UnreadCovered(unread: nat, views: seq<View>, list: seq<Post>, lo: nat, hi: nat)
    requires unread <= WINDOW_CAP && NewestFirst(list) && hi <= |list|
    requires FromTop(views, list, lo, hi, WholePagesOf(unread)) && hi >= Min(WholePagesOf(unread), |list|)
    ensures var first := At(views, 0).server;
      var d := |list| - |first|;
      var unseen := first[..Min(unread, |first|)];
      (Elems(unseen) <= Elems(list[lo..hi]) <==> unseen == [] || d + |unseen| <= hi) &&
      (d + unread <= WholePagesOf(unread) ==> Elems(unseen) <= Elems(list[lo..hi]))
  {
    var first := At(views, 0).server;
    var d, m := |list| - |first|, Min(unread, |first|);
    assert first[..m] == first[0..m];
    Shifted(first, list, d, 0, m);
    StretchWithin(list, d, d + m, lo, hi);
    WholePagesBounds(ClampWindow(unread), ClampWindow(unread) / PAGE);
  }

  // ---- the cursor --------------------------------------------------------------------------------------------

  /** The channel's cursor after a stretch of its list was stored, in however many pages. */
  ghost predicate CursorOver(before: map<Id, Cursor>, channelId: Id, stretch: seq<Post>, after: map<Id, Cursor>) {
    after == if stretch == [] then before
             else MergeCursor(before, channelId, stretch[|stretch| - 1].createAt, stretch[0].createAt)
  }

  lemma Ends(stretch: seq<Post>, oldest: int, newest: int)
    requires NewestFirst(stretch) && stretch != [] && PageBounds(Elems(stretch), oldest, newest)
    ensures oldest == stretch[|stretch| - 1].createAt && newest == stretch[0].createAt
  {
    assert stretch[|stretch| - 1] in stretch && stretch[0] in stretch;
    var p :| p in stretch && p.createAt == oldest;
    var q :| q in stretch && q.createAt == newest;
    var i :| 0 <= i < |stretch| && stretch[i] == p;
    var j :| 0 <= j < |stretch| && stretch[j] == q;
  }

  lemma UnionBounds(a: seq<Post>, b: seq<Post>, c: seq<Post>)
    requires NewestFirst(a) && NewestFirst(b) && NewestFirst(c) && a != [] && b != []
    requires Elems(a) + Elems(b) == Elems(c)
    ensures c != [] && c[|c| - 1].createAt == Min(a[|a| - 1].createAt, b[|b| - 1].createAt)
    ensures c[0].createAt == Max(a[0].createAt, b[0].createAt)
  {
    var oldest, newest := Min(a[|a| - 1].createAt, b[|b| - 1].createAt), Max(a[0].createAt, b[0].createAt);
    assert a[0] in Elems(c) && a[|a| - 1] in Elems(c) && b[0] in Elems(c) && b[|b| - 1] in Elems(c);
    forall p | p in Elems(c) ensures oldest <= p.createAt <= newest {
      if p in Elems(a) {
        InOrder(a, p);
      } else {
        InOrder(b, p);
      }
    }
    Ends(c, oldest, newest);
  }

  lemma InOrder(a: seq<Post>, p: Post)
    requires NewestFirst(a) && p in a
    ensures a[|a| - 1].createAt <= p.createAt <= a[0].createAt
  {
    var i :| 0 <= i < |a| && a[i] == p;
  }

  /** Two stretches stored one after the other move the cursor as the stretch they make up. */
  lemma CursorGrows(before: map<Id, Cursor>, channelId: Id, a: seq<Post>, mid: map<Id, Cursor>, b: seq<Post>,
                    after: map<Id, Cursor>, c: seq<Post>)
    requires NewestFirst(a) && NewestFirst(b) && NewestFirst(c) && Elems(a) + Elems(b) == Elems(c)
    requires CursorOver(before, channelId, a, mid) && CursorOver(mid, channelId, b, after)
    ensures CursorOver(before, channelId, c, after)
  {
    if a == [] || b == [] {
      SameEnds(if a == [] then b else a, c);
    } else {
      UnionBounds(a, b, c);
    }
  }

  lemma SameEnds(a: seq<Post>, b: seq<Post>)
    requires NewestFirst(a) && NewestFirst(b) && Elems(a) == Elems(b)
    ensures a == [] <==> b == []
    ensures a != [] ==> b[|b| - 1].createAt == a[|a| - 1].createAt && b[0].createAt == a[0].createAt
  {
    assert a != [] ==> a[0] in Elems(b);
    assert b != [] ==> b[0] in Elems(a);
    if a != [] {
      UnionBounds(a, a, b);
    }
  }

  /** A block of a list, with the cursor that goes with it. */
  ghost predicate BlockCursor(before: map<Id, Cursor>, channelId: Id, list: seq<Post>, lo: nat, hi: nat,
                              after: map<Id, Cursor>)
  {
    lo <= hi <= |list| && CursorOver(before, channelId, list[lo..hi], after)
  }

  lemma BlockCursorGrows(before: map<Id, Cursor>, channelId: Id, was: seq<Post>, lo: nat, hi: nat,
                         mid: map<Id, Cursor>, page: seq<Post>, after: map<Id, Cursor>, list: seq<Post>, lo': nat,
                         hi': nat)
    requires NewestFirst(was) && NewestFirst(list) && NewestFirst(page)
    requires BlockCursor(before, channelId, was, lo, hi, mid) && CursorOver(mid, channelId, page, after)
    requires lo' <= hi' <= |list| && Elems(was[lo..hi]) + Elems(page) == Elems(list[lo'..hi'])
    ensures BlockCursor(before, channelId, list, lo', hi', after)
  {
    StretchNewestFirst(was, lo, hi);
    StretchNewestFirst(list, lo', hi');
    CursorGrows(before, channelId, was[lo..hi], mid, page, after, list[lo'..hi']);
  }

  lemma StretchNewestFirst(list: seq<Post>, lo: nat, hi: nat)
    requires NewestFirst(list) && lo <= hi <= |list|
    ensures NewestFirst(list[lo..hi])
  {
    assert forall p :: p in list[lo..hi] ==> p in list;
  }

  /** Two pages of growth between two calls is as much as offset paging bears: `list` has gained `d` posts since its
      first page was taken, and now its second is. */
  lemma GrowthBoundIff(list: seq<Post>, d: nat)
    requires NewestFirst(list) && 2 * PAGE <= |list| && d + PAGE <= |list|
    ensures (exists lo: nat, hi: nat :: lo <= hi <= |list| &&
              Elems(list[d..d + PAGE]) + Elems(list[PAGE..2 * PAGE]) == Elems(list[lo..hi]))
       <==> d <= 2 * PAGE
  {
    var stored := Elems(list[d..d + PAGE]) + Elems(list[PAGE..2 * PAGE]);
    if d <= 2 * PAGE {
      UnionOfRanges(list, d, d + PAGE, PAGE, 2 * PAGE);
      assert stored == Elems(list[Min(d, PAGE)..Max(d + PAGE, 2 * PAGE)]);
    } else {
      forall lo: nat, hi: nat | lo <= hi <= |list| ensures stored != Elems(list[lo..hi]) {
        BlockMembers(list, d, d + PAGE, 2 * PAGE);
        BlockMembers(list, PAGE, 2 * PAGE, 2 * PAGE);
        BlockMembers(list, d, d + PAGE, d);
        BlockMembers(list, PAGE, 2 * PAGE, PAGE);
        BlockMembers(list, lo, hi, 2 * PAGE);
        BlockMembers(list, lo, hi, d);
        BlockMembers(list, lo, hi, PAGE);
      }
    }
  }

  // ---- history -----------------------------------------------------------------------------------------------

  ghost predicate IsOldest(posts: map<Id, Post>, channelId: Id, id: Id) {
    && id in posts && posts[id].channelId == channelId
    && forall k :: k in posts && posts[k].channelId == channelId ==> posts[id].createAt <= posts[k].createAt
  }

  /** The posts history pages through: those older than the channel's oldest row, or all if it has none. */
  function Beyond(server: seq<Post>, anchor: Option<int>): seq<Post> {
    if anchor.None? then server else Older(server, anchor.value)
  }

  /** New posts may come in front at any time; what is older than the anchor stays as it is. */
  ghost predicate Steady(views: seq<View>, anchor: Option<int>, older: seq<Post>) {
    forall v :: v in views && v.Served? ==> Beyond(v.server, anchor) == older
  }

  /** The list splits in time: the posts from `k` on are the ones made before `time`. */
  ghost predicate SplitsAt(server: seq<Post>, time: int, k: nat) {
    && k <= |server|
    && (forall i :: 0 <= i < k ==> server[i].createAt >= time)
    && (forall i :: k <= i < |server| ==> server[i].createAt < time)
  }

  lemma {:induction false} OlderIsRest(server: seq<Post>, time: int) returns (k: nat)
    requires NewestFirst(server)
    ensures SplitsAt(server, time, k) && Older(server, time) == server[k..]
    decreases |server|
  {
    if server == [] || server[0].createAt < time {
      k := 0;
    } else {
      var rest := server[1..];
      assert NewestFirst(rest);
      k := OlderIsRest(rest, time);
      assert forall i :: 0 < i < |server| ==> server[i] == rest[i - 1];
      assert rest[k..] == server[k + 1..];
      k := k + 1;
    }
  }

  /** New posts at the front leave the older part alone. */
  lemma OlderIgnoresFront(front: seq<Post>, server: seq<Post>, time: int)
    requires NewestFirst(front + server) && forall p :: p in front ==> p.createAt >= time
    ensures Older(front + server, time) == Older(server, time)
    decreases |front|
  {
    if front == [] {
      assert front + server == server;
    } else {
      var rest := front[1..] + server;
      assert front + server == [front[0]] + rest;
      assert (front + server)[1..] == rest;
      assert NewestFirst(rest) by {
        assert forall i :: 0 <= i < |rest| ==> rest[i] == (front + server)[i + 1];
      }
      OlderIgnoresFront(front[1..], server, time);
    }
  }

  lemma BeyondNewestFirst(server: seq<Post>, anchor: Option<int>)
    requires NewestFirst(server)
    ensures NewestFirst(Beyond(server, anchor))
  {
    if anchor.Some? {
      var k := OlderIsRest(server, anchor.value);
    }
  }

  /** The next `m` older posts are stored, and nothing else changed. */
  ghost predicate HistoryStored(before: map<Id, Post>, older: seq<Post>, m: nat, after: map<Id, Post>) {
    m <= |older| && PageStored(before, Elems(older[..m]), after)
  }

  /** The next `m` older posts are stored, and some of the page behind them. */
  ghost predicate HistoryTorn(before: map<Id, Post>, older: seq<Post>, m: nat, after: map<Id, Post>) {
    m <= |older| && exists part :: TornBy(before, older, m, part, after)
  }

  ghost predicate TornBy(before: map<Id, Post>, older: seq<Post>, m: nat, part: set<Post>, after: map<Id, Post>)
    requires m <= |older|
  {
    part <= Elems(NextPage(older, m)) && PageStored(before, Elems(older[..m]) + part, after)
  }

  /** What `LoadHistory` leaves: the posts it counted, the page after them as well when only its authors could not be
      fetched, or some of that page when the store failed in it. */
  ghost predicate HistoryResult(
    outcome: Outcome, before: map<Id, Post>, older: seq<Post>, loaded: nat, after: map<Id, Post>)
  {
    && loaded <= |older|
    && match outcome
       case UsersFailed => HistoryStored(before, older, Min(loaded + PAGE, |older|), after)
       case StoreFailed => HistoryTorn(before, older, loaded, after)
       case _ => HistoryStored(before, older, loaded, after)
  }

  predicate Fetched(authors: seq<bool>, n: nat) { n < |authors| && authors[n] }

  /** History ends early only when more was wanted: at a call that fails, or a page whose authors cannot be fetched. */
  predicate BrokeOff(outcome: Outcome, want: nat, views: seq<View>, authors: seq<bool>, loaded: nat) {
    && (outcome != Done ==> loaded % PAGE == 0 && (loaded < want || (outcome == StoreFailed && loaded == 0)))
    && (outcome == FetchFailed ==> At(views, loaded / PAGE).Failed?)
    && (outcome == UsersFailed ==> !Fetched(authors, loaded / PAGE))
  }

  lemma BreaksAt(outcome: Outcome, want: nat, views: seq<View>, authors: seq<bool>, n: nat, loaded: nat)
    requires loaded == n * PAGE && loaded < want
    requires (outcome == FetchFailed ==> At(views, n).Failed?) && (outcome == UsersFailed ==> !Fetched(authors, n))
    ensures BrokeOff(outcome, want, views, authors, loaded)
  {
    assert loaded / PAGE == n && loaded % PAGE == 0;
  }

  lemma NothingLoaded(posts: map<Id, Post>, cursors: map<Id, Cursor>, channelId: Id, older: seq<Post>)
    ensures HistoryIs(StoreFailed, posts, cursors, channelId, older, 0, posts, cursors)
  {
    assert older[..0] == [];
    assert TornBy(posts, older, 0, {}, posts);
  }

  /** The page of history behind the first `m` older posts. */
  function NextPage(older: seq<Post>, m: nat): seq<Post>
    requires m <= |older|
  {
    older[m..Min(m + PAGE, |older|)]
  }

  /** The cursor after the next `m` older posts. */
  ghost predicate HistoryCursor(before: map<Id, Cursor>, channelId: Id, older: seq<Post>, m: nat,
                                after: map<Id, Cursor>)
  {
    m <= |older| && CursorOver(before, channelId, older[..m], after)
  }

  lemma HistoryCursorGrows(before: map<Id, Cursor>, channelId: Id, older: seq<Post>, m: nat, mid: map<Id, Cursor>,
                           after: map<Id, Cursor>, to: nat)
    requires NewestFirst(older) && HistoryCursor(before, channelId, older, m, mid)
    requires CursorOver(mid, channelId, NextPage(older, m), after) && to == m + |NextPage(older, m)|
    ensures HistoryCursor(before, channelId, older, to, after)
  {
    var page := NextPage(older, m);
    assert page == older[m..to];
    StretchesNewestFirst(older, m, to);
    CursorGrows(before, channelId, older[..m], mid, page, after, older[..to]);
  }

  lemma StretchesNewestFirst(older: seq<Post>, m: nat, to: nat)
    requires NewestFirst(older) && m <= to <= |older|
    ensures NewestFirst(older[..m]) && NewestFirst(older[m..to]) && NewestFirst(older[..to])
    ensures Elems(older[..m]) + Elems(older[m..to]) == Elems(older[..to])
  {
    StretchNewestFirst(older, 0, m);
    StretchNewestFirst(older, m, to);
    StretchNewestFirst(older, 0, to);
    assert older[..m] == older[0..m] && older[..to] == older[0..to] && older[..to] == older[..m] + older[m..to];
  }

  /** Part of one more page of history stored. */
  lemma HistoryTears(before: map<Id, Post>, older: seq<Post>, m: nat, mid: map<Id, Post>, stored: set<Post>,
                     after: map<Id, Post>)
    requires NewestFirst(older) && HistoryStored(before, older, m, mid)
    requires stored <= Elems(NextPage(older, m)) && PageStored(mid, stored, after)
    ensures TornBy(before, older, m, stored, after)
  {
    ServerIdsDistinct(older);
    var part := Elems(older[..m]) + stored;
    assert part <= Elems(older);
    StoredTwice(before, Elems(older[..m]), mid, stored, after);
  }

  /** All of that page stored. */
  lemma HistoryGrows(before: map<Id, Post>, older: seq<Post>, m: nat, after: map<Id, Post>, to: nat)
    requires m <= |older| && TornBy(before, older, m, Elems(NextPage(older, m)), after)
    requires to == m + |NextPage(older, m)|
    ensures HistoryStored(before, older, to, after)
  {
    assert Elems(older[..m]) + Elems(NextPage(older, m)) == Elems(older[..to]) by {
      assert older[..to] == older[..m] + NextPage(older, m);
    }
  }

  lemma PageTorn(before: map<Id, Post>, older: seq<Post>, m: nat, mid: map<Id, Post>, page: seq<Post>,
                 stored: set<Post>, after: map<Id, Post>)
    requires NewestFirst(older) && HistoryResult(Done, before, older, m, mid) && page == NextPage(older, m)
    requires stored <= Elems(page) && PageStored(mid, stored, after)
    ensures HistoryResult(StoreFailed, before, older, m, after)
  {
    HistoryTears(before, older, m, mid, stored, after);
  }

  lemma SameResult(before: map<Id, Post>, older: seq<Post>, m: nat, after: map<Id, Post>, to: nat)
    requires m <= |older| && HistoryStored(before, older, to, after) && to == Min(m + PAGE, |older|)
    ensures HistoryResult(UsersFailed, before, older, m, after) && HistoryResult(Done, before, older, to, after)
  {
  }

  /** All of one more page of history stored. */
  lemma PageWhole(before: map<Id, Post>, older: seq<Post>, m: nat, mid: map<Id, Post>, page: seq<Post>,
                  after: map<Id, Post>, to: nat)
    requires NewestFirst(older) && HistoryResult(Done, before, older, m, mid) && page == NextPage(older, m)
    requires PageStored(mid, Elems(page), after) && to == m + |page|
    ensures HistoryResult(UsersFailed, before, older, m, after)
    ensures HistoryResult(Done, before, older, to, after) && Loaded(UsersFailed, m, |older|) == to
  {
    HistoryTears(before, older, m, mid, Elems(page), after);
    HistoryGrows(before, older, m, after, to);
    SameResult(before, older, m, after, to);
  }

  /** Rows and cursor after `LoadHistory` or some of its turns. */
  ghost predicate HistoryIs(outcome: Outcome, before: map<Id, Post>, cursors: map<Id, Cursor>, channelId: Id,
                            older: seq<Post>, loaded: nat, after: map<Id, Post>, cursors': map<Id, Cursor>)
  {
    && HistoryResult(outcome, before, older, loaded, after)
    && HistoryCursor(cursors, channelId, older, Loaded(outcome, loaded, |older|), cursors')
  }

  lemma HistoryPaged(before: map<Id, Post>, cursors: map<Id, Cursor>, channelId: Id, older: seq<Post>, m: nat,
                     mid: map<Id, Post>, at: map<Id, Cursor>, page: seq<Post>, after: map<Id, Post>,
                     cursors': map<Id, Cursor>, to: nat)
    requires NewestFirst(older) && HistoryIs(Done, before, cursors, channelId, older, m, mid, at)
    requires page == NextPage(older, m) && PageStored(mid, Elems(page), after) && to == m + |page|
    requires CursorOver(at, channelId, page, cursors')
    ensures HistoryIs(Done, before, cursors, channelId, older, to, after, cursors')
    ensures HistoryIs(UsersFailed, before, cursors, channelId, older, m, after, cursors')
  {
    PageWhole(before, older, m, mid, page, after, to);
    HistoryCursorGrows(cursors, channelId, older, m, at, cursors', to);
  }

  lemma HistoryPageFails(before: map<Id, Post>, cursors: map<Id, Cursor>, channelId: Id, older: seq<Post>, m: nat,
                         mid: map<Id, Post>, at: map<Id, Cursor>, page: seq<Post>, stored: set<Post>,
                         after: map<Id, Post>)
    requires NewestFirst(older) && HistoryIs(Done, before, cursors, channelId, older, m, mid, at)
    requires page == NextPage(older, m) && stored <= Elems(page) && PageStored(mid, stored, after)
    ensures HistoryIs(StoreFailed, before, cursors, channelId, older, m, after, at)
  {
    PageTorn(before, older, m, mid, page, stored, after);
  }

  /** Storing a page of live posts of a channel adds just them to its live rows, if the live rows agree with it. */
  lemma LiveAfterStore(channelId: Id, before: map<Id, Post>, page: set<Post>, after: map<Id, Post>)
    requires Keyed(before) && PageStored(before, page, after) && SameTimes(before, page)
    requires forall p :: p in page ==> p.channelId == channelId && p.deleteAt == 0
    requires forall p, q :: p in page && q in Live(before, channelId) && p.id == q.id ==> p == q
    ensures Live(after, channelId) == Live(before, channelId) + page
  {
    forall q | q in Live(after, channelId) ensures q in Live(before, channelId) + page {
      var id :| id in after && after[id] == q && q.channelId == channelId && q.deleteAt == 0;
      if Carries(page, id) {
        var p :| p in page && p.id == id;
        assert after[p.id] == p;
      } else {
        assert before[id] == q;
      }
    }
    forall q | q in page ensures q in Live(after, channelId) {
      assert after[q.id] == q;
    }
    forall q | q in Live(before, channelId) ensures q in Live(after, channelId) {
      var id :| id in before && before[id] == q;
      if Carries(page, id) {
        var p :| p in page && p.id == id;
        assert after[p.id] == p && p == q;
      } else {
        assert after[id] == q;
      }
    }
  }

  /** Where history starts: nowhere in a channel without rows, else at the create time of its oldest row. */
  ghost predicate AnchorOf(posts: map<Id, Post>, channelId: Id, anchor: Option<int>) {
    if anchor.None? then forall id :: id in posts ==> posts[id].channelId != channelId
    else exists id :: IsOldest(posts, channelId, id) && posts[id].createAt == anchor.value
  }

  /** The post behind the newest `k` is older than the anchor, if there is such a post and an anchor. A soft-deleted row
      behind a post that is not cached breaks this. */
  ghost predicate AnchorAbuts(server: seq<Post>, k: nat, anchor: Option<int>)
    requires k <= |server|
  {
    k == |server| || anchor.None? || server[k].createAt < anchor.value
  }

  /** The channel's cache before history: gap-free, so the newest `k` posts of its list. */
  ghost predicate HoldsNewest(posts: map<Id, Post>, channelId: Id, server: seq<Post>, k: nat) {
    && NewestFirst(server) && (forall p :: p in server ==> p.channelId == channelId)
    && Keyed(posts) && SameTimes(posts, Elems(server))
    && k <= |server| && Live(posts, channelId) == Elems(server[..k])
  }

  /** History pages through what is behind the newest `k` posts exactly when the anchor abuts on them. */
  lemma AnchorIff(posts: map<Id, Post>, channelId: Id, server: seq<Post>, k: nat, anchor: Option<int>) returns (j: nat)
    requires HoldsNewest(posts, channelId, server, k) && AnchorOf(posts, channelId, anchor)
    ensures k <= j <= |server| && Beyond(server, anchor) == server[j..]
    ensures j == k <==> AnchorAbuts(server, k, anchor)
    ensures Beyond(server, anchor) == server[k..] <==> AnchorAbuts(server, k, anchor)
  {
    assert k > 0 ==> server[..k][0] in Elems(server[..k]);
    if anchor.None? {
      j := 0;
      assert Live(posts, channelId) == {};
    } else {
      j := OlderIsRest(server, anchor.value);
      forall i | 0 <= i < k ensures server[i].createAt >= anchor.value {
        assert server[..k][i] == server[i];
        assert server[i] in Live(posts, channelId);
      }
      assert k < j ==> server[k].createAt >= anchor.value;
      assert j < |server| ==> server[j].createAt < anchor.value;
    }
    assert |server[j..]| == |server| - j && |server[k..]| == |server| - k;
  }

  lemma HistoryLive(channelId: Id, server: seq<Post>, k: nat, before: map<Id, Post>, page: set<Post>,
                    after: map<Id, Post>)
    requires HoldsNewest(before, channelId, server, k) && page <= Elems(server) && PageStored(before, page, after)
    ensures Live(after, channelId) == Elems(server[..k]) + page
  {
    ServerIdsDistinct(server);
    forall p | p in page ensures p in server {}
    forall q | q in Live(before, channelId) ensures q in server {
      assert q in server[..k];
    }
    LiveAfterStore(channelId, before, page, after);
  }

  /** Two stretches of the list, the first from its top, make a gap-free cache exactly when they touch or the second is
      empty. */
  lemma StretchesIff(server: seq<Post>, k: nat, j: nat, m: nat)
    requires NewestFirst(server) && k <= j && j + m <= |server|
    ensures GapFree(Elems(server[..k]) + Elems(server[j..j + m]), server) <==> m == 0 || j == k
  {
    var live := Elems(server[0..k]) + Elems(server[j..j + m]);
    assert server[..k] == server[0..k];
    forall i | 0 <= i < |server| ensures server[i] in live <==> i < k || j <= i < j + m {
      BlockMembers(server, 0, k, i);
      BlockMembers(server, j, j + m, i);
    }
    GapFreeByPosition(live, server);
    assert m > 0 && j > k ==> server[k] !in live && server[j] in live;
  }

  /** What history makes of a gap-free cache: it stays so exactly when the anchor abuts on it or nothing was loaded, and
      then it is the newest posts, by so many more. */
  lemma HistoryGapFreeIff(channelId: Id, server: seq<Post>, k: nat, anchor: Option<int>, before: map<Id, Post>, m: nat,
                          after: map<Id, Post>)
    requires HoldsNewest(before, channelId, server, k) && AnchorOf(before, channelId, anchor)
    requires HistoryStored(before, Beyond(server, anchor), m, after)
    ensures GapFree(Live(after, channelId), server) <==> m == 0 || AnchorAbuts(server, k, anchor)
    ensures AnchorAbuts(server, k, anchor) ==> k + m <= |server| && Live(after, channelId) == Elems(server[..k + m])
  {
    var j := AnchorIff(before, channelId, server, k, anchor);
    HistoryIsStretch(channelId, server, k, j, before, m, after);
    StretchesIff(server, k, j, m);
    TwoStretches(server, k, m, j);
  }

  lemma HistoryIsStretch(channelId: Id, server: seq<Post>, k: nat, j: nat, before: map<Id, Post>, m: nat,
                         after: map<Id, Post>)
    requires HoldsNewest(before, channelId, server, k) && j <= |server| && HistoryStored(before, server[j..], m, after)
    ensures j + m <= |server| && Live(after, channelId) == Elems(server[..k]) + Elems(server[j..j + m])
  {
    assert server[j..][..m] == server[j..j + m];
    HistoryLive(channelId, server, k, before, Elems(server[j..j + m]), after);
  }

  lemma TwoStretches(server: seq<Post>, k: nat, m: nat, j: nat)
    requires k <= j && j + m <= |server|
    ensures j == k ==> Elems(server[..k]) + Elems(server[j..j + m]) == Elems(server[..k + m])
  {
    if j == k {
      assert server[..k + m] == server[..k] + server[k..k + m];
    }
  }

  /** And when the store fails in a page: it stays so exactly when nothing went in, or the anchor abuts on it and the
      part of the page that is in is its newest. */
  lemma HistoryTornIff(channelId: Id, server: seq<Post>, k: nat, anchor: Option<int>, before: map<Id, Post>, m: nat,
                       part: set<Post>, after: map<Id, Post>)
    requires HoldsNewest(before, channelId, server, k) && AnchorOf(before, channelId, anchor)
    requires m <= |Beyond(server, anchor)| && TornBy(before, Beyond(server, anchor), m, part, after)
    ensures GapFree(Live(after, channelId), server) <==>
            (m == 0 && part == {}) || (AnchorAbuts(server, k, anchor) && NewestPart(server, k + m, part))
  {
    var j := AnchorIff(before, channelId, server, k, anchor);
    TornLive(channelId, server, k, j, before, m, part, after);
    TornStretchesIff(server, k, j, m, part);
  }

  lemma TornLive(channelId: Id, server: seq<Post>, k: nat, j: nat, before: map<Id, Post>, m: nat, part: set<Post>,
                 after: map<Id, Post>)
    requires HoldsNewest(before, channelId, server, k) && j + m <= |server|
    requires TornBy(before, server[j..], m, part, after)
    ensures part <= Elems(NextPage(server[j..], m))
    ensures Live(after, channelId) == Elems(server[..k]) + (Elems(server[j..j + m]) + part)
  {
    StoredBehind(server, j, m, part);
    assert server[j..][..m] == server[j..j + m];
    HistoryLive(channelId, server, k, before, Elems(server[j..j + m]) + part, after);
  }

  lemma TornStretchesIff(server: seq<Post>, k: nat, j: nat, m: nat, part: set<Post>)
    requires NewestFirst(server) && k <= j && j + m <= |server| && part <= Elems(NextPage(server[j..], m))
    ensures GapFree(Elems(server[..k]) + (Elems(server[j..j + m]) + part), server) <==>
            (m == 0 && part == {}) || (j == k && NewestPart(server, k + m, part))
  {
    StoredBehind(server, j, m, part);
    if j == k {
      TouchingPart(server, k, j, m, part, Elems(server[j..j + m]) + part);
    } else {
      BehindTheCut(server, k, j, Elems(server[j..j + m]) + part);
    }
  }

  lemma TouchingPart(server: seq<Post>, k: nat, j: nat, m: nat, part: set<Post>, stored: set<Post>)
    requires NewestFirst(server) && j == k && j + m <= |server| && part <= Elems(server[j + m..])
    requires stored == Elems(server[j..j + m]) + part
    ensures GapFree(Elems(server[..k]) + stored, server) <==> NewestPart(server, k + m, part)
  {
    TwoStretches(server, k, m, j);
    PartOfPageIff(server, k + m, part);
  }

  lemma StoredBehind(server: seq<Post>, j: nat, m: nat, part: set<Post>)
    requires NewestFirst(server) && j + m <= |server| && part <= Elems(NextPage(server[j..], m))
    ensures part <= Elems(server[j + m..]) && Elems(server[j..j + m]) + part <= Elems(server[j..])
    ensures Elems(server[j..]) <= Elems(server)
    ensures m > 0 ==> server[j] in Elems(server[j..j + m])
  {
    var rest := server[j..];
    assert rest[m..] == server[j + m..];
    forall p | p in part ensures p in server[j + m..] {
      var i :| m <= i < Min(m + PAGE, |rest|) && rest[i] == p;
      assert rest[m..][i - m] == p;
    }
    assert m > 0 ==> server[j..j + m][0] == server[j];
    assert server[j..j + m] == rest[..m];
  }

  /** Posts stored behind one that is not there open a gap. */
  lemma BehindTheCut(server: seq<Post>, k: nat, j: nat, stored: set<Post>)
    requires NewestFirst(server) && k < j <= |server| && stored <= Elems(server[j..])
    ensures GapFree(Elems(server[..k]) + stored, server) <==> stored == {}
  {
    BlockMembers(server, 0, k, k);
    BlockMembers(server, j, |server|, k);
    assert server[..k] == server[0..k] && server[j..] == server[j..|server|];
    if stored == {} {
      assert Elems(server[..k]) + stored == Elems(server[..k]);
    } else {
      var p :| p in stored;
      var i :| j <= i < |server| && server[i] == p;
      assert p.createAt <= server[k].createAt && server[k] in server;
    }
  }

  function Plain(id: Id, createAt: int): Post {
    Post(id, "ch", "u", "", "", createAt, createAt, 0, 0, 0, Props(None, None, ""), [])
  }

  /** The cache holds the newest post of the list, and behind one it does not hold a deleted row. */
  const ROWS := map["a" := Plain("a", 4), "c" := Plain("c", 2).(deleteAt := 5)]
  const LIST := [Plain("a", 4), Plain("b", 3), Plain("d", 1)]

  /** An edit event brings in an old post that was never fetched, and then it is deleted. The live rows are gap-free
      again, but history goes on behind the deleted row, and leaves a hole. */
  lemma AnchorSkips(after: map<Id, Post>)
    requires after == PutPost(ROWS, Plain("d", 1))
    ensures ROWS == MarkDeleted(PutPost(map["a" := Plain("a", 4)], Plain("c", 2)), "c", 5)
    ensures HoldsNewest(ROWS, "ch", LIST, 1) && GapFree(Live(ROWS, "ch"), LIST)
    ensures AnchorOf(ROWS, "ch", Some(2)) && !AnchorAbuts(LIST, 1, Some(2))
    ensures HistoryStored(ROWS, Beyond(LIST, Some(2)), 1, after) && !GapFree(Live(after, "ch"), LIST)
  {
    SkippedStart();
    HistoryGapFreeIff("ch", LIST, 1, Some(2), ROWS, 1, after);
  }

  lemma SkippedStart()
    ensures ROWS == MarkDeleted(PutPost(map["a" := Plain("a", 4)], Plain("c", 2)), "c", 5)
    ensures HoldsNewest(ROWS, "ch", LIST, 1) && AnchorOf(ROWS, "ch", Some(2)) && !AnchorAbuts(LIST, 1, Some(2))
  {
    SkippedLive();
    SkippedTimes();
    assert IsOldest(ROWS, "ch", "c");
  }

  lemma SkippedLive()
    ensures Live(ROWS, "ch") == Elems(LIST[..1])
  {
    forall y ensures y in Live(ROWS, "ch") <==> y == Plain("a", 4) {
      assert y == Plain("a", 4) ==> ROWS["a"] == y;
    }
    assert LIST[..1] == [Plain("a", 4)];
  }

  lemma SkippedTimes()
    ensures SameTimes(ROWS, Elems(LIST)) && NewestFirst(LIST)
  {
    forall p | p in Elems(LIST) && p.id in ROWS ensures ROWS[p.id].createAt == p.createAt {
      assert p == Plain("a", 4);
    }
  }

  /** How many older posts are in after `LoadHistory` returned so. */
  function Loaded(outcome: Outcome, loaded: nat, all: nat): nat {
    if outcome.UsersFailed? && loaded <= all then Min(loaded + PAGE, all) else loaded
  }

  /** A list that gained posts at the front: later than the anchor, and none when there is no anchor to page from. */
  ghost predicate GrownFrom(list: seq<Post>, server: seq<Post>, anchor: Option<int>) {
    exists front: seq<Post> :: list == front + server &&
      if anchor.None? then front == [] else forall p :: p in front ==> p.createAt >= anchor.value
  }

  lemma BeyondGrown(posts: map<Id, Post>, channelId: Id, views: seq<View>, server: seq<Post>, anchor: Option<int>)
    requires AllNewestFirst(views) && AnchorOf(posts, channelId, anchor)
    requires forall v :: v in views && v.Served? ==> GrownFrom(v.server, server, anchor)
    ensures Steady(views, anchor, Beyond(server, anchor))
    ensures forall id :: IsOldest(posts, channelId, id) ==> anchor == Some(posts[id].createAt)
    ensures (forall k :: k in posts ==> posts[k].channelId != channelId) ==> anchor == None
  {
    forall v | v in views && v.Served? ensures Beyond(v.server, anchor) == Beyond(server, anchor) {
      OneGrown(v.server, server, anchor);
    }
  }

  lemma OneGrown(list: seq<Post>, server: seq<Post>, anchor: Option<int>)
    requires NewestFirst(list) && GrownFrom(list, server, anchor)
    ensures Beyond(list, anchor) == Beyond(server, anchor)
  {
    var front: seq<Post> :| list == front + server &&
      if anchor.None? then front == [] else forall p :: p in front ==> p.createAt >= anchor.value;
    if anchor.None? {
      assert [] + server == server;
    } else {
      OlderIgnoresFront(front, server, anchor.value);
    }
  }

  class Daemon {
    const store: Store

    constructor (store: Store)
      ensures this.store == store
    {
      this.store := store;
    }

    /** One turn of the loop of `ingestPosts`; when it fails the post's row is written or not. */
    method StoreNext(ghost before: map<Id, Post>, ghost only: bool, ghost page: set<Post>, ghost left: set<Post>,
                     sent: map<Id, Metadata>, p: Post, lo: int, hi: int)
      returns (ok: bool, ghost stored: set<Post>, lo': int, hi': int)
      requires store.Valid() && Progress(before, page, left, store.posts, lo, hi)
      requires MetaSoFar(only, page, left, sent, store.files, store.reactions)
      requires p in left && IdsApart(page) && p.createAt > 0
      modifies store`posts, store`index, store`files, store`reactions, store`log
      ensures store.Valid() && store.log.faults == old(store.log).faults + if ok then 0 else 1
      ensures ok ==> Progress(before, page, left - {p}, store.posts, lo', hi')
      ensures stored <= page && PageStored(before, stored, store.posts)
      ensures ok ==> MetaSoFar(only, page, left - {p}, sent, store.files, store.reactions)
    {
      ProgressStep(before, page, left, store.posts, lo, hi, p);
      MetaStep(only, page, left, p, sent, store.files, store.reactions);
      ok := store.UpsertPost(p, MetaOf(sent, p));
      stored := TornPage(before, page, left, old(store.posts), lo, hi, p, store.posts);
      lo' := if lo == 0 || p.createAt < lo then p.createAt else lo;
      hi' := if p.createAt > hi then p.createAt else hi;
    }

    /** The loop of `ingestPosts`: the page is upserted in map order, each post with what it was sent with, while the
        page's bounds are taken. */
    method StorePage(page: set<Post>, sent: map<Id, Metadata>)
      returns (ok: bool, ghost stored: set<Post>, lo: int, hi: int)
      requires store.Valid()
      requires IdsApart(page) && forall p :: p in page ==> p.createAt > 0
      modifies store`posts, store`index, store`files, store`reactions, store`log
      ensures store.Valid() && store.log.faults == old(store.log).faults + if ok then 0 else 1
      ensures stored <= page && PageStored(old(store.posts), stored, store.posts)
      ensures ok ==> stored == page && Progress(old(store.posts), page, {}, store.posts, lo, hi)
      ensures ok ==> MetaSoFar(OnlySent(page, sent, old(store.files), old(store.reactions)), page, {}, sent,
                               store.files, store.reactions)
    {
      lo, hi, ok, stored := 0, 0, true, {};
      var left := page;
      ghost var only := OnlySent(page, sent, store.files, store.reactions);
      assert page - left == {};
      while left != {}
        invariant store.Valid() && ok && store.log.faults == old(store.log).faults
        invariant Progress(old(store.posts), page, left, store.posts, lo, hi)
        invariant MetaSoFar(only, page, left, sent, store.files, store.reactions)
        decreases left
      {
        var p :| p in left;
        ok, stored, lo, hi := StoreNext(old(store.posts), only, page, left, sent, p, lo, hi);
        if !ok {
          return;
        }
        left := left - {p};
      }
      stored := page - {};
    }

    /** `ingestPosts`: stores a page, with what its posts were sent with, then moves the cursor to its oldest and newest
        posts. */
    method IngestPosts(channelId: Id, page: seq<Post>, sent: map<Id, Metadata>)
      returns (ok: bool, ghost stored: set<Post>, ghost oldest: int, ghost newest: int)
      requires store.Valid()
      requires IdsApart(Elems(page)) && forall p :: p in page ==> p.createAt > 0
      modifies store`posts, store`index, store`files, store`reactions, store`cursors, store`log
      ensures store.Valid() && store.log.faults == old(store.log).faults + if ok then 0 else 1
      ensures stored <= Elems(page) && PageStored(old(store.posts), stored, store.posts)
      ensures ok ==> stored == Elems(page)
      ensures ok && SentProperly(Elems(page), sent) ==> MetaHeld(Elems(page), sent, store.files, store.reactions)
      ensures ok && SentProperly(Elems(page), sent) ==>
        OnlySent(Elems(page), sent, old(store.files), old(store.reactions)) ==>
        OnlySent(Elems(page), sent, store.files, store.reactions)
      ensures ok && page != [] ==> PageBounds(Elems(page), oldest, newest)
      ensures store.cursors ==
        if ok && page != [] then MergeCursor(old(store.cursors), channelId, oldest, newest) else old(store.cursors)
    {
      var lo, hi;
      var rows := set p | p in page;
      assert page != [] ==> page[0] in rows;
      ok, stored, lo, hi := StorePage(rows, sent);
      assert rows - {} == Elems(page);
      oldest, newest := lo, hi;
      if ok && hi > 0 {
        ok := store.SetChannelCursor(channelId, lo, hi);
      }
    }

    /** What a page does to posts and cursor, whatever is sent with it: it is stored, or some of it when something
        fails. */
    method IngestPage(channelId: Id, page: seq<Post>) returns (ok: bool, ghost stored: set<Post>)
      requires store.Valid() && NewestFirst(page)
      modifies store`posts, store`index, store`files, store`reactions, store`cursors, store`log
      ensures store.Valid() && PageStored(old(store.posts), stored, store.posts)
      ensures store.log.faults == old(store.log).faults + if ok then 0 else 1
      ensures stored <= Elems(page) && (ok ==> stored == Elems(page))
      ensures CursorOver(old(store.cursors), channelId, if ok then page else [], store.cursors)
    {
      ServerIdsDistinct(page);
      var sent: map<Id, Metadata> := *;
      ghost var oldest, newest;
      ok, stored, oldest, newest := IngestPosts(channelId, page, sent);
      if ok && page != [] {
        Ends(page, oldest, newest);
      }
    }

    /** One turn of the backfill loop on a call that was served; `more` when a full page came. */
    method BackfillPage(channelId: Id, server: seq<Post>, n: nat, ghost before: map<Id, Post>, ghost views: seq<View>,
                        ghost cursors: map<Id, Cursor>, ghost was: seq<Post>, ghost lo: nat, ghost hi: nat)
      returns (ok: bool, more: bool, n': nat, ghost list: seq<Post>, ghost lo': nat, ghost hi': nat)
      requires store.Valid() && AllNewestFirst(views) && FrontGrowth(views, 2 * PAGE)
      requires BlockCursor(cursors, channelId, was, lo, hi, store.cursors)
      requires Backfilling(before, views, n, was, lo, hi, store.posts) && At(views, n) == Served(server)
      modifies store`posts, store`index, store`files, store`reactions, store`cursors, store`log
      ensures store.Valid() && n <= n' <= n + 1
      ensures store.log.faults == old(store.log).faults + if ok then 0 else 1
      ensures ok && more ==> n' == n + 1 && Backfilling(before, views, n', list, lo', hi', store.posts)
      ensures ok && !more ==> Ended(before, views, n', list, lo', hi', store.posts)
      ensures ok && !more && n' == 0 ==> server == []
      ensures !ok ==> Spans(views, n, list, lo', hi') && BlockTorn(before, views, n, list, lo', hi', store.posts)
      ensures BlockCursor(cursors, channelId, list, lo', hi', store.cursors)
    {
      var page := Slice(server, n);
      PageIsProper(views, n, server);
      if |page| == 0 {
        NothingNew(before, views, n, was, lo, hi, store.posts, server);
        return true, false, n, was, lo, hi;
      }
      ghost var mid, at := store.posts, store.cursors;
      ghost var stored;
      ok, stored := IngestPage(channelId, page);
      more, n' := |page| == PAGE, n + 1;
      if ok {
        list := server;
        lo', hi' := PageIn(before, views, n, was, lo, hi, mid, server, store.posts, n');
        BlockCursorGrows(cursors, channelId, was, lo, hi, at, page, store.cursors, list, lo', hi');
      } else {
        list, lo', hi' := was, lo, hi;
        PageTears(before, views, n, was, lo, hi, mid, server, stored, store.posts);
      }
    }

    /** One turn of the backfill loop; `more` when there is another. */
    method BackfillTurn(channelId: Id, unread: int, views: seq<View>, n: nat, ghost before: map<Id, Post>,
                        ghost cursors: map<Id, Cursor>, ghost was: seq<Post>, ghost lo: nat, ghost hi: nat)
      returns (outcome: Outcome, more: bool, n': nat, ghost list: seq<Post>, ghost lo': nat, ghost hi': nat)
      requires store.Valid() && AllNewestFirst(views) && FrontGrowth(views, 2 * PAGE)
      requires BlockCursor(cursors, channelId, was, lo, hi, store.cursors)
      requires Backfilling(before, views, n, was, lo, hi, store.posts) && n * PAGE < ClampWindow(unread)
      modifies store`posts, store`index, store`files, store`reactions, store`cursors, store`log
      ensures store.Valid() && BlockCursor(cursors, channelId, list, lo', hi', store.cursors)
      ensures store.log.faults == old(store.log).faults + if outcome == StoreFailed then 1 else 0
      ensures more ==> outcome == Done && n' == n + 1 && Backfilling(before, views, n', list, lo', hi', store.posts)
      ensures !more ==> BackfillResult(outcome, unread, before, views, n', list, lo', hi', store.posts)
    {
      if At(views, n).Failed? { return FetchFailed, false, n, was, lo, hi; }
      var ok;
      ok, more, n', list, lo', hi' := BackfillPage(channelId, views[n].server, n, before, views, cursors, was, lo, hi);
      if !ok { return StoreFailed, false, n, list, lo', hi'; }
      outcome := Done;
      if !more {
        BackfillStops(unread, before, views, n', list, lo', hi', store.posts);
      }
    }

    /** `backfillChannelPosts`. While the list only grows at the front, by at most two pages between calls, what is
        stored is one contiguous block of the list last seen, and when all went well it fills the window. When the store
        fails, what was stored before and some of the page; when a call fails, what was stored before. The cursor goes
        with the block. */
    method BackfillChannelPosts(channelId: Id, unread: int, views: seq<View>)
      returns (outcome: Outcome, ghost calls: nat, ghost list: seq<Post>, ghost lo: nat, ghost hi: nat)
      requires store.Valid()
      requires AllNewestFirst(views) && FrontGrowth(views, 2 * PAGE)
      modifies store`posts, store`index, store`files, store`reactions, store`cursors, store`log
      ensures store.Valid()
      ensures store.log.faults == old(store.log).faults + if outcome == StoreFailed then 1 else 0
      ensures BackfillResult(outcome, unread, old(store.posts), views, calls, list, lo, hi, store.posts)
      ensures BlockCursor(old(store.cursors), channelId, list, lo, hi, store.cursors)
    {
      var target := ClampWindow(unread);
      var n: nat := 0;
      list, lo, hi := [], 0, 0;
      ghost var before, cursors := store.posts, store.cursors;
      while n * PAGE < target
        invariant store.Valid() && BlockCursor(cursors, channelId, list, lo, hi, store.cursors)
        invariant Backfilling(before, views, n, list, lo, hi, store.posts)
        invariant n > 0 ==> (n - 1) * PAGE < target
        invariant store.log.faults == old(store.log).faults
        decreases target - n * PAGE
      {
        var more;
        outcome, more, n, list, lo, hi := BackfillTurn(channelId, unread, views, n, before, cursors, list, lo, hi);
        if !more { calls := n; return; }
      }
      BackfillFills(unread, before, views, n, list, lo, hi, store.posts);
      outcome, calls := Done, n;
    }

    /** One turn of the history loop; fetching the authors may fail after the page is in. */
    method HistoryPage(channelId: Id, view: View, authors: bool, n: nat, anchor: Option<int>, ghost older: seq<Post>,
                       loaded: nat, ghost before: map<Id, Post>, ghost cursors: map<Id, Cursor>)
      returns (outcome: Outcome, size: nat, total: nat)
      requires store.Valid() && (view.Served? ==> NewestFirst(view.server) && Beyond(view.server, anchor) == older)
      requires loaded == n * PAGE
      requires HistoryIs(Done, before, cursors, channelId, older, loaded, store.posts, store.cursors)
      modifies store`posts, store`index, store`files, store`reactions, store`cursors, store`log
      ensures store.Valid() && store.log.faults == old(store.log).faults + if outcome == StoreFailed then 1 else 0
      ensures (outcome == FetchFailed <==> view.Failed?) && (outcome == UsersFailed ==> !authors)
      ensures HistoryIs(outcome, before, cursors, channelId, older, total, store.posts, store.cursors)
      ensures outcome == Done ==> size == Min(PAGE, |older| - loaded) && total == loaded + size
      ensures outcome != Done ==> total == loaded
    {
      if view.Failed? { return FetchFailed, 0, loaded; }
      BeyondNewestFirst(view.server, anchor);
      var page := Slice(Beyond(view.server, anchor), n);
      assert page == NextPage(older, loaded);
      if |page| == 0 { return Done, 0, loaded; }
      StretchNewestFirst(older, loaded, Min(loaded + PAGE, |older|));
      ghost var mid, at := store.posts, store.cursors;
      var ok, stored := IngestPage(channelId, page);
      if !ok {
        HistoryPageFails(before, cursors, channelId, older, loaded, mid, at, page, stored, store.posts);
        return StoreFailed, 0, loaded;
      }
      size, total := |page|, loaded + |page|;
      HistoryPaged(before, cursors, channelId, older, loaded, mid, at, page, store.posts, store.cursors, total);
      if authors {
        outcome := Done;
      } else {
        outcome, total := UsersFailed, loaded;
      }
    }

    /** `LoadHistory`. Posts that come in front meanwhile do not matter. It stores the next older posts, whole pages
        up to the limit or all there are, and returns their number; when a call fails, whole pages of them are in, and
        none when it is the lookup of the oldest row. The cursor goes with what is in. `authors` says for which pages
        the authors can be fetched. */
    method LoadHistory(channelId: Id, limit: int, views: seq<View>, authors: seq<bool>, ghost older: seq<Post>)
      returns (outcome: Outcome, loaded: nat)
      requires store.Valid() && "" !in store.posts && AllNewestFirst(views)
      requires forall id :: IsOldest(store.posts, channelId, id) ==>
        Steady(views, Some(store.posts[id].createAt), older)
      requires (forall k :: k in store.posts ==> store.posts[k].channelId != channelId) ==> Steady(views, None, older)
      modifies store`posts, store`index, store`files, store`reactions, store`cursors, store`log
      ensures store.Valid()
      ensures store.log.faults == old(store.log).faults + if outcome == StoreFailed then 1 else 0
      ensures outcome == Done ==>
        loaded == Min(WholePages(if limit <= 0 then 500 else limit, 200), |older|)
      ensures BrokeOff(outcome, if limit <= 0 then 500 else limit, views, authors, loaded)
      ensures HistoryIs(outcome, old(store.posts), old(store.cursors), channelId, older, loaded, store.posts,
                        store.cursors)
    {
      var want: nat := if limit <= 0 then WINDOW_CAP else limit;
      var lookedUp, oldest := store.OldestPostID(channelId);
      if !lookedUp {
        NothingLoaded(store.posts, store.cursors, channelId, older);
        return StoreFailed, 0;
      }
      var anchor := if oldest == "" then None else Some(store.posts[oldest].createAt);
      assert oldest != "" ==> IsOldest(store.posts, channelId, oldest);
      outcome, loaded := PageBack(channelId, want, views, authors, anchor, older);
    }

    /** `LoadHistory` on a gap-free cache, whose server list gains posts at the front meanwhile: the cache is gap-free
        afterwards exactly when its oldest row, deleted or not, abuts on it, or nothing was loaded; and when the store
        failed, exactly when moreover what is in of the last page is its newest posts. */
    method LoadHistoryBehind(channelId: Id, limit: int, views: seq<View>, authors: seq<bool>, ghost server: seq<Post>,
                             ghost k: nat, ghost anchor: Option<int>)
      returns (outcome: Outcome, loaded: nat, ghost part: set<Post>)
      requires store.Valid() && "" !in store.posts && AllNewestFirst(views)
      requires HoldsNewest(store.posts, channelId, server, k) && AnchorOf(store.posts, channelId, anchor)
      requires forall v :: v in views && v.Served? ==> GrownFrom(v.server, server, anchor)
      modifies store`posts, store`index, store`files, store`reactions, store`cursors, store`log
      ensures store.Valid()
      ensures outcome == Done ==>
        loaded == Min(WholePages(if limit <= 0 then 500 else limit, 200), |Beyond(server, anchor)|)
      ensures outcome != StoreFailed ==>
        (GapFree(Live(store.posts, channelId), server) <==>
         AnchorAbuts(server, k, anchor) || Loaded(outcome, loaded, |Beyond(server, anchor)|) == 0)
      ensures outcome == StoreFailed ==>
        (GapFree(Live(store.posts, channelId), server) <==>
         (loaded == 0 && part == {}) || (AnchorAbuts(server, k, anchor) && NewestPart(server, k + loaded, part)))
      ensures outcome == StoreFailed ==>
        loaded <= |Beyond(server, anchor)| &&
        TornBy(old(store.posts), Beyond(server, anchor), loaded, part, store.posts)
    {
      BeyondGrown(store.posts, channelId, views, server, anchor);
      ghost var before := store.posts;
      outcome, loaded := LoadHistory(channelId, limit, views, authors, Beyond(server, anchor));
      part := {};
      if outcome == StoreFailed {
        part :| TornBy(before, Beyond(server, anchor), loaded, part, store.posts);
        HistoryTornIff(channelId, server, k, anchor, before, loaded, part, store.posts);
      }
      if outcome != StoreFailed {
        HistoryGapFreeIff(channelId, server, k, anchor, before, Loaded(outcome, loaded, |Beyond(server, anchor)|),
                          store.posts);
      }
    }

    /** The loop of `LoadHistory`. */
    method PageBack(channelId: Id, want: nat, views: seq<View>, authors: seq<bool>, anchor: Option<int>,
                    ghost older: seq<Post>)
      returns (outcome: Outcome, loaded: nat)
      requires store.Valid() && AllNewestFirst(views) && Steady(views, anchor, older)
      modifies store`posts, store`index, store`files, store`reactions, store`cursors, store`log
      ensures store.Valid()
      ensures store.log.faults == old(store.log).faults + if outcome == StoreFailed then 1 else 0
      ensures outcome == Done ==> loaded == Min(WholePages(want, PAGE), |older|)
      ensures BrokeOff(outcome, want, views, authors, loaded)
      ensures HistoryIs(outcome, old(store.posts), old(store.cursors), channelId, older, loaded, store.posts,
                        store.cursors)
    {
      loaded := 0;
      var n: nat := 0;
      while loaded < want
        invariant store.Valid() && loaded == n * PAGE && store.log.faults == old(store.log).faults
        invariant HistoryIs(Done, old(store.posts), old(store.cursors), channelId, older, loaded, store.posts,
                            store.cursors)
        invariant n > 0 ==> (n - 1) * PAGE < want
        decreases want - loaded
      {
        var size;
        outcome, size, loaded := HistoryPage(channelId, At(views, n), Fetched(authors, n), n, anchor, older, loaded,
                                                old(store.posts), old(store.cursors));
        if outcome != Done {
          BreaksAt(outcome, want, views, authors, n, loaded);
          return;
        }
        if size < PAGE {
          WholePagesBounds(want, n);
          return;
        }
        n := n + 1;
      }
      WholePagesBounds(want, n);
      outcome := Done;
    }
  }
}
