/** Stretches of a channel's list, and gap-freedom told by position. */
module Blocks {
  import opened Prelude
  import opened Model
  import opened Tables

  lemma ServerIdsDistinct(server: seq<Post>)
    requires NewestFirst(server)
    ensures IdsApart(Elems(server))
    ensures forall p, q :: p in server && q in server && p.id == q.id ==> p == q
  {
    forall p, q | p in server && q in server && p.id == q.id ensures p == q {
      var i :| 0 <= i < |server| && server[i] == p;
      var j :| 0 <= j < |server| && server[j] == q;
      assert i == j;
    }
  }

  /** A post is in a stretch of the list when its place is. */
  lemma BlockMembers(server: seq<Post>, lo: nat, hi: nat, k: nat)
    requires NewestFirst(server) && lo <= hi <= |server| && k < |server|
    ensures server[k] in Elems(server[lo..hi]) <==> lo <= k < hi
  {
    if server[k] in server[lo..hi] {
      var m :| lo <= m < hi && server[m] == server[k];
    }
    if lo <= k < hi {
      assert server[lo..hi][k - lo] == server[k];
    }
  }

  /** A stretch that begins inside another lies in it when it ends there. */
  lemma StretchWithin(list: seq<Post>, a: nat, b: nat, lo: nat, hi: nat)
    requires NewestFirst(list) && lo <= a <= b <= |list| && lo <= hi <= |list|
    ensures Elems(list[a..b]) <= Elems(list[lo..hi]) <==> a == b || b <= hi
  {
    if a < b {
      BlockMembers(list, lo, hi, b - 1);
      assert list[a..b][b - 1 - a] == list[b - 1];
    }
    forall p | b <= hi && p in list[a..b] ensures p in list[lo..hi] {
      var k :| a <= k < b && list[k] == p;
      BlockMembers(list, lo, hi, k);
    }
  }

  /** Two ranges that touch make one range. */
  lemma UnionOfRanges(list: seq<Post>, a: nat, b: nat, c: nat, d: nat)
    requires a <= b <= |list| && c <= d <= |list| && c <= b && a <= d
    ensures Elems(list[a..b]) + Elems(list[c..d]) == Elems(list[Min(a, c)..Max(b, d)])
  {
    var lo, hi := Min(a, c), Max(b, d);
    forall p | p in list[lo..hi] ensures p in list[a..b] || p in list[c..d] {
      var k :| lo <= k < hi && list[k] == p;
      if a <= k < b {
        assert list[a..b][k - a] == p;
      } else {
        assert list[c..d][k - c] == p;
      }
    }
    forall p | p in list[a..b] || p in list[c..d] ensures p in list[lo..hi] {
      var k :| 0 <= k < |list| && list[k] == p && lo <= k < hi;
      assert list[lo..hi][k - lo] == p;
    }
  }

  /** Gap-free by position: with each cached post every newer one is cached. */
  lemma GapFreeByPosition(live: set<Post>, server: seq<Post>)
    requires NewestFirst(server) && live <= Elems(server)
    ensures GapFree(live, server)
       <==> forall i, j :: 0 <= i < j < |server| && server[j] in live ==> server[i] in live
  {
    if forall i, j :: 0 <= i < j < |server| && server[j] in live ==> server[i] in live {
      forall y, r | y in server && r in live && r.createAt <= y.createAt ensures y in live {
        var i :| 0 <= i < |server| && server[i] == y;
        var j :| 0 <= j < |server| && server[j] == r;
      }
    } else {
      var i, j :| 0 <= i < j < |server| && server[j] in live && server[i] !in live;
      assert server[j].createAt <= server[i].createAt;
    }
  }

  /** The newest `n` posts stored over a cached block that `g` posts have come in front of: gap-free exactly when they
      reach down to the block. */
  lemma TopPageIff(server: seq<Post>, g: nat, hi: nat, n: nat)
    requires NewestFirst(server) && g < hi <= |server|
    ensures GapFree(Elems(server[g..hi]) + Elems(server[..Min(n, |server|)]), server) <==> g <= n
  {
    var to := Min(n, |server|);
    var live := Elems(server[g..hi]) + Elems(server[0..to]);
    assert server[..to] == server[0..to];
    forall k | 0 <= k < |server| ensures server[k] in live <==> g <= k < hi || k < to {
      BlockMembers(server, g, hi, k);
      BlockMembers(server, 0, to, k);
    }
    GapFreeByPosition(live, server);
    assert g > n ==> server[to] !in live && server[g] in live;
  }

  /** The stretch of a list from `top` to `a` over another one, behind its beginning. */
  lemma TopStretchIff(server: seq<Post>, list: seq<Post>, top: nat, c: nat, d: nat, a: nat, below: set<Post>,
                      above: set<Post>)
    requires NewestFirst(server) && top <= c < d <= |server| && top <= a <= |server|
    requires list == server[top..] && below == Elems(server[c..d]) && above == Elems(server[top..a])
    ensures GapFree(below + above, list) <==> c <= a
  {
    Suffix(server, list, top, c, d);
    Suffix(server, list, top, top, a);
    TopSetIff(list, c - top, d - top, a - top, below, above);
  }

  lemma TopSetIff(list: seq<Post>, g: nat, hi: nat, n: nat, below: set<Post>, above: set<Post>)
    requires NewestFirst(list) && g < hi <= |list| && n <= |list|
    requires below == Elems(list[g..hi]) && above == Elems(list[0..n])
    ensures GapFree(below + above, list) <==> g <= n
  {
    TopPageIff(list, g, hi, n);
    assert list[..Min(n, |list|)] == list[0..n];
  }

  lemma Suffix(server: seq<Post>, list: seq<Post>, top: nat, c: nat, d: nat)
    requires NewestFirst(server) && top <= c <= d <= |server| && list == server[top..]
    ensures NewestFirst(list) && Elems(server[c..d]) == Elems(list[c - top..d - top])
  {
    assert forall p :: p in list ==> p in server;
    assert list[c - top..d - top] == server[c..d];
  }

  /** With each post of the part every newer one behind the first `k` posts is in it. */
  ghost predicate NewestPart(server: seq<Post>, k: nat, part: set<Post>) {
    forall i, j :: k <= i < j < |server| && server[j] in part ==> server[i] in part
  }

  /** A page that is stored in part, in whatever order its map is ranged over: gap-free exactly when the stored part
      holds, with each of its posts, every newer post of the page. */
  lemma PartOfPageIff(server: seq<Post>, k: nat, part: set<Post>)
    requires NewestFirst(server) && k <= |server| && part <= Elems(server[k..])
    ensures GapFree(Elems(server[..k]) + part, server)
       <==> NewestPart(server, k, part)
  {
    var live := Elems(server[0..k]) + part;
    assert server[..k] == server[0..k] && server[k..] == server[k..|server|];
    forall m | 0 <= m < |server| ensures server[m] in live <==> m < k || server[m] in part {
      BlockMembers(server, 0, k, m);
      BlockMembers(server, k, |server|, m);
    }
    GapFreeByPosition(live, server);
  }
}
