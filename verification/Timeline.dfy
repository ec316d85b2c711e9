/** The paginated thread timeline: one row per cluster whose representative and its channel
    join, newest dated representative first, undated last, ties by descending cluster id. */
module Timeline {
  import opened Basics
  import opened Schema
  import Ranking

  datatype PageResult = Page(rows: seq<Id>) | InvalidArgument

  /** The inner joins of the query: the cluster has a representative row in a known channel. */
  predicate Listed(s: Store, c: Id) {
    && c in s.clusters && s.clusters[c].Some? && s.clusters[c].value in s.items
    && s.items[s.clusters[c].value].channelId in s.channels
  }

  function PublishedAt(s: Store, c: Id): Option<int>
    requires Listed(s, c)
  {
    s.items[s.clusters[c].value].publishedAt
  }

  /** ORDER BY the null flag, `published_at` DESC, cluster id DESC. */
  predicate Precedes(s: Store, a: Id, b: Id)
    requires Listed(s, a) && Listed(s, b)
  {
    var x, y := PublishedAt(s, a), PublishedAt(s, b);
    if x.Some? != y.Some? then x.Some?
    else if x != y then x.value > y.value
    else a.n > b.n
  }

  predicate AllListed(s: Store, cs: set<Id>) {
    forall c | c in cs :: Listed(s, c)
  }

  predicate IsFirst(s: Store, cs: set<Id>, f: Id)
    requires AllListed(s, cs)
  {
    f in cs && forall c | c in cs && c != f :: Precedes(s, f, c)
  }

  lemma NewestExists(s: Store, cs: set<Id>)
    requires AllListed(s, cs) && cs != {}
    ensures exists f :: IsFirst(s, cs, f)
  {
    var before := (a: Id, b: Id) => Listed(s, a) && Listed(s, b) && Precedes(s, a, b);
    FirstExists(cs, before);
    var f :| IsFirstOf(cs, before, f);
    assert IsFirst(s, cs, f);
  }

  /** The clusters `cs` in timeline order. */
  function Sorted(s: Store, cs: set<Id>): (r: seq<Id>)
    requires AllListed(s, cs)
    ensures |r| == |cs|
    decreases |cs|
  {
    if cs == {} then []
    else
      NewestExists(s, cs);
      var f :| IsFirst(s, cs, f);
      [f] + Sorted(s, cs - {f})
  }

  function Rows(s: Store): seq<Id> {
    Sorted(s, set c | c in s.clusters && Listed(s, c))
  }

  /** COUNT(members.item_id): the two left joins on primary keys add no rows to the member rows. */
  function DuplicateCount(s: Store, c: Id): nat {
    |set m | m in s.members && m.cluster == c|
  }

  function Min(a: int, b: int): int {
    if a < b then a else b
  }

  /** LIMIT size OFFSET offset. */
  function Slice(rows: seq<Id>, offset: nat, size: nat): seq<Id> {
    rows[Min(offset, |rows|)..Min(offset + size, |rows|)]
  }

  /** The rows before a page. */
  function Offset(page: nat, size: nat): nat
    requires page > 0
  {
    (page - 1) * size
  }

  /** One page, after rejecting non-positive arguments. */
  function ListEntries(s: Store, page: int, size: int): (r: PageResult)
    ensures r.InvalidArgument? <==> page <= 0 || size <= 0
    ensures r.Page? ==> |r.rows| <= size
  {
    if page <= 0 || size <= 0 then InvalidArgument else Page(Slice(Rows(s), Offset(page, size), size))
  }

  /** The first `n` pages, one after another. */
  ghost function Pages(s: Store, size: nat, n: nat): seq<Id>
    requires size > 0
  {
    if n == 0 then [] else Pages(s, size, n - 1) + ListEntries(s, n, size).rows
  }

  lemma {:induction false} SortedInOrder(s: Store, cs: set<Id>)
    requires AllListed(s, cs)
    ensures forall k | 0 <= k < |cs| :: Sorted(s, cs)[k] in cs
    ensures forall c | c in cs :: c in Sorted(s, cs)
    ensures forall j, k | 0 <= j < k < |cs| :: Precedes(s, Sorted(s, cs)[j], Sorted(s, cs)[k])
    decreases |cs|
  {
    if cs != {} {
      var r := Sorted(s, cs);
      assert IsFirst(s, cs, r[0]) && r[1..] == Sorted(s, cs - {r[0]});
      SortedInOrder(s, cs - {r[0]});
      forall j, k | 0 <= j < k < |cs| ensures Precedes(s, r[j], r[k]) {
        if j > 0 {
          assert r[j] == r[1..][j - 1] && r[k] == r[1..][k - 1];
        } else {
          assert r[k] == r[1..][k - 1];
        }
      }
    }
  }

  lemma SliceStep(rows: seq<Id>, offset: nat, size: nat)
    ensures rows[..Min(offset, |rows|)] + Slice(rows, offset, size) == rows[..Min(offset + size, |rows|)]
  {
  }

  lemma OffsetStep(n: nat, size: nat)
    ensures Offset(1, size) == 0 && Offset(n + 2, size) == Offset(n + 1, size) + size
  {
    assert (n + 1) * size == n * size + size;
  }

  /** `n` pages hold exactly the rows before page `n + 1`, that is the first `n * size` of them. */
  lemma {:induction false} PagesArePrefix(s: Store, size: nat, n: nat)
    requires size > 0
    ensures Pages(s, size, n) == Rows(s)[..Min(Offset(n + 1, size), |Rows(s)|)]
    decreases n
  {
    if n == 0 {
      OffsetStep(0, size);
    } else {
      PagesArePrefix(s, size, n - 1);
      OffsetStep(n - 1, size);
      SliceStep(Rows(s), Offset(n, size), size);
    }
  }

  /** Enough pages of any size concatenate to the whole timeline: every cluster of a healthy
      store once, in strict timeline order, and nothing else. */
  lemma PagingIsComplete(s: Store, size: nat, n: nat)
    requires Healthy(s) && size > 0 && n * size >= |s.clusters|
    ensures var all := Pages(s, size, n);
            && |all| == |s.clusters|
            && (forall c :: c in all <==> c in s.clusters)
            && (forall k | 0 <= k < |all| :: Listed(s, all[k]))
            && (forall j, k | 0 <= j < k < |all| :: Precedes(s, all[j], all[k]))
  {
    var cs := set c | c in s.clusters && Listed(s, c);
    assert cs == s.clusters.Keys;
    SortedInOrder(s, cs);
    PagesArePrefix(s, size, n);
    assert Rows(s)[..|Rows(s)|] == Rows(s);
  }

  lemma {:induction false} ImageCount(ms: set<Member>, c: Id)
    requires forall m | m in ms :: m.cluster == c
    ensures |set m | m in ms :: m.item| == |ms|
    decreases |ms|
  {
    var image := set m | m in ms :: m.item;
    if ms != {} {
      var x :| x in ms;
      var rest := ms - {x};
      ImageCount(rest, c);
      forall m | m in rest ensures m.item != x.item {
        assert m == Member(c, m.item) && x == Member(c, x.item);
      }
      assert image == (set m | m in rest :: m.item) + {x.item};
    }
  }

  /** The duplicate count is the number of distinct items in the cluster, at least one. */
  lemma DuplicateCountIsMembership(s: Store, c: Id)
    ensures DuplicateCount(s, c) == |MembersOf(s, c)|
    ensures Healthy(s) && c in s.clusters ==> DuplicateCount(s, c) >= 1
  {
    var ms := set m | m in s.members && m.cluster == c;
    ImageCount(ms, c);
    assert MembersOf(s, c) == (set m | m in ms :: m.item);
    if Healthy(s) && c in s.clusters {
      assert Member(c, s.clusters[c].value) in ms;
    }
  }

  /** The ORDER BY terms of the timeline query, padded to the length of a rank key. */
  function TimelineKey(s: Store, c: Id): seq<int>
    requires Listed(s, c)
  {
    var at := s.items[s.clusters[c].value].publishedAt;
    [if at.None? then 1 else 0, if at.None? then 0 else -at.value, -c.n, 0, 0]
  }

  /** The timeline order is the query's ORDER BY, and it never leaves two clusters tied. */
  lemma TimelineIsOrderBy(s: Store, a: Id, b: Id)
    requires Listed(s, a) && Listed(s, b)
    ensures Precedes(s, a, b) <==> Ranking.LexLess(TimelineKey(s, a), TimelineKey(s, b))
    ensures a != b ==> Precedes(s, a, b) != Precedes(s, b, a)
  {
    Ranking.LexUnfold(TimelineKey(s, a), TimelineKey(s, b));
  }

  /** The rows of the timeline in columns: a cluster is listed exactly if its representative row exists in an
      existing channel; dated ones come before undated ones, newer before older, larger ids before smaller. */
  lemma RowsByColumns(s: Store, a: Id, b: Id)
    ensures a in Rows(s) <==>
            && a in s.clusters && s.clusters[a].Some? && s.clusters[a].value in s.items
            && s.items[s.clusters[a].value].channelId in s.channels
    ensures Listed(s, a) && Listed(s, b) ==>
              var x, y := s.items[s.clusters[a].value].publishedAt, s.items[s.clusters[b].value].publishedAt;
              && (x.Some? && y.None? ==> Precedes(s, a, b))
              && (x.Some? && y.Some? && x.value > y.value ==> Precedes(s, a, b))
              && (x == y && a.n > b.n ==> Precedes(s, a, b))
              && (Precedes(s, a, b) ==> !Precedes(s, b, a))
  {
    SortedInOrder(s, set c | c in s.clusters && Listed(s, c));
  }
}
