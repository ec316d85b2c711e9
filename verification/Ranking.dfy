/** The representative-ranking rule. The source writes the same SQL three times (merge, purge
    and prune); all three are this one order. */
module Ranking {
  import opened Basics
  import opened Schema

  function TextLength(t: Option<string>): nat {
    if t.Some? then |t.value| else 0
  }

  predicate HasUrl(i: Item) {
    i.canonicalUrl.Some? && i.canonicalUrl.value != ""
  }

  /** Item `a` is ranked before item `b`: items with a canonical URL first, then the longer
      title plus body, then dated before undated, then the earlier date, then the smaller id. */
  predicate Before(items: map<Id, Item>, a: Id, b: Id)
    requires a in items && b in items
  {
    var x, y := items[a], items[b];
    var lx, ly := TextLength(x.title) + TextLength(x.body), TextLength(y.title) + TextLength(y.body);
    if HasUrl(x) != HasUrl(y) then HasUrl(x)
    else if lx != ly then lx > ly
    else if x.publishedAt.Some? != y.publishedAt.Some? then x.publishedAt.Some?
    else if x.publishedAt != y.publishedAt then x.publishedAt.value < y.publishedAt.value
    else a.n < b.n
  }

  /** `best` is the row numbered 1 of the partition `candidates`. */
  predicate IsBest(items: map<Id, Item>, candidates: set<Id>, best: Id)
    requires candidates <= items.Keys
  {
    best in candidates && forall o | o in candidates && o != best :: Before(items, best, o)
  }

  lemma BestExists(items: map<Id, Item>, candidates: set<Id>)
    requires candidates <= items.Keys && candidates != {}
    ensures exists b :: IsBest(items, candidates, b)
  {
    var before := (a: Id, b: Id) => a in items && b in items && Before(items, a, b);
    FirstExists(candidates, before);
    var b :| IsFirstOf(candidates, before, b);
    assert IsBest(items, candidates, b);
  }

  /** The recomputed representative: NULL for no candidates, otherwise the unique best one. */
  function Best(items: map<Id, Item>, candidates: set<Id>): (r: Option<Id>)
    requires candidates <= items.Keys
    ensures r.None? <==> candidates == {}
    ensures r.Some? ==> IsBest(items, candidates, r.value)
    ensures forall o | o in candidates && IsBest(items, candidates, o) :: r == Some(o)
  {
    if candidates == {} then None
    else
      BestExists(items, candidates);
      var b :| IsBest(items, candidates, b);
      Some(b)
  }

  /** The ORDER BY terms of the ranking query, smallest first: the URL flag, the negated text length,
      the null flag, the date (immaterial when NULL, because the flag decides first), and the id. */
  function RankKey(items: map<Id, Item>, id: Id): seq<int>
    requires id in items
  {
    var i := items[id];
    [if i.canonicalUrl.Some? && i.canonicalUrl.value != "" then 0 else 1,
     -((if i.title.None? then 0 else |i.title.value|) + (if i.body.None? then 0 else |i.body.value|)),
     if i.publishedAt.None? then 1 else 0,
     if i.publishedAt.None? then 0 else i.publishedAt.value,
     id.n]
  }

  /** Lexicographic order on keys of equal length. */
  predicate LexLess(a: seq<int>, b: seq<int>)
    requires |a| == |b|
  {
    a != [] && (a[0] < b[0] || (a[0] == b[0] && LexLess(a[1..], b[1..])))
  }

  lemma LexUnfold(a: seq<int>, b: seq<int>)
    requires |a| == |b| == 5
    ensures LexLess(a, b) <==>
            || a[0] < b[0] || (a[0] == b[0] && (a[1] < b[1] || (a[1] == b[1] && (a[2] < b[2] || (a[2] == b[2] &&
               (a[3] < b[3] || (a[3] == b[3] && a[4] < b[4])))))))
  {
    var a1, b1 := a[1..], b[1..];
    var a2, b2 := a1[1..], b1[1..];
    var a3, b3 := a2[1..], b2[1..];
    var a4, b4 := a3[1..], b3[1..];
    assert LexLess(a4, b4) <==> a4[0] < b4[0];
    assert LexLess(a3, b3) <==> a3[0] < b3[0] || (a3[0] == b3[0] && LexLess(a4, b4));
    assert LexLess(a2, b2) <==> a2[0] < b2[0] || (a2[0] == b2[0] && LexLess(a3, b3));
    assert LexLess(a1, b1) <==> a1[0] < b1[0] || (a1[0] == b1[0] && LexLess(a2, b2));
  }

  /** The ranking is the query's ORDER BY, and it never leaves two items tied. */
  lemma RankingIsOrderBy(items: map<Id, Item>, a: Id, b: Id)
    requires a in items && b in items
    ensures Before(items, a, b) <==> LexLess(RankKey(items, a), RankKey(items, b))
    ensures a != b ==> Before(items, a, b) != Before(items, b, a)
  {
    LexUnfold(RankKey(items, a), RankKey(items, b));
  }

  /** The terms one by one, in the columns of the two rows: a canonical URL comes first, then the longer
      title plus body, then a date, then the earlier date, then the smaller id. */
  lemma RankedByColumns(items: map<Id, Item>, a: Id, b: Id)
    requires a in items && b in items
    ensures var x, y := items[a], items[b];
            var xUrl := x.canonicalUrl.Some? && x.canonicalUrl.value != "";
            var yUrl := y.canonicalUrl.Some? && y.canonicalUrl.value != "";
            var xText := (if x.title.Some? then |x.title.value| else 0) + (if x.body.Some? then |x.body.value| else 0);
            var yText := (if y.title.Some? then |y.title.value| else 0) + (if y.body.Some? then |y.body.value| else 0);
            && (xUrl && !yUrl ==> Before(items, a, b))
            && (xUrl == yUrl && xText > yText ==> Before(items, a, b))
            && (xUrl == yUrl && xText == yText && x.publishedAt.Some? && y.publishedAt.None? ==> Before(items, a, b))
            && (xUrl == yUrl && xText == yText && x.publishedAt.Some? && y.publishedAt.Some? ==>
                  (x.publishedAt.value < y.publishedAt.value ==> Before(items, a, b)))
            && (xUrl == yUrl && xText == yText && x.publishedAt == y.publishedAt && a.n < b.n ==> Before(items, a, b))
    ensures Before(items, a, b) ==> !Before(items, b, a)
  {
  }
}
