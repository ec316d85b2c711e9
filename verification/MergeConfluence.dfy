/** Runs of cluster merges. Every run ends in a store determined by the original store and by
    which original clusters the run linked together, whatever the order and grouping of merges. */
module MergeConfluence {
  import opened Basics
  import opened Schema
  import opened Ranking
  import opened Statements
  import opened ClusterSpec

  /** The store after the merge requests `run`, each a set of matched cluster ids. */
  ghost function MergeRun(s: Store, run: seq<set<Id>>): Store
    decreases |run|
  {
    if run == [] then s else MergeRun(AfterMerge(s, run[0]), run[1..])
  }

  /** Where one request sends cluster `c`. */
  ghost function Moved(s: Store, ids: set<Id>, c: Id): Id {
    if c in JoinedBy(s, ids) then Smallest(ids) else c
  }

  /** The surviving cluster that ends up holding the members of `c`. */
  ghost function Root(s: Store, run: seq<set<Id>>, c: Id): Id
    decreases |run|
  {
    if run == [] then c else Root(AfterMerge(s, run[0]), run[1..], Moved(s, run[0], c))
  }

  /** The groups of live clusters each request of the run joined. */
  ghost function Joins(s: Store, run: seq<set<Id>>): seq<set<Id>>
    decreases |run|
  {
    if run == [] then [] else [JoinedBy(s, run[0])] + Joins(AfterMerge(s, run[0]), run[1..])
  }

  ghost predicate Adjacent(joins: seq<set<Id>>, a: Id, b: Id) {
    a == b || exists j :: 0 <= j < |joins| && a in joins[j] && b in joins[j]
  }

  ghost predicate IsPath(joins: seq<set<Id>>, path: seq<Id>, a: Id, b: Id) {
    && path != [] && path[0] == a && path[|path| - 1] == b
    && forall k | 0 <= k < |path| - 1 :: Adjacent(joins, path[k], path[k + 1])
  }

  /** The least equivalence that relates clusters joined by one request. */
  ghost predicate Linked(joins: seq<set<Id>>, a: Id, b: Id) {
    exists path :: IsPath(joins, path, a, b)
  }

  // ----- one request -----

  lemma JoinedFacts(s: Store, ids: set<Id>)
    requires WellFormed(s) && JoinedBy(s, ids) != {}
    ensures var j := JoinedBy(s, ids);
            && j <= s.clusters.Keys && Smallest(ids) in j
            && (exists c :: c in j && c != Smallest(ids))
            && ItemsIn(s, ids) == ItemsIn(s, j)
            && AfterMerge(s, ids).clusters.Keys == s.clusters.Keys - (j - {Smallest(ids)})
  {
    var j := JoinedBy(s, ids);
    assert (forall c | c in j :: c == Smallest(ids)) ==> j == {Smallest(ids)};
  }

  lemma StepMembers(s: Store, ids: set<Id>)
    requires WellFormed(s)
    ensures AfterMerge(s, ids).members == (set m | m in s.members :: Member(Moved(s, ids, m.cluster), m.item))
  {
    var image := set m | m in s.members :: Member(Moved(s, ids, m.cluster), m.item);
    if JoinedBy(s, ids) != {} {
      assert forall m | m in s.members :: m.cluster in ids <==> m.cluster in JoinedBy(s, ids);
    } else {
      forall m | m in s.members ensures m in image {
        assert m == Member(Moved(s, ids, m.cluster), m.item);
      }
      assert image == s.members;
    }
  }

  lemma StepMoves(s: Store, ids: set<Id>)
    requires WellFormed(s)
    ensures var t := AfterMerge(s, ids);
            && t.clusters.Keys <= s.clusters.Keys
            && (forall c | c in s.clusters :: Moved(s, ids, c) in t.clusters && Moved(s, ids, c).n <= c.n)
            && (forall c | c in t.clusters :: Moved(s, ids, c) == c)
  {
    if JoinedBy(s, ids) != {} {
      JoinedFacts(s, ids);
    }
  }

  lemma StepKeeps(s: Store, ids: set<Id>)
    requires s.deliveries.Keys <= s.clusters.Keys
    ensures var t := AfterMerge(s, ids);
            && t.items == s.items && t.channels == s.channels && t.raws == s.raws
            && t.clusters.Keys <= s.clusters.Keys
            && t.deliveries == (map c | c in s.deliveries && c in t.clusters :: s.deliveries[c])
  {
  }

  // ----- links and roots -----

  lemma {:induction false} JoinsAreLive(s: Store, run: seq<set<Id>>)
    requires WellFormed(s)
    ensures forall j | 0 <= j < |Joins(s, run)| :: Joins(s, run)[j] <= s.clusters.Keys
    decreases |run|
  {
    if run != [] {
      AfterMergeKeeps(s, run[0]);
      StepMoves(s, run[0]);
      JoinsAreLive(AfterMerge(s, run[0]), run[1..]);
    }
  }

  /** Clusters joined by some request are joined by a later one, or sent to the same place by the first. */
  lemma AdjacentMoves(s: Store, run: seq<set<Id>>, a: Id, b: Id)
    requires WellFormed(s) && run != [] && Adjacent(Joins(s, run), a, b)
    ensures Adjacent(Joins(AfterMerge(s, run[0]), run[1..]), Moved(s, run[0], a), Moved(s, run[0], b))
  {
    if a != b {
      var all, rest := Joins(s, run), Joins(AfterMerge(s, run[0]), run[1..]);
      var j :| 0 <= j < |all| && a in all[j] && b in all[j];
      if j > 0 {
        AfterMergeKeeps(s, run[0]);
        StepMoves(s, run[0]);
        JoinsAreLive(AfterMerge(s, run[0]), run[1..]);
        assert all[j] == rest[j - 1];
      }
    }
  }

  /** A map that keeps adjacency keeps paths. */
  lemma PathMaps(all: seq<set<Id>>, rest: seq<set<Id>>, f: Id -> Id, path: seq<Id>, a: Id, b: Id)
    requires IsPath(all, path, a, b)
    requires forall x, y | Adjacent(all, x, y) :: Adjacent(rest, f(x), f(y))
    ensures Linked(rest, f(a), f(b))
  {
    var image := seq(|path|, k requires 0 <= k < |path| => f(path[k]));
    forall k | 0 <= k < |image| - 1 ensures Adjacent(rest, image[k], image[k + 1]) {
      assert Adjacent(all, path[k], path[k + 1]);
    }
    assert IsPath(rest, image, f(a), f(b));
  }

  /** A path survives a request: mapping its nodes leaves a path over the remaining joins. */
  lemma PathForward(s: Store, run: seq<set<Id>>, path: seq<Id>, a: Id, b: Id)
    requires WellFormed(s) && run != [] && IsPath(Joins(s, run), path, a, b)
    ensures Linked(Joins(AfterMerge(s, run[0]), run[1..]), Moved(s, run[0], a), Moved(s, run[0], b))
  {
    var all, rest := Joins(s, run), Joins(AfterMerge(s, run[0]), run[1..]);
    forall x, y | Adjacent(all, x, y) ensures Adjacent(rest, Moved(s, run[0], x), Moved(s, run[0], y)) {
      AdjacentMoves(s, run, x, y);
    }
    PathMaps(all, rest, c => Moved(s, run[0], c), path, a, b);
  }

  lemma AdjacentLater(join: set<Id>, rest: seq<set<Id>>, a: Id, b: Id)
    requires Adjacent(rest, a, b)
    ensures Adjacent([join] + rest, a, b)
  {
    if a != b {
      var j :| 0 <= j < |rest| && a in rest[j] && b in rest[j];
      assert ([join] + rest)[j + 1] == rest[j];
    }
  }

  lemma AdjacentFirst(join: set<Id>, rest: seq<set<Id>>, a: Id, b: Id)
    requires a == b || (a in join && b in join)
    ensures Adjacent([join] + rest, a, b)
  {
    assert ([join] + rest)[0] == join;
  }

  /** A path over later joins between the images of `a` and `b` extends to `a` and `b`. */
  lemma PathExtends(join: set<Id>, rest: seq<set<Id>>, path: seq<Id>, a: Id, a': Id, b: Id, b': Id)
    requires IsPath(rest, path, a', b')
    requires (a == a' || (a in join && a' in join)) && (b == b' || (b in join && b' in join))
    ensures Linked([join] + rest, a, b)
  {
    var all, whole := [join] + rest, [a] + path + [b];
    AdjacentFirst(join, rest, a, a');
    AdjacentFirst(join, rest, b', b);
    forall k | 0 <= k < |whole| - 1 ensures Adjacent(all, whole[k], whole[k + 1]) {
      if 0 < k < |path| {
        AdjacentLater(join, rest, path[k - 1], path[k]);
      }
    }
    assert IsPath(all, whole, a, b);
  }

  lemma PathBackward(s: Store, run: seq<set<Id>>, path: seq<Id>, a: Id, b: Id)
    requires WellFormed(s) && run != []
    requires IsPath(Joins(AfterMerge(s, run[0]), run[1..]), path, Moved(s, run[0], a), Moved(s, run[0], b))
    ensures Linked(Joins(s, run), a, b)
  {
    if JoinedBy(s, run[0]) != {} {
      JoinedFacts(s, run[0]);
    }
    PathExtends(JoinedBy(s, run[0]), Joins(AfterMerge(s, run[0]), run[1..]), path,
                a, Moved(s, run[0], a), b, Moved(s, run[0], b));
  }

  /** Two original clusters share a root exactly when the run's joins link them. */
  lemma {:induction false} RootsAreLinks(s: Store, run: seq<set<Id>>, a: Id, b: Id)
    requires WellFormed(s) && a in s.clusters && b in s.clusters
    ensures Root(s, run, a) == Root(s, run, b) <==> Linked(Joins(s, run), a, b)
    decreases |run|
  {
    var joins := Joins(s, run);
    if run == [] {
      if a == b {
        assert IsPath(joins, [a], a, b);
      }
      if Linked(joins, a, b) {
        var path :| IsPath(joins, path, a, b);
        EdgelessPath(path, a, b);
      }
    } else {
      var t := AfterMerge(s, run[0]);
      AfterMergeKeeps(s, run[0]);
      StepMoves(s, run[0]);
      var a', b' := Moved(s, run[0], a), Moved(s, run[0], b);
      RootsAreLinks(t, run[1..], a', b');
      if Linked(joins, a, b) {
        var path :| IsPath(joins, path, a, b);
        PathForward(s, run, path, a, b);
      }
      if Linked(Joins(t, run[1..]), a', b') {
        var path :| IsPath(Joins(t, run[1..]), path, a', b');
        PathBackward(s, run, path, a, b);
      }
    }
  }

  lemma {:induction false} EdgelessPath(path: seq<Id>, a: Id, b: Id)
    requires IsPath([], path, a, b)
    ensures a == b
    decreases |path|
  {
    if |path| > 1 {
      assert Adjacent([], path[0], path[1]);
      forall k | 0 <= k < |path[1..]| - 1 ensures Adjacent([], path[1..][k], path[1..][k + 1]) {
        assert Adjacent([], path[k + 1], path[k + 2]);
      }
      EdgelessPath(path[1..], path[1], b);
    }
  }

  // ----- the final store -----

  /** A root is a live original cluster and the smallest id of its class. */
  lemma {:induction false} RootIsSmallest(s: Store, run: seq<set<Id>>, c: Id)
    requires WellFormed(s) && c in s.clusters
    ensures var r := Root(s, run, c);
            r in s.clusters && r.n <= c.n && r in MergeRun(s, run).clusters && Root(s, run, r) == r
    decreases |run|
  {
    if run != [] {
      AfterMergeKeeps(s, run[0]);
      StepMoves(s, run[0]);
      RootIsSmallest(AfterMerge(s, run[0]), run[1..], Moved(s, run[0], c));
    }
  }

  lemma {:induction false} RunKeeps(s: Store, run: seq<set<Id>>)
    requires WellFormed(s)
    ensures var f := MergeRun(s, run);
            && WellFormed(f) && f.items == s.items && f.channels == s.channels && f.raws == s.raws
            && f.clusters.Keys <= s.clusters.Keys
    decreases |run|
  {
    if run != [] {
      AfterMergeKeeps(s, run[0]);
      StepKeeps(s, run[0]);
      RunKeeps(AfterMerge(s, run[0]), run[1..]);
    }
  }

  /** A run keeps the deliveries of the surviving clusters and drops the others. */
  lemma {:induction false} RunDeliveries(s: Store, run: seq<set<Id>>)
    requires WellFormed(s)
    ensures var f := MergeRun(s, run);
            f.deliveries == (map c | c in s.deliveries && c in f.clusters :: s.deliveries[c])
    decreases |run|
  {
    if run != [] {
      var t := AfterMerge(s, run[0]);
      AfterMergeKeeps(s, run[0]);
      StepKeeps(s, run[0]);
      RunKeeps(t, run[1..]);
      RunDeliveries(t, run[1..]);
    }
  }

  /** The clusters that are their own root, before and after the first request. */
  lemma RootsCompose(s: Store, run: seq<set<Id>>)
    requires WellFormed(s) && run != []
    ensures var t := AfterMerge(s, run[0]);
            (set c | c in t.clusters && Root(t, run[1..], c) == c) == (set c | c in s.clusters && Root(s, run, c) == c)
  {
    var t := AfterMerge(s, run[0]);
    AfterMergeKeeps(s, run[0]);
    StepMoves(s, run[0]);
    forall c | c in s.clusters && Root(s, run, c) == c ensures c in t.clusters && Root(t, run[1..], c) == c {
      RootIsSmallest(t, run[1..], Moved(s, run[0], c));
    }
  }

  /** The surviving clusters are the roots, and a member row moves to its cluster's root. */
  lemma {:induction false} RunMovesToRoots(s: Store, run: seq<set<Id>>)
    requires WellFormed(s)
    ensures var f := MergeRun(s, run);
            && f.clusters.Keys == (set c | c in s.clusters && Root(s, run, c) == c)
            && f.members == (set m | m in s.members :: Member(Root(s, run, m.cluster), m.item))
    decreases |run|
  {
    if run == [] {
      var same := set m | m in s.members :: Member(m.cluster, m.item);
      forall m | m in s.members ensures m in same {
        assert m == Member(m.cluster, m.item);
      }
      assert same == s.members;
    } else {
      AfterMergeKeeps(s, run[0]);
      RunMovesToRoots(AfterMerge(s, run[0]), run[1..]);
      RootsCompose(s, run);
      MembersCompose(s, run);
    }
  }

  lemma MembersCompose(s: Store, run: seq<set<Id>>)
    requires WellFormed(s) && run != []
    ensures (set m | m in AfterMerge(s, run[0]).members ::
             Member(Root(AfterMerge(s, run[0]), run[1..], m.cluster), m.item))
         == (set m | m in s.members :: Member(Root(s, run, m.cluster), m.item))
  {
    StepMembers(s, run[0]);
    ImagesCompose(s.members, AfterMerge(s, run[0]).members, c => Moved(s, run[0], c),
                  c => Root(AfterMerge(s, run[0]), run[1..], c), c => Root(s, run, c));
  }

  /** Sending members along `f` and then along `g` sends them along `h`. */
  lemma ImagesCompose(members: set<Member>, moved: set<Member>, f: Id -> Id, g: Id -> Id, h: Id -> Id)
    requires moved == (set m | m in members :: Member(f(m.cluster), m.item))
    requires forall c :: h(c) == g(f(c))
    ensures (set m | m in moved :: Member(g(m.cluster), m.item)) ==
            (set m | m in members :: Member(h(m.cluster), m.item))
  {
    forall m | m in members ensures Member(f(m.cluster), m.item) in moved {
    }
    var left, right := (set m | m in moved :: Member(g(m.cluster), m.item)),
        (set m | m in members :: Member(h(m.cluster), m.item));
    forall x | x in right ensures x in left {
      var m :| m in members && x == Member(h(m.cluster), m.item);
      assert x == Member(g(Member(f(m.cluster), m.item).cluster), m.item);
    }
  }

  /** The original clusters whose members end up in `c`. */
  ghost function ClassOf(s: Store, run: seq<set<Id>>, c: Id): set<Id> {
    set d | d in s.clusters && Root(s, run, d) == c
  }

  lemma ClassItemsCompose(s: Store, run: seq<set<Id>>, c: Id)
    requires WellFormed(s) && run != []
    ensures var t := AfterMerge(s, run[0]);
            ItemsIn(t, ClassOf(t, run[1..], c)) == ItemsIn(s, ClassOf(s, run, c))
  {
    var t := AfterMerge(s, run[0]);
    AfterMergeKeeps(s, run[0]);
    StepMoves(s, run[0]);
    StepMembers(s, run[0]);
    var left, right := ItemsIn(t, ClassOf(t, run[1..], c)), ItemsIn(s, ClassOf(s, run, c));
    forall i | i in left ensures i in right {
      var m :| m in t.members && m.cluster in ClassOf(t, run[1..], c) && m.item == i;
      var o :| o in s.members && m == Member(Moved(s, run[0], o.cluster), o.item);
      assert o.cluster in ClassOf(s, run, c);
    }
    forall i | i in right ensures i in left {
      var o :| o in s.members && o.cluster in ClassOf(s, run, c) && o.item == i;
      var m := Member(Moved(s, run[0], o.cluster), o.item);
      assert m in t.members && m.cluster in ClassOf(t, run[1..], c);
    }
  }

  /** A class of its own keeps its representative; a joined class gets the best of all its items. */
  lemma {:induction false} RunRepresentative(s: Store, run: seq<set<Id>>, c: Id)
    requires WellFormed(s) && c in MergeRun(s, run).clusters
    ensures c in s.clusters && c in ClassOf(s, run, c)
    ensures MergeRun(s, run).clusters[c] ==
            if ClassOf(s, run, c) == {c} then s.clusters[c] else Best(s.items, ItemsIn(s, ClassOf(s, run, c)))
    decreases |run|
  {
    RunMovesToRoots(s, run);
    if run == [] {
      assert ClassOf(s, run, c) == {c};
    } else {
      var t := AfterMerge(s, run[0]);
      AfterMergeKeeps(s, run[0]);
      StepMoves(s, run[0]);
      RunRepresentative(t, run[1..], c);
      ClassItemsCompose(s, run, c);
      var before, after := ClassOf(s, run, c), ClassOf(t, run[1..], c);
      assert after <= before;
      if after == {c} {
        assert forall d | d in before :: Moved(s, run[0], d) in after;
        LoneClass(s, run, c);
      } else {
        var d :| d in after && d != c;
        assert d in before;
      }
    }
  }

  /** A class that the first request sends to one cluster is what that request joined, or a single cluster. */
  lemma LoneGroup(s: Store, run: seq<set<Id>>, c: Id)
    requires WellFormed(s) && run != [] && c in s.clusters && c in AfterMerge(s, run[0]).clusters
    requires c in ClassOf(s, run, c)
    requires forall d | d in ClassOf(s, run, c) :: Moved(s, run[0], d) == c
    ensures ClassOf(s, run, c) ==
            if JoinedBy(s, run[0]) == {} || c != Smallest(run[0]) then {c} else JoinedBy(s, run[0])
  {
    var joined, group := JoinedBy(s, run[0]), ClassOf(s, run, c);
    if joined == {} || c != Smallest(run[0]) {
      StepMoves(s, run[0]);
      assert group == {c};
    } else {
      JoinedFacts(s, run[0]);
      forall d | d in joined ensures d in group {
        assert Moved(s, run[0], d) == c == Moved(s, run[0], c);
      }
      assert group == joined;
    }
  }

  /** What the first request does to the representative of a cluster it leaves. */
  lemma StepRepresentative(s: Store, ids: set<Id>, c: Id)
    requires WellFormed(s) && c in AfterMerge(s, ids).clusters
    ensures c in s.clusters && AfterMerge(s, ids).clusters[c] ==
            if JoinedBy(s, ids) == {} || c != Smallest(ids) then s.clusters[c]
                else Best(s.items, ItemsIn(s, JoinedBy(s, ids)))
  {
    if JoinedBy(s, ids) != {} {
      JoinedFacts(s, ids);
    }
  }

  /** The case of `RunRepresentative` in which `c` is alone after the first request. */
  lemma LoneClass(s: Store, run: seq<set<Id>>, c: Id)
    requires WellFormed(s) && run != [] && c in s.clusters && c in AfterMerge(s, run[0]).clusters
    requires c in ClassOf(s, run, c)
    requires forall d | d in ClassOf(s, run, c) :: Moved(s, run[0], d) == c
    ensures AfterMerge(s, run[0]).clusters[c] ==
            if ClassOf(s, run, c) == {c} then s.clusters[c] else Best(s.items, ItemsIn(s, ClassOf(s, run, c)))
  {
    LoneGroup(s, run, c);
    StepRepresentative(s, run[0], c);
    if JoinedBy(s, run[0]) != {} {
      JoinedFacts(s, run[0]);
    }
  }

  ghost predicate SameRoots(s: Store, run1: seq<set<Id>>, run2: seq<set<Id>>) {
    forall c | c in s.clusters :: Root(s, run1, c) == Root(s, run2, c)
  }

  lemma SameMembers(s: Store, run1: seq<set<Id>>, run2: seq<set<Id>>)
    requires WellFormed(s) && SameRoots(s, run1, run2)
    ensures MergeRun(s, run1).members == MergeRun(s, run2).members
    ensures MergeRun(s, run1).clusters.Keys == MergeRun(s, run2).clusters.Keys
  {
    RunMovesToRoots(s, run1);
    RunMovesToRoots(s, run2);
    assert forall m | m in s.members :: Root(s, run1, m.cluster) == Root(s, run2, m.cluster);
  }

  lemma SameRepresentatives(s: Store, run1: seq<set<Id>>, run2: seq<set<Id>>)
    requires WellFormed(s) && SameRoots(s, run1, run2)
    ensures MergeRun(s, run1).clusters == MergeRun(s, run2).clusters
  {
    var f1, f2 := MergeRun(s, run1), MergeRun(s, run2);
    SameMembers(s, run1, run2);
    forall c | c in f1.clusters ensures f1.clusters[c] == f2.clusters[c] {
      RunRepresentative(s, run1, c);
      RunRepresentative(s, run2, c);
      RunKeeps(s, run1);
      assert ClassOf(s, run1, c) == ClassOf(s, run2, c);
    }
  }

  /** Merge confluence: two runs that link the same original clusters end with the same clusters,
      representatives, member rows and deliveries. */
  lemma MergeConfluence(s: Store, run1: seq<set<Id>>, run2: seq<set<Id>>)
    requires WellFormed(s)
    requires forall a, b | a in s.clusters && b in s.clusters ::
               Linked(Joins(s, run1), a, b) <==> Linked(Joins(s, run2), a, b)
    ensures MergeRun(s, run1).(decisions := map[]) == MergeRun(s, run2).(decisions := map[])
  {
    forall c | c in s.clusters ensures Root(s, run1, c) == Root(s, run2, c) {
      SameRoot(s, run1, run2, c);
    }
    RunKeeps(s, run1);
    RunKeeps(s, run2);
    RunDeliveries(s, run1);
    RunDeliveries(s, run2);
    SameMembers(s, run1, run2);
    SameRepresentatives(s, run1, run2);
  }

  /** Equal link relations give equal roots, because a root is the smallest id of its class. */
  lemma SameRoot(s: Store, run1: seq<set<Id>>, run2: seq<set<Id>>, c: Id)
    requires WellFormed(s) && c in s.clusters
    requires forall a, b | a in s.clusters && b in s.clusters ::
               Linked(Joins(s, run1), a, b) <==> Linked(Joins(s, run2), a, b)
    ensures Root(s, run1, c) == Root(s, run2, c)
  {
    var r1, r2 := Root(s, run1, c), Root(s, run2, c);
    RootIsSmallest(s, run1, c);
    RootIsSmallest(s, run2, c);
    RootsAreLinks(s, run1, c, r1);
    RootsAreLinks(s, run2, c, r1);
    RootsAreLinks(s, run1, c, r2);
    RootsAreLinks(s, run2, c, r2);
    RootIsSmallest(s, run1, r2);
    RootIsSmallest(s, run2, r1);
  }

  /** Repeating a merge request changes nothing, not even the decision log. */
  lemma MergeTwice(s: Store, ids: set<Id>)
    requires WellFormed(s)
    ensures AfterMerge(AfterMerge(s, ids), ids) == AfterMerge(s, ids)
  {
    if JoinedBy(s, ids) != {} {
      JoinedFacts(s, ids);
      var t := AfterMerge(s, ids);
      assert ids * t.clusters.Keys == {Smallest(ids)};
    }
  }
}
