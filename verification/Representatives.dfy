/** Which clusters are represented by their best-ranked item. Merge, prune and purge recompute the
    representative; assignment and item upsert do not, and this says exactly when that matters. */
module Representatives {
  import opened Basics
  import opened Schema
  import opened Ranking
  import opened Statements
  import opened ClusterSpec

  /** The representative of `c` is ranked before every other member. */
  ghost predicate BestRepresented(s: Store, c: Id) {
    && c in s.clusters && s.clusters[c].Some? && MembersOf(s, c) <= s.items.Keys
    && IsBest(s.items, MembersOf(s, c), s.clusters[c].value)
  }

  ghost predicate AllBest(s: Store) {
    forall c | c in s.clusters :: BestRepresented(s, c)
  }

  /** The columns the ranking reads. */
  predicate SameRank(a: Item, b: Item) {
    a.canonicalUrl == b.canonicalUrl && a.title == b.title && a.body == b.body && a.publishedAt == b.publishedAt
  }

  /** A cluster whose members, representative and ranking columns stay as they are stays best represented. */
  lemma BestTransfers(s: Store, t: Store, c: Id)
    requires BestRepresented(s, c) && c in t.clusters && t.clusters[c] == s.clusters[c] &&
             MembersOf(t, c) == MembersOf(s, c)
    requires forall i | i in MembersOf(s, c) :: i in t.items && SameRank(t.items[i], s.items[i])
    ensures BestRepresented(t, c)
  {
    var rep := s.clusters[c].value;
    forall o | o in MembersOf(t, c) && o != rep ensures Before(t.items, rep, o) {
      assert Before(s.items, rep, o);
    }
  }

  // ----- assignment -----

  lemma AssignedMembers(s: Store, item: Id, c: Id, other: Id)
    requires item in s.items && c in s.clusters
    ensures MembersOf(AfterAssign(s, item, Some(c)), other) ==
            if other == c then MembersOf(s, c) + {item} else MembersOf(s, other)
  {
    var t := AfterAssign(s, item, Some(c));
    assert t.members == s.members + {Member(c, item)};
    assert Member(c, item) in t.members;
    forall i | i in MembersOf(s, other) ensures i in MembersOf(t, other) {
      assert Member(other, i) in t.members;
    }
  }

  /** An assignment keeps a best representative exactly when the item is that representative or is
      ranked after it. */
  lemma AssignKeepsBestExactly(s: Store, item: Id, c: Id)
    requires ClusterKeys(s) && item in s.items && BestRepresented(s, c)
    ensures BestRepresented(AfterAssign(s, item, Some(c)), c) <==>
            item == s.clusters[c].value || Before(s.items, s.clusters[c].value, item)
  {
    AssignedMembers(s, item, c, c);
    var rep := s.clusters[c].value;
    var t := AfterAssign(s, item, Some(c));
    if item == rep || Before(s.items, rep, item) {
      assert IsBest(t.items, MembersOf(t, c), rep);
    } else {
      assert item in MembersOf(t, c);
    }
  }

  /** A new cluster is represented by its only item. */
  lemma NewClusterIsBest(s: Store, item: Id)
    requires ClusterKeys(s) && item in s.items
    ensures BestRepresented(AfterAssign(s, item, None), NextId(s.clusters.Keys))
  {
    var c := NextId(s.clusters.Keys);
    var t := AfterAssign(s, item, None);
    assert Member(c, item) in t.members;
    assert MembersOf(t, c) == {item};
  }

  // ----- upsert -----

  /** The representative of `c` still ranks first once row `row` has become `item`. */
  predicate StaysBest(s: Store, c: Id, row: Id, item: Item)
    requires c in s.clusters && s.clusters[c].Some? && s.clusters[c].value in s.items
    requires MembersOf(s, c) <= s.items.Keys
  {
    var items, rep := s.items[row := item], s.clusters[c].value;
    if row !in MembersOf(s, c) then true
    else if rep != row then Before(items, rep, row)
    else forall o | o in MembersOf(s, c) && o != row :: Before(items, row, o)
  }

  /** Rewriting one item row keeps a best representative exactly when the changed row, if it is a
      member, ranks after the representative, or is it and still ranks before the others. */
  lemma RewriteKeepsBestExactly(s: Store, row: Id, item: Item, c: Id)
    requires BestRepresented(s, c)
    ensures BestRepresented(s.(items := s.items[row := item]), c) <==> StaysBest(s, c, row, item)
  {
    var t := s.(items := s.items[row := item]);
    var rep := s.clusters[c].value;
    assert MembersOf(t, c) == MembersOf(s, c);
    if StaysBest(s, c, row, item) {
      forall o | o in MembersOf(s, c) && o != rep ensures Before(t.items, rep, o) {
        assert Before(s.items, rep, o);
      }
    }
  }

  // ----- removal and merge -----

  lemma RemovalKeepsBest(s: Store, dead: set<Id>, c: Id)
    requires ClusterKeys(s) && Represented(s) && BestRepresented(s, c) && c in Removed(s, dead).clusters
    ensures BestRepresented(Removed(s, dead), c)
  {
    RemovedByCluster(s, dead, c);
    if c !in ClustersHolding(s, dead) {
      forall i | i in MembersOf(s, c) ensures i in Removed(s, dead).items {
        assert Member(c, i) in s.members;
      }
      BestTransfers(s, Removed(s, dead), c);
    }
  }

  lemma RawsKeepBest(s: Store, dead: set<Id>, c: Id)
    requires BestRepresented(s, c)
    ensures BestRepresented(DeleteRaws(s, dead), c)
  {
    BestTransfers(s, DeleteRaws(s, dead), c);
  }

  lemma MergedMembers(s: Store, ids: set<Id>, c: Id)
    requires ClusterKeys(s) && ids != {} && ItemsIn(s, ids) != {} && (c in ids ==> c == Smallest(ids))
    ensures MembersOf(Merged(s, ids), c) == if c in ids then ItemsIn(s, ids) else MembersOf(s, c)
  {
    var t := Merged(s, ids);
    var target := Smallest(ids);
    if c in ids {
      forall i | i in ItemsIn(s, ids) ensures i in MembersOf(t, c) {
        var m :| m in s.members && m.cluster in ids && m.item == i;
        assert Member(target, m.item) in t.members;
      }
    } else {
      forall i | i in MembersOf(s, c) ensures i in MembersOf(t, c) {
        assert Member(c, i) in s.members;
        assert Member(c, i) in t.members;
      }
    }
  }

  lemma MergeKeepsBest(s: Store, ids: set<Id>, c: Id)
    requires ClusterKeys(s) && JoinedBy(s, ids) != {} && c in Merged(s, ids).clusters && BestRepresented(s, c)
    ensures BestRepresented(Merged(s, ids), c)
  {
    MergedMembers(s, ids, c);
    if c !in ids {
      BestTransfers(s, Merged(s, ids), c);
    }
  }

  // ----- every transaction -----

  /** What a caller can check before a transaction: an assigned item must not outrank the
      representative, and a rewritten row must leave the order of its clusters' representatives alone. */
  ghost predicate KeepsRanking(s: Store, op: Op)
    requires Healthy(s)
  {
    match op
    case Assign(item, matched) =>
      item in s.items && matched.Some? && matched.value in s.clusters ==>
        var rep := s.clusters[matched.value].value;
        item == rep || Before(s.items, rep, item)
    case Upsert(channel, message, f, now) =>
      UpsertAllowed(s, channel, message, f) && ItemAt(s, channel, message).Some? ==>
        forall c | c in s.clusters ::
          StaysBest(s, c, ItemAt(s, channel, message).value, UpsertedItem(s, channel, message, f, now))
    case _ => true
  }

  lemma AssignMatchedRanks(s: Store, item: Id, c: Id)
    requires Healthy(s) && AllBest(s) && item in s.items && c in s.clusters
    ensures AllBest(AfterAssign(s, item, Some(c))) <==> BestRepresented(AfterAssign(s, item, Some(c)), c)
  {
    var t := AfterAssign(s, item, Some(c));
    forall other | other in s.clusters && other != c ensures BestRepresented(t, other) {
      AssignedMembers(s, item, c, other);
      BestTransfers(s, t, other);
    }
  }

  lemma AssignNewRanks(s: Store, item: Id)
    requires Healthy(s) && AllBest(s) && item in s.items
    ensures AllBest(AfterAssign(s, item, None))
  {
    var t := AfterAssign(s, item, None);
    NewClusterIsBest(s, item);
    forall c | c in s.clusters ensures BestRepresented(t, c) {
      NewClusterLeaves(s, item, c);
      BestTransfers(s, t, c);
    }
  }

  lemma AssignRanks(s: Store, item: Id, matched: Option<Id>)
    requires Healthy(s) && AllBest(s)
    ensures AllBest(AfterAssign(s, item, matched)) <==> KeepsRanking(s, Assign(item, matched))
  {
    if item in s.items && matched.Some? && matched.value in s.clusters {
      AssignMatchedRanks(s, item, matched.value);
      AssignKeepsBestExactly(s, item, matched.value);
    } else if item in s.items && matched.None? {
      AssignNewRanks(s, item);
    }
  }

  lemma NewClusterLeaves(s: Store, item: Id, c: Id)
    requires item in s.items && c in s.clusters
    ensures MembersOf(AfterAssign(s, item, None), c) == MembersOf(s, c)
    ensures AfterAssign(s, item, None).clusters[c] == s.clusters[c]
  {
    var t := AfterAssign(s, item, None);
    assert NextId(s.clusters.Keys) != c;
    forall i | i in MembersOf(s, c) ensures i in MembersOf(t, c) {
      assert Member(c, i) in t.members;
    }
  }

  lemma UpsertRanks(s: Store, channel: Id, message: int, f: ItemFields, now: int)
    requires Healthy(s) && AllBest(s)
    ensures AllBest(AfterUpsert(s, channel, message, f, now)) <==> KeepsRanking(s, Upsert(channel, message, f, now))
  {
    if UpsertAllowed(s, channel, message, f) {
      var at := ItemAt(s, channel, message);
      var row := if at.Some? then at.value else NextId(s.items.Keys);
      var item := UpsertedItem(s, channel, message, f, now);
      forall c | c in s.clusters
        ensures BestRepresented(s.(items := s.items[row := item]), c) <==> StaysBest(s, c, row, item)
        ensures row !in s.items ==> StaysBest(s, c, row, item)
      {
        RewriteKeepsBestExactly(s, row, item, c);
      }
    }
  }

  lemma PruneRanks(s: Store, rawCutoff: int, itemCutoff: int)
    requires Healthy(s) && AllBest(s)
    ensures AllBest(AfterPrune(s, rawCutoff, itemCutoff))
  {
    var s1 := DeleteRaws(s, ExpiredRaws(s, rawCutoff));
    DeleteRawsKeeps(s, ExpiredRaws(s, rawCutoff));
    RemovalRanks(s, s1, ExpiredRaws(s, rawCutoff), ExpiredItems(s, itemCutoff));
  }

  lemma RemovalRanks(s: Store, s1: Store, raws: set<Id>, dead: set<Id>)
    requires Healthy(s) && AllBest(s) && s1 == DeleteRaws(s, raws) && Healthy(s1)
    ensures AllBest(Removed(s1, dead))
  {
    forall c | c in Removed(s1, dead).clusters ensures BestRepresented(Removed(s1, dead), c) {
      RawsKeepBest(s, raws, c);
      RemovalKeepsBest(s1, dead, c);
    }
  }

  lemma PurgeRanks(s: Store, channel: Id)
    requires Healthy(s) && AllBest(s) && channel in s.channels
    ensures AllBest(AfterPurge(s, channel))
  {
    var raws, dead := RawsOfChannel(s, channel), ItemsOfChannel(s, channel);
    var s1 := DeleteRaws(s, raws);
    DeleteRawsKeeps(s, raws);
    RemovalRanks(s, s1, raws, dead);
    OtherTablesDoNotMatter(Removed(s1, dead), AfterPurge(s, channel));
  }

  /** Only items, clusters and members matter. */
  lemma OtherTablesDoNotMatter(s: Store, t: Store)
    requires AllBest(s) && t.items == s.items && t.clusters == s.clusters && t.members == s.members
    ensures AllBest(t)
  {
    forall c | c in t.clusters ensures BestRepresented(t, c) {
      assert BestRepresented(s, c) && MembersOf(t, c) == MembersOf(s, c);
    }
  }

  lemma MergeRanks(s: Store, ids: set<Id>)
    requires Healthy(s) && AllBest(s)
    ensures AllBest(AfterMerge(s, ids))
  {
    if JoinedBy(s, ids) != {} {
      forall c | c in Merged(s, ids).clusters ensures BestRepresented(Merged(s, ids), c) {
        MergeKeepsBest(s, ids, c);
      }
    }
  }

  lemma InsertRanks(s: Store, op: Op)
    requires Healthy(s) && AllBest(s) && (op.AddChannel? || op.AddRaw? || op.Decide? || op.Deliver?)
    ensures AllBest(Apply(s, op))
  {
    InsertLeaves(s, op);
    OtherTablesDoNotMatter(s, Apply(s, op));
  }

  lemma InsertLeaves(s: Store, op: Op)
    requires WellFormed(s) && (op.AddChannel? || op.AddRaw? || op.Decide? || op.Deliver?)
    ensures var t := Apply(s, op); t.items == s.items && t.clusters == s.clusters && t.members == s.members
  {
  }

  /** A transaction on a store whose clusters are all represented by their best item leaves it so
      exactly when `KeepsRanking` holds: merge, prune, purge and the inserts always do. */
  lemma RankingKeptExactly(s: Store, op: Op)
    requires Healthy(s) && AllBest(s)
    ensures AllBest(Apply(s, op)) <==> KeepsRanking(s, op)
  {
    match op
    case Assign(item, matched) => AssignRanks(s, item, matched);
    case Upsert(channel, message, f, now) => UpsertRanks(s, channel, message, f, now);
    case Merge(ids) => MergeRanks(s, ids);
    case Prune(r, i) => PruneRanks(s, r, i);
    case Purge(c) =>
      if c in s.channels {
        PurgeRanks(s, c);
      }
    case _ => InsertRanks(s, op);
  }

  /** The cluster a merge ends in is represented by the best item of the union, whatever it was before. */
  lemma MergeRestoresBest(s: Store, ids: set<Id>)
    requires ClusterKeys(s) && JoinedBy(s, ids) != {}
    ensures BestRepresented(Merged(s, ids), Smallest(ids))
  {
    MergedMembers(s, ids, Smallest(ids));
  }

  /** Runs all of whose transactions keep the ranking keep every cluster best represented. */
  lemma {:induction false} RankingRuns(ops: seq<Op>)
    requires forall k | 0 <= k < |ops| :: KeepsRankingAt(ops, k)
    ensures AllBest(Run(EMPTY_STORE, ops))
  {
    if ops != [] {
      var before, last := ops[..|ops| - 1], ops[|ops| - 1];
      forall k | 0 <= k < |before| ensures KeepsRankingAt(before, k) {
        assert before[..k] == ops[..k] && KeepsRankingAt(ops, k);
      }
      RankingRuns(before);
      EveryReachableStoreIsHealthy(before);
      assert KeepsRankingAt(ops, |ops| - 1);
      RankingKeptExactly(Run(EMPTY_STORE, before), last);
    }
  }

  ghost predicate KeepsRankingAt(ops: seq<Op>, k: int)
    requires 0 <= k < |ops|
  {
    var s := Run(EMPTY_STORE, ops[..k]);
    Healthy(s) && KeepsRanking(s, ops[k])
  }

  // ----- a run that ends with a representative that is not the best -----

  const PLAIN := ItemFields(None, None, None, None, None)
  const LINKED := ItemFields(None, None, None, None, Some("u"))

  function Row(message: int, f: ItemFields): Item {
    Item(Id(1), message, None, None, None, None, f.canonicalUrl, 0)
  }

  lemma FirstIds()
    ensures NextId({}) == Id(1) && NextId({Id(1)}) == Id(2)
  {
  }

  lemma RunExtends(ops: seq<Op>, op: Op)
    ensures Run(EMPTY_STORE, ops + [op]) == Apply(Run(EMPTY_STORE, ops), op)
  {
    assert (ops + [op])[..|ops|] == ops;
  }

  const ROW_ONE := map[Id(1) := Row(1, PLAIN)]
  const ROWS_TWO := map[Id(1) := Row(1, PLAIN), Id(2) := Row(2, LINKED)]

  lemma InsertNew(s: Store, message: int, f: ItemFields)
    requires WellFormed(s) && Id(1) in s.channels && ItemAt(s, Id(1), message).None?
    requires f == PLAIN || f == LINKED
    ensures Apply(s, Upsert(Id(1), message, f, 0)) == s.(items := s.items[NextId(s.items.Keys) := Row(message, f)])
  {
  }

  lemma InsertFirst(s: Store)
    requires WellFormed(s) && Id(1) in s.channels && s.items == map[]
    ensures Apply(s, Upsert(Id(1), 1, PLAIN, 0)) == s.(items := ROW_ONE)
  {
    FirstIds();
    assert s.items.Keys == {};
    InsertNew(s, 1, PLAIN);
  }

  lemma InsertSecond(s: Store)
    requires WellFormed(s) && Id(1) in s.channels && s.items == ROW_ONE
    ensures Apply(s, Upsert(Id(1), 2, LINKED, 0)) == s.(items := ROWS_TWO)
  {
    FirstIds();
    assert s.items.Keys == {Id(1)};
    InsertNew(s, 2, LINKED);
    TwoEntries(Row(1, PLAIN), Row(2, LINKED));
  }

  lemma TwoEntries(a: Item, b: Item)
    ensures map[Id(1) := a][Id(2) := b] == map[Id(1) := a, Id(2) := b]
  {
  }

  /** One channel with an item that has no link, and one that has. */
  lemma TwoItems() returns (ops: seq<Op>)
    ensures Run(EMPTY_STORE, ops) == EMPTY_STORE.(channels := {Id(1)}, items := ROWS_TWO)
  {
    ops := [];
    RunExtends(ops, AddChannel(Id(1)));
    ops := ops + [AddChannel(Id(1))];
    InsertFirst(Run(EMPTY_STORE, ops));
    RunExtends(ops, Upsert(Id(1), 1, PLAIN, 0));
    ops := ops + [Upsert(Id(1), 1, PLAIN, 0)];
    InsertSecond(Run(EMPTY_STORE, ops));
    RunExtends(ops, Upsert(Id(1), 2, LINKED, 0));
    ops := ops + [Upsert(Id(1), 2, LINKED, 0)];
  }

  /** With one cluster of the plain item, the linked one outranks its representative. */
  lemma LinkedOutranks(s: Store, t: Store)
    requires s.items == ROWS_TWO && s.clusters == map[] && WellFormed(s) && t == AfterAssign(s, Id(1), None) &&
             WellFormed(t)
    ensures !AllBest(AfterAssign(t, Id(2), Some(Id(1))))
  {
    FirstIds();
    assert s.clusters.Keys == {};
    NewClusterIsBest(s, Id(1));
    AssignKeepsBestExactly(t, Id(2), Id(1));
    assert t.clusters[Id(1)] == Some(Id(1)) && !Before(t.items, Id(1), Id(2));
  }

  /** Assigning the linked item to the cluster of the plain one leaves the plain one its representative
      although the linked one ranks before it. */
  lemma RepresentativeCanBeOutranked() returns (ops: seq<Op>)
    ensures !AllBest(Run(EMPTY_STORE, ops))
  {
    ops := TwoItems();
    var s := Run(EMPTY_STORE, ops);
    RunExtends(ops, Assign(Id(1), None));
    ops := ops + [Assign(Id(1), None)];
    LinkedOutranks(s, Run(EMPTY_STORE, ops));
    RunExtends(ops, Assign(Id(2), Some(Id(1))));
    ops := ops + [Assign(Id(2), Some(Id(1)))];
  }
}
