/** What the transactions on the cluster store do to each row, written in the columns of the rows. */
module RowEffects {
  import opened Basics
  import opened Schema
  import opened Ranking
  import opened Statements
  import opened ClusterSpec

  // ----- prune -----

  /** The items of `s` created at or after `cutoff`, unchanged except for references to old raw messages. */
  ghost predicate ItemsRetained(s: Store, rawCutoff: int, cutoff: int, t: Store) {
    && (forall i :: i in t.items <==> i in s.items && s.items[i].createdAt >= cutoff)
    && (forall i | i in t.items ::
          var raw := s.items[i].rawMessageId;
          t.items[i] == s.items[i].(rawMessageId :=
            if raw.Some? && raw.value in s.raws && s.raws[raw.value].createdAt < rawCutoff then None else raw))
  }

  /** The raw messages of `s` created at or after `cutoff`, unchanged. */
  ghost predicate RawsRetained(s: Store, cutoff: int, t: Store) {
    && (forall r :: r in t.raws <==> r in s.raws && s.raws[r].createdAt >= cutoff)
    && (forall r | r in t.raws :: t.raws[r] == s.raws[r])
  }

  /** Member and decision rows go with their item; other references to what is gone become NULL. */
  ghost predicate RowsFollowItems(s: Store, t: Store) {
    && (forall m :: m in t.members <==> m in s.members && m.item in t.items)
    && (forall d :: d in t.decisions <==> d in s.decisions && s.decisions[d].itemId in t.items)
    && (forall d | d in t.decisions ::
          var was := s.decisions[d];
          t.decisions[d] == was.(
            candidateId := if was.candidateId.Some? && was.candidateId.value in t.items then was.candidateId else None,
            clusterId := if was.clusterId.Some? && was.clusterId.value in t.clusters then was.clusterId else None))
    && (forall c :: c in t.deliveries <==> c in s.deliveries && c in t.clusters)
    && (forall c | c in t.deliveries :: t.deliveries[c] == s.deliveries[c])
  }

  /** A cluster stays exactly if one of its items does, with its representative if it lost none of them,
      and otherwise with the one that ranks before all others that stay. */
  ghost predicate ClustersFollowItems(s: Store, t: Store) {
    && (forall c :: c in t.clusters <==>
          c in s.clusters && exists m :: m in s.members && m.cluster == c && m.item in t.items)
    && (forall c | c in t.clusters && (forall m | m in s.members && m.cluster == c :: m.item in t.items) ::
          t.clusters[c] == s.clusters[c])
    && (forall c | c in t.clusters && (exists m :: m in s.members && m.cluster == c && m.item !in t.items) ::
          && t.clusters[c].Some? && t.clusters[c].value in t.items && Member(c, t.clusters[c].value) in s.members
          && forall m | m in s.members && m.cluster == c && m.item in t.items && m.item != t.clusters[c].value ::
               Before(t.items, t.clusters[c].value, m.item))
  }

  lemma RemovedRows(s: Store, dead: set<Id>)
    requires ClusterKeys(s) && DecisionKeys(s)
    ensures RowsFollowItems(s, Removed(s, dead))
  {
    var t := Removed(s, dead);
    forall d | d in t.decisions
      ensures var was := s.decisions[d];
              t.decisions[d] == was.(
                candidateId := if was.candidateId.Some? && was.candidateId.value in t.items then was.candidateId
                    else None,
                clusterId := if was.clusterId.Some? && was.clusterId.value in t.clusters then was.clusterId else None)
    {
      assert DecisionResolves(s, s.decisions[d]);
    }
  }

  lemma RemovedClusters(s: Store, dead: set<Id>)
    requires ClusterKeys(s) && Represented(s)
    ensures ClustersFollowItems(s, Removed(s, dead))
  {
    var t := Removed(s, dead);
    forall c
      ensures c in t.clusters <==>
              c in s.clusters && exists m :: m in s.members && m.cluster == c && m.item in t.items
    {
      if c in s.clusters {
        ClusterSurvives(s, dead, c);
      }
    }
    forall c | c in t.clusters
      ensures (forall m | m in s.members && m.cluster == c :: m.item in t.items) ==> t.clusters[c] == s.clusters[c]
      ensures (exists m :: m in s.members && m.cluster == c && m.item !in t.items) ==>
                && t.clusters[c].Some? && t.clusters[c].value in t.items && Member(c, t.clusters[c].value) in s.members
                && forall m | m in s.members && m.cluster == c && m.item in t.items && m.item != t.clusters[c].value ::
                     Before(t.items, t.clusters[c].value, m.item)
    {
      ClusterRepresented(s, dead, c);
    }
  }

  lemma ClusterSurvives(s: Store, dead: set<Id>, c: Id)
    requires ClusterKeys(s) && Represented(s) && c in s.clusters
    ensures c in Removed(s, dead).clusters <==>
            exists m :: m in s.members && m.cluster == c && m.item in Removed(s, dead).items
  {
    RemovedByCluster(s, dead, c);
    if c in Removed(s, dead).clusters {
      var i :| i in MembersOf(s, c) - dead;
      assert Member(c, i) in s.members;
    } else {
      forall m | m in s.members && m.cluster == c ensures m.item in dead {
        assert m.item in MembersOf(s, c);
        assert m.item !in MembersOf(s, c) - dead;
      }
    }
  }

  lemma ClusterRepresented(s: Store, dead: set<Id>, c: Id)
    requires ClusterKeys(s) && Represented(s) && c in Removed(s, dead).clusters
    ensures var t := Removed(s, dead);
            && ((forall m | m in s.members && m.cluster == c :: m.item in t.items) ==> t.clusters[c] == s.clusters[c])
            && ((exists m :: m in s.members && m.cluster == c && m.item !in t.items) ==>
                  && t.clusters[c].Some? && t.clusters[c].value in t.items
                  && Member(c, t.clusters[c].value) in s.members
                  && forall m | m in s.members && m.cluster == c && m.item in t.items &&
                      m.item != t.clusters[c].value ::
                       Before(t.items, t.clusters[c].value, m.item))
  {
    var t := Removed(s, dead);
    RemovedByCluster(s, dead, c);
    if c in ClustersHolding(s, dead) {
      forall m | m in s.members && m.cluster == c && m.item in t.items && m.item != t.clusters[c].value
        ensures Before(t.items, t.clusters[c].value, m.item)
      {
        assert m in t.members && m.item in MembersOf(t, c);
      }
      assert t.clusters[c].value in MembersOf(t, c);
    }
  }

  /** The references of a store without the raw messages `raws`. */
  lemma OtherRows(s: Store, s1: Store, t: Store)
    requires s1.members == s.members && s1.decisions == s.decisions
    requires s1.clusters == s.clusters && s1.deliveries == s.deliveries
    ensures RowsFollowItems(s1, t) ==> RowsFollowItems(s, t)
    ensures ClustersFollowItems(s1, t) ==> ClustersFollowItems(s, t)
  {
  }

  /** A prune, row by row: what is older than a cutoff goes, everything else stays as it was. */
  lemma PruneByRow(s: Store, rawCutoff: int, itemCutoff: int)
    requires Healthy(s)
    ensures var t := AfterPrune(s, rawCutoff, itemCutoff);
            && ItemsRetained(s, rawCutoff, itemCutoff, t) && RawsRetained(s, rawCutoff, t)
            && RowsFollowItems(s, t) && ClustersFollowItems(s, t) && t.channels == s.channels
  {
    var s1 := DeleteRaws(s, ExpiredRaws(s, rawCutoff));
    DeleteRawsKeeps(s, ExpiredRaws(s, rawCutoff));
    RemovedRows(s1, ExpiredItems(s, itemCutoff));
    RemovedClusters(s1, ExpiredItems(s, itemCutoff));
    OtherRows(s, s1, AfterPrune(s, rawCutoff, itemCutoff));
    PruneContent(s, rawCutoff, itemCutoff);
  }

  lemma PruneContent(s: Store, rawCutoff: int, itemCutoff: int)
    ensures ItemsRetained(s, rawCutoff, itemCutoff, AfterPrune(s, rawCutoff, itemCutoff))
    ensures RawsRetained(s, rawCutoff, AfterPrune(s, rawCutoff, itemCutoff))
  {
  }

  // ----- purge -----

  /** The items and raw messages of all other channels, unchanged except for references to purged rows. */
  ghost predicate OtherChannelsRetained(s: Store, channel: Id, t: Store) {
    && t.channels == s.channels - {channel}
    && (forall i :: i in t.items <==> i in s.items && s.items[i].channelId != channel)
    && (forall i | i in t.items ::
          var raw := s.items[i].rawMessageId;
          t.items[i] == s.items[i].(rawMessageId :=
            if raw.Some? && raw.value in s.raws && s.raws[raw.value].channelId == channel then None else raw))
    && (forall r :: r in t.raws <==> r in s.raws && s.raws[r].channelId != channel)
    && (forall r | r in t.raws :: t.raws[r] == s.raws[r])
  }

  lemma PurgeContent(s: Store, channel: Id)
    requires channel in s.channels
    ensures OtherChannelsRetained(s, channel, AfterPurge(s, channel))
  {
  }

  /** A purge, row by row: the rows of the channel go, those of every other channel stay as they were. */
  lemma PurgeByRow(s: Store, channel: Id)
    requires Healthy(s) && channel in s.channels
    ensures var t := AfterPurge(s, channel);
            OtherChannelsRetained(s, channel, t) && RowsFollowItems(s, t) && ClustersFollowItems(s, t)
  {
    var s1 := DeleteRaws(s, RawsOfChannel(s, channel));
    DeleteRawsKeeps(s, RawsOfChannel(s, channel));
    RemovedRows(s1, ItemsOfChannel(s, channel));
    RemovedClusters(s1, ItemsOfChannel(s, channel));
    var u := Removed(s1, ItemsOfChannel(s, channel));
    OtherRows(s, s1, u);
    PurgeContent(s, channel);
    assert AfterPurge(s, channel) == u.(channels := u.channels - {channel});
  }

  // ----- merge -----

  /** The request finds its smallest id, another live cluster, and a member row to move. */
  ghost predicate Mergeable(s: Store, ids: set<Id>, target: Id) {
    && target in ids && (forall k | k in ids :: target.n <= k.n) && target in s.clusters
    && (exists c :: c in ids && c != target && c in s.clusters)
    && (exists m :: m in s.members && m.cluster in ids)
  }

  /** The other ids are gone, every row of theirs has moved to the target, and all else is as it was. */
  ghost predicate MovedInto(s: Store, ids: set<Id>, target: Id, t: Store) {
    && t.items == s.items && t.raws == s.raws && t.channels == s.channels
    && (forall c :: c in t.clusters <==> c in s.clusters && (c in ids ==> c == target))
    && (forall c | c in t.clusters && c != target :: t.clusters[c] == s.clusters[c])
    && (forall m: Member | m.cluster == target ::
          m in t.members <==> exists c :: c in ids && Member(c, m.item) in s.members)
    && (forall m: Member | m.cluster != target :: m in t.members <==> m in s.members && m.cluster !in ids)
    && (forall c :: c in t.deliveries <==> c in s.deliveries && (c in ids ==> c == target))
    && (forall c | c in t.deliveries :: t.deliveries[c] == s.deliveries[c])
  }

  /** The target is represented by the item that ranks before all others of the united clusters. */
  ghost predicate BestOfUnion(s: Store, ids: set<Id>, target: Id, t: Store) {
    && target in t.clusters && t.clusters[target].Some? && t.clusters[target].value in s.items
    && (exists c :: c in ids && Member(c, t.clusters[target].value) in s.members)
    && (forall m | m in s.members && m.cluster in ids && m.item in s.items && m.item != t.clusters[target].value ::
          Before(s.items, t.clusters[target].value, m.item))
  }

  /** The decision row `event` records the merge; the others only lose references to clusters that are gone. */
  ghost predicate EventRecorded(s: Store, ids: set<Id>, target: Id, t: Store, event: Id) {
    && target in t.clusters && t.clusters[target].Some?
    && event !in s.decisions && t.decisions.Keys == s.decisions.Keys + {event}
    && t.decisions[event] == Decision(t.clusters[target].value, Some(target), None, ids - {target})
    && (forall d | d in s.decisions ::
          var cluster := s.decisions[d].clusterId;
          t.decisions[d] == s.decisions[d].(clusterId :=
            if cluster.Some? && cluster.value in ids && cluster.value != target then None else cluster))
  }

  lemma MergeableJoins(s: Store, ids: set<Id>, target: Id)
    requires WellFormed(s) && Mergeable(s, ids, target)
    ensures ids != {} && target == Smallest(ids) && ItemsIn(s, ids) != {} && AfterMerge(s, ids) == Merged(s, ids)
  {
    assert target == Smallest(ids);
    var c :| c in ids && c != target && c in s.clusters;
    assert {c, target} <= ids;
    TwoOfThem(ids, c, target);
    var m :| m in s.members && m.cluster in ids;
    assert m.item in ItemsIn(s, ids);
    assert c in ids * s.clusters.Keys;
  }

  lemma TwoOfThem(ids: set<Id>, a: Id, b: Id)
    requires a in ids && b in ids && a != b
    ensures |ids| >= 2
  {
    assert ids == (ids - {a, b}) + {a, b};
  }

  lemma MergeMoves(s: Store, ids: set<Id>, target: Id)
    requires WellFormed(s) && Mergeable(s, ids, target)
    ensures MovedInto(s, ids, target, AfterMerge(s, ids))
  {
    MergeableJoins(s, ids, target);
    var t := AfterMerge(s, ids);
    forall m: Member | m.cluster == target
      ensures m in t.members <==> exists c :: c in ids && Member(c, m.item) in s.members
    {
      MovedRow(s, ids, target, m.item);
    }
    forall m: Member | m.cluster != target ensures m in t.members <==> m in s.members && m.cluster !in ids {
      assert m == Member(m.cluster, m.item);
    }
  }

  lemma MovedRow(s: Store, ids: set<Id>, target: Id, item: Id)
    requires ids != {} && target == Smallest(ids) && ItemsIn(s, ids) != {}
    ensures Member(target, item) in Merged(s, ids).members <==> exists c :: c in ids && Member(c, item) in s.members
  {
    if Member(target, item) in Merged(s, ids).members {
      var m :| m in s.members && Member(if m.cluster in ids then target else m.cluster, m.item) == Member(target, item);
      assert m == Member(m.cluster, item) && m.cluster in ids;
    }
    forall c | c in ids && Member(c, item) in s.members ensures Member(target, item) in Merged(s, ids).members {
      var m := Member(c, item);
      assert Member(if m.cluster in ids then target else m.cluster, m.item) == Member(target, item);
    }
  }

  lemma MergePicksBest(s: Store, ids: set<Id>, target: Id)
    requires WellFormed(s) && Mergeable(s, ids, target)
    ensures BestOfUnion(s, ids, target, AfterMerge(s, ids))
  {
    MergeableJoins(s, ids, target);
    var rep := Merged(s, ids).clusters[target].value;
    assert rep in ItemsIn(s, ids);
    var m :| m in s.members && m.cluster in ids && m.item == rep;
    assert m == Member(m.cluster, rep);
    forall m | m in s.members && m.cluster in ids && m.item in s.items && m.item != rep
      ensures Before(s.items, rep, m.item)
    {
      assert m.item in ItemsIn(s, ids);
    }
  }

  lemma MergeRecords(s: Store, ids: set<Id>, target: Id)
    requires WellFormed(s) && Mergeable(s, ids, target)
    ensures EventRecorded(s, ids, target, AfterMerge(s, ids), NextId(s.decisions.Keys))
  {
    MergeableJoins(s, ids, target);
    MergedDecisions(s, ids, target);
  }

  lemma MergedDecisions(s: Store, ids: set<Id>, target: Id)
    requires ids != {} && target == Smallest(ids) && ItemsIn(s, ids) != {} && target in s.clusters
    ensures EventRecorded(s, ids, target, Merged(s, ids), NextId(s.decisions.Keys))
  {
    var t, event := Merged(s, ids), NextId(s.decisions.Keys);
    assert t.decisions.Keys == s.decisions.Keys + {event};
    forall d | d in s.decisions
      ensures var cluster := s.decisions[d].clusterId;
              t.decisions[d] == s.decisions[d].(clusterId :=
                if cluster.Some? && cluster.value in ids && cluster.value != target then None else cluster)
    {
      assert d != event;
    }
  }

  /** A merge, row by row, when it finds something to merge; otherwise nothing changes. */
  lemma MergeByRow(s: Store, ids: set<Id>, target: Id)
    requires WellFormed(s) && target in ids && forall k | k in ids :: target.n <= k.n
    ensures var t := AfterMerge(s, ids);
            if Mergeable(s, ids, target) then
              MovedInto(s, ids, target, t) && BestOfUnion(s, ids, target, t) &&
                  (exists event :: EventRecorded(s, ids, target, t, event))
            else t == s
  {
    if Mergeable(s, ids, target) {
      MergeMoves(s, ids, target);
      MergePicksBest(s, ids, target);
      MergeRecords(s, ids, target);
    } else if JoinedBy(s, ids) != {} {
      JoinedIsMergeable(s, ids, target);
    }
  }

  lemma JoinedIsMergeable(s: Store, ids: set<Id>, target: Id)
    requires WellFormed(s) && target in ids && (forall k | k in ids :: target.n <= k.n) && JoinedBy(s, ids) != {}
    ensures Mergeable(s, ids, target)
  {
    assert target == Smallest(ids);
    OtherElement(ids * s.clusters.Keys, target);
    var i :| i in ItemsIn(s, ids);
  }

  lemma OtherElement(ids: set<Id>, a: Id)
    requires a in ids && ids != {a}
    ensures exists c :: c in ids && c != a
  {
  }

  /** The representative a merge leaves, in columns: no item of the union has a canonical URL unless it
      has one, and among items alike in that no text is longer than its own. */
  lemma MergeKeepsLongestText(s: Store, ids: set<Id>, target: Id, m: Member)
    requires WellFormed(s) && Mergeable(s, ids, target) && m in s.members && m.cluster in ids
    ensures var t := AfterMerge(s, ids);
            && target in t.clusters && t.clusters[target].Some? && t.clusters[target].value in s.items &&
                m.item in s.items
            && var x, y := s.items[t.clusters[target].value], s.items[m.item];
               var xUrl := x.canonicalUrl.Some? && x.canonicalUrl.value != "";
               var yUrl := y.canonicalUrl.Some? && y.canonicalUrl.value != "";
               var xText := (if x.title.Some? then |x.title.value| else 0) + (if x.body.Some? then |x.body.value|
                                                                              else 0);
               var yText := (if y.title.Some? then |y.title.value| else 0) + (if y.body.Some? then |y.body.value|
                                                                              else 0);
               (yUrl ==> xUrl) && (xUrl == yUrl ==> xText >= yText)
  {
    MergePicksBest(s, ids, target);
    var rep := AfterMerge(s, ids).clusters[target].value;
    if m.item != rep {
      RankedByColumns(s.items, rep, m.item);
      RankedByColumns(s.items, m.item, rep);
    }
  }
}
