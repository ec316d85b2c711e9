/** What each transaction does to the store, stated in one step and independently of the
    order in which its statements run; and what every run of transactions keeps. */
module ClusterSpec {
  import opened Basics
  import opened Schema
  import opened Ranking
  import opened Statements

  /** The clusters all of whose members are among `dead`. */
  function Gone(s: Store, dead: set<Id>): set<Id> {
    set c | c in s.clusters && c in ClustersHolding(s, dead) &&
            forall m | m in s.members && m.cluster == c :: m.item in dead
  }

  /** Removing the items `dead` in one shot: a cluster that lost a member keeps the best of what
      is left, or goes when nothing is left; every other cluster keeps its members. */
  function Removed(s: Store, dead: set<Id>): Store {
    var touched, gone := ClustersHolding(s, dead), Gone(s, dead);
    s.(items := s.items - dead,
       members := (set m | m in s.members && m.item !in dead),
       clusters := map c | c in s.clusters && c !in gone ::
         if c in touched then Best(s.items - dead, ItemsIn(s, {c}) - dead) else NullIf(s.clusters[c], dead),
       decisions := map d | d in s.decisions && s.decisions[d].itemId !in dead ::
         s.decisions[d].(candidateId := NullIf(s.decisions[d].candidateId, dead),
                         clusterId := NullIf(s.decisions[d].clusterId, gone)),
       deliveries := s.deliveries - gone)
  }

  lemma ItemsLeftIn(s: Store, dead: set<Id>, c: Id)
    ensures ItemsIn(DeleteItems(s, dead), {c}) == ItemsIn(s, {c}) - dead
  {
    var left, expected := ItemsIn(DeleteItems(s, dead), {c}), ItemsIn(s, {c}) - dead;
    forall i | i in expected ensures i in left {
      assert Member(c, i) in DeleteItems(s, dead).members;
    }
  }

  lemma EmptiedAreGone(s: Store, dead: set<Id>)
    ensures var touched := ClustersHolding(s, dead);
            EmptyAmong(Recompute(DeleteItems(s, dead), touched), touched) == Gone(s, dead)
  {
    var touched := ClustersHolding(s, dead);
    var s2 := Recompute(DeleteItems(s, dead), touched);
    forall c | c in EmptyAmong(s2, touched), m | m in s.members && m.cluster == c
      ensures m.item in dead
    {
      assert m.item !in dead ==> m in s2.members;
    }
  }

  lemma RecomputedClusters(s: Store, dead: set<Id>)
    ensures var touched := ClustersHolding(s, dead);
            Recompute(DeleteItems(s, dead), touched).clusters - Gone(s, dead) == Removed(s, dead).clusters
  {
    forall c ensures ItemsIn(DeleteItems(s, dead), {c}) == ItemsIn(s, {c}) - dead {
      ItemsLeftIn(s, dead, c);
    }
  }

  /** Delete, recompute, delete empties: together they are `Removed`. */
  lemma RemovalStatements(s: Store, dead: set<Id>)
    ensures var touched := ClustersHolding(s, dead);
            var s2 := Recompute(DeleteItems(s, dead), touched);
            DeleteClusters(s2, EmptyAmong(s2, touched)) == Removed(s, dead)
  {
    var touched := ClustersHolding(s, dead);
    var s2 := Recompute(DeleteItems(s, dead), touched);
    EmptiedAreGone(s, dead);
    RecomputedClusters(s, dead);
    var s3, r := DeleteClusters(s2, Gone(s, dead)), Removed(s, dead);
    assert s3.members == r.members;
    assert s3.decisions == r.decisions;
  }

  // ----- the other transactions -----

  /** A merge of the clusters `ids` that finds its target and something to move: the smallest id
      takes every member, the other ids disappear, and one decision row records the event. */
  function Merged(s: Store, ids: set<Id>): Store
    requires ids != {} && ItemsIn(s, ids) != {}
  {
    var target := Smallest(ids);
    var sources := ids - {target};
    var best := Best(s.items, ItemsIn(s, ids));
    var kept := map d | d in s.decisions :: s.decisions[d].(clusterId := NullIf(s.decisions[d].clusterId, sources));
    s.(members := (set m | m in s.members :: Member(if m.cluster in ids then target else m.cluster, m.item)),
       clusters := map c | c in s.clusters && c !in sources :: if c == target then best else s.clusters[c],
       decisions := kept[NextId(s.decisions.Keys) := Decision(best.value, Some(target), None, sources)],
       deliveries := s.deliveries - sources)
  }

  /** The clusters a merge request really joins: none when it fails or finds nothing to move. */
  function JoinedBy(s: Store, ids: set<Id>): set<Id> {
    if |ids| < 2 || Smallest(ids) !in s.clusters || ItemsIn(s, ids) == {} || ids * s.clusters.Keys == {Smallest(ids)}
        then {}
    else ids * s.clusters.Keys
  }

  function AfterMerge(s: Store, ids: set<Id>): Store {
    if JoinedBy(s, ids) == {} then s else Merged(s, ids)
  }

  /** Assignment: without a match a new cluster represented by the item, with a match one more
      member row. A missing row makes the transaction fail and changes nothing. */
  function AfterAssign(s: Store, item: Id, matched: Option<Id>): Store {
    if item !in s.items || !References(matched, s.clusters.Keys) then s
    else
      var c := if matched.Some? then matched.value else NextId(s.clusters.Keys);
      s.(clusters := if matched.Some? then s.clusters else s.clusters[c := Some(item)],
         members := s.members + {Member(c, item)})
  }

  /** The columns an item upsert supplies. */
  datatype ItemFields = ItemFields(
    rawMessageId: Option<Id>, publishedAt: Option<int>,
    title: Option<string>, body: Option<string>, canonicalUrl: Option<string>)

  /** The row the unique key (channel, message) selects. */
  function ItemAt(s: Store, channel: Id, message: int): (r: Option<Id>)
    requires WellFormed(s)
    ensures r.Some? ==>
              r.value in s.items && s.items[r.value].channelId == channel && s.items[r.value].messageId == message
    ensures r.None? ==> forall i | i in s.items :: s.items[i].channelId != channel || s.items[i].messageId != message
  {
    if exists i | i in s.items :: s.items[i].channelId == channel && s.items[i].messageId == message then
      var i :| i in s.items && s.items[i].channelId == channel && s.items[i].messageId == message;
      Some(i)
    else None
  }

  /** The raw reference an upsert leaves in the row: a stored one wins over the new one. */
  function RawAfterUpsert(s: Store, channel: Id, message: int, f: ItemFields): Option<Id>
    requires WellFormed(s)
  {
    var at := ItemAt(s, channel, message);
    if at.Some? && s.items[at.value].rawMessageId.Some? then s.items[at.value].rawMessageId else f.rawMessageId
  }

  /** The foreign keys of the row an upsert writes; a reference that is not written is not checked. */
  predicate UpsertAllowed(s: Store, channel: Id, message: int, f: ItemFields)
    requires WellFormed(s)
  {
    channel in s.channels && References(RawAfterUpsert(s, channel, message, f), s.raws.Keys)
  }

  /** The row an upsert writes. */
  function UpsertedItem(s: Store, channel: Id, message: int, f: ItemFields, now: int): Item
    requires WellFormed(s)
  {
    var at := ItemAt(s, channel, message);
    Item(channel, message, RawAfterUpsert(s, channel, message, f), f.publishedAt, f.title, f.body, f.canonicalUrl,
         if at.Some? then s.items[at.value].createdAt else now)
  }

  /** Upsert: a stored raw reference and the creation time stay, every other column is overwritten. */
  function AfterUpsert(s: Store, channel: Id, message: int, f: ItemFields, now: int): Store
    requires WellFormed(s)
  {
    if !UpsertAllowed(s, channel, message, f) then s
    else
      var at := ItemAt(s, channel, message);
      var id := if at.Some? then at.value else NextId(s.items.Keys);
      s.(items := s.items[id := UpsertedItem(s, channel, message, f, now)])
  }

  function ExpiredRaws(s: Store, cutoff: int): set<Id> {
    set r | r in s.raws && s.raws[r].createdAt < cutoff
  }

  function ExpiredItems(s: Store, cutoff: int): set<Id> {
    set i | i in s.items && s.items[i].createdAt < cutoff
  }

  /** The prune job, in one shot. */
  function AfterPrune(s: Store, rawCutoff: int, itemCutoff: int): Store {
    Removed(DeleteRaws(s, ExpiredRaws(s, rawCutoff)), ExpiredItems(s, itemCutoff))
  }

  /** The purge of a channel, in one shot. */
  function AfterPurge(s: Store, channel: Id): Store {
    if channel !in s.channels then s
    else
      var t := Removed(DeleteRaws(s, RawsOfChannel(s, channel)), ItemsOfChannel(s, channel));
      t.(channels := t.channels - {channel})
  }

  // ----- every run of transactions -----

  /** One committed transaction on the content tables. */
  datatype Op =
    | AddChannel(channel: Id)
    | AddRaw(raw: RawMessage)
    | Upsert(channel: Id, message: int, fields: ItemFields, now: int)
    | Assign(item: Id, matched: Option<Id>)
    | Merge(ids: set<Id>)
    | Decide(decision: Decision)
    | Deliver(cluster: Id, telegramId: string)
    | Prune(rawCutoff: int, itemCutoff: int)
    | Purge(channel: Id)

  function Apply(s: Store, op: Op): Store
    requires WellFormed(s)
  {
    match op
    case AddChannel(c) => s.(channels := s.channels + {c})
    case AddRaw(r) => if r.channelId in s.channels then s.(raws := s.raws[NextId(s.raws.Keys) := r]) else s
    case Upsert(c, m, f, now) => AfterUpsert(s, c, m, f, now)
    case Assign(i, matched) => AfterAssign(s, i, matched)
    case Merge(ids) => AfterMerge(s, ids)
    case Decide(d) => if DecisionResolves(s, d) then s.(decisions := s.decisions[NextId(s.decisions.Keys) := d]) else s
    case Deliver(c, t) => if c in s.clusters && c !in s.deliveries then s.(deliveries := s.deliveries[c := t]) else s
    case Prune(r, i) => AfterPrune(s, r, i)
    case Purge(c) => AfterPurge(s, c)
  }

  lemma DeleteRawsKeeps(s: Store, dead: set<Id>)
    requires WellFormed(s)
    ensures WellFormed(DeleteRaws(s, dead))
    ensures Represented(s) ==> Represented(DeleteRaws(s, dead))
  {
  }

  lemma RemovedRepresentative(s: Store, dead: set<Id>, c: Id)
    requires ClusterKeys(s)
    requires c in Removed(s, dead).clusters
    ensures var r := Removed(s, dead);
            && References(r.clusters[c], r.items.Keys)
            && (Represented(s) ==> r.clusters[c].Some? && Member(c, r.clusters[c].value) in r.members)
  {
    if c in ClustersHolding(s, dead) {
      var m :| m in s.members && m.cluster == c && m.item !in dead;
      assert m.item in ItemsIn(s, {c}) - dead;
    } else if s.clusters[c].Some? {
      assert Member(c, s.clusters[c].value) in s.members ==> s.clusters[c].value !in dead;
    }
  }

  lemma RemovedKeepsClusters(s: Store, dead: set<Id>)
    requires ClusterKeys(s)
    ensures ClusterKeys(Removed(s, dead))
    ensures Represented(s) ==> Represented(Removed(s, dead))
  {
    var r := Removed(s, dead);
    forall c | c in r.clusters
      ensures References(r.clusters[c], r.items.Keys)
      ensures Represented(s) ==> r.clusters[c].Some? && Member(c, r.clusters[c].value) in r.members
    {
      RemovedRepresentative(s, dead, c);
    }
  }

  lemma RemovedKeeps(s: Store, dead: set<Id>)
    requires WellFormed(s)
    ensures WellFormed(Removed(s, dead))
    ensures Represented(s) ==> Represented(Removed(s, dead))
  {
    RemovedKeepsClusters(s, dead);
    assert DecisionKeys(Removed(s, dead));
  }

  lemma MergedRepresentative(s: Store, ids: set<Id>, c: Id)
    requires ClusterKeys(s) && JoinedBy(s, ids) != {}
    requires c in Merged(s, ids).clusters
    ensures var r := Merged(s, ids);
            && References(r.clusters[c], r.items.Keys)
            && (Represented(s) ==> r.clusters[c].Some? && Member(c, r.clusters[c].value) in r.members)
  {
    var best := Best(s.items, ItemsIn(s, ids)).value;
    if c == Smallest(ids) {
      var m :| m in s.members && m.cluster in ids && m.item == best;
      assert Member(c, best) in Merged(s, ids).members;
    } else if Represented(s) {
      var kept := Member(c, s.clusters[c].value);
      assert kept in s.members && kept.cluster !in ids;
    }
  }

  lemma MergedClusterKeys(s: Store, ids: set<Id>)
    requires ClusterKeys(s) && JoinedBy(s, ids) != {}
    ensures ClusterKeys(Merged(s, ids))
    ensures Represented(s) ==> Represented(Merged(s, ids))
  {
    var r := Merged(s, ids);
    forall c | c in r.clusters
      ensures References(r.clusters[c], r.items.Keys)
      ensures Represented(s) ==> r.clusters[c].Some? && Member(c, r.clusters[c].value) in r.members
    {
      MergedRepresentative(s, ids, c);
    }
  }

  lemma MergedDecisionKeys(s: Store, ids: set<Id>)
    requires WellFormed(s) && JoinedBy(s, ids) != {}
    ensures DecisionKeys(Merged(s, ids))
  {
    var r := Merged(s, ids);
    forall d | d in r.decisions ensures DecisionResolves(r, r.decisions[d]) {
      assert d in s.decisions ==> DecisionResolves(s, s.decisions[d]);
    }
  }

  lemma MergedKeeps(s: Store, ids: set<Id>)
    requires WellFormed(s) && JoinedBy(s, ids) != {}
    ensures WellFormed(Merged(s, ids))
    ensures Represented(s) ==> Represented(Merged(s, ids))
  {
    MergedClusterKeys(s, ids);
    MergedDecisionKeys(s, ids);
  }

  lemma AfterMergeKeeps(s: Store, ids: set<Id>)
    requires WellFormed(s)
    ensures WellFormed(AfterMerge(s, ids))
    ensures Represented(s) ==> Represented(AfterMerge(s, ids))
  {
    if JoinedBy(s, ids) != {} {
      MergedKeeps(s, ids);
    }
  }

  /** Without the items and raw messages of a channel, its row can go. */
  lemma ChannelGoes(t: Store, channel: Id)
    requires WellFormed(t) && RawsOfChannel(t, channel) == {} && ItemsOfChannel(t, channel) == {}
    ensures WellFormed(t.(channels := t.channels - {channel}))
    ensures Represented(t) ==> Represented(t.(channels := t.channels - {channel}))
  {
    var r := t.(channels := t.channels - {channel});
    forall i | i in r.items ensures r.items[i].channelId in r.channels {
      assert i !in ItemsOfChannel(t, channel);
    }
    forall i | i in r.raws ensures r.raws[i].channelId in r.channels {
      assert i !in RawsOfChannel(t, channel);
    }
  }

  lemma ChannelIsEmpty(s: Store, channel: Id)
    ensures var t := Removed(DeleteRaws(s, RawsOfChannel(s, channel)), ItemsOfChannel(s, channel));
            RawsOfChannel(t, channel) == {} && ItemsOfChannel(t, channel) == {}
  {
    var t := Removed(DeleteRaws(s, RawsOfChannel(s, channel)), ItemsOfChannel(s, channel));
    assert forall i | i in t.items :: i in s.items && t.items[i].channelId == s.items[i].channelId;
  }

  lemma PurgeKeeps(s: Store, channel: Id)
    requires WellFormed(s) && channel in s.channels
    ensures WellFormed(AfterPurge(s, channel))
    ensures Represented(s) ==> Represented(AfterPurge(s, channel))
  {
    var s1 := DeleteRaws(s, RawsOfChannel(s, channel));
    DeleteRawsKeeps(s, RawsOfChannel(s, channel));
    RemovedKeeps(s1, ItemsOfChannel(s, channel));
    ChannelIsEmpty(s, channel);
    ChannelGoes(Removed(s1, ItemsOfChannel(s, channel)), channel);
  }

  lemma PruneKeeps(s: Store, rawCutoff: int, itemCutoff: int)
    requires WellFormed(s)
    ensures WellFormed(AfterPrune(s, rawCutoff, itemCutoff))
    ensures Represented(s) ==> Represented(AfterPrune(s, rawCutoff, itemCutoff))
  {
    var s1 := DeleteRaws(s, ExpiredRaws(s, rawCutoff));
    DeleteRawsKeeps(s, ExpiredRaws(s, rawCutoff));
    RemovedKeeps(s1, ExpiredItems(s, itemCutoff));
  }

  lemma UpsertKeepsContent(s: Store, channel: Id, message: int, f: ItemFields, now: int)
    requires WellFormed(s)
    ensures ContentKeys(AfterUpsert(s, channel, message, f, now))
    ensures s.items.Keys <= AfterUpsert(s, channel, message, f, now).items.Keys
  {
  }

  lemma UpsertKeeps(s: Store, channel: Id, message: int, f: ItemFields, now: int)
    requires WellFormed(s)
    ensures WellFormed(AfterUpsert(s, channel, message, f, now))
    ensures Represented(s) ==> Represented(AfterUpsert(s, channel, message, f, now))
  {
    UpsertKeepsContent(s, channel, message, f, now);
    MoreItemsKeep(s, AfterUpsert(s, channel, message, f, now));
  }

  lemma MoreItemsKeep(s: Store, t: Store)
    requires ClusterKeys(s) && DecisionKeys(s) && t == s.(items := t.items) && s.items.Keys <= t.items.Keys
    ensures ClusterKeys(t) && DecisionKeys(t)
  {
  }

  lemma AssignKeeps(s: Store, item: Id, matched: Option<Id>)
    requires WellFormed(s)
    ensures WellFormed(AfterAssign(s, item, matched))
    ensures Represented(s) ==> Represented(AfterAssign(s, item, matched))
  {
  }

  lemma ContentInsertKeeps(s: Store, op: Op)
    requires WellFormed(s) && (op.AddChannel? || op.AddRaw?)
    ensures WellFormed(Apply(s, op))
    ensures Represented(s) ==> Represented(Apply(s, op))
  {
  }

  /** The single-row inserts. */
  lemma InsertKeeps(s: Store, op: Op)
    requires WellFormed(s) && (op.AddChannel? || op.AddRaw? || op.Decide? || op.Deliver?)
    ensures WellFormed(Apply(s, op))
    ensures Represented(s) ==> Represented(Apply(s, op))
  {
    if op.AddChannel? || op.AddRaw? {
      ContentInsertKeeps(s, op);
    }
  }

  /** No transaction breaks a foreign key or the cluster invariant. */
  lemma ApplyKeeps(s: Store, op: Op)
    requires WellFormed(s)
    ensures WellFormed(Apply(s, op))
    ensures Represented(s) ==> Represented(Apply(s, op))
  {
    match op
    case Upsert(c, m, f, now) => UpsertKeeps(s, c, m, f, now);
    case Assign(i, matched) => AssignKeeps(s, i, matched);
    case Merge(ids) => AfterMergeKeeps(s, ids);
    case Prune(r, i) => PruneKeeps(s, r, i);
    case Purge(c) =>
      if c in s.channels {
        PurgeKeeps(s, c);
      }
    case _ => InsertKeeps(s, op);
  }

  /** The store after a run of transactions. */
  ghost function Run(s: Store, ops: seq<Op>): (r: Store)
    requires WellFormed(s)
    ensures WellFormed(r)
  {
    if ops == [] then s
    else
      var t := Run(s, ops[..|ops| - 1]);
      ApplyKeeps(t, ops[|ops| - 1]);
      Apply(t, ops[|ops| - 1])
  }

  /** Every reference of every row names an existing row, and no two items are the same message. */
  ghost predicate NothingDangles(s: Store) {
    && (forall r | r in s.raws :: s.raws[r].channelId in s.channels)
    && (forall i | i in s.items ::
          && s.items[i].channelId in s.channels
          && (s.items[i].rawMessageId.Some? ==> s.items[i].rawMessageId.value in s.raws))
    && (forall i, j | i in s.items && j in s.items && i != j ::
          s.items[i].channelId != s.items[j].channelId || s.items[i].messageId != s.items[j].messageId)
    && (forall m | m in s.members :: m.cluster in s.clusters && m.item in s.items)
    && (forall d | d in s.decisions ::
          && s.decisions[d].itemId in s.items
          && (s.decisions[d].clusterId.Some? ==> s.decisions[d].clusterId.value in s.clusters)
          && (s.decisions[d].candidateId.Some? ==> s.decisions[d].candidateId.value in s.items))
    && (forall c | c in s.deliveries :: c in s.clusters)
  }

  lemma WellFormedMeans(s: Store)
    requires WellFormed(s)
    ensures NothingDangles(s)
  {
    forall i, j | i in s.items && j in s.items && i != j
      ensures s.items[i].channelId != s.items[j].channelId || s.items[i].messageId != s.items[j].messageId
    {
      assert !SameMessage(s.items[i], s.items[j]);
    }
    forall d | d in s.decisions ensures DecisionResolves(s, s.decisions[d]) {}
  }

  /** In every state reachable from the empty database: no cluster is empty, every representative
      is set and is a member of its own cluster, no row dangles, and the orphan sweep deletes nothing. */
  lemma {:induction false} EveryReachableStoreIsHealthy(ops: seq<Op>)
    ensures var s := Run(EMPTY_STORE, ops);
            && Healthy(s)
            && (forall c | c in s.clusters ::
                  && MembersOf(s, c) != {}
                  && s.clusters[c].Some? && s.clusters[c].value in s.items &&
                      Member(c, s.clusters[c].value) in s.members)
            && NothingDangles(s) && OrphanedMembers(s) == {} && OrphanedDecisions(s) == {}
  {
    var s := Run(EMPTY_STORE, ops);
    if ops != [] {
      EveryReachableStoreIsHealthy(ops[..|ops| - 1]);
      ApplyKeeps(Run(EMPTY_STORE, ops[..|ops| - 1]), ops[|ops| - 1]);
    }
    forall c | c in s.clusters ensures MembersOf(s, c) != {} {
      assert Member(c, s.clusters[c].value) in s.members;
      assert s.clusters[c].value in MembersOf(s, c);
    }
    SweepFindsNothing(s);
    WellFormedMeans(s);
  }

  /** What is left of cluster `c` in `r` once the items `dead` of `s` are gone: its other members; the
      cluster and its delivery exactly if there are any; the old representative if no member was lost,
      otherwise the best of the rest. */
  ghost predicate LeftOf(s: Store, dead: set<Id>, r: Store, c: Id)
    requires c in s.clusters
  {
    && MembersOf(r, c) == MembersOf(s, c) - dead
    && (c in r.clusters <==> MembersOf(s, c) - dead != {})
    && (c in r.deliveries <==> c in s.deliveries && c in r.clusters)
    && (c in r.clusters && c !in ClustersHolding(s, dead) ==>
        r.clusters[c] == s.clusters[c] && MembersOf(r, c) == MembersOf(s, c))
    && (c in r.clusters && c in ClustersHolding(s, dead) ==>
          r.clusters[c].Some? && MembersOf(r, c) <= r.items.Keys &&
              IsBest(r.items, MembersOf(r, c), r.clusters[c].value))
  }

  lemma LeftSame(s: Store, s1: Store, dead: set<Id>, r: Store, c: Id)
    requires c in s.clusters && s1.clusters == s.clusters && s1.members == s.members && s1.deliveries == s.deliveries
    requires LeftOf(s1, dead, r, c)
    ensures LeftOf(s, dead, r, c)
  {
    assert MembersOf(s1, c) == MembersOf(s, c);
    assert ClustersHolding(s1, dead) == ClustersHolding(s, dead);
  }

  lemma LeftAfterRaws(s: Store, raws: set<Id>, dead: set<Id>, c: Id)
    requires Healthy(s) && c in s.clusters
    ensures LeftOf(s, dead, Removed(DeleteRaws(s, raws), dead), c)
  {
    var s1 := DeleteRaws(s, raws);
    DeleteRawsKeeps(s, raws);
    RemovedByCluster(s1, dead, c);
    LeftSame(s, s1, dead, Removed(s1, dead), c);
  }

  /** What a prune leaves: a cluster that held no expired item is untouched; one that did keeps
      its unexpired members and is represented by the best of them, or is gone with its last one. */
  lemma PruneByCluster(s: Store, rawCutoff: int, itemCutoff: int, c: Id)
    requires Healthy(s) && c in s.clusters
    ensures var expired := set i | i in s.items && s.items[i].createdAt < itemCutoff;
            LeftOf(s, expired, AfterPrune(s, rawCutoff, itemCutoff), c)
  {
    LeftAfterRaws(s, ExpiredRaws(s, rawCutoff), ExpiredItems(s, itemCutoff), c);
  }

  /** What a purge leaves: a cluster without items of the channel is untouched; one with some keeps its
      other members and is represented by the best of them, or is gone with its last one. */
  lemma PurgeByCluster(s: Store, channel: Id, c: Id)
    requires Healthy(s) && c in s.clusters && channel in s.channels
    ensures var purged := set i | i in s.items && s.items[i].channelId == channel;
            LeftOf(s, purged, AfterPurge(s, channel), c)
  {
    var raws, dead := RawsOfChannel(s, channel), ItemsOfChannel(s, channel);
    LeftAfterRaws(s, raws, dead, c);
    assert MembersOf(AfterPurge(s, channel), c) == MembersOf(Removed(DeleteRaws(s, raws), dead), c);
  }

  lemma RemovedByCluster(s: Store, dead: set<Id>, c: Id)
    requires ClusterKeys(s) && Represented(s) && c in s.clusters
    ensures LeftOf(s, dead, Removed(s, dead), c)
  {
    MembersLeft(s, dead, c);
    GoneMeansEmptied(s, dead, c);
    assert ItemsIn(s, {c}) == MembersOf(s, c);
    assert Member(c, s.clusters[c].value) in s.members;
  }

  lemma GoneMeansEmptied(s: Store, dead: set<Id>, c: Id)
    requires Represented(s) && c in s.clusters
    ensures c in Gone(s, dead) <==> MembersOf(s, c) - dead == {}
  {
    var rep := Member(c, s.clusters[c].value);
    assert rep in s.members && rep.item in MembersOf(s, c);
    if MembersOf(s, c) - dead == {} {
      forall m | m in s.members && m.cluster == c ensures m.item in dead {
        assert m.item in MembersOf(s, c) && m.item !in MembersOf(s, c) - dead;
      }
    }
  }

  lemma MembersLeft(s: Store, dead: set<Id>, c: Id)
    ensures MembersOf(Removed(s, dead), c) == MembersOf(s, c) - dead
  {
    forall i | i in MembersOf(s, c) - dead ensures i in MembersOf(Removed(s, dead), c) {
      assert Member(c, i) in Removed(s, dead).members;
    }
  }
}
