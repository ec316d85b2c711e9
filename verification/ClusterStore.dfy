/** The transactions as the code runs them: statement after statement, batch after batch, with the
    full-text triggers firing row by row. Each is proved equal to its one-shot description. */
module ClusterStore {
  import opened Basics
  import opened Schema
  import opened Ranking
  import opened Statements
  import opened ClusterSpec
  import opened FullText
  import opened RowEffects

  const DELETE_BATCH_SIZE: nat := 500

  datatype MergeResult =
    | MergeDone(target: Id, sources: set<Id>, moved: nat, removed: nat, recorded: bool)
    | TooFewClusters
    | TargetMissing(target: Id)
    | NoTargetItem

  datatype AssignResult = Assigned(cluster: Id, createdCluster: bool, createdMembership: bool) | ForeignKeyFailed

  datatype PruneSummary = PruneSummary(
    rawsDeleted: nat, itemsDeleted: nat, rawBatches: seq<int>, itemBatches: seq<int>,
    recomputed: nat, emptied: nat, orphanedMembers: nat, orphanedDecisions: nat, affected: set<Id>)

  /** `batch` is a non-final batch of exactly the limit, or everything that is left. */
  ghost predicate IsBatch(batch: set<Id>, left: set<Id>) {
    batch <= left && |batch| <= 500 && (|batch| < 500 ==> batch == left)
  }

  /** SELECT id ... ORDER BY id ASC LIMIT 500. */
  method SelectBatch(left: set<Id>) returns (batch: set<Id>)
    ensures IsBatch(batch, left)
    ensures forall a, b | a in batch && b in left - batch :: a.n <= b.n
  {
    batch := {};
    while |batch| < DELETE_BATCH_SIZE && batch != left
      invariant batch <= left && |batch| <= DELETE_BATCH_SIZE
      invariant forall a, b | a in batch && b in left - batch :: a.n <= b.n
      decreases |left - batch|
    {
      assert left - batch != {};
      var next := Smallest(left - batch);
      assert left - batch == (left - (batch + {next})) + {next};
      batch := batch + {next};
    }
  }

  /** The distinct ids of a list. */
  function IdSet(ids: seq<Id>): set<Id> {
    set i | i in ids
  }

  function Sum(sizes: seq<int>): int {
    if sizes == [] then 0 else Sum(sizes[..|sizes| - 1]) + sizes[|sizes| - 1]
  }

  /** `total` rows went in full batches followed by at most one shorter, non-empty batch. */
  ghost predicate Batched(sizes: seq<int>, total: nat) {
    && Sum(sizes) == total
    && (forall k | 0 <= k < |sizes| - 1 :: sizes[k] == 500)
    && (sizes != [] ==> 0 < sizes[|sizes| - 1] <= 500)
  }

  /** The loop's view: the last batch may be short only when nothing is left. */
  ghost predicate BatchedSoFar(sizes: seq<int>, expired: set<Id>, done: set<Id>) {
    && Batched(sizes, |done|)
    && (sizes != [] && sizes[|sizes| - 1] < DELETE_BATCH_SIZE ==> done == expired)
  }

  lemma SizesAppend(sizes: seq<int>, total: nat, size: nat)
    requires Batched(sizes, total) && (sizes != [] ==> sizes[|sizes| - 1] == DELETE_BATCH_SIZE) &&
             0 < size <= DELETE_BATCH_SIZE
    ensures Batched(sizes + [size], total + size)
  {
    assert (sizes + [size])[..|sizes|] == sizes;
  }

  lemma BatchTaken(sizes: seq<int>, expired: set<Id>, done: set<Id>, batch: set<Id>)
    requires BatchedSoFar(sizes, expired, done) && done <= expired
    requires IsBatch(batch, expired - done) && batch != {}
    ensures BatchedSoFar(sizes + [|batch|], expired, done + batch)
    ensures done + batch <= expired
    ensures |done + batch| == |done| + |batch| && |expired - (done + batch)| < |expired - done|
  {
    TakenCount(expired, done, batch);
    LastWasFull(sizes, expired, done, batch);
    SizesAppend(sizes, |done|, |batch|);
  }

  lemma LastWasFull(sizes: seq<int>, expired: set<Id>, done: set<Id>, batch: set<Id>)
    requires BatchedSoFar(sizes, expired, done) && done <= expired
    requires IsBatch(batch, expired - done) && batch != {}
    ensures |batch| > 0 && (sizes != [] ==> sizes[|sizes| - 1] == DELETE_BATCH_SIZE)
    ensures |batch| < DELETE_BATCH_SIZE ==> done + batch == expired
  {
    var x :| x in batch;
    assert x in expired && x !in done;
    if |batch| < DELETE_BATCH_SIZE {
      assert done + (expired - done) == expired;
    }
  }

  lemma TakenCount(expired: set<Id>, done: set<Id>, batch: set<Id>)
    requires done <= expired && batch <= expired - done && batch != {}
    ensures |done + batch| == |done| + |batch| && |expired - (done + batch)| < |expired - done|
  {
    assert expired - done == (expired - (done + batch)) + batch;
  }

  /** The raw loop's invariant: the rows `done` of the initial store `s` are gone. */
  ghost predicate RawLoop(s: Store, cutoff: int, now: Store, done: set<Id>, total: nat, sizes: seq<int>) {
    && done <= ExpiredRaws(s, cutoff) && total == |done|
    && now == DeleteRaws(s, done)
    && BatchedSoFar(sizes, ExpiredRaws(s, cutoff), done)
  }

  lemma RawLoopStarts(s: Store, cutoff: int)
    ensures RawLoop(s, cutoff, s, {}, 0, [])
  {
    assert s.items == DeleteRaws(s, {}).items;
  }

  /** One turn of the loop, with the batch it selects. */
  lemma RawLoopTurns(s: Store, cutoff: int, now: Store, done: set<Id>, total: nat, sizes: seq<int>, batch: set<Id>)
    requires RawLoop(s, cutoff, now, done, total, sizes) && IsBatch(batch, ExpiredRaws(now, cutoff))
    ensures batch == {} ==> done == ExpiredRaws(s, cutoff)
    ensures batch != {} ==>
              && RawLoop(s, cutoff, DeleteRaws(now, batch), done + batch, total + |batch|, sizes + [|batch|])
              && |ExpiredRaws(s, cutoff) - (done + batch)| < |ExpiredRaws(s, cutoff) - done|
  {
    var expired := ExpiredRaws(s, cutoff);
    assert ExpiredRaws(now, cutoff) == expired - done;
    if batch == {} {
      NothingLeft(expired, done);
    } else {
      BatchTaken(sizes, expired, done, batch);
      DeleteRawsTwice(s, done, batch);
    }
  }

  /** The item loop's invariant: the rows `done` of the initial store `s` are gone. */
  ghost predicate ItemLoop(s: Store, cutoff: int, now: Store, done: set<Id>, total: nat, sizes: seq<int>,
                           affected: set<Id>) {
    && done <= ExpiredItems(s, cutoff) && total == |done|
    && now == DeleteItems(s, done)
    && BatchedSoFar(sizes, ExpiredItems(s, cutoff), done)
    && affected == ClustersHolding(s, done)
  }

  lemma ItemLoopStarts(s: Store, cutoff: int)
    ensures ItemLoop(s, cutoff, s, {}, 0, [], {})
  {
    DeleteNoItems(s);
  }

  lemma ItemsLeft(s: Store, cutoff: int, done: set<Id>)
    ensures ExpiredItems(DeleteItems(s, done), cutoff) == ExpiredItems(s, cutoff) - done
    ensures ExpiredItems(DeleteItems(s, done), cutoff) <= DeleteItems(s, done).items.Keys
  {
  }

  /** One turn of the loop, with the batch it selects. */
  lemma ItemLoopTurns(s: Store, cutoff: int, now: Store, done: set<Id>, total: nat, sizes: seq<int>,
                      affected: set<Id>, batch: set<Id>)
    requires ItemLoop(s, cutoff, now, done, total, sizes, affected) && IsBatch(batch, ExpiredItems(now, cutoff))
    ensures batch == {} ==> done == ExpiredItems(s, cutoff)
    ensures batch != {} ==>
              && ItemLoop(s, cutoff, DeleteItems(now, batch), done + batch, total + |batch|, sizes + [|batch|],
                          affected + ClustersHolding(now, batch))
              && |ExpiredItems(s, cutoff) - (done + batch)| < |ExpiredItems(s, cutoff) - done| &&
                  batch <= now.items.Keys
  {
    ItemsLeft(s, cutoff, done);
    if batch == {} {
      NothingLeft(ExpiredItems(s, cutoff), done);
    } else {
      BatchTaken(sizes, ExpiredItems(s, cutoff), done, batch);
      DeleteItemsTwice(s, done, batch);
      HoldersSplit(s, done, batch);
    }
  }

  lemma NothingLeft(expired: set<Id>, done: set<Id>)
    requires done <= expired && IsBatch({}, expired - done)
    ensures done == expired
  {
    assert expired - done == {};
  }

  lemma HoldersSplit(s: Store, done: set<Id>, batch: set<Id>)
    ensures ClustersHolding(s, done) + ClustersHolding(DeleteItems(s, done), batch) == ClustersHolding(s, done + batch)
  {
    forall c | c in ClustersHolding(s, done + batch)
      ensures c in ClustersHolding(s, done) + ClustersHolding(DeleteItems(s, done), batch)
    {
      var m :| m in s.members && m.item in done + batch && m.cluster == c;
      assert m.item in done || m in DeleteItems(s, done).members;
    }
  }

  /** Recompute the clusters `ids`, then delete the empty ones among them. */
  function Repair(s: Store, ids: set<Id>): Store {
    var recomputed := Recompute(s, ids);
    DeleteClusters(recomputed, EmptyAmong(recomputed, ids))
  }

  /** Of the clusters `ids` exactly those with a member row are left, each represented by the best of
      its items, and with the members it had; every other cluster and all items are untouched. */
  ghost predicate Repaired(s: Store, ids: set<Id>, t: Store) {
    && t.items == s.items
    && (forall c | c in s.clusters :: c in t.clusters <==> c !in ids || MembersOf(s, c) != {})
    && (forall c | c in t.clusters ::
          && c in s.clusters && MembersOf(t, c) == MembersOf(s, c)
          && (c !in ids ==> t.clusters[c] == s.clusters[c])
          && (c in ids && MembersOf(s, c) <= s.items.Keys ==>
                t.clusters[c].Some? && IsBest(s.items, MembersOf(s, c), t.clusters[c].value)))
  }

  lemma RepairOutcome(s: Store, ids: set<Id>)
    ensures Repaired(s, ids, Repair(s, ids))
    ensures EmptyAmong(Recompute(s, ids), ids) == EmptyAmong(s, ids)
  {
    var t := Repair(s, ids);
    SameEmpties(s, ids);
    forall c | c in s.clusters ensures c in t.clusters <==> c !in ids || MembersOf(s, c) != {} {
      NoMemberRow(s, c);
    }
    forall c | c in t.clusters
      ensures MembersOf(t, c) == MembersOf(s, c)
      ensures c in ids && MembersOf(s, c) <= s.items.Keys ==>
                t.clusters[c].Some? && IsBest(s.items, MembersOf(s, c), t.clusters[c].value)
    {
      SurvivorKeeps(s, ids, c);
    }
  }

  lemma NoMemberRow(s: Store, c: Id)
    ensures MembersOf(s, c) == {} <==> forall m | m in s.members :: m.cluster != c
  {
    forall m | m in s.members && m.cluster == c ensures m.item in MembersOf(s, c) {}
  }

  lemma SurvivorKeeps(s: Store, ids: set<Id>, c: Id)
    requires c in Repair(s, ids).clusters
    ensures var t := Repair(s, ids);
            && MembersOf(t, c) == MembersOf(s, c)
            && (c in ids && MembersOf(s, c) <= s.items.Keys ==>
                  t.clusters[c].Some? && IsBest(s.items, MembersOf(s, c), t.clusters[c].value))
  {
    var t := Repair(s, ids);
    forall i | i in MembersOf(s, c) ensures i in MembersOf(t, c) {
      assert Member(c, i) in t.members;
    }
    NoMemberRow(s, c);
    if MembersOf(s, c) <= s.items.Keys {
      assert ItemsIn(s, {c}) == MembersOf(s, c);
    }
  }

  /** Deleting items and repairing the clusters that held them is the one-shot removal. */
  lemma RepairRemoves(s: Store, dead: set<Id>)
    ensures Repair(DeleteItems(s, dead), ClustersHolding(s, dead)) == Removed(s, dead)
    ensures EmptyAmong(DeleteItems(s, dead), ClustersHolding(s, dead)) == Gone(s, dead)
    ensures Removed(s, dead).items == DeleteItems(s, dead).items
  {
    RemovalStatements(s, dead);
    EmptiedAreGone(s, dead);
    SameEmpties(DeleteItems(s, dead), ClustersHolding(s, dead));
  }

  lemma SameEmpties(s: Store, ids: set<Id>)
    ensures EmptyAmong(Recompute(s, ids), ids) == EmptyAmong(s, ids)
  {
  }

  /** Deleting raw messages does not change which items are expired or who holds them. */
  lemma RawsDoNotMatter(s: Store, raws: set<Id>, cutoff: int, dead: set<Id>)
    ensures var s1 := DeleteRaws(s, raws);
            && ExpiredItems(s1, cutoff) == ExpiredItems(s, cutoff)
            && ClustersHolding(s1, dead) == ClustersHolding(s, dead) && Gone(s1, dead) == Gone(s, dead)
  {
  }

  /** The statements of a prune run after the raw messages are gone, and what the sweep finds. */
  lemma PruneStatements(s: Store, rawCutoff: int, itemCutoff: int)
    requires WellFormed(s)
    ensures var s1 := DeleteRaws(s, ExpiredRaws(s, rawCutoff));
            var dead := ExpiredItems(s, itemCutoff);
            var touched := ClustersHolding(s, dead);
            && ExpiredItems(s1, itemCutoff) == dead && ClustersHolding(s1, dead) == touched
            && Repair(DeleteItems(s1, dead), touched) == AfterPrune(s, rawCutoff, itemCutoff)
            && WellFormed(AfterPrune(s, rawCutoff, itemCutoff))
            && AfterPrune(s, rawCutoff, itemCutoff).items == DeleteItems(s1, dead).items
            && EmptyAmong(DeleteItems(s1, dead), touched) == Gone(s, dead)
  {
    var raws, dead := ExpiredRaws(s, rawCutoff), ExpiredItems(s, itemCutoff);
    RawsDoNotMatter(s, raws, itemCutoff, dead);
    RepairRemoves(DeleteRaws(s, raws), dead);
    PruneKeeps(s, rawCutoff, itemCutoff);
  }

  /** The delete of the channel row, with its cascades, and the repair. */
  lemma PurgeStatements(s: Store, channel: Id)
    requires WellFormed(s) && channel in s.channels
    ensures var s1 := DeleteRaws(s.(channels := s.channels - {channel}), RawsOfChannel(s, channel));
            var dead := ItemsOfChannel(s, channel);
            && Repair(DeleteItems(s1, dead), ClustersHolding(s, dead)) == AfterPurge(s, channel)
            && WellFormed(AfterPurge(s, channel)) && dead <= s1.items.Keys
            && AfterPurge(s, channel).items == DeleteItems(s1, dead).items
  {
    var raws, dead := RawsOfChannel(s, channel), ItemsOfChannel(s, channel);
    var s0 := s.(channels := s.channels - {channel});
    RawsDoNotMatter(s0, raws, 0, dead);
    RepairRemoves(DeleteRaws(s0, raws), dead);
    ChannelsPassThrough(s, s0.channels, raws, dead);
    PurgeKeeps(s, channel);
  }

  /** Which channels are left does not matter to the removal of raw messages and items. */
  lemma ChannelsPassThrough(s: Store, channels: set<Id>, raws: set<Id>, dead: set<Id>)
    ensures Removed(DeleteRaws(s.(channels := channels), raws), dead) ==
            Removed(DeleteRaws(s, raws), dead).(channels := channels)
    ensures ClustersHolding(s.(channels := channels), dead) == ClustersHolding(s, dead)
  {
    var a, b := Removed(DeleteRaws(s.(channels := channels), raws), dead), Removed(DeleteRaws(s, raws), dead);
    assert a.items == b.items && a.members == b.members && a.deliveries == b.deliveries;
    assert a.clusters == b.clusters;
    assert a.decisions == b.decisions;
  }

  lemma UniqueAt(s: Store, channel: Id, message: int, row: Id)
    requires WellFormed(s) && row in s.items && s.items[row].channelId == channel && s.items[row].messageId == message
    ensures ItemAt(s, channel, message) == Some(row)
  {
    var at := ItemAt(s, channel, message);
    assert at.Some? ==> SameMessage(s.items[at.value], s.items[row]);
  }

  /** Row `row` now holds the fields supplied; an existing one keeps its creation time and a raw reference
      it had; every other item row is as it was. */
  ghost predicate RowWritten(s: Store, row: Id, channel: Id, message: int, f: ItemFields, now: int, t: Store) {
    && row in t.items && t.items.Keys == s.items.Keys + {row}
    && (forall i | i in s.items && i != row :: t.items[i] == s.items[i])
    && var item := t.items[row];
       && item.channelId == channel && item.messageId == message && item.publishedAt == f.publishedAt
       && item.title == f.title && item.body == f.body && item.canonicalUrl == f.canonicalUrl
       && item.createdAt == (if row in s.items then s.items[row].createdAt else now)
       && item.rawMessageId ==
          (if row in s.items && s.items[row].rawMessageId.Some? then s.items[row].rawMessageId else f.rawMessageId)
  }

  class Database {
    var db: Store
    var index: multiset<Posting>
    const tokenize: Tokenizer

    /** The foreign keys hold and the full-text index agrees with the items. */
    ghost predicate Valid()
      reads this
    {
      WellFormed(db) && Agrees(tokenize, index, db.items)
    }

    /** Open an existing database and run the migration's 'rebuild' of the index. */
    constructor (db: Store, tokenize: Tokenizer)
      requires WellFormed(db)
      ensures Valid() && this.db == db && this.tokenize == tokenize
    {
      var rebuilt := RebuildIndex(tokenize, db.items);
      this.db, this.tokenize, index := db, tokenize, rebuilt;
    }

    /** DELETE FROM items WHERE id IN `dead`, with its triggers. */
    method DeleteItemRows(dead: set<Id>)
      requires Agrees(tokenize, index, db.items) && dead <= db.items.Keys
      modifies this`db, this`index
      ensures db == DeleteItems(old(db), dead) && Agrees(tokenize, index, db.items)
    {
      index := UnindexRows(tokenize, index, db.items, dead);
      db := DeleteItems(db, dead);
    }

    /** DELETE FROM raw_messages: SET NULL updates, and so re-indexes, every item that referred to one. */
    method DeleteRawRows(dead: set<Id>)
      requires Agrees(tokenize, index, db.items)
      modifies this`db, this`index
      ensures db == DeleteRaws(old(db), dead) && Agrees(tokenize, index, db.items)
    {
      var referring := map i | i in db.items && db.items[i].rawMessageId.Some? &&
          db.items[i].rawMessageId.value in dead ::
        db.items[i].(rawMessageId := None);
      index := ReindexRows(tokenize, index, db.items, referring);
      assert db.items + referring == DeleteRaws(db, dead).items;
      db := DeleteRaws(db, dead);
    }

    /** DELETE FROM telegram_channels, with the cascades to its raw messages and items. */
    method DeleteChannelRow(channel: Id, raws: set<Id>, items: set<Id>)
      requires Agrees(tokenize, index, db.items) && items <= db.items.Keys
      modifies this`db, this`index
      ensures db == DeleteItems(DeleteRaws(old(db).(channels := old(db).channels - {channel}), raws), items)
      ensures Agrees(tokenize, index, db.items)
    {
      db := db.(channels := db.channels - {channel});
      DeleteRawRows(raws);
      DeleteItemRows(items);
    }

    /** INSERT INTO items fires `items_fts_ai`. */
    method InsertItemRow(id: Id, item: Item)
      requires Agrees(tokenize, index, db.items) && id !in db.items
      modifies this`db, this`index
      ensures db == old(db).(items := old(db).items[id := item]) && Agrees(tokenize, index, db.items)
    {
      InsertAgrees(tokenize, index, db.items, id, item);
      index := index + Postings(tokenize, id, item);
      db := db.(items := db.items[id := item]);
    }

    /** UPDATE of one item row fires `items_fts_au`. */
    method UpdateItemRow(id: Id, item: Item)
      requires Agrees(tokenize, index, db.items) && id in db.items
      modifies this`db, this`index
      ensures db == old(db).(items := old(db).items[id := item]) && Agrees(tokenize, index, db.items)
    {
      index := ReindexRow(tokenize, index, db.items, id, item);
      db := db.(items := db.items[id := item]);
    }

    /** Upsert one normalized item; returns its row id, or None when a foreign key fails. */
    method UpsertItem(channel: Id, message: int, f: ItemFields, now: int) returns (row: Option<Id>)
      requires Valid()
      modifies this`db, this`index
      ensures Valid() && db == Apply(old(db), Upsert(channel, message, f, now))
      ensures row.Some? <==> UpsertAllowed(old(db), channel, message, f)
      ensures row.Some? ==>
                && ItemAt(db, channel, message) == row
                && RowWritten(old(db), row.value, channel, message, f, now, db)
      ensures row.Some? && ItemAt(old(db), channel, message).Some? ==> row == ItemAt(old(db), channel, message)
    {
      UpsertKeeps(db, channel, message, f, now);
      row := ItemAt(db, channel, message);
      var raw := f.rawMessageId;
      if row.Some? && db.items[row.value].rawMessageId.Some? {
        raw := db.items[row.value].rawMessageId;
      }
      if channel !in db.channels || !References(raw, db.raws.Keys) {
        return None;
      }
      if row.Some? {
        var stored := db.items[row.value];
        var item := Item(channel, message, raw, f.publishedAt, f.title, f.body, f.canonicalUrl, stored.createdAt);
        UpdateItemRow(row.value, item);
      } else {
        var id := NextId(db.items.Keys);
        var item := Item(channel, message, raw, f.publishedAt, f.title, f.body, f.canonicalUrl, now);
        InsertItemRow(id, item);
        row := Some(id);
      }
      UniqueAt(db, channel, message, row.value);
    }

    /** Assign an item to a matched cluster or to a new one. */
    method AssignItem(item: Id, matched: Option<Id>) returns (r: AssignResult)
      requires Valid()
      modifies this`db
      ensures Valid() && db == Apply(old(db), Assign(item, matched))
      ensures r.ForeignKeyFailed? <==> item !in old(db).items || !References(matched, old(db).clusters.Keys)
      ensures r.Assigned? ==>
                && Member(r.cluster, item) in db.members && r.cluster in db.clusters
                && (matched.Some? ==> r.cluster == matched.value && db.clusters == old(db).clusters)
                && (matched.None? ==> db.clusters == old(db).clusters[r.cluster := Some(item)])
                && db.members == old(db).members + {Member(r.cluster, item)}
                && r.createdCluster == (r.cluster !in old(db).clusters) == matched.None?
                && r.createdMembership == (Member(r.cluster, item) !in old(db).members)
    {
      AssignKeeps(db, item, matched);
      if matched.Some? && Member(matched.value, item) in db.members {
        assert db.members + {Member(matched.value, item)} == db.members;
        return Assigned(matched.value, false, false);
      }
      if item !in db.items || !References(matched, db.clusters.Keys) {
        return ForeignKeyFailed;
      }
      var cluster := if matched.Some? then matched.value else NextId(db.clusters.Keys);
      if matched.None? {
        db := db.(clusters := db.clusters[cluster := Some(item)]);
      }
      db := db.(members := db.members + {Member(cluster, item)});
      r := Assigned(cluster, matched.None?, true);
    }

    /** The distinct ids of a match list. */
    method NormalizeIds(matched: seq<Id>) returns (ids: set<Id>)
      ensures ids == IdSet(matched)
    {
      ids := {};
      for k := 0 to |matched|
        invariant ids == IdSet(matched[..k])
      {
        ids := ids + {matched[k]};
        assert matched[..k + 1] == matched[..k] + [matched[k]];
      }
      assert matched[..|matched|] == matched;
    }

    /** Merge the matched clusters into the one with the smallest id. */
    method MergeClusters(matched: seq<Id>) returns (r: MergeResult)
      requires Valid()
      modifies this`db
      ensures Valid() && db == Apply(old(db), Merge(IdSet(matched)))
      ensures MergeReport(old(db), IdSet(matched), r)
      ensures r.MergeDone? && r.recorded <==> db.decisions.Keys != old(db).decisions.Keys
    {
      var ids := NormalizeIds(matched);
      MergeOutcome(db, ids);
      if |ids| < 2 {
        return TooFewClusters;
      }
      r := MergeRows(ids);
    }

    /** The merge transaction on two or more distinct ids. */
    method MergeRows(ids: set<Id>) returns (r: MergeResult)
      requires WellFormed(db) && |ids| >= 2
      modifies this`db
      ensures db == AfterMerge(old(db), ids)
      ensures MergeReport(old(db), ids, r)
      ensures r.MergeDone? && r.recorded <==> db.decisions.Keys != old(db).decisions.Keys
    {
      MergeOutcome(db, ids);
      MergeStatements(db, ids);
      var target := Smallest(ids);
      var sources := ids - {target};
      if target !in db.clusters {
        return TargetMissing(target);
      }
      var moved := |set m | m in db.members && m.cluster in sources|;
      var removed := |set c | c in db.clusters && c in sources|;
      if moved == 0 && removed == 0 {
        return MergeDone(target, sources, 0, 0, false);
      }
      var work := Recompute(DeleteClusters(MoveMembers(db, target, sources), sources), {target});
      if work.clusters[target].None? {
        return NoTargetItem;                                   // the transaction is rolled back
      }
      var event := Decision(work.clusters[target].value, Some(target), None, sources);
      db := work.(decisions := work.decisions[NextId(work.decisions.Keys) := event]);
      assert NextId(work.decisions.Keys) in db.decisions && work.decisions.Keys == old(db).decisions.Keys;
      r := MergeDone(target, sources, moved, removed, true);
    }

    /** Delete the expired raw messages in batches. */
    method DeleteExpiredRaws(cutoff: int) returns (total: nat, sizes: seq<int>)
      requires Agrees(tokenize, index, db.items)
      modifies this`db, this`index
      ensures Agrees(tokenize, index, db.items)
      ensures db == DeleteRaws(old(db), ExpiredRaws(old(db), cutoff))
      ensures forall r :: r in db.raws <==> r in old(db).raws && old(db).raws[r].createdAt >= cutoff
      ensures total == |ExpiredRaws(old(db), cutoff)| && Batched(sizes, total)
    {
      total, sizes := 0, [];
      ghost var s, done: set<Id> := db, {};
      RawLoopStarts(s, cutoff);
      while true
        invariant RawLoop(s, cutoff, db, done, total, sizes) && Agrees(tokenize, index, db.items)
        decreases |ExpiredRaws(s, cutoff) - done|
      {
        var batch := SelectBatch(ExpiredRaws(db, cutoff));
        RawLoopTurns(s, cutoff, db, done, total, sizes, batch);
        if batch == {} {
          break;
        }
        DeleteRawRows(batch);
        done := done + batch;
        total, sizes := total + |batch|, sizes + [|batch|];
      }
    }

    /** Delete the expired items in batches, collecting the clusters that held one. */
    method DeleteExpiredItems(cutoff: int) returns (total: nat, sizes: seq<int>, affected: set<Id>)
      requires Agrees(tokenize, index, db.items)
      modifies this`db, this`index
      ensures Agrees(tokenize, index, db.items)
      ensures db == DeleteItems(old(db), ExpiredItems(old(db), cutoff))
      ensures forall i :: i in db.items <==> i in old(db).items && old(db).items[i].createdAt >= cutoff
      ensures total == |ExpiredItems(old(db), cutoff)| && Batched(sizes, total)
      ensures affected == ClustersHolding(old(db), ExpiredItems(old(db), cutoff))
    {
      total, sizes, affected := 0, [], {};
      ghost var s, done: set<Id> := db, {};
      ItemLoopStarts(s, cutoff);
      while true
        invariant ItemLoop(s, cutoff, db, done, total, sizes, affected) && Agrees(tokenize, index, db.items)
        decreases |ExpiredItems(s, cutoff) - done|
      {
        var batch := SelectBatch(ExpiredItems(db, cutoff));
        ItemLoopTurns(s, cutoff, db, done, total, sizes, affected, batch);
        if batch == {} {
          break;
        }
        affected := affected + ClustersHolding(db, batch);
        DeleteItemRows(batch);
        done := done + batch;
        total, sizes := total + |batch|, sizes + [|batch|];
      }
    }

    /** Recompute the representatives of `ids` and drop those of `ids` that are empty. */
    method RepairClusters(ids: set<Id>) returns (emptied: nat)
      modifies this`db
      ensures db == Repair(old(db), ids)
      ensures emptied == |EmptyAmong(old(db), ids)|
    {
      RepairOutcome(db, ids);
      db := Recompute(db, ids);
      emptied := |EmptyAmong(db, ids)|;
      db := DeleteClusters(db, EmptyAmong(db, ids));
    }

    /** Delete member and decision rows that refer to missing rows; in a well-formed store none do. */
    method SweepOrphans() returns (members: nat, decisions: nat)
      requires WellFormed(db)
      modifies this`db
      ensures db == old(db) && members == 0 && decisions == 0
    {
      SweepFindsNothing(db);
      members, decisions := |OrphanedMembers(db)|, |OrphanedDecisions(db)|;
      db := db.(members := db.members - OrphanedMembers(db), decisions := db.decisions - OrphanedDecisions(db));
    }

    /** The transaction of a prune run: the batched deletes, the repair and the orphan sweep, in the
        required order. */
    method PruneTransaction(rawCutoff: int, itemCutoff: int) returns (r: PruneSummary)
      requires Valid()
      modifies this`db, this`index
      ensures Valid() && db == AfterPrune(old(db), rawCutoff, itemCutoff)
      ensures Summarised(old(db), ExpiredRaws(old(db), rawCutoff), ExpiredItems(old(db), itemCutoff), r)
    {
      PruneStatements(db, rawCutoff, itemCutoff);
      var rawsDeleted, rawBatches := DeleteExpiredRaws(rawCutoff);
      var itemsDeleted, itemBatches, affected := DeleteExpiredItems(itemCutoff);
      var emptied := RepairClusters(affected);
      var orphanedMembers, orphanedDecisions := SweepOrphans();
      r := PruneSummary(rawsDeleted, itemsDeleted, rawBatches, itemBatches,
                        |affected|, emptied, orphanedMembers, orphanedDecisions, affected);
    }

    /** One prune run: exactly what is older than a cutoff goes, and every number of the summary is right. */
    method PruneOnce(rawCutoff: int, itemCutoff: int) returns (r: PruneSummary)
      requires Valid()
      modifies this`db, this`index
      ensures Valid() && db == Apply(old(db), Prune(rawCutoff, itemCutoff))
      ensures ItemsRetained(old(db), rawCutoff, itemCutoff, db) && RawsRetained(old(db), rawCutoff, db)
      ensures PruneReport(old(db), rawCutoff, itemCutoff, r)
    {
      PruneContent(db, rawCutoff, itemCutoff);
      ghost var s := db;
      r := PruneTransaction(rawCutoff, itemCutoff);
      PruneReported(s, rawCutoff, itemCutoff, r);
    }

    /** The transaction of a channel purge. */
    method PurgeTransaction(channel: Id) returns (itemCount: nat, rawCount: nat, affected: set<Id>)
      requires Valid() && channel in db.channels
      modifies this`db, this`index
      ensures Valid() && db == AfterPurge(old(db), channel)
      ensures itemCount == |ItemsOfChannel(old(db), channel)| && rawCount == |RawsOfChannel(old(db), channel)|
      ensures affected == ClustersHolding(old(db), ItemsOfChannel(old(db), channel))
    {
      PurgeStatements(db, channel);
      var deadItems, deadRaws := ItemsOfChannel(db, channel), RawsOfChannel(db, channel);
      affected, itemCount, rawCount := ClustersHolding(db, deadItems), |deadItems|, |deadRaws|;
      DeleteChannelRow(channel, deadRaws, deadItems);
      var _ := RepairClusters(affected);
    }

    /** Hard-delete a channel with its content; the counts are those of the audit notice. */
    method PurgeChannel(channel: Id) returns (found: bool, itemCount: nat, rawCount: nat, affected: set<Id>)
      requires Valid()
      modifies this`db, this`index
      ensures Valid() && db == Apply(old(db), Purge(channel))
      ensures found == (channel in old(db).channels)
      ensures found ==> OtherChannelsRetained(old(db), channel, db)
      ensures found ==> itemCount == |set i | i in old(db).items && old(db).items[i].channelId == channel|
      ensures found ==> rawCount == |set r | r in old(db).raws && old(db).raws[r].channelId == channel|
      ensures found ==> forall c :: c in affected <==> HoldsChannel(old(db), c, channel)
    {
      if channel !in db.channels {
        return false, 0, 0, {};
      }
      PurgeContent(db, channel);
      PurgeReported(db, channel);
      found := true;
      itemCount, rawCount, affected := PurgeTransaction(channel);
    }

    /** The single-row inserts: a channel, a raw message, a decision or a delivery. */
    method InsertRow(op: Op)
      requires Valid() && (op.AddChannel? || op.AddRaw? || op.Decide? || op.Deliver?)
      modifies this`db
      ensures Valid() && db == Apply(old(db), op)
    {
      InsertKeeps(db, op);
      match op
      case AddChannel(c) => db := db.(channels := db.channels + {c});
      case AddRaw(r) =>
        if r.channelId in db.channels { db := db.(raws := db.raws[NextId(db.raws.Keys) := r]); }
      case Decide(d) =>
        if DecisionResolves(db, d) { db := db.(decisions := db.decisions[NextId(db.decisions.Keys) := d]); }
      case Deliver(c, t) =>
        if c in db.clusters && c !in db.deliveries { db := db.(deliveries := db.deliveries[c := t]); }
    }

    method Perform(op: Op)
      requires Valid()
      modifies this`db, this`index
      ensures Valid() && db == Apply(old(db), op)
    {
      match op
      case Upsert(c, m, f, now) => var _ := UpsertItem(c, m, f, now);
      case Assign(i, matched) => var _ := AssignItem(i, matched);
      case Merge(ids) =>
        AscendingHolds(ids);
        var _ := MergeClusters(Ascending(ids));
      case Prune(r, i) => var _ := PruneOnce(r, i);
      case Purge(c) => var _, _, _, _ := PurgeChannel(c);
      case _ => InsertRow(op);
    }

    /** Any run of transactions from any well-formed database: the tables are those of the one-shot
        descriptions, and the trigger-maintained index is the one recomputed from the items. */
    method Execute(ops: seq<Op>)
      requires Valid()
      modifies this`db, this`index
      ensures db == Run(old(db), ops) && WellFormed(db)
      ensures Agrees(tokenize, index, db.items) && HoldsEveryText(tokenize, index, db.items)
    {
      for k := 0 to |ops|
        invariant Valid() && db == Run(old(db), ops[..k])
      {
        assert ops[..k + 1][..k] == ops[..k];
        Perform(ops[k]);
      }
      assert ops[..|ops|] == ops;
      AgreementHoldsEveryText(tokenize, index, db.items);
    }
  }

  lemma AscendingHolds(ids: set<Id>)
    ensures IdSet(Ascending(ids)) == ids
  {
    AscendingSorts(ids);
  }

  /** Cluster `c` has a member from the channel. */
  ghost predicate HoldsChannel(s: Store, c: Id, channel: Id) {
    exists m :: m in s.members && m.cluster == c && m.item in s.items && s.items[m.item].channelId == channel
  }

  lemma PurgeReported(s: Store, channel: Id)
    ensures ItemsOfChannel(s, channel) == set i | i in s.items && s.items[i].channelId == channel
    ensures RawsOfChannel(s, channel) == set r | r in s.raws && s.raws[r].channelId == channel
    ensures forall c :: c in ClustersHolding(s, ItemsOfChannel(s, channel)) <==> HoldsChannel(s, c, channel)
  {
  }

  /** The numbers of a prune summary, counted in the store `s` it ran on: the rows older than a cutoff,
      the clusters with a member that old, and those of them with no other member. */
  ghost predicate PruneReport(s: Store, rawCutoff: int, itemCutoff: int, r: PruneSummary) {
    var oldRaws := set x | x in s.raws && s.raws[x].createdAt < rawCutoff;
    var oldItems := set i | i in s.items && s.items[i].createdAt < itemCutoff;
    && r.rawsDeleted == |oldRaws| && Batched(r.rawBatches, r.rawsDeleted)
    && r.itemsDeleted == |oldItems| && Batched(r.itemBatches, r.itemsDeleted)
    && (forall c :: c in r.affected <==> exists m :: m in s.members && m.cluster == c && m.item in oldItems)
    && r.recomputed == |r.affected|
    && r.emptied == |set c | c in s.clusters && c in r.affected && MembersOf(s, c) <= oldItems|
    && r.orphanedMembers == 0 && r.orphanedDecisions == 0
  }

  /** The summary in terms of the rows `raws` and `items` that were deleted. */
  ghost predicate Summarised(s: Store, raws: set<Id>, items: set<Id>, r: PruneSummary) {
    && r.rawsDeleted == |raws| && Batched(r.rawBatches, r.rawsDeleted)
    && r.itemsDeleted == |items| && Batched(r.itemBatches, r.itemsDeleted)
    && r.affected == ClustersHolding(s, items) && r.recomputed == |r.affected| && r.emptied == |Gone(s, items)|
    && r.orphanedMembers == 0 && r.orphanedDecisions == 0
  }

  lemma PruneReported(s: Store, rawCutoff: int, itemCutoff: int, r: PruneSummary)
    requires Summarised(s, ExpiredRaws(s, rawCutoff), ExpiredItems(s, itemCutoff), r)
    ensures PruneReport(s, rawCutoff, itemCutoff, r)
  {
    var oldItems := set i | i in s.items && s.items[i].createdAt < itemCutoff;
    assert ExpiredItems(s, itemCutoff) == oldItems;
    assert ExpiredRaws(s, rawCutoff) == set x | x in s.raws && s.raws[x].createdAt < rawCutoff;
    GoneMeans(s, oldItems);
  }

  lemma GoneMeans(s: Store, dead: set<Id>)
    ensures Gone(s, dead) == set c | c in s.clusters && c in ClustersHolding(s, dead) && MembersOf(s, c) <= dead
  {
    forall c | c in s.clusters && c in ClustersHolding(s, dead) ensures c in Gone(s, dead) <==>
        MembersOf(s, c) <= dead {
      forall m | m in s.members && m.cluster == c ensures m.item in MembersOf(s, c) {}
    }
  }

  lemma DeleteNoItems(s: Store)
    ensures DeleteItems(s, {}) == s
  {
    var t := DeleteItems(s, {});
    assert t.items == s.items && t.members == s.members;
    assert t.clusters == s.clusters && t.decisions == s.decisions;
  }

  /** What the caller of a merge is told, against the store `s` it ran on. */
  ghost predicate MergeReport(s: Store, ids: set<Id>, r: MergeResult) {
    if |ids| < 2 then r == TooFewClusters
    else
      var target, sources := Smallest(ids), ids - {Smallest(ids)};
      var moved := |set m | m in s.members && m.cluster in sources|;
      var removed := |set c | c in s.clusters && c in sources|;
      if target !in s.clusters then r == TargetMissing(target)
      else if removed > 0 && ItemsIn(s, ids) == {} then r == NoTargetItem
      else r == MergeDone(target, sources, moved, removed, removed > 0)
  }

  /** A request joins nothing exactly when its target is missing, no other cluster of it is live, or
      none of its clusters holds an item. */
  lemma JoinsNothing(s: Store, ids: set<Id>)
    requires WellFormed(s) && |ids| >= 2
    ensures var sources := ids - {Smallest(ids)};
            var live := set c | c in s.clusters && c in sources;
            && (JoinedBy(s, ids) == {} <==> Smallest(ids) !in s.clusters || live == {} || ItemsIn(s, ids) == {})
            && (live == {} ==> (set m | m in s.members && m.cluster in sources) == {})
  {
    var live := set c | c in s.clusters && c in ids - {Smallest(ids)};
    if Smallest(ids) in s.clusters {
      assert ids * s.clusters.Keys == live + {Smallest(ids)};
      assert live != {} ==> exists c :: c in live;
    }
  }

  /** When a merge changes nothing, and that it keeps the store well formed. */
  lemma MergeOutcome(s: Store, ids: set<Id>)
    requires WellFormed(s)
    ensures WellFormed(AfterMerge(s, ids)) && AfterMerge(s, ids).items == s.items
    ensures |ids| < 2 ==> AfterMerge(s, ids) == s
    ensures |ids| >= 2 ==>
              var sources := ids - {Smallest(ids)};
              var moved := |set m | m in s.members && m.cluster in sources|;
              var removed := |set c | c in s.clusters && c in sources|;
              && (Smallest(ids) !in s.clusters || removed == 0 || ItemsIn(s, ids) == {} ==> AfterMerge(s, ids) == s)
              && (Smallest(ids) in s.clusters && removed > 0 && ItemsIn(s, ids) != {} ==>
                  AfterMerge(s, ids) == Merged(s, ids))
              && (removed == 0 ==> moved == 0)
  {
    AfterMergeKeeps(s, ids);
    if |ids| >= 2 {
      JoinsNothing(s, ids);
    }
  }

  lemma MovedClusters(s: Store, ids: set<Id>)
    requires ids != {} && Smallest(ids) in s.clusters
    ensures var target := Smallest(ids);
            var t := Recompute(DeleteClusters(MoveMembers(s, target, ids - {target}), ids - {target}), {target});
            && target in t.clusters && t.clusters[target] == Best(s.items, ItemsIn(s, ids))
            && (ItemsIn(s, ids) != {} ==> t.clusters == Merged(s, ids).clusters)
  {
    MovedItems(s, ids);
  }

  /** Move, delete, recompute: together they are `Merged`, up to the event row. */
  lemma MergeStatements(s: Store, ids: set<Id>)
    requires |ids| >= 2
    ensures var target := Smallest(ids);
            var t := Recompute(DeleteClusters(MoveMembers(s, target, ids - {target}), ids - {target}), {target});
            target in s.clusters ==>
            && target in t.clusters && (t.clusters[target].None? <==> ItemsIn(s, ids) == {})
            && (ItemsIn(s, ids) != {} ==>
                  var event := Decision(t.clusters[target].value, Some(target), None, ids - {target});
                  t.(decisions := t.decisions[NextId(t.decisions.Keys) := event]) == Merged(s, ids))
  {
    var target := Smallest(ids);
    if target in s.clusters {
      MovedClusters(s, ids);
      MovedMembers(s, ids);
      assert DeleteClusters(MoveMembers(s, target, ids - {target}), ids - {target}).decisions.Keys == s.decisions.Keys;
    }
  }

  lemma MovedMembers(s: Store, ids: set<Id>)
    requires ids != {}
    ensures var target := Smallest(ids);
            DeleteClusters(MoveMembers(s, target, ids - {target}), ids - {target}).members
            == (set m | m in s.members :: Member(if m.cluster in ids then target else m.cluster, m.item))
  {
    var target := Smallest(ids);
    var left := DeleteClusters(MoveMembers(s, target, ids - {target}), ids - {target}).members;
    var right := set m | m in s.members :: Member(if m.cluster in ids then target else m.cluster, m.item);
    forall m | m in left ensures m in right {
      assert m in s.members ==> m == Member(m.cluster, m.item);
    }
  }

  lemma MovedItems(s: Store, ids: set<Id>)
    requires ids != {}
    ensures var target := Smallest(ids);
            ItemsIn(DeleteClusters(MoveMembers(s, target, ids - {target}), ids - {target}), {target}) == ItemsIn(s, ids)
  {
    var target := Smallest(ids);
    var t := DeleteClusters(MoveMembers(s, target, ids - {target}), ids - {target});
    forall i | i in ItemsIn(s, ids) ensures i in ItemsIn(t, {target}) {
      var m :| m in s.members && m.cluster in ids && m.item == i;
      if m.cluster == target {
        assert m in t.members;
      } else {
        assert Member(target, m.item) in t.members;
      }
    }
  }
}
