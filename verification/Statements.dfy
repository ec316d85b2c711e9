/** The SQL statements the cluster code issues, each as a transformation of the store that
    includes the foreign-key actions (CASCADE, SET NULL) SQLite runs with it. */
module Statements {
  import opened Basics
  import opened Schema
  import opened Ranking

  /** The items joined to the member rows of the clusters `ids`. */
  function ItemsIn(s: Store, ids: set<Id>): (r: set<Id>)
    ensures r <= s.items.Keys
  {
    set m | m in s.members && m.cluster in ids && m.item in s.items :: m.item
  }

  /** DELETE FROM items: members and decisions of the item go, references to it become NULL. */
  function DeleteItems(s: Store, dead: set<Id>): Store {
    s.(items := s.items - dead,
       members := (set m | m in s.members && m.item !in dead),
       clusters := map c | c in s.clusters :: NullIf(s.clusters[c], dead),
       decisions := map d | d in s.decisions && s.decisions[d].itemId !in dead ::
         s.decisions[d].(candidateId := NullIf(s.decisions[d].candidateId, dead)))
  }

  /** DELETE FROM dedupe_clusters: members and deliveries go, decisions lose the reference. */
  function DeleteClusters(s: Store, dead: set<Id>): Store {
    s.(clusters := s.clusters - dead,
       members := (set m | m in s.members && m.cluster !in dead),
       deliveries := s.deliveries - dead,
       decisions := map d | d in s.decisions ::
         s.decisions[d].(clusterId := NullIf(s.decisions[d].clusterId, dead)))
  }

  /** DELETE FROM raw_messages: items keep their rows and lose the reference. */
  function DeleteRaws(s: Store, dead: set<Id>): Store {
    s.(raws := s.raws - dead,
       items := map i | i in s.items :: s.items[i].(rawMessageId := NullIf(s.items[i].rawMessageId, dead)))
  }

  function RawsOfChannel(s: Store, channel: Id): set<Id> {
    set r | r in s.raws && s.raws[r].channelId == channel
  }

  function ItemsOfChannel(s: Store, channel: Id): set<Id> {
    set i | i in s.items && s.items[i].channelId == channel
  }

  /** INSERT INTO dedupe_members SELECT target, item_id ... ON CONFLICT DO NOTHING. */
  function MoveMembers(s: Store, target: Id, sources: set<Id>): Store {
    s.(members := s.members + set m | m in s.members && m.cluster in sources :: Member(target, m.item))
  }

  /** UPDATE dedupe_clusters SET representative_item_id = the best-ranked member. */
  function Recompute(s: Store, ids: set<Id>): Store {
    s.(clusters := map c | c in s.clusters ::
         if c in ids then Best(s.items, ItemsIn(s, {c})) else s.clusters[c])
  }

  /** The clusters among `ids` that no member row names. */
  function EmptyAmong(s: Store, ids: set<Id>): set<Id> {
    set c | c in s.clusters && c in ids && forall m | m in s.members :: m.cluster != c
  }

  /** The clusters with a member row for one of `items`. */
  function ClustersHolding(s: Store, items: set<Id>): set<Id> {
    set m | m in s.members && m.item in items :: m.cluster
  }

  function OrphanedMembers(s: Store): set<Member> {
    set m | m in s.members && (m.cluster !in s.clusters || m.item !in s.items)
  }

  function OrphanedDecisions(s: Store): set<Id> {
    set d | d in s.decisions && !DecisionResolves(s, s.decisions[d])
  }

  /** What the orphan sweep selects, in any store. */
  lemma OrphansExactly(s: Store)
    ensures forall m :: m in OrphanedMembers(s) <==> m in s.members && (m.cluster !in s.clusters || m.item !in s.items)
    ensures forall d | d in s.decisions ::
              d in OrphanedDecisions(s) <==>
                || s.decisions[d].itemId !in s.items
                || (s.decisions[d].clusterId.Some? && s.decisions[d].clusterId.value !in s.clusters)
                || (s.decisions[d].candidateId.Some? && s.decisions[d].candidateId.value !in s.items)
    ensures OrphanedDecisions(s) <= s.decisions.Keys
  {
  }

  /** The orphan sweep of the prune job finds nothing as long as the foreign keys hold. */
  lemma SweepFindsNothing(s: Store)
    requires WellFormed(s)
    ensures OrphanedMembers(s) == {} && OrphanedDecisions(s) == {}
  {
  }

  /** Deleting in two batches is deleting once. */
  lemma DeleteItemsTwice(s: Store, a: set<Id>, b: set<Id>)
    ensures DeleteItems(DeleteItems(s, a), b) == DeleteItems(s, a + b)
  {
    var once, twice := DeleteItems(s, a + b), DeleteItems(DeleteItems(s, a), b);
    assert once.items == twice.items;
    assert once.members == twice.members;
    assert once.clusters == twice.clusters;
    assert once.decisions == twice.decisions;
  }

  lemma DeleteRawsTwice(s: Store, a: set<Id>, b: set<Id>)
    ensures DeleteRaws(DeleteRaws(s, a), b) == DeleteRaws(s, a + b)
  {
    var once, twice := DeleteRaws(s, a + b), DeleteRaws(DeleteRaws(s, a), b);
    assert once.raws == twice.raws;
    assert once.items == twice.items;
  }
}
