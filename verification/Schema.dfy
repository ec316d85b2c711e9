/** The tables the dedupe, prune, purge and timeline code shares, as one value.
    A row's key is its SQLite rowid; `dedupe_members` has a two-column key, so it is a set. */
module Schema {
  import opened Basics

  /** One `raw_messages` row. */
  datatype RawMessage = RawMessage(channelId: Id, createdAt: int)

  /** One `items` row; times are integers. */
  datatype Item = Item(
    channelId: Id,
    messageId: int,
    rawMessageId: Option<Id>,
    publishedAt: Option<int>,
    title: Option<string>,
    body: Option<string>,
    canonicalUrl: Option<string>,
    createdAt: int)

  /** One `dedupe_members` row. */
  datatype Member = Member(cluster: Id, item: Id)

  /** One `dedupe_decisions` row; `sources` stands for the merge metadata. */
  datatype Decision = Decision(itemId: Id, clusterId: Option<Id>, candidateId: Option<Id>, sources: set<Id>)

  /** `clusters` maps a cluster id to its nullable representative item id;
      `deliveries` maps a cluster id to the Telegram message id that delivered it. */
  datatype Store = Store(
    channels: set<Id>,
    raws: map<Id, RawMessage>,
    items: map<Id, Item>,
    clusters: map<Id, Option<Id>>,
    members: set<Member>,
    decisions: map<Id, Decision>,
    deliveries: map<Id, string>)

  const EMPTY_STORE := Store({}, map[], map[], map[], {}, map[], map[])

  /** The items recorded as members of cluster `c`. */
  function MembersOf(s: Store, c: Id): set<Id> {
    set m | m in s.members && m.cluster == c :: m.item
  }

  /** Foreign keys of `raw_messages` and `items`, and the unique key on (channel, message). */
  ghost predicate ContentKeys(s: Store) {
    && (forall r | r in s.raws :: s.raws[r].channelId in s.channels)
    && (forall i | i in s.items ::
          s.items[i].channelId in s.channels && References(s.items[i].rawMessageId, s.raws.Keys))
    && (forall i, j | i in s.items && j in s.items && SameMessage(s.items[i], s.items[j]) :: i == j)
  }

  predicate SameMessage(a: Item, b: Item) {
    a.channelId == b.channelId && a.messageId == b.messageId
  }

  /** Foreign keys of `dedupe_clusters`, `dedupe_members` and `bot_deliveries`. */
  ghost predicate ClusterKeys(s: Store) {
    && (forall c | c in s.clusters :: References(s.clusters[c], s.items.Keys))
    && (forall m | m in s.members :: m.cluster in s.clusters && m.item in s.items)
    && s.deliveries.Keys <= s.clusters.Keys
  }

  /** Foreign keys of `dedupe_decisions`. */
  ghost predicate DecisionKeys(s: Store) {
    forall d | d in s.decisions :: DecisionResolves(s, s.decisions[d])
  }

  /** What the database enforces. */
  ghost predicate WellFormed(s: Store) {
    ContentKeys(s) && ClusterKeys(s) && DecisionKeys(s)
  }

  /** A nullable foreign key is null or names an existing row. */
  predicate References(key: Option<Id>, rows: set<Id>) {
    key.Some? ==> key.value in rows
  }

  predicate DecisionResolves(s: Store, d: Decision) {
    && d.itemId in s.items
    && References(d.clusterId, s.clusters.Keys)
    && References(d.candidateId, s.items.Keys)
  }

  /** The cluster invariant: every cluster has a representative, and it is one of its members. */
  ghost predicate Represented(s: Store) {
    forall c | c in s.clusters :: s.clusters[c].Some? && Member(c, s.clusters[c].value) in s.members
  }

  ghost predicate Healthy(s: Store) {
    WellFormed(s) && Represented(s)
  }

  /** ON DELETE SET NULL: forget a reference to a deleted row. */
  function NullIf(key: Option<Id>, dead: set<Id>): (r: Option<Id>)
    ensures r == None || (r == key && r.value !in dead)
  {
    if key.Some? && key.value in dead then None else key
  }
}
