/** The FTS5 external-content index over `items(title, body)`: what it should hold, and what
    the rows written by the insert, delete and update triggers do to it. */
module FullText {
  import opened Basics
  import opened Schema

  datatype Column = Title | Body

  /** One term occurrence; the index counts occurrences per row, column and term. */
  datatype Posting = Posting(row: Id, column: Column, term: string)

  type Tokenizer = string -> seq<string>

  /** The terms of a nullable column. */
  function TermsOf(tokenize: Tokenizer, text: Option<string>): seq<string> {
    if text.Some? then tokenize(text.value) else []
  }

  function ColumnPostings(id: Id, column: Column, terms: seq<string>): multiset<Posting> {
    if terms == [] then multiset{}
    else ColumnPostings(id, column, terms[..|terms| - 1]) + multiset{Posting(id, column, terms[|terms| - 1])}
  }

  /** The rows of the index that one item contributes. */
  function Postings(tokenize: Tokenizer, id: Id, item: Item): multiset<Posting> {
    ColumnPostings(id, Title, TermsOf(tokenize, item.title)) + ColumnPostings(id, Body, TermsOf(tokenize, item.body))
  }

  /** How often a column text contains a term. */
  ghost function TermCount(tokenize: Tokenizer, text: Option<string>, term: string): nat {
    match text
    case None => 0
    case Some(t) => multiset(tokenize(t))[term]
  }

  /** How often the items table contains the occurrence `p`. */
  ghost function Occurrences(tokenize: Tokenizer, items: map<Id, Item>, p: Posting): nat {
    if p.row !in items then 0
    else match p.column
      case Title => TermCount(tokenize, items[p.row].title, p.term)
      case Body => TermCount(tokenize, items[p.row].body, p.term)
  }

  /** The index equals the one recomputed from the items table. */
  ghost predicate Agrees(tokenize: Tokenizer, index: multiset<Posting>, items: map<Id, Item>) {
    forall p: Posting :: index[p] == Occurrences(tokenize, items, p)
  }

  lemma {:induction false} ColumnPostingsCount(id: Id, column: Column, terms: seq<string>, p: Posting)
    ensures ColumnPostings(id, column, terms)[p] ==
            if p.row == id && p.column == column then multiset(terms)[p.term] else 0
  {
    if terms != [] {
      ColumnPostingsCount(id, column, terms[..|terms| - 1], p);
      assert terms == terms[..|terms| - 1] + [terms[|terms| - 1]];
    }
  }

  lemma PostingsCount(tokenize: Tokenizer, id: Id, item: Item, p: Posting)
    ensures Postings(tokenize, id, item)[p] == Occurrences(tokenize, map[id := item], p)
  {
    ColumnPostingsCount(id, Title, TermsOf(tokenize, item.title), p);
    ColumnPostingsCount(id, Body, TermsOf(tokenize, item.body), p);
  }

  /** The row inserted by `items_fts_ai` keeps the index in agreement. */
  lemma InsertAgrees(tokenize: Tokenizer, index: multiset<Posting>, items: map<Id, Item>, id: Id, item: Item)
    requires Agrees(tokenize, index, items) && id !in items
    ensures Agrees(tokenize, index + Postings(tokenize, id, item), items[id := item])
  {
    forall p: Posting
      ensures (index + Postings(tokenize, id, item))[p] == Occurrences(tokenize, items[id := item], p)
    {
      PostingsCount(tokenize, id, item, p);
    }
  }

  /** The 'delete' row inserted by `items_fts_ad` keeps the index in agreement. */
  lemma DeleteAgrees(tokenize: Tokenizer, index: multiset<Posting>, items: map<Id, Item>, id: Id)
    requires Agrees(tokenize, index, items) && id in items
    ensures Agrees(tokenize, index - Postings(tokenize, id, items[id]), items - {id})
  {
    forall p: Posting
      ensures (index - Postings(tokenize, id, items[id]))[p] == Occurrences(tokenize, items - {id}, p)
    {
      PostingsCount(tokenize, id, items[id], p);
    }
  }

  /** What agreement means, column by column: a text is indexed under exactly the terms it is split into,
      as often as they occur; a NULL column and an id without a row are not indexed at all. */
  ghost predicate HoldsEveryText(tokenize: Tokenizer, index: multiset<Posting>, items: map<Id, Item>) {
    && (forall id, term | id in items && items[id].title.Some? ::
          index[Posting(id, Title, term)] == multiset(tokenize(items[id].title.value))[term])
    && (forall id, term | id in items && items[id].body.Some? ::
          index[Posting(id, Body, term)] == multiset(tokenize(items[id].body.value))[term])
    && (forall id, term | id in items && items[id].title.None? :: index[Posting(id, Title, term)] == 0)
    && (forall id, term | id in items && items[id].body.None? :: index[Posting(id, Body, term)] == 0)
    && (forall id, column, term | id !in items :: index[Posting(id, column, term)] == 0)
  }

  lemma AgreementHoldsEveryText(tokenize: Tokenizer, index: multiset<Posting>, items: map<Id, Item>)
    ensures Agrees(tokenize, index, items) <==> HoldsEveryText(tokenize, index, items)
  {
    if HoldsEveryText(tokenize, index, items) {
      forall p: Posting ensures index[p] == Occurrences(tokenize, items, p) {
        assert p == Posting(p.row, p.column, p.term);
      }
    }
  }

  /** An index in agreement with a table is the only one. */
  lemma AgreementIsUnique(tokenize: Tokenizer, a: multiset<Posting>, b: multiset<Posting>, items: map<Id, Item>)
    requires Agrees(tokenize, a, items) && Agrees(tokenize, b, items)
    ensures a == b
  {
    forall p: Posting ensures a[p] == b[p] {
      assert a[p] == Occurrences(tokenize, items, p);
    }
  }

  /** The 'rebuild' command: index every row of the table from nothing. */
  method RebuildIndex(tokenize: Tokenizer, items: map<Id, Item>) returns (index: multiset<Posting>)
    ensures Agrees(tokenize, index, items)
  {
    var todo, done := items.Keys, map[];
    index := multiset{};
    while todo != {}
      invariant todo <= items.Keys && done == items - todo
      invariant Agrees(tokenize, index, done)
      decreases |todo|
    {
      var id :| id in todo;
      InsertAgrees(tokenize, index, done, id, items[id]);
      index := index + Postings(tokenize, id, items[id]);
      todo, done := todo - {id}, done[id := items[id]];
    }
    assert done == items;
  }

  /** `items_fts_ad` fired once for every row of a multi-row or cascaded delete. */
  method UnindexRows(tokenize: Tokenizer, before: multiset<Posting>, items: map<Id, Item>, dead: set<Id>)
    returns (index: multiset<Posting>)
    requires Agrees(tokenize, before, items) && dead <= items.Keys
    ensures Agrees(tokenize, index, items - dead)
  {
    var todo, left := dead, items;
    index := before;
    while todo != {}
      invariant todo <= dead && left == items - (dead - todo)
      invariant Agrees(tokenize, index, left)
      decreases |todo|
    {
      var id :| id in todo;
      DeleteAgrees(tokenize, index, left, id);
      index := index - Postings(tokenize, id, left[id]);
      todo, left := todo - {id}, left - {id};
    }
    assert left == items - dead;
  }

  /** `items_fts_au`: unindex the old text of the row, index the new. */
  method ReindexRow(tokenize: Tokenizer, before: multiset<Posting>, items: map<Id, Item>, id: Id, item: Item)
    returns (index: multiset<Posting>)
    requires Agrees(tokenize, before, items) && id in items
    ensures Agrees(tokenize, index, items[id := item])
  {
    DeleteAgrees(tokenize, before, items, id);
    InsertAgrees(tokenize, before - Postings(tokenize, id, items[id]), items - {id}, id, item);
    assert (items - {id})[id := item] == items[id := item];
    index := before - Postings(tokenize, id, items[id]) + Postings(tokenize, id, item);
  }

  /** `items_fts_au` fired once for every updated row. */
  method ReindexRows(tokenize: Tokenizer, before: multiset<Posting>, items: map<Id, Item>, changed: map<Id, Item>)
    returns (index: multiset<Posting>)
    requires Agrees(tokenize, before, items) && changed.Keys <= items.Keys
    ensures Agrees(tokenize, index, items + changed)
  {
    var todo, now := changed.Keys, items;
    index := before;
    while todo != {}
      invariant todo <= changed.Keys && now == items + (changed - todo)
      invariant Agrees(tokenize, index, now)
      decreases |todo|
    {
      var id :| id in todo;
      index := ReindexRow(tokenize, index, now, id, changed[id]);
      todo, now := todo - {id}, now[id := changed[id]];
    }
    assert now == items + changed;
  }
}
