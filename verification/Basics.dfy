/** Optional values, row ids, and the smallest, largest and next id of a table. */
module Basics {

  datatype Option<+T> = None | Some(value: T)

  /** A rowid. */
  datatype Id = Id(n: int)

  /** `before` puts any two elements of `keys` in order, and consistently so. */
  ghost predicate Orders<T(!new)>(keys: set<T>, before: (T, T) -> bool) {
    && (forall a, b | a in keys && b in keys && a != b :: before(a, b) || before(b, a))
    && (forall a, b, c | a in keys && b in keys && c in keys && before(a, b) && before(b, c) :: before(a, c))
  }

  ghost predicate IsFirstOf<T(!new)>(keys: set<T>, before: (T, T) -> bool, first: T) {
    first in keys && forall k | k in keys && k != first :: before(first, k)
  }

  /** A finite set has a first element in every order. */
  lemma {:induction false} FirstExists<T(!new)>(keys: set<T>, before: (T, T) -> bool)
    requires keys != {} && Orders(keys, before)
    ensures exists first :: IsFirstOf(keys, before, first)
    decreases |keys|
  {
    var x :| x in keys;
    if keys == {x} {
      assert IsFirstOf(keys, before, x);
    } else {
      var rest := keys - {x};
      assert keys == rest + {x};
      FirstExists(rest, before);
      var first :| IsFirstOf(rest, before, first);
      assert IsFirstOf(keys, before, if before(x, first) then x else first);
    }
  }

  lemma SmallestExists(keys: set<Id>)
    requires keys != {}
    ensures exists m :: m in keys && forall k | k in keys :: m.n <= k.n
  {
    var before := (a: Id, b: Id) => a.n <= b.n;
    FirstExists(keys, before);
    var m :| IsFirstOf(keys, before, m);
    assert m in keys && forall k | k in keys :: m.n <= k.n;
  }

  lemma LargestExists(keys: set<Id>)
    requires keys != {}
    ensures exists m :: m in keys && forall k | k in keys :: k.n <= m.n
  {
    var before := (a: Id, b: Id) => b.n <= a.n;
    FirstExists(keys, before);
    var m :| IsFirstOf(keys, before, m);
    assert m in keys && forall k | k in keys :: k.n <= m.n;
  }

  function Smallest(keys: set<Id>): (m: Id)
    requires keys != {}
    ensures m in keys && forall k | k in keys :: m.n <= k.n
  {
    SmallestExists(keys);
    var m :| m in keys && forall k | k in keys :: m.n <= k.n;
    m
  }

  function Largest(keys: set<Id>): (m: Id)
    requires keys != {}
    ensures m in keys && forall k | k in keys :: k.n <= m.n
  {
    LargestExists(keys);
    var m :| m in keys && forall k | k in keys :: k.n <= m.n;
    m
  }

  /** The rowid SQLite gives a new row: one more than the largest in use. */
  function NextId(keys: set<Id>): (id: Id)
    ensures id !in keys && forall k | k in keys :: k.n < id.n
    ensures if keys == {} then id == Id(1) else Id(id.n - 1) in keys
  {
    Id(if keys == {} then 1 else Largest(keys).n + 1)
  }

  /** A set of ids in ascending order. */
  function Ascending(ids: set<Id>): (r: seq<Id>)
    ensures |r| == |ids| && forall k | 0 <= k < |r| :: r[k] in ids
  {
    if ids == {} then [] else
      var m := Smallest(ids);
      [m] + Ascending(ids - {m})
  }

  lemma {:induction false} AscendingSorts(ids: set<Id>)
    ensures forall i, j | 0 <= i < j < |Ascending(ids)| :: Ascending(ids)[i].n < Ascending(ids)[j].n
    ensures forall c | c in ids :: c in Ascending(ids)
    decreases |ids|
  {
    if ids != {} {
      var m := Smallest(ids);
      var rest := Ascending(ids - {m});
      AscendingSorts(ids - {m});
      forall k | 0 <= k < |rest| ensures m.n < rest[k].n {
        assert rest[k] in ids - {m};
        assert rest[k] != m;
      }
    }
  }
}
