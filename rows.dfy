/**
 * `SELECT ... FROM t WHERE p ORDER BY createdAt` over a table kept as a map from primary key to row.
 * SQL leaves the order of rows with equal `createdAt` open; this model breaks such ties by primary key.
 */
module Rows {

  /** Row `a` comes no later than row `b`: earlier creation time, or the same time and a smaller key. */
  predicate Before<R>(m: map<int, R>, created: R -> int, a: int, b: int)
    requires a in m && b in m
  {
    created(m[a]) < created(m[b]) || (created(m[a]) == created(m[b]) && a <= b)
  }

  /** Row `k` comes no later than every row of the table. */
  predicate IsFirst<R>(m: map<int, R>, created: R -> int, k: int)
    requires k in m
  {
    forall j :: j in m ==> Before(m, created, k, j)
  }

  /** A set of keys is empty or has an element. */
  lemma KeysHaveElement(keys: set<int>)
    ensures keys == {} || exists k :: k in keys
  {
    if forall k :: k !in keys {
      assert keys == {};
    }
  }

  /** A non-empty table has a first row. */
  lemma {:induction false} FirstExists<R>(m: map<int, R>, created: R -> int)
    requires m.Keys != {}
    ensures exists k :: k in m && IsFirst(m, created, k)
    decreases m.Keys
  {
    KeysHaveElement(m.Keys);
    var x :| x in m.Keys;
    var rest := m - {x};
    if rest.Keys == {} {
      assert m.Keys == {x};
      assert IsFirst(m, created, x);
    } else {
      FirstExists(rest, created);
      var k :| k in rest && IsFirst(rest, created, k);
      if Before(m, created, x, k) {
        forall j | j in m ensures Before(m, created, x, j) {
          if j != x { assert j in rest && Before(rest, created, k, j); }
        }
      } else {
        forall j | j in m ensures Before(m, created, k, j) {
          if j != x { assert j in rest && Before(rest, created, k, j); }
        }
      }
    }
  }

  /** The first row of a non-empty table; unique, since keys break ties. */
  function First<R>(m: map<int, R>, created: R -> int): (k: int)
    requires m.Keys != {}
    ensures k in m && IsFirst(m, created, k)
  {
    FirstExists(m, created);
    var k :| k in m && IsFirst(m, created, k);
    k
  }

  /** Removing a row does not change how the remaining rows compare. */
  lemma BeforeWithout<R>(m: map<int, R>, created: R -> int, k: int, a: int, b: int)
    requires a in m - {k} && b in m - {k}
    ensures Before(m - {k}, created, a, b) == Before(m, created, a, b)
  {
  }

  /** Putting the first row in front of the ordered rest keeps the rows distinct and in order. */
  lemma ConsOrdered<R>(m: map<int, R>, created: R -> int, k: int, tail: seq<int>)
    requires k in m && IsFirst(m, created, k)
    requires forall j :: j in tail <==> j in m - {k}
    requires forall i, j :: 0 <= i < j < |tail| ==> tail[i] != tail[j]
    requires forall i, j :: 0 <= i < j < |tail| ==> Before(m - {k}, created, tail[i], tail[j])
    ensures forall j :: j in [k] + tail <==> j in m
    ensures forall i, j :: 0 <= i < j < |[k] + tail| ==> ([k] + tail)[i] != ([k] + tail)[j]
    ensures forall i, j :: 0 <= i < j < |[k] + tail| ==> Before(m, created, ([k] + tail)[i], ([k] + tail)[j])
  {
    var ks := [k] + tail;
    forall i, j | 0 <= i < j < |ks| ensures ks[i] in m && ks[j] in m && ks[i] != ks[j] && Before(m, created, ks[i], ks[j]) {
      assert ks[j] == tail[j - 1] && tail[j - 1] in tail;
      if i == 0 {
        assert ks[j] == tail[j - 1] && tail[j - 1] in tail;
      } else {
        assert ks[i] == tail[i - 1] && ks[j] == tail[j - 1];
        assert tail[i - 1] in tail && tail[j - 1] in tail;
        BeforeWithout(m, created, k, ks[i], ks[j]);
      }
    }
  }

  /** The keys of a table in `ORDER BY createdAt` order: each key once, and no row before one that precedes it. */
  function OrderedKeys<R>(m: map<int, R>, created: R -> int): (ks: seq<int>)
    ensures |ks| == |m|
    ensures forall k :: k in ks <==> k in m
    ensures forall i, j :: 0 <= i < j < |ks| ==> ks[i] != ks[j]
    ensures forall i, j :: 0 <= i < j < |ks| ==> Before(m, created, ks[i], ks[j])
    decreases m.Keys
  {
    if m.Keys == {} then
      []
    else
      var k := First(m, created);
      var rest := m - {k};
      assert rest.Keys == m.Keys - {k};
      var tail := OrderedKeys(rest, created);
      ConsOrdered(m, created, k, tail);
      [k] + tail
  }

  /** The rows of `m` that satisfy `p`: the WHERE clause. */
  function Where<R>(m: map<int, R>, p: R -> bool): map<int, R> {
    map k | k in m && p(m[k]) :: m[k]
  }

  /** The rows at the given keys, in that order. */
  function Project<R>(m: map<int, R>, ks: seq<int>): (rows: seq<R>)
    requires forall i :: 0 <= i < |ks| ==> ks[i] in m
    ensures |rows| == |ks|
    ensures forall i :: 0 <= i < |ks| ==> rows[i] == m[ks[i]]
  {
    seq(|ks|, i requires 0 <= i < |ks| => m[ks[i]])
  }

  /** The projected ordered keys of `Where(m, p)` are exactly the matching rows, each once, in creation order. */
  lemma SelectFacts<R>(m: map<int, R>, id: R -> int, created: R -> int, p: R -> bool, ks: seq<int>, rows: seq<R>)
    requires forall k :: k in m ==> id(m[k]) == k
    requires ks == OrderedKeys(Where(m, p), created)
    requires |rows| == |ks| && forall i :: 0 <= i < |ks| ==> ks[i] in m && rows[i] == m[ks[i]]
    ensures forall i :: 0 <= i < |rows| ==> id(rows[i]) in m && m[id(rows[i])] == rows[i] && p(rows[i])
    ensures forall k :: k in m && p(m[k]) ==> m[k] in rows
    ensures forall i, j :: 0 <= i < j < |rows| ==> id(rows[i]) != id(rows[j])
    ensures forall i, j :: 0 <= i < j < |rows| ==>
      created(rows[i]) < created(rows[j]) || (created(rows[i]) == created(rows[j]) && id(rows[i]) < id(rows[j]))
  {
    var sub := Where(m, p);
    forall i | 0 <= i < |rows| ensures id(rows[i]) in m && m[id(rows[i])] == rows[i] && p(rows[i]) {
      assert ks[i] in ks && ks[i] in sub;
    }
    forall k | k in m && p(m[k]) ensures m[k] in rows {
      assert k in sub;
      var i :| 0 <= i < |ks| && ks[i] == k;
      assert rows[i] == m[k];
    }
    forall i, j | 0 <= i < j < |rows|
      ensures id(rows[i]) != id(rows[j])
      ensures created(rows[i]) < created(rows[j]) || (created(rows[i]) == created(rows[j]) && id(rows[i]) < id(rows[j]))
    {
      assert Before(sub, created, ks[i], ks[j]);
      assert ks[i] in ks && ks[j] in ks;
      assert sub[ks[i]] == m[ks[i]] && sub[ks[j]] == m[ks[j]];
    }
  }

  /**
   * `SELECT * FROM m WHERE p ORDER BY createdAt` over a table whose rows sit under their own `id`:
   * exactly the matching rows, each once, in creation order (ties by id).
   */
  function Select<R>(m: map<int, R>, id: R -> int, created: R -> int, p: R -> bool): (rows: seq<R>)
    requires forall k :: k in m ==> id(m[k]) == k
    ensures |rows| == |Where(m, p)|
    ensures forall i :: 0 <= i < |rows| ==> id(rows[i]) in m && m[id(rows[i])] == rows[i] && p(rows[i])
    ensures forall k :: k in m && p(m[k]) ==> m[k] in rows
    ensures forall i, j :: 0 <= i < j < |rows| ==> id(rows[i]) != id(rows[j])
    ensures forall i, j :: 0 <= i < j < |rows| ==>
      created(rows[i]) < created(rows[j]) || (created(rows[i]) == created(rows[j]) && id(rows[i]) < id(rows[j]))
  {
    var ks := OrderedKeys(Where(m, p), created);
    assert forall i :: 0 <= i < |ks| ==> ks[i] in m by {
      forall i | 0 <= i < |ks| ensures ks[i] in m { assert ks[i] in ks; }
    }
    var rows := Project(m, ks);
    SelectFacts(m, id, created, p, ks, rows);
    rows
  }
}
