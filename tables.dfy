/**
 * A repository's table: rows keyed by their generated id. The queries the services
 * issue (`find`, `findOne` and `count` with a `where` on one column) are modelled here
 * once. The queries carry no ORDER BY, so the database promises no order; the model
 * fixes one, ascending id, and what it states about the source is which rows come back,
 * each once.
 */
module Tables {
  import opened Common

  /** The predicate of `find()` without a `where`: every row matches. */
  function Any<T>(x: T): bool { true }

  /** `find({ where: { key: v } })` over the ids below n: the matching rows in ascending id order. */
  function Where<T, K(==)>(rows: map<int, T>, key: T -> K, v: K, n: int): (r: seq<T>)
    ensures forall i :: 0 <= i < |r| ==> key(r[i]) == v
    decreases n
  {
    if n <= 0 then []
    else Where(rows, key, v, n - 1) + (if n - 1 in rows && key(rows[n - 1]) == v then [rows[n - 1]] else [])
  }

  /** `findOne({ where: { key: v } })`: the first match, or nothing. */
  function FindOne<T, K(==)>(rows: map<int, T>, key: T -> K, v: K, n: int): Option<T> {
    var found := Where(rows, key, v, n);
    if |found| == 0 then None else Some(found[0])
  }

  /** The ids of the rows whose column `key` holds v. */
  function Matching<T, K(==)>(rows: map<int, T>, key: T -> K, v: K): set<int> {
    set id | id in rows && key(rows[id]) == v
  }

  /** Every row's id is below n. */
  predicate Below<T>(rows: map<int, T>, n: int) {
    forall id :: id in rows ==> 0 <= id < n
  }

  /** A unique column: no two rows hold the same value in it. */
  predicate UniqueKey<T, K(==)>(rows: map<int, T>, key: T -> K) {
    forall i, j :: i in rows && j in rows && key(rows[i]) == key(rows[j]) ==> i == j
  }

  /** `delete({ key: v })` (an ON DELETE CASCADE): every row whose column holds v is removed. */
  function DeleteWhere<T, K(==)>(rows: map<int, T>, key: T -> K, v: K): (r: map<int, T>)
    ensures forall id :: id in r <==> id in rows && key(rows[id]) != v
    ensures forall id :: id in r ==> r[id] == rows[id]
    ensures forall id :: id in r ==> key(r[id]) != v
  {
    map id | id in rows && key(rows[id]) != v :: rows[id]
  }

  /** A row is found exactly when some row with an id below n matches. */
  lemma {:induction false} WhereMember<T, K>(rows: map<int, T>, key: T -> K, v: K, n: int, x: T)
    ensures x in Where(rows, key, v, n) <==> exists id :: 0 <= id < n && id in rows && rows[id] == x && key(x) == v
    decreases n
  {
    if n > 0 {
      WhereMember(rows, key, v, n - 1, x);
    }
  }

  /** On a table whose rows carry their own id, every answer is the row stored under its id, below n. */
  lemma {:induction false} WhereStored<T, K>(rows: map<int, T>, idOf: T -> int, key: T -> K, v: K, n: int)
    requires forall id :: id in rows ==> idOf(rows[id]) == id
    ensures forall i :: 0 <= i < |Where(rows, key, v, n)| ==>
      var x := Where(rows, key, v, n)[i]; 0 <= idOf(x) < n && idOf(x) in rows && rows[idOf(x)] == x
    decreases n
  {
    if n > 0 {
      WhereStored(rows, idOf, key, v, n - 1);
      var before := Where(rows, key, v, n - 1);
      var r := Where(rows, key, v, n);
      forall i | 0 <= i < |r|
        ensures 0 <= idOf(r[i]) < n && idOf(r[i]) in rows && rows[idOf(r[i])] == r[i]
      {
        if i < |before| {
          assert r[i] == before[i];
        } else {
          assert r[i] == rows[n - 1];
        }
      }
    }
  }

  /** ... and the answers come in strictly ascending id order. */
  lemma {:induction false} WhereAscending<T, K>(rows: map<int, T>, idOf: T -> int, key: T -> K, v: K, n: int)
    requires forall id :: id in rows ==> idOf(rows[id]) == id
    ensures forall i, j :: 0 <= i < j < |Where(rows, key, v, n)| ==>
      idOf(Where(rows, key, v, n)[i]) < idOf(Where(rows, key, v, n)[j])
    decreases n
  {
    if n > 0 {
      WhereAscending(rows, idOf, key, v, n - 1);
      WhereStored(rows, idOf, key, v, n - 1);
      var before := Where(rows, key, v, n - 1);
      var r := Where(rows, key, v, n);
      forall i, j | 0 <= i < j < |r|
        ensures idOf(r[i]) < idOf(r[j])
      {
        assert r[i] == before[i];
        if j < |before| {
          assert r[j] == before[j];
        } else {
          assert r[j] == rows[n - 1];
        }
      }
    }
  }

  /** Every matching row below n is among the answers. */
  lemma WhereComplete<T, K>(rows: map<int, T>, key: T -> K, v: K, n: int)
    ensures forall id :: 0 <= id < n && id in rows && key(rows[id]) == v ==> rows[id] in Where(rows, key, v, n)
  {
    forall id | 0 <= id < n && id in rows && key(rows[id]) == v
      ensures rows[id] in Where(rows, key, v, n)
    {
      WhereMember(rows, key, v, n, rows[id]);
    }
  }

  /**
   * r is exactly the answer to `find({ where: { key: v } })` on a table whose rows carry
   * their own id: stored rows that match, each once, in ascending id order, and all of them.
   */
  ghost predicate Answers<T, K>(rows: map<int, T>, idOf: T -> int, key: T -> K, v: K, r: seq<T>) {
    && (forall i :: 0 <= i < |r| ==> key(r[i]) == v && idOf(r[i]) in rows && rows[idOf(r[i])] == r[i])
    && (forall i, j :: 0 <= i < j < |r| ==> idOf(r[i]) < idOf(r[j]))
    && (forall id :: id in rows && key(rows[id]) == v ==> rows[id] in r)
  }

  lemma WhereAnswers<T, K>(rows: map<int, T>, idOf: T -> int, key: T -> K, v: K, n: int)
    requires forall id :: id in rows ==> 0 <= id < n && idOf(rows[id]) == id
    ensures Answers(rows, idOf, key, v, Where(rows, key, v, n))
  {
    WhereStored(rows, idOf, key, v, n);
    WhereAscending(rows, idOf, key, v, n);
    WhereComplete(rows, key, v, n);
  }

  /** `count({ where })` agrees with the number of matching ids. */
  lemma {:induction false} WhereCount<T, K>(rows: map<int, T>, key: T -> K, v: K, n: int)
    requires Below(rows, n)
    ensures |Where(rows, key, v, n)| == |Matching(rows, key, v)|
  {
    CountBelow(rows, key, v, n);
    assert (set id | id in rows && 0 <= id < n && key(rows[id]) == v) == Matching(rows, key, v);
  }

  /** The counting behind WhereCount, for the ids below n. */
  lemma {:induction false} CountBelow<T, K>(rows: map<int, T>, key: T -> K, v: K, n: int)
    ensures |Where(rows, key, v, n)| == |set id | id in rows && 0 <= id < n && key(rows[id]) == v|
    decreases n
  {
    var now := set id | id in rows && 0 <= id < n && key(rows[id]) == v;
    if n <= 0 {
      assert now == {};
    } else {
      CountBelow(rows, key, v, n - 1);
      var before := set id | id in rows && 0 <= id < n - 1 && key(rows[id]) == v;
      if n - 1 in rows && key(rows[n - 1]) == v {
        assert now == before + {n - 1};
        assert n - 1 !in before;
      } else {
        assert now == before;
      }
    }
  }

  /** Inserting a row under an unused id adds that id to the matches exactly when the row matches. */
  lemma MatchingInsert<T, K>(rows: map<int, T>, key: T -> K, v: K, k: int, x: T)
    requires k !in rows
    ensures Matching(rows[k := x], key, v) == Matching(rows, key, v) + (if key(x) == v then {k} else {})
    ensures |Matching(rows[k := x], key, v)| == |Matching(rows, key, v)| + (if key(x) == v then 1 else 0)
  {
    assert Matching(rows[k := x], key, v) == Matching(rows, key, v) + (if key(x) == v then {k} else {});
  }

  /** Removing the row k removes k from the matches and nothing else. */
  lemma MatchingRemove<T, K>(rows: map<int, T>, key: T -> K, v: K, k: int)
    requires k in rows
    ensures Matching(rows - {k}, key, v) == Matching(rows, key, v) - {k}
    ensures |Matching(rows - {k}, key, v)| + (if key(rows[k]) == v then 1 else 0) == |Matching(rows, key, v)|
  {
    assert Matching(rows - {k}, key, v) == Matching(rows, key, v) - {k};
  }

  /** `findOne` finds nothing exactly when no row below n matches. */
  lemma FindOneNone<T, K>(rows: map<int, T>, key: T -> K, v: K, n: int)
    ensures FindOne(rows, key, v, n).None? <==> forall id :: 0 <= id < n && id in rows ==> key(rows[id]) != v
  {
    if FindOne(rows, key, v, n).None? {
      forall id | 0 <= id < n && id in rows
        ensures key(rows[id]) != v
      {
        WhereMember(rows, key, v, n, rows[id]);
      }
    } else {
      var x := Where(rows, key, v, n)[0];
      WhereMember(rows, key, v, n, x);
    }
  }

  /** On a table whose rows carry their own id, `findOne` returns the stored match with the lowest id. */
  lemma FindOneFirst<T, K>(rows: map<int, T>, idOf: T -> int, key: T -> K, v: K, n: int)
    requires forall id :: id in rows ==> 0 <= id < n && idOf(rows[id]) == id
    ensures var r := FindOne(rows, key, v, n);
      r.Some? ==> idOf(r.value) in rows && rows[idOf(r.value)] == r.value && key(r.value) == v &&
                  forall id :: id in rows && key(rows[id]) == v ==> idOf(r.value) <= id
  {
    WhereAnswers(rows, idOf, key, v, n);
    var w := Where(rows, key, v, n);
    forall id | id in rows && key(rows[id]) == v
      ensures idOf(w[0]) <= id
    {
      var k :| 0 <= k < |w| && w[k] == rows[id];
      assert idOf(w[k]) == id;
    }
  }
}
