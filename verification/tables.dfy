/**
 * SQL table semantics over rows kept in insertion order: `QueryRow` (the first matching row),
 * `Query` with a `WHERE` clause, `UPDATE ... WHERE` and `DELETE ... WHERE`.
 */
module Tables {
  import opened Wrappers

  /** The index of the first row satisfying `p`: what `QueryRow(...).Scan` reads. */
  function FirstWhere<T>(rows: seq<T>, p: T -> bool): (r: Option<nat>)
    ensures r.Some? ==> r.value < |rows| && p(rows[r.value])
    ensures r.Some? ==> forall j :: 0 <= j < r.value ==> !p(rows[j])
    ensures r.None? <==> forall j :: 0 <= j < |rows| ==> !p(rows[j])
  {
    if |rows| == 0 then None
    else if p(rows[0]) then Some(0)
    else match FirstWhere(rows[1..], p)
      case None => None
      case Some(k) => Some(k + 1)
  }

  /** Two tables whose rows agree on `p` position by position have the same first match. */
  lemma {:induction false} SameFirst<T>(a: seq<T>, b: seq<T>, p: T -> bool)
    requires |a| == |b|
    requires forall j :: 0 <= j < |a| ==> (p(a[j]) <==> p(b[j]))
    ensures FirstWhere(a, p) == FirstWhere(b, p)
  {
    if |a| > 0 {
      SameFirst(a[1..], b[1..], p);
    }
  }

  /** The rows satisfying `p`, in table order: `SELECT ... WHERE p`. */
  function Where<T>(rows: seq<T>, p: T -> bool): (r: seq<T>)
    ensures |r| <= |rows|
    ensures forall i :: 0 <= i < |r| ==> p(r[i])
    ensures forall i :: 0 <= i < |r| ==> r[i] in rows
    ensures forall i :: 0 <= i < |rows| && p(rows[i]) ==> rows[i] in r
  {
    if |rows| == 0 then []
    else if p(rows[0]) then [rows[0]] + Where(rows[1..], p)
    else Where(rows[1..], p)
  }

  lemma WhereCons<T>(x: T, t: seq<T>, p: T -> bool)
    ensures Where([x] + t, p) == (if p(x) then [x] else []) + Where(t, p)
  {
    var s := [x] + t;
    assert s[0] == x && s[1..] == t;
  }

  /** Filtering distributes over concatenation: rows are kept or dropped one by one. */
  lemma {:induction false} WhereAppend<T>(a: seq<T>, b: seq<T>, p: T -> bool)
    ensures Where(a + b, p) == Where(a, p) + Where(b, p)
  {
    if |a| > 0 {
      var t := a[1..];
      assert a == [a[0]] + t;
      assert a + b == [a[0]] + (t + b);
      WhereCons(a[0], t, p);
      WhereCons(a[0], t + b, p);
      WhereAppend(t, b, p);
    } else {
      assert a + b == b;
    }
  }

  /** Filtering a prefix one row longer keeps or drops just that row. */
  lemma WhereStep<T>(rows: seq<T>, i: nat, p: T -> bool)
    requires i < |rows|
    ensures Where(rows[..i + 1], p) == Where(rows[..i], p) + if p(rows[i]) then [rows[i]] else []
  {
    assert rows[..i + 1] == rows[..i] + [rows[i]];
    WhereAppend(rows[..i], [rows[i]], p);
    assert [rows[i]][1..] == [];
  }

  /** Two complementary filters split the rows between them: nothing is lost or duplicated. */
  lemma {:induction false} WherePartition<T>(rows: seq<T>, p: T -> bool, q: T -> bool)
    requires forall x :: q(x) <==> !p(x)
    ensures multiset(Where(rows, p)) + multiset(Where(rows, q)) == multiset(rows)
  {
    if |rows| > 0 {
      WherePartition(rows[1..], p, q);
      assert rows == [rows[0]] + rows[1..];
    }
  }

  /** `UPDATE ... SET f WHERE p`: matching rows are rewritten, the others are left alone. */
  function UpdateWhere<T>(rows: seq<T>, p: T -> bool, f: T -> T): (r: seq<T>)
    ensures |r| == |rows|
    ensures forall i :: 0 <= i < |rows| && p(rows[i]) ==> r[i] == f(rows[i])
    ensures forall i :: 0 <= i < |rows| && !p(rows[i]) ==> r[i] == rows[i]
  {
    seq(|rows|, i requires 0 <= i < |rows| => if p(rows[i]) then f(rows[i]) else rows[i])
  }

  /** The id an `INTEGER PRIMARY KEY` insert receives: above every id in the table. */
  function NextKey<T>(rows: seq<T>, key: T -> int): (id: int)
    ensures id >= 1
    ensures forall i :: 0 <= i < |rows| ==> key(rows[i]) < id
  {
    if |rows| == 0 then 1
    else
      var rest := NextKey(rows[1..], key);
      assert forall i :: 1 <= i < |rows| ==> rows[i] == rows[1..][i - 1];
      if key(rows[0]) >= rest then key(rows[0]) + 1 else rest
  }

  /**
   * `DELETE ... WHERE p`: the rows that do not match stay; with the matching rows they make up
   * the whole table, so nothing else is lost and nothing is duplicated.
   */
  function DeleteWhere<T>(rows: seq<T>, p: T -> bool): (r: seq<T>)
    ensures forall i :: 0 <= i < |r| ==> r[i] in rows && !p(r[i])
    ensures forall i :: 0 <= i < |rows| && !p(rows[i]) ==> rows[i] in r
    ensures multiset(r) + multiset(Where(rows, p)) == multiset(rows)
  {
    var keep := x => !p(x);
    WherePartition(rows, p, keep);
    Where(rows, keep)
  }

  /** Deleting from a table with one more row in front keeps or drops just that row. */
  lemma DeleteCons<T>(rows: seq<T>, p: T -> bool)
    requires |rows| > 0
    ensures DeleteWhere(rows, p) == (if p(rows[0]) then [] else [rows[0]]) + DeleteWhere(rows[1..], p)
  {
  }

  /** No two rows share a key. */
  predicate DistinctKeys<T>(rows: seq<T>, key: T -> int) {
    forall i, j :: 0 <= i < j < |rows| ==> key(rows[i]) != key(rows[j])
  }

  lemma DistinctKeysTail<T>(rows: seq<T>, key: T -> int)
    requires |rows| > 0 && DistinctKeys(rows, key)
    ensures DistinctKeys(rows[1..], key)
    ensures forall m :: 0 <= m < |rows| - 1 ==> key(rows[1..][m]) != key(rows[0])
  {
    var t := rows[1..];
    forall i, j | 0 <= i < j < |t|
      ensures key(t[i]) != key(t[j])
    {
      assert t[i] == rows[i + 1] && t[j] == rows[j + 1];
    }
  }

  lemma DistinctKeysCons<T>(x: T, rest: seq<T>, key: T -> int)
    requires DistinctKeys(rest, key)
    requires forall k :: 0 <= k < |rest| ==> key(rest[k]) != key(x)
    ensures DistinctKeys([x] + rest, key)
  {
    var r := [x] + rest;
    forall i, j | 0 <= i < j < |r|
      ensures key(r[i]) != key(r[j])
    {
      assert r[j] == rest[j - 1];
      if i > 0 {
        assert r[i] == rest[i - 1];
      }
    }
  }

  /** A key that tells the rows apart still tells apart the rows a delete leaves. */
  lemma {:induction false} DeleteKeepsKeysDistinct<T>(rows: seq<T>, p: T -> bool, key: T -> int)
    requires DistinctKeys(rows, key)
    ensures DistinctKeys(DeleteWhere(rows, p), key)
  {
    if |rows| > 0 {
      var t := rows[1..];
      DistinctKeysTail(rows, key);
      DeleteKeepsKeysDistinct(t, p, key);
      DeleteCons(rows, p);
      if !p(rows[0]) {
        var rest := DeleteWhere(t, p);
        forall k | 0 <= k < |rest|
          ensures key(rest[k]) != key(rows[0])
        {
          var m :| 0 <= m < |t| && t[m] == rest[k];
        }
        DistinctKeysCons(rows[0], rest, key);
      }
    }
  }

  /** A delete that matches no row leaves the table as it was. */
  lemma {:induction false} DeleteNothing<T>(rows: seq<T>, p: T -> bool)
    requires forall i :: 0 <= i < |rows| ==> !p(rows[i])
    ensures DeleteWhere(rows, p) == rows
  {
    if |rows| > 0 {
      DeleteNothing(rows[1..], p);
      assert rows == [rows[0]] + rows[1..];
    }
  }

  /** A filter every row passes keeps the table as it is. */
  lemma {:induction false} WhereEverything<T>(rows: seq<T>, p: T -> bool)
    requires forall i :: 0 <= i < |rows| ==> p(rows[i])
    ensures Where(rows, p) == rows
  {
    if |rows| > 0 {
      WhereEverything(rows[1..], p);
      assert rows == [rows[0]] + rows[1..];
    }
  }
}
