/**
 * A hash index of one column: value -> bucket of row positions.
 *
 * The pure functions below (Added, Removed, Lookup, Has) state what each
 * operation of the index does to its data map; the class Index performs them
 * in place. `Consistent` is the invariant that ties an index to the rows of
 * its table.
 */
module Indexes {
  import opened Values

  type Position = nat

  /** The contents of an index: a bucket of positions per stored value. */
  type IndexData = map<Value, seq<Position>>

  /** The bucket stored for `v`, empty when none is stored. */
  function Bucket(d: IndexData, v: Value): seq<Position>
  {
    if v in d then d[v] else []
  }

  predicate Distinct(s: seq<Position>)
  {
    forall i, j :: 0 <= i < j < |s| ==> s[i] != s[j]
  }

  predicate Ascending(s: seq<Position>)
  {
    forall i, j :: 0 <= i < j < |s| ==> s[i] < s[j]
  }

  /** No bucket is stored empty. */
  ghost predicate NoEmptyBucket(d: IndexData)
  {
    forall v :: v in d ==> d[v] != []
  }

  /** `s` with every occurrence of `p` dropped and the other positions kept in order. */
  function Without(s: seq<Position>, p: Position): (r: seq<Position>)
    ensures forall x :: x in r <==> x in s && x != p
    ensures p !in s ==> r == s
    ensures Distinct(s) ==> Distinct(r)
  {
    if s == [] then []
    else
      var front, last := s[..|s| - 1], s[|s| - 1];
      assert s == front + [last];
      var kept := Without(front, p);
      if last == p then kept
      else
        assert Distinct(s) ==> last !in front;
        kept + [last]
  }

  /** Dropping `p` distributes over concatenation: the survivors keep their order. */
  lemma {:induction false} WithoutConcat(a: seq<Position>, b: seq<Position>, p: Position)
    ensures Without(a + b, p) == Without(a, p) + Without(b, p)
    decreases |b|
  {
    if b == [] {
      assert a + b == a;
    } else {
      var front, last := b[..|b| - 1], b[|b| - 1];
      assert (a + b)[..|a + b| - 1] == a + front;
      assert (a + b)[|a + b| - 1] == last;
      WithoutConcat(a, front, p);
    }
  }

  /** Index.Add: a Null value is never indexed; otherwise `p` goes to the end of `v`'s bucket. */
  function Added(d: IndexData, v: Value, p: Position): (d': IndexData)
    ensures v == Null ==> d' == d
    ensures v != Null ==> v in d' && d'[v] == Bucket(d, v) + [p]
    ensures forall w :: w != v ==> (w in d' <==> w in d) && Bucket(d', w) == Bucket(d, w)
    ensures NoEmptyBucket(d) ==> NoEmptyBucket(d')
  {
    if v == Null then d else d[v := Bucket(d, v) + [p]]
  }

  /**
   * Index.Remove: drops every occurrence of `p` from `v`'s bucket and deletes the
   * bucket once it is empty; a no-op for Null or for a value that is not stored.
   */
  function Removed(d: IndexData, v: Value, p: Position): (d': IndexData)
    ensures v == Null || v !in d ==> d' == d
    ensures v != Null && v in d ==> Bucket(d', v) == Without(d[v], p)
    ensures v != Null && v in d ==> (v in d' <==> Without(d[v], p) != [])
    ensures forall w :: w != v ==> (w in d' <==> w in d) && Bucket(d', w) == Bucket(d, w)
    ensures NoEmptyBucket(d) ==> NoEmptyBucket(d')
  {
    if v == Null || v !in d then d
    else
      var kept := Without(d[v], p);
      if kept == [] then d - {v} else d[v := kept]
  }

  /** Index.Lookup: the bucket of a non-null value; Null finds nothing. */
  function Lookup(d: IndexData, v: Value): seq<Position>
  {
    if v == Null then [] else Bucket(d, v)
  }

  /** Index.Has: a bucket is stored for the non-null value `v`. */
  predicate Has(d: IndexData, v: Value)
  {
    v != Null && v in d
  }

  /** With no empty bucket stored, Has is exactly "Lookup finds something". */
  lemma HasIffLookupNonEmpty(d: IndexData, v: Value)
    requires NoEmptyBucket(d)
    ensures Has(d, v) <==> Lookup(d, v) != []
    ensures v == Null || v !in d ==> Lookup(d, v) == []
  {
  }

  /** Index.Update is Remove followed by Add; it moves `p` from the old bucket to the new one. */
  lemma UpdateMovesPosition(d: IndexData, oldV: Value, newV: Value, p: Position)
    requires Null !in d
    requires oldV != newV
    ensures p !in Bucket(Added(Removed(d, oldV, p), newV, p), oldV)
    ensures newV != Null ==> p in Bucket(Added(Removed(d, oldV, p), newV, p), newV)
  {
  }

  /** The positions, ascending, whose row stores exactly `v` under `c`. */
  function Matching(rows: seq<Row>, c: string, v: Value): (r: seq<Position>)
    ensures forall p: int :: p in r <==> 0 <= p < |rows| && c in rows[p] && rows[p][c] == v
    ensures Ascending(r)
  {
    if rows == [] then []
    else
      var n := |rows| - 1;
      var front := Matching(rows[..n], c, v);
      assert forall p: int :: 0 <= p < n ==> rows[..n][p] == rows[p];
      assert forall p: int :: p in front ==> p < n;
      assert forall i :: 0 <= i < |front| ==> front[i] in front;
      if c in rows[n] && rows[n][c] == v then front + [n] else front
  }

  /**
   * The index on column `c` agrees with `rows`: no Null key, no empty or
   * repeating bucket, and position `p` is in bucket `v` exactly when
   * `p < |rows|` and row `p` stores the non-null `v` under `c`.
   */
  ghost predicate Consistent(d: IndexData, rows: seq<Row>, c: string)
  {
    && (forall v :: v in d ==>
          && v != Null && d[v] != [] && Distinct(d[v])
          && forall p :: p in d[v] ==> p < |rows| && ValueOf(rows[p], c) == v)
    && (forall p: Position :: p < |rows| && ValueOf(rows[p], c) != Null ==> p in Bucket(d, ValueOf(rows[p], c)))
  }

  /** The invariant read as an equivalence, bucket by bucket. */
  lemma ConsistentBuckets(d: IndexData, rows: seq<Row>, c: string, v: Value, p: Position)
    requires Consistent(d, rows, c)
    ensures p in Bucket(d, v) <==> v != Null && p < |rows| && ValueOf(rows[p], c) == v
  {
  }

  /** Appending a row and adding its value at the new position keeps the index consistent. */
  lemma AddedConsistent(d: IndexData, rows: seq<Row>, c: string, r: Row)
    requires Consistent(d, rows, c)
    ensures Consistent(Added(d, ValueOf(r, c), |rows|), rows + [r], c)
  {
    var rows', d' := rows + [r], Added(d, ValueOf(r, c), |rows|);
    forall v | v in d'
      ensures v != Null && d'[v] != [] && Distinct(d'[v])
    {
      if v == ValueOf(r, c) {
        assert |rows| !in Bucket(d, v);
      }
    }
    forall v, p | v in d' && p in d'[v]
      ensures p < |rows'| && ValueOf(rows'[p], c) == v
    {
      if p < |rows| {
        assert rows'[p] == rows[p];
      }
    }
    forall p | 0 <= p < |rows'| && ValueOf(rows'[p], c) != Null
      ensures p in Bucket(d', ValueOf(rows'[p], c))
    {
      if p < |rows| {
        assert rows'[p] == rows[p];
      }
    }
  }

  /**
   * Replacing row `p` by `r` and moving `p` from the bucket of the old value
   * (Remove) to the bucket of the new value (Add) keeps the index consistent.
   */
  lemma MovedConsistent(d: IndexData, rows: seq<Row>, c: string, p: Position, r: Row)
    requires Consistent(d, rows, c)
    requires p < |rows|
    ensures Consistent(Added(Removed(d, ValueOf(rows[p], c), p), ValueOf(r, c), p), rows[p := r], c)
  {
    var oldV, newV := ValueOf(rows[p], c), ValueOf(r, c);
    var mid := Removed(d, oldV, p);
    var d' := Added(mid, newV, p);
    var rows' := rows[p := r];
    // after Remove, p is in no bucket at all
    forall w | w in mid
      ensures p !in mid[w] && w != Null && mid[w] != [] && Distinct(mid[w])
    {
      if w == oldV {
        assert mid[w] == Without(d[w], p);
      } else {
        assert mid[w] == d[w];
      }
    }
    forall v | v in d'
      ensures v != Null && d'[v] != [] && Distinct(d'[v])
    {
      if v == newV {
        assert p !in Bucket(mid, v);
        assert d'[v] == Bucket(mid, v) + [p];
      } else {
        assert d'[v] == mid[v];
      }
    }
    forall v, q | v in d' && q in d'[v]
      ensures q < |rows'| && ValueOf(rows'[q], c) == v
    {
      if v == newV && q == p {
      } else if v == newV {
        assert q in Bucket(mid, v);
      } else {
        assert q in mid[v];
      }
      if q != p {
        assert q in Bucket(mid, v);
        if v == oldV {
          assert q in Without(d[v], p);
        } else {
          assert q in d[v];
        }
      }
    }
    forall q | 0 <= q < |rows'| && ValueOf(rows'[q], c) != Null
      ensures q in Bucket(d', ValueOf(rows'[q], c))
    {
      var v := ValueOf(rows'[q], c);
      if q != p {
        assert rows'[q] == rows[q];
        assert q in Bucket(d, v);
        if v == oldV {
          assert q in Without(d[v], p);
        }
        assert q in Bucket(mid, v);
      }
    }
  }

  /** Two row sequences that agree on column `c` everywhere carry the same consistent indexes. */
  lemma SameColumnConsistent(d: IndexData, rows: seq<Row>, rows': seq<Row>, c: string)
    requires Consistent(d, rows, c)
    requires |rows'| == |rows|
    requires forall q :: 0 <= q < |rows| ==> ValueOf(rows'[q], c) == ValueOf(rows[q], c)
    ensures Consistent(d, rows', c)
  {
  }

  /** Dropping a last row that stores nothing under `c` keeps the index consistent. */
  lemma TruncatedConsistent(d: IndexData, rows: seq<Row>, c: string)
    requires Consistent(d, rows, c)
    requires |rows| > 0 && ValueOf(rows[|rows| - 1], c) == Null
    ensures Consistent(d, rows[..|rows| - 1], c)
  {
    var n := |rows| - 1;
    forall v, p | v in d && p in d[v]
      ensures p < n
    {
    }
  }

  /** A distinct sequence holds each of its elements exactly once. */
  lemma {:induction false} DistinctMultiplicity(s: seq<Position>, x: Position)
    requires Distinct(s)
    ensures multiset(s)[x] == if x in s then 1 else 0
  {
    if s != [] {
      var front, last := s[..|s| - 1], s[|s| - 1];
      assert s == front + [last];
      assert Distinct(front);
      DistinctMultiplicity(front, x);
      assert last !in front;
    }
  }

  /** Two distinct sequences with the same elements are permutations of each other. */
  lemma SameElementsSameMultiset(s: seq<Position>, t: seq<Position>)
    requires Distinct(s) && Distinct(t)
    requires forall x :: x in s <==> x in t
    ensures multiset(s) == multiset(t)
  {
    forall x
      ensures multiset(s)[x] == multiset(t)[x]
    {
      DistinctMultiplicity(s, x);
      DistinctMultiplicity(t, x);
    }
  }

  /**
   * Under consistency the bucket found for a non-null value holds exactly the
   * positions that a scan of the rows finds, each once, possibly in another order.
   */
  lemma LookupIsScan(d: IndexData, rows: seq<Row>, c: string, v: Value)
    requires Consistent(d, rows, c)
    requires v != Null
    ensures multiset(Lookup(d, v)) == multiset(Matching(rows, c, v))
  {
    var b, m := Lookup(d, v), Matching(rows, c, v);
    forall x
      ensures x in b <==> x in m
    {
      ConsistentBuckets(d, rows, c, v, x);
    }
    assert Distinct(m);
    SameElementsSameMultiset(b, m);
  }

  /** The in-place hash index of one column. */
  class Index {
    const column: string
    var data: IndexData

    /** NewIndex: an empty index for `column`. */
    constructor (column: string)
      ensures this.column == column
      ensures data == map[]
    {
      this.column := column;
      data := map[];
    }

    method Add(v: Value, p: Position)
      modifies this
      ensures data == Added(old(data), v, p)
    {
      if v == Null {
        return;
      }
      data := data[v := Bucket(data, v) + [p]];
    }

    method Remove(v: Value, p: Position)
      modifies this
      ensures data == Removed(old(data), v, p)
    {
      if v == Null || v !in data {
        return;
      }
      var positions := data[v];
      var kept: seq<Position> := [];
      var k := 0;
      while k < |positions|
        invariant 0 <= k <= |positions|
        invariant kept == Without(positions[..k], p)
      {
        assert positions[..k + 1][..k] == positions[..k];
        if positions[k] != p {
          kept := kept + [positions[k]];
        }
        k := k + 1;
      }
      assert positions[..k] == positions;
      if kept == [] {
        data := data - {v};
      } else {
        data := data[v := kept];
      }
    }

    method Update(oldV: Value, newV: Value, p: Position)
      modifies this
      ensures data == Added(Removed(old(data), oldV, p), newV, p)
    {
      Remove(oldV, p);
      Add(newV, p);
    }
  }
}
