/**
 * FAISS's exact index `IndexFlatL2` as the scripts use it: a dimension fixed
 * at construction, `add` of a batch of vectors, and a search for the `k`
 * stored vectors nearest to one query in squared Euclidean distance.
 *
 * Vectors have integer coordinates, so distances are exact. The order of
 * rows at equal distance is not fixed by the scripts; here it is pinned to
 * the lower row number first. When fewer than `k` vectors are stored, the
 * missing results are the label -1, as in FAISS.
 */
module L2Index {
  import opened Wrappers

  type Vector = seq<int>

  /** Squared Euclidean distance. */
  function SqDist(a: Vector, b: Vector): nat
    requires |a| == |b|
  {
    if a == [] then 0 else (a[0] - b[0]) * (a[0] - b[0]) + SqDist(a[1..], b[1..])
  }

  /** The distance vanishes exactly between equal vectors. */
  lemma {:induction false} SqDistZeroIff(a: Vector, b: Vector)
    requires |a| == |b|
    ensures SqDist(a, b) == 0 <==> a == b
  {
    if a != [] {
      SqDistZeroIff(a[1..], b[1..]);
      if (a[0] - b[0]) * (a[0] - b[0]) == 0 {
        assert a[0] == b[0];
        assert a == [a[0]] + a[1..] && b == [b[0]] + b[1..];
      } else {
        assert a[0] != b[0];
      }
    }
  }

  /** Every row has dimension `d`. */
  predicate AllDim(rows: seq<Vector>, d: nat) {
    forall i :: 0 <= i < |rows| ==> |rows[i]| == d
  }

  /** Row `i` is ranked before row `j`: strictly nearer to `q`, or as near
      with a lower row number. */
  predicate Before(rows: seq<Vector>, q: Vector, i: nat, j: nat)
    requires AllDim(rows, |q|) && i < |rows| && j < |rows|
  {
    var di, dj := SqDist(q, rows[i]), SqDist(q, rows[j]);
    di < dj || (di == dj && i < j)
  }

  lemma BeforeTransitive(rows: seq<Vector>, q: Vector, i: nat, j: nat, l: nat)
    requires AllDim(rows, |q|) && i < |rows| && j < |rows| && l < |rows|
    requires Before(rows, q, i, j) && Before(rows, q, j, l)
    ensures Before(rows, q, i, l)
  {
  }

  /** A list of row numbers in ranking order, with no repetition. */
  predicate Ranked(rows: seq<Vector>, q: Vector, r: seq<nat>)
    requires AllDim(rows, |q|)
  {
    && (forall a :: 0 <= a < |r| ==> r[a] < |rows|)
    && (forall a, b :: 0 <= a < b < |r| ==> Before(rows, q, r[a], r[b]))
  }

  /** Insertion of row `x` into a ranked list. */
  function Insert(rows: seq<Vector>, q: Vector, x: nat, r: seq<nat>): (out: seq<nat>)
    requires AllDim(rows, |q|) && x < |rows| && Ranked(rows, q, r) && x !in r
    ensures |out| == |r| + 1
    ensures forall y :: y in out <==> y == x || y in r
    ensures Ranked(rows, q, out)
  {
    if r == [] then [x]
    else if Before(rows, q, x, r[0]) then
      forall b | 0 <= b < |r|
        ensures Before(rows, q, x, r[b])
      {
        if b > 0 {
          BeforeTransitive(rows, q, x, r[0], r[b]);
        }
      }
      [x] + r
    else
      var tail := Insert(rows, q, x, r[1..]);
      assert r[0] !in r[1..] by {
        forall b | 1 <= b < |r|
          ensures r[b] != r[0]
        {
          assert Before(rows, q, r[0], r[b]);
        }
      }
      assert r[0] != x;
      forall y | y in tail
        ensures Before(rows, q, r[0], y)
      {
        if y != x {
          var b :| 0 <= b < |r[1..]| && r[1..][b] == y;
          assert Before(rows, q, r[0], r[b + 1]);
        }
      }
      var out := [r[0]] + tail;
      forall a, b | 0 <= a < b < |out|
        ensures Before(rows, q, out[a], out[b])
      {
        if a == 0 {
          assert out[b] in tail;
        } else {
          assert out[a] == tail[a - 1] && out[b] == tail[b - 1];
        }
      }
      out
  }

  /** Rows `0 .. n-1` in ranking order. */
  function Rank(rows: seq<Vector>, q: Vector, n: nat): (r: seq<nat>)
    requires AllDim(rows, |q|) && n <= |rows|
    ensures |r| == n
    ensures forall y: nat :: y in r <==> y < n
    ensures Ranked(rows, q, r)
  {
    if n == 0 then [] else Insert(rows, q, n - 1, Rank(rows, q, n - 1))
  }

  /** The labels `I[0]` of `index.search(query, k)`: the `k` nearest rows in
      ranking order, then -1 for every result beyond the stored rows. */
  function KNearest(rows: seq<Vector>, q: Vector, k: nat): seq<int>
    requires AllDim(rows, |q|)
  {
    var r := Rank(rows, q, |rows|);
    seq(k, i requires 0 <= i < k => if i < |r| then r[i] as int else -1)
  }

  /** The search returns `k` labels; label -1 appears exactly past the
      number of stored rows; the other labels are distinct rows, ordered
      by nondecreasing distance (ties by lower row), and no row left out is
      nearer than a row returned. */
  lemma KNearestFacts(rows: seq<Vector>, q: Vector, k: nat)
    requires AllDim(rows, |q|)
    ensures var labels := KNearest(rows, q, k);
      && |labels| == k
      && (forall i :: 0 <= i < k ==> (labels[i] == -1 <==> i >= |rows|))
      && (forall i :: 0 <= i < k && i < |rows| ==> 0 <= labels[i] < |rows|)
      && (forall i, j :: 0 <= i < j < k && j < |rows| ==>
            Before(rows, q, labels[i] as nat, labels[j] as nat))
      && (forall i, j :: 0 <= i < k && i < |rows| && 0 <= j < |rows| && j !in labels ==>
            SqDist(q, rows[labels[i]]) <= SqDist(q, rows[j]))
  {
    KNearestNearest(rows, q, k);
  }

  /** No row left out is nearer than a row returned. */
  lemma KNearestNearest(rows: seq<Vector>, q: Vector, k: nat)
    requires AllDim(rows, |q|)
    ensures var labels := KNearest(rows, q, k);
      forall i, j :: 0 <= i < k && i < |rows| && 0 <= j < |rows| && j !in labels ==>
        SqDist(q, rows[labels[i]]) <= SqDist(q, rows[j])
  {
    var labels := KNearest(rows, q, k);
    var r := Rank(rows, q, |rows|);
    assert forall c :: 0 <= c < k && c < |r| ==> labels[c] == r[c] as int;
    forall i, j | 0 <= i < k && i < |rows| && 0 <= j < |rows| && j !in labels
      ensures SqDist(q, rows[labels[i]]) <= SqDist(q, rows[j])
    {
      assert (j as nat) in r;
      var b :| 0 <= b < |r| && r[b] == j;
      assert b >= k;
      assert Before(rows, q, r[i], r[b]);
    }
  }

  /** With at least `k` rows stored there is no padding: the labels are `k`
      distinct rows. */
  lemma KNearestNoPadding(rows: seq<Vector>, q: Vector, k: nat)
    requires AllDim(rows, |q|) && k <= |rows|
    ensures var labels := KNearest(rows, q, k);
      forall i, j :: 0 <= i < j < k ==> 0 <= labels[i] < |rows| && labels[i] != labels[j]
  {
    KNearestFacts(rows, q, k);
  }

  /** A query equal to a stored vector gets a result at distance 0 first:
      the lowest row holding that vector. */
  lemma ExactMatchFirst(rows: seq<Vector>, q: Vector, k: nat, m: nat)
    requires AllDim(rows, |q|) && k >= 1 && m < |rows| && rows[m] == q
    ensures var labels := KNearest(rows, q, k);
      && 0 <= labels[0] <= m
      && rows[labels[0]] == q
      && forall j :: 0 <= j < labels[0] ==> rows[j] != q
  {
    var labels := KNearest(rows, q, k);
    var r := Rank(rows, q, |rows|);
    SqDistZeroIff(q, rows[m]);
    var f := r[0];
    assert f == labels[0];
    assert m in r;
    var b :| 0 <= b < |r| && r[b] == m;
    if b > 0 {
      assert Before(rows, q, f, m);
    }
    SqDistZeroIff(q, rows[f]);
    forall j | 0 <= j < f
      ensures rows[j] != q
    {
      assert j in r;
      var c :| 0 <= c < |r| && r[c] == j;
      if c > 0 {
        assert Before(rows, q, f, j);
      }
      SqDistZeroIff(q, rows[j]);
    }
  }

  /** Three stored vectors (0,0), (1,1), (5,5) and the query (1,1): the two
      nearest are row 1 (distance 0) and row 0 (distance 2). */
  lemma SearchExample()
    ensures KNearest([[0, 0], [1, 1], [5, 5]], [1, 1], 2) == [1, 0]
  {
    var rows: seq<Vector> := [[0, 0], [1, 1], [5, 5]];
    var q: Vector := [1, 1];
    assert SqDist(q, rows[0]) == 2;
    assert SqDist(q, rows[1]) == 0;
    assert SqDist(q, rows[2]) == 32;
    assert Rank(rows, q, 1) == [0];
    assert Rank(rows, q, 2) == [1, 0];
    assert Rank(rows, q, 3) == [1, 0, 2];
  }

  /** `faiss.IndexFlatL2(d)` */
  class FlatL2Index {
    const d: nat
    var rows: seq<Vector>

    ghost predicate Valid()
      reads this
    {
      AllDim(rows, d)
    }

    constructor (d: nat)
      ensures this.d == d && rows == [] && Valid()
    {
      this.d := d;
      rows := [];
    }

    /** `index.add(np.array(batch))`: the batch is appended; an empty batch
        or a vector of another dimension is an error and adds nothing. */
    method Add(batch: seq<Vector>) returns (ok: bool)
      requires Valid()
      modifies this
      ensures Valid()
      ensures ok <==> batch != [] && AllDim(batch, d)
      ensures rows == if ok then old(rows) + batch else old(rows)
    {
      ok := batch != [] && forall i :: 0 <= i < |batch| ==> |batch[i]| == d;
      if ok {
        rows := rows + batch;
      }
    }

    /** The labels of `index.search(np.array([q]), k)`; a query of another
        dimension or `k == 0` is an error. */
    function Search(q: Vector, k: nat): (r: Option<seq<int>>)
      reads this
      requires Valid()
      ensures r.Some? <==> |q| == d && k >= 1
      ensures r.Some? ==> r.value == KNearest(rows, q, k)
    {
      if |q| != d || k == 0 then None else Some(KNearest(rows, q, k))
    }
  }
}
