/** Partitioned index repair: boundaries from NTILE, one chunk task per partition, ids read back by range. */
module Partitions {

  /** The table's ids in ascending order. */
  predicate Ascending(ids: seq<nat>) {
    forall i, j :: 0 <= i < j < |ids| ==> ids[i] < ids[j]
  }

  function CeilDiv(a: nat, b: nat): nat
    requires b > 0
  {
    (a + b - 1) / b
  }

  /** Where NTILE(n) over t rows starts its k-th tile: the first t % n tiles get one row more. */
  function Start(t: nat, n: nat, k: nat): nat
    requires n > 0
  {
    k * (t / n) + if k < t % n then k else t % n
  }

  lemma {:induction false} MulGrows(a: nat, b: nat, p: nat)
    requires a >= b
    ensures a * p >= b * p && (a > b ==> a * p >= b * p + p)
  {
    if a > b {
      MulGrows(a - 1, b, p);
      assert a * p == (a - 1) * p + p;
    }
  }

  lemma MulStep(a: nat, b: nat, p: nat)
    ensures a > b ==> a * p >= b * p + p
    ensures a <= b ==> a * p <= b * p
  {
    if a > b {
      MulGrows(a, b, p);
    } else {
      MulGrows(b, a, p);
    }
  }

  lemma CeilDivBounds(t: nat, p: nat)
    requires t > 0 && p > 0
    ensures 0 < CeilDiv(t, p) <= t && t <= CeilDiv(t, p) * p
  {
    var n := CeilDiv(t, p);
    assert t + p - 1 == p * n + (t + p - 1) % p;
    MulStep(n, t, p);
    MulStep(1, p, t);
    assert p * t == t * p && p * n == n * p;
  }

  /** The partitions are as few as the partition size allows. */
  lemma FewestChunks(t: nat, p: nat)
    requires t > 0 && p > 0
    ensures (CeilDiv(t, p) - 1) * p < t <= CeilDiv(t, p) * p
  {
    CeilDivBounds(t, p);
    var n := CeilDiv(t, p);
    assert t + p - 1 == p * n + (t + p - 1) % p;
    assert (n - 1) * p == n * p - p;
  }

  /** A tile is never empty and never larger than the partition size asked for. */
  lemma TileSize(t: nat, p: nat, k: nat)
    requires t > 0 && p > 0 && k < CeilDiv(t, p)
    ensures var n := CeilDiv(t, p); Start(t, n, k) < Start(t, n, k + 1) <= Start(t, n, k) + p
  {
    var n := CeilDiv(t, p);
    CeilDivBounds(t, p);
    var q, r := t / n, t % n;
    assert t == q * n + r;
    assert (k + 1) * q == k * q + q;
    MulStep(1, q, n);
    MulStep(q, p, n);
    MulStep(p, q, n);
  }

  lemma {:induction false} StartsAscend(t: nat, p: nat, j: nat, k: nat)
    requires t > 0 && p > 0 && j <= k <= CeilDiv(t, p)
    ensures Start(t, CeilDiv(t, p), j) <= Start(t, CeilDiv(t, p), k)
    decreases k
  {
    if j < k {
      TileSize(t, p, k - 1);
      StartsAscend(t, p, j, k - 1);
    }
  }

  lemma TilesCoverAll(t: nat, p: nat)
    requires t > 0 && p > 0
    ensures Start(t, CeilDiv(t, p), 0) == 0 && Start(t, CeilDiv(t, p), CeilDiv(t, p)) == t
  {
    var n := CeilDiv(t, p);
    CeilDivBounds(t, p);
    assert t == n * (t / n) + t % n;
  }

  datatype Range = Range(low: nat, high: nat)

  /** The min and max id of each tile, in tile order; an empty table has no partitions. */
  function Boundaries(ids: seq<nat>, p: nat): seq<Range>
    requires p > 0
  {
    if ids == [] then []
    else
      var n := CeilDiv(|ids|, p);
      seq(n, k requires 0 <= k < n => Tile(ids, p, k))
  }

  function Tile(ids: seq<nat>, p: nat, k: nat): Range
    requires p > 0 && ids != [] && k < CeilDiv(|ids|, p)
  {
    var n := CeilDiv(|ids|, p);
    TileSize(|ids|, p, k);
    TilesCoverAll(|ids|, p);
    StartsAscend(|ids|, p, k + 1, n);
    Range(ids[Start(|ids|, n, k)], ids[Start(|ids|, n, k + 1) - 1])
  }

  /** SELECT id WHERE id BETWEEN low AND high. */
  function Between(ids: seq<nat>, r: Range): seq<nat> {
    if ids == [] then []
    else (if r.low <= ids[0] <= r.high then [ids[0]] else []) + Between(ids[1..], r)
  }

  lemma {:induction false} BetweenIsSlice(ids: seq<nat>, r: Range, a: nat, b: nat)
    requires a <= b <= |ids|
    requires forall i :: 0 <= i < a ==> ids[i] < r.low
    requires forall i :: a <= i < b ==> r.low <= ids[i] <= r.high
    requires forall i :: b <= i < |ids| ==> r.high < ids[i]
    ensures Between(ids, r) == ids[a..b]
  {
    if ids != [] {
      var rest := ids[1..];
      if b == 0 {
        BetweenIsSlice(rest, r, 0, 0);
      } else if a == 0 {
        BetweenIsSlice(rest, r, 0, b - 1);
        assert ids[0..b] == [ids[0]] + rest[0..b - 1];
      } else {
        BetweenIsSlice(rest, r, a - 1, b - 1);
        assert ids[a..b] == rest[a - 1..b - 1];
      }
    }
  }

  lemma TileBounds(ids: seq<nat>, p: nat, k: nat)
    requires p > 0 && ids != [] && k < CeilDiv(|ids|, p)
    ensures var n := CeilDiv(|ids|, p); var a, b := Start(|ids|, n, k), Start(|ids|, n, k + 1);
            a < b <= |ids| && b - a <= p
  {
    TileSize(|ids|, p, k);
    TilesCoverAll(|ids|, p);
    StartsAscend(|ids|, p, k + 1, CeilDiv(|ids|, p));
  }

  /** One range, read back inclusively, is exactly its tile. */
  lemma RangeIsTile(ids: seq<nat>, p: nat, k: nat)
    requires Ascending(ids) && p > 0 && ids != [] && k < CeilDiv(|ids|, p)
    ensures var n := CeilDiv(|ids|, p); var a, b := Start(|ids|, n, k), Start(|ids|, n, k + 1);
            a < b <= |ids| && Between(ids, Tile(ids, p, k)) == ids[a..b] && b - a <= p
  {
    TileBounds(ids, p, k);
    var n := CeilDiv(|ids|, p);
    BetweenIsSlice(ids, Tile(ids, p, k), Start(|ids|, n, k), Start(|ids|, n, k + 1));
  }

  /** The ranges are ordered and disjoint. */
  lemma RangesAreOrdered(ids: seq<nat>, p: nat, j: nat, k: nat)
    requires Ascending(ids) && p > 0 && ids != [] && j < k < CeilDiv(|ids|, p)
    ensures Tile(ids, p, j).low <= Tile(ids, p, j).high < Tile(ids, p, k).low
  {
    RangeIsTile(ids, p, j);
    RangeIsTile(ids, p, k);
    StartsAscend(|ids|, p, j + 1, k);
  }

  /** The distributing task and its chunks: together they re-index every id once, at most p per chunk. */
  method RepairIndex(ids: seq<nat>, p: nat) returns (chunks: seq<seq<nat>>, indexed: seq<nat>)
    requires Ascending(ids) && p > 0
    ensures indexed == ids
    ensures |chunks| == if ids == [] then 0 else CeilDiv(|ids|, p)
    ensures ids != [] ==> (|chunks| - 1) * p < |ids| <= |chunks| * p
    ensures forall k :: 0 <= k < |chunks| ==> 0 < |chunks[k]| <= p
  {
    var partitions := Boundaries(ids, p);
    chunks, indexed := [], [];
    var n := 0;
    if ids != [] {
      TilesCoverAll(|ids|, p);
    }
    while n < |partitions|
      invariant 0 <= n <= |partitions| && |chunks| == n && (ids == [] ==> indexed == [])
      invariant n > 0 ==> ids != []
      invariant ids != [] ==> Start(|ids|, CeilDiv(|ids|, p), n) <= |ids|
      invariant ids != [] ==> indexed == ids[..Start(|ids|, CeilDiv(|ids|, p), n)]
      invariant forall k :: 0 <= k < |chunks| ==> 0 < |chunks[k]| <= p
    {
      RangeIsTile(ids, p, n);
      var chunk := Between(ids, partitions[n]);
      chunks, indexed := chunks + [chunk], indexed + chunk;
      n := n + 1;
    }
    assert ids != [] ==> ids[..|ids|] == ids;
    if ids != [] {
      FewestChunks(|ids|, p);
    }
  }
}
