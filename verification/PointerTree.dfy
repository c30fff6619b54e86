/**
  The pointer tree of an inode: 12 direct slots, then one tree of depth 1, 2 and 3. A node is named by
  its slot and the table entries ("digits") that lead to it.
 */
module PointerTree {
  import opened Powers
  import opened Volumes

  type Roots = s: seq<nat> | |s| == 15 witness seq(15, i => 0)

  function Depth(slot: nat): nat {
    if slot < 12 then 0 else slot - 11
  }

  predicate Digits(n: nat, ds: seq<nat>) {
    forall i :: 0 <= i < |ds| ==> ds[i] < n
  }

  predicate Path(n: nat, slot: nat, ds: seq<nat>) {
    slot < 15 && |ds| <= Depth(slot) && Digits(n, ds)
  }

  predicate LeafPath(n: nat, slot: nat, ds: seq<nat>) {
    Path(n, slot, ds) && |ds| == Depth(slot)
  }

  /** The block reached from block `b`, following every pointer, even a zero one. */
  function Walk(v: Volume, b: nat, ds: seq<nat>): nat
    decreases |ds|
  {
    if ds == [] then b else Walk(v, Ptr(v, b, ds[0]), ds[1..])
  }

  /** The block reached from block `b`; zero when a pointer on the way is zero. */
  function Node(v: Volume, b: nat, ds: seq<nat>): nat
    decreases |ds|
  {
    if b == 0 || ds == [] then b else Node(v, Ptr(v, b, ds[0]), ds[1..])
  }

  lemma {:induction false} NodeIsWalk(v: Volume, b: nat, ds: seq<nat>)
    requires Node(v, b, ds) != 0
    ensures Walk(v, b, ds) == Node(v, b, ds)
    decreases |ds|
  {
    if ds != [] {
      NodeIsWalk(v, Ptr(v, b, ds[0]), ds[1..]);
    }
  }

  lemma {:induction false} NodeSnoc(v: Volume, b: nat, ds: seq<nat>, d: nat)
    ensures Node(v, b, ds + [d]) == if Node(v, b, ds) == 0 then 0 else Ptr(v, Node(v, b, ds), d)
    decreases |ds|
  {
    if b != 0 && ds != [] {
      assert (ds + [d])[1..] == ds[1..] + [d];
      NodeSnoc(v, Ptr(v, b, ds[0]), ds[1..], d);
    }
  }

  lemma NodeInit(v: Volume, b: nat, ds: seq<nat>)
    requires ds != []
    ensures Node(v, b, ds) ==
            if Node(v, b, ds[..|ds| - 1]) == 0 then 0 else Ptr(v, Node(v, b, ds[..|ds| - 1]), ds[|ds| - 1])
  {
    assert ds == ds[..|ds| - 1] + [ds[|ds| - 1]];
    NodeSnoc(v, b, ds[..|ds| - 1], ds[|ds| - 1]);
  }

  // ----- block index <-> leaf path

  /** One more than the largest block index of a file. */
  function MaxBlocks(n: nat): nat {
    12 + n + n * n + n * n * n
  }

  function SlotOf(n: nat, idx: nat): nat {
    if idx < 12 then idx else if idx - 12 < n then 12 else if idx - 12 - n < n * n then 13 else 14
  }

  /** The table entries for block index `idx`, by the divisions of the driver. */
  function DigitsOf(n: nat, idx: nat): seq<nat>
    requires n > 0
  {
    if idx < 12 then []
    else if idx - 12 < n then [idx - 12]
    else if idx - 12 - n < n * n then
      var j := idx - 12 - n;
      [j / n, j % n]
    else
      var j := idx - 12 - n - n * n;
      [j / (n * n), (j / n) % n, j % n]
  }

  /** The number of leaf paths of the slot before `ds`, in base `n`. */
  function Rank(n: nat, ds: seq<nat>): nat {
    if ds == [] then 0 else Rank(n, ds[..|ds| - 1]) * n + ds[|ds| - 1]
  }

  function FirstIndex(n: nat, slot: nat): nat {
    if slot <= 12 then slot else if slot == 13 then 12 + n else 12 + n + n * n
  }

  function IndexOf(n: nat, slot: nat, ds: seq<nat>): nat {
    FirstIndex(n, slot) + Rank(n, ds)
  }

  lemma OneMore(x: nat, y: nat)
    ensures (x + 1) * y == x * y + y && x * y >= 0
  {
  }

  lemma DivModUnique(q: nat, d: nat, r: nat)
    requires r < d
    ensures (q * d + r) / d == q && (q * d + r) % d == r
  {
    var x := q * d + r;
    assert x == x / d * d + x % d;
    if x / d < q {
      BlockGap(d, x / d, q);
    } else if x / d > q {
      BlockGap(d, q, x / d);
    }
  }

  lemma DivBound(x: nat, d: nat, e: nat)
    requires d > 0 && x < d * e
    ensures x / d < e
  {
    var q := x / d;
    assert x == q * d + x % d;
    if q > e {
      BlockGap(d, e, q);
    }
  }

  lemma DivMonotone(p: nat, q: nat, d: nat)
    requires d > 0 && p <= q
    ensures Div(p, d) <= Div(q, d)
  {
    assert p == p / d * d + p % d;
    assert q == q / d * d + q % d;
    if q / d < p / d {
      BlockGap(d, q / d, p / d);
    }
  }

  /** Dividing by a product is dividing twice. */
  lemma DivDiv(x: nat, d: nat, e: nat)
    requires d > 0 && e > 0
    ensures d * e > 0 && x / (d * e) == x / d / e && x % (d * e) == x / d % e * d + x % d
  {
    var q, r, s := x / d / e, x / d % e, x % d;
    assert x / d == q * e + r;
    assert x == x / d * d + s;
    assert (q * e + r) * d == q * (d * e) + r * d;
    BlockGap(d, r, e);
    assert e * d == d * e;
    DivModUnique(q, d * e, r * d + s);
  }

  lemma Rank1(n: nat, a: nat)
    ensures Rank(n, [a]) == a
  {
    assert [a][..0] == [];
    assert Rank(n, []) * n == 0;
  }

  lemma Rank2(n: nat, a: nat, b: nat)
    ensures Rank(n, [a, b]) == a * n + b
  {
    assert [a, b][..1] == [a];
    Rank1(n, a);
  }

  lemma Rank3(n: nat, a: nat, b: nat, c: nat)
    ensures Rank(n, [a, b, c]) == (a * n + b) * n + c
  {
    assert [a, b, c][..2] == [a, b];
    Rank2(n, a, b);
  }

  lemma TripleIndex(n: nat, j: nat)
    requires n > 0 && j < n * n * n
    ensures j / (n * n) < n
    ensures (j / (n * n) * n + j / n % n) * n + j % n == j
  {
    DivDiv(j, n, n);
    DivBound(j, n * n, n);
    assert j / n == j / n / n * n + j / n % n;
    assert j == j / n * n + j % n;
  }

  lemma PathOfDouble(n: nat, j: nat)
    requires n > 0 && j < n * n
    ensures j / n < n && j % n < n && Rank(n, [j / n, j % n]) == j
  {
    DivBound(j, n, n);
    Rank2(n, j / n, j % n);
  }

  lemma PathOfTriple(n: nat, j: nat)
    requires n > 0 && j < n * n * n
    ensures n * n > 0 && j / (n * n) < n && Rank(n, [j / (n * n), j / n % n, j % n]) == j
  {
    hide Rank;
    DivDiv(j, n, n);
    TripleIndex(n, j);
    Rank3(n, j / (n * n), j / n % n, j % n);
  }

  /** Every block index below the maximum has a leaf path, and the path determines the index. */
  lemma PathOfIndex(n: nat, idx: nat)
    requires n > 0 && idx < MaxBlocks(n)
    ensures LeafPath(n, SlotOf(n, idx), DigitsOf(n, idx))
    ensures IndexOf(n, SlotOf(n, idx), DigitsOf(n, idx)) == idx
  {
    if idx < 12 {
    } else if idx - 12 < n {
      Rank1(n, idx - 12);
    } else if idx - 12 - n < n * n {
      PathOfDouble(n, idx - 12 - n);
    } else {
      PathOfTriple(n, idx - 12 - n - n * n);
    }
  }

  lemma IndexOfDouble(n: nat, a: nat, b: nat)
    requires a < n && b < n
    ensures Rank(n, [a, b]) < n * n && Rank(n, [a, b]) / n == a && Rank(n, [a, b]) % n == b
  {
    Rank2(n, a, b);
    BlockGap(n, a, n);
    DivModUnique(a, n, b);
  }

  lemma IndexOfTriple(n: nat, a: nat, b: nat, c: nat)
    requires a < n && b < n && c < n
    ensures var j := Rank(n, [a, b, c]);
            n * n > 0 && j < n * n * n && j / (n * n) == a && j / n % n == b && j % n == c
  {
    hide Rank;
    Rank3(n, a, b, c);
    Rank2(n, a, b);
    IndexOfDouble(n, a, b);
    var m := Rank(n, [a, b]);
    var j := m * n + c;
    BlockGap(n, m, n * n);
    DivModUnique(m, n, c);
    DivDiv(j, n, n);
  }

  /** Every leaf path is the path of exactly one block index. */
  lemma IndexOfPath(n: nat, slot: nat, ds: seq<nat>)
    requires n > 0 && LeafPath(n, slot, ds)
    ensures IndexOf(n, slot, ds) < MaxBlocks(n)
    ensures SlotOf(n, IndexOf(n, slot, ds)) == slot && DigitsOf(n, IndexOf(n, slot, ds)) == ds
  {
    if slot < 12 {
    } else if slot == 12 {
      assert ds == [ds[0]];
      Rank1(n, ds[0]);
    } else if slot == 13 {
      assert ds == [ds[0], ds[1]];
      IndexOfDouble(n, ds[0], ds[1]);
    } else {
      assert ds == [ds[0], ds[1], ds[2]];
      IndexOfTriple(n, ds[0], ds[1], ds[2]);
    }
  }

  // ----- the leaves listed depth first

  function Leaves(v: Volume, b: nat, depth: nat): seq<nat>
    decreases depth, Entries(v) + 1
  {
    if depth == 0 then [b] else LeavesFrom(v, b, depth, 0)
  }

  function LeavesFrom(v: Volume, b: nat, depth: nat, a: nat): seq<nat>
    requires depth > 0 && a <= Entries(v)
    decreases depth, Entries(v) - a
  {
    if a == Entries(v) then [] else Leaves(v, Ptr(v, b, a), depth - 1) + LeavesFrom(v, b, depth, a + 1)
  }

  function FileLeaves(v: Volume, roots: Roots): seq<nat> {
    roots[..12] + Leaves(v, roots[12], 1) + Leaves(v, roots[13], 2) + Leaves(v, roots[14], 3)
  }

  lemma {:induction false} LeavesLength(v: Volume, b: nat, depth: nat)
    ensures |Leaves(v, b, depth)| == Power(Entries(v), depth)
    decreases depth, Entries(v) + 1
  {
    if depth > 0 {
      LeavesFromLength(v, b, depth, 0);
    }
  }

  lemma {:induction false} LeavesFromLength(v: Volume, b: nat, depth: nat, a: nat)
    requires depth > 0 && a <= Entries(v)
    ensures |LeavesFrom(v, b, depth, a)| == (Entries(v) - a) * Power(Entries(v), depth - 1)
    decreases depth, Entries(v) - a
  {
    hide Ptr, Entries, Power;
    if a < Entries(v) {
      LeavesLength(v, Ptr(v, b, a), depth - 1);
      LeavesFromLength(v, b, depth, a + 1);
      OneMore(Entries(v) - a - 1, Power(Entries(v), depth - 1));
    }
  }

  /** Rank of a path, most significant digit first. */
  lemma {:induction false} RankHead(n: nat, ds: seq<nat>)
    requires ds != []
    ensures Rank(n, ds) == ds[0] * Power(n, |ds| - 1) + Rank(n, ds[1..])
  {
    if |ds| == 1 {
      assert ds[..0] == [] && ds[1..] == [];
    } else {
      var m := |ds| - 1;
      RankHead(n, ds[..m]);
      assert ds[..m][1..] == ds[1..][..m - 1];
      Shifted(n, ds[0], Power(n, m - 1), Rank(n, ds[1..][..m - 1]));
    }
  }

  lemma Shifted(n: nat, d: nat, p: nat, r: nat)
    ensures (d * p + r) * n == d * (n * p) + r * n
  {
    assert (d * p) * n == d * (n * p);
  }

  lemma {:induction false} RankBound(n: nat, ds: seq<nat>)
    requires Digits(n, ds)
    ensures Rank(n, ds) < Power(n, |ds|)
  {
    if ds != [] {
      RankBound(n, ds[1..]);
      RankHead(n, ds);
      BlockGap(Power(n, |ds| - 1), ds[0], n);
    }
  }

  lemma {:induction false} LeavesFromAt(v: Volume, b: nat, depth: nat, a: nat, d: nat, r: nat, i: nat)
    requires depth > 0 && a <= d < Entries(v) && r < |Leaves(v, Ptr(v, b, d), depth - 1)|
    requires i == (d - a) * Power(Entries(v), depth - 1) + r
    ensures i < |LeavesFrom(v, b, depth, a)|
    ensures LeavesFrom(v, b, depth, a)[i] == Leaves(v, Ptr(v, b, d), depth - 1)[r]
    decreases d - a
  {
    var p := Power(Entries(v), depth - 1);
    var x, y := Leaves(v, Ptr(v, b, a), depth - 1), LeavesFrom(v, b, depth, a + 1);
    assert LeavesFrom(v, b, depth, a) == x + y;
    if a == d {
      assert i == r;
    } else {
      LeavesLength(v, Ptr(v, b, a), depth - 1);
      OneMore(d - (a + 1), p);
      var j := (d - (a + 1)) * p + r;
      LeavesFromAt(v, b, depth, a + 1, d, r, j);
      assert (x + y)[p + j] == y[j];
    }
  }

  lemma {:induction false} LeafAtRank(v: Volume, b: nat, ds: seq<nat>)
    requires Digits(Entries(v), ds)
    ensures Rank(Entries(v), ds) < |Leaves(v, b, |ds|)|
    ensures Leaves(v, b, |ds|)[Rank(Entries(v), ds)] == Walk(v, b, ds)
    decreases |ds|
  {
    if ds != [] {
      LeafAtRank(v, Ptr(v, b, ds[0]), ds[1..]);
      RankHead(Entries(v), ds);
      RankBound(Entries(v), ds[1..]);
      LeavesFromAt(v, b, |ds|, 0, ds[0], Rank(Entries(v), ds[1..]), Rank(Entries(v), ds));
    }
  }

  /** What the driver looks up for block index `idx`. */
  function Lookup(v: Volume, roots: Roots, idx: nat): nat
    requires Entries(v) > 0
  {
    Walk(v, roots[SlotOf(Entries(v), idx)], DigitsOf(Entries(v), idx))
  }

  /** Looking up a block index is indexing the depth-first list of leaves. */
  lemma LookupIsLeaf(v: Volume, roots: Roots, idx: nat)
    requires Entries(v) > 0 && idx < MaxBlocks(Entries(v))
    ensures |FileLeaves(v, roots)| == MaxBlocks(Entries(v))
    ensures FileLeaves(v, roots)[idx] == Lookup(v, roots, idx)
  {
    var n := Entries(v);
    PathOfIndex(n, idx);
    var slot, ds := SlotOf(n, idx), DigitsOf(n, idx);
    LeavesLength(v, roots[12], 1);
    LeavesLength(v, roots[13], 2);
    LeavesLength(v, roots[14], 3);
    assert Power(n, 1) == n && Power(n, 2) == n * n && Power(n, 3) == n * n * n by {
      assert Power(n, 0) == 1;
      assert n * (n * n) == n * n * n;
    }
    if slot >= 12 {
      LeafAtRank(v, roots[slot], ds);
    }
  }
}
