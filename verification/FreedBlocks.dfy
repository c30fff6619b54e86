/** The blocks a truncate frees, in order, against the tree of the file. */
module FreedBlocks {
  import opened Volumes
  import opened PointerTree
  import opened TreeInvariant

  /** Children before their table; a table is read up to its first zero pointer. */
  function Freed(v: Volume, b: nat, depth: nat): seq<nat>
    decreases depth, Entries(v) + 1
  {
    if depth == 0 then [b] else FreedFrom(v, b, depth, 0) + [b]
  }

  function FreedFrom(v: Volume, b: nat, depth: nat, a: nat): seq<nat>
    requires depth > 0 && a <= Entries(v)
    decreases depth, Entries(v) - a
  {
    if a == Entries(v) || Ptr(v, b, a) == 0 then []
    else Freed(v, Ptr(v, b, a), depth - 1) + FreedFrom(v, b, depth, a + 1)
  }

  /** Everything under the slots from `slot` on. */
  function FreedSlots(v: Volume, roots: Roots, slot: nat): seq<nat>
    requires slot <= 15
    decreases 15 - slot
  {
    if slot == 15 then []
    else (if roots[slot] == 0 then [] else Freed(v, roots[slot], Depth(slot))) + FreedSlots(v, roots, slot + 1)
  }

  predicate NoDup(s: seq<nat>) {
    forall i, j | 0 <= i < j < |s| :: s[i] != s[j]
  }

  /** `x` is a node of the tree at or below the path `ds` of slot `s`. */
  ghost predicate Under(v: Volume, roots: Roots, s: nat, ds: seq<nat>, x: nat) {
    x != 0 && exists es :: Path(Entries(v), s, es) && ds <= es && At(v, roots, s, es) == x
  }

  /** Nodes are below at most one of two paths of the same length. */
  lemma UnderOne(v: Volume, roots: Roots, used: set<nat>, s: nat, ds: seq<nat>, t: nat, es: seq<nat>, x: nat)
    requires TreeOk(v, roots, used) && Under(v, roots, s, ds, x) && Under(v, roots, t, es, x)
    ensures s == t && (|ds| <= |es| ==> ds <= es)
  {
    var p :| Path(Entries(v), s, p) && ds <= p && At(v, roots, s, p) == x;
    var q :| Path(Entries(v), t, q) && es <= q && At(v, roots, t, q) == x;
    assert Unshared(At(v, roots, s, p), At(v, roots, t, q), s == t && p == q);
    if |ds| <= |es| {
      assert ds == p[..|ds|] == q[..|es|][..|ds|];
    }
  }

  lemma UnderAtMostOne(v: Volume, roots: Roots, used: set<nat>, s: nat, ds: seq<nat>, t: nat, es: seq<nat>, x: nat)
    requires TreeOk(v, roots, used) && |ds| == |es|
    ensures Under(v, roots, s, ds, x) && Under(v, roots, t, es, x) ==> s == t && ds == es
  {
    if Under(v, roots, s, ds, x) && Under(v, roots, t, es, x) {
      UnderOne(v, roots, used, s, ds, t, es, x);
    }
  }

  lemma NotSibling(v: Volume, roots: Roots, used: set<nat>, s: nat, ds: seq<nat>, a: nat, c: nat, x: nat)
    requires TreeOk(v, roots, used) && Under(v, roots, s, ds + [a], x) && a != c
    ensures !Under(v, roots, s, ds + [c], x)
  {
    assert (ds + [a])[|ds|] == a && (ds + [c])[|ds|] == c;
    UnderAtMostOne(v, roots, used, s, ds + [a], s, ds + [c], x);
  }

  lemma NotBelowItself(v: Volume, roots: Roots, used: set<nat>, s: nat, ds: seq<nat>, c: nat, x: nat)
    requires TreeOk(v, roots, used) && Path(Entries(v), s, ds) && At(v, roots, s, ds) != 0 && Under(v, roots, s, ds + [c], x)
    ensures x != At(v, roots, s, ds)
  {
    var es :| Path(Entries(v), s, es) && ds + [c] <= es && At(v, roots, s, es) == x;
    assert Unshared(At(v, roots, s, ds), At(v, roots, s, es), s == s && ds == es);
  }

  lemma {:induction false} FreedUnder(v: Volume, roots: Roots, s: nat, ds: seq<nat>, x: nat)
    requires Path(Entries(v), s, ds) && At(v, roots, s, ds) != 0
    requires x in Freed(v, At(v, roots, s, ds), Depth(s) - |ds|)
    ensures Under(v, roots, s, ds, x)
    decreases Depth(s) - |ds|, Entries(v) + 1
  {
    if x == At(v, roots, s, ds) {
      assert ds <= ds;
    } else {
      FreedFromUnder(v, roots, s, ds, 0, x);
    }
  }

  lemma {:induction false} FreedFromUnder(v: Volume, roots: Roots, s: nat, ds: seq<nat>, a: nat, x: nat)
    requires Path(Entries(v), s, ds) && At(v, roots, s, ds) != 0 && |ds| < Depth(s) && a <= Entries(v)
    requires x in FreedFrom(v, At(v, roots, s, ds), Depth(s) - |ds|, a)
    ensures exists c :: a <= c < Entries(v) && Under(v, roots, s, ds + [c], x)
    ensures Under(v, roots, s, ds, x)
    decreases Depth(s) - |ds|, Entries(v) - a
  {
    var b := At(v, roots, s, ds);
    NodeSnoc(v, roots[s], ds, a);
    if x in Freed(v, Ptr(v, b, a), Depth(s) - |ds| - 1) {
      FreedUnder(v, roots, s, ds + [a], x);
      assert Under(v, roots, s, ds + [a], x);
      UnderParent(v, roots, s, ds, a, x);
    } else {
      FreedFromUnder(v, roots, s, ds, a + 1, x);
    }
  }

  lemma UnderParent(v: Volume, roots: Roots, s: nat, ds: seq<nat>, a: nat, x: nat)
    requires Under(v, roots, s, ds + [a], x)
    ensures Under(v, roots, s, ds, x)
  {
    var es :| Path(Entries(v), s, es) && ds + [a] <= es && At(v, roots, s, es) == x;
    assert ds <= es by {
      assert ds == (ds + [a])[..|ds|] == es[..|ds|];
    }
  }

  /** A truncate frees no block twice. */
  lemma {:induction false} FreedNoDup(v: Volume, roots: Roots, used: set<nat>, s: nat, ds: seq<nat>)
    requires TreeOk(v, roots, used) && Path(Entries(v), s, ds) && At(v, roots, s, ds) != 0
    ensures NoDup(Freed(v, At(v, roots, s, ds), Depth(s) - |ds|))
    decreases Depth(s) - |ds|, Entries(v) + 1
  {
    if |ds| < Depth(s) {
      var b := At(v, roots, s, ds);
      FreedFromNoDup(v, roots, used, s, ds, 0);
      var below := FreedFrom(v, b, Depth(s) - |ds|, 0);
      forall x | x in below
        ensures x != b
      {
        FreedFromUnder(v, roots, s, ds, 0, x);
        var c :| 0 <= c < Entries(v) && Under(v, roots, s, ds + [c], x);
        NotBelowItself(v, roots, used, s, ds, c, x);
      }
      AppendNoDup(below, [b]);
    }
  }

  lemma {:induction false} FreedFromNoDup(v: Volume, roots: Roots, used: set<nat>, s: nat, ds: seq<nat>, a: nat)
    requires TreeOk(v, roots, used) && Path(Entries(v), s, ds) && At(v, roots, s, ds) != 0 && |ds| < Depth(s) && a <= Entries(v)
    ensures NoDup(FreedFrom(v, At(v, roots, s, ds), Depth(s) - |ds|, a))
    decreases Depth(s) - |ds|, Entries(v) - a
  {
    var b := At(v, roots, s, ds);
    if a < Entries(v) && Ptr(v, b, a) != 0 {
      NodeSnoc(v, roots[s], ds, a);
      FreedNoDup(v, roots, used, s, ds + [a]);
      FreedFromNoDup(v, roots, used, s, ds, a + 1);
      var child, rest := Freed(v, Ptr(v, b, a), Depth(s) - |ds| - 1), FreedFrom(v, b, Depth(s) - |ds|, a + 1);
      forall x | x in child
        ensures x !in rest
      {
        FreedUnder(v, roots, s, ds + [a], x);
        forall c: nat | a < c
          ensures !Under(v, roots, s, ds + [c], x)
        {
          NotSibling(v, roots, used, s, ds, a, c, x);
        }
        if x in rest {
          FreedFromUnder(v, roots, s, ds, a + 1, x);
        }
      }
      AppendNoDup(child, rest);
    }
  }

  lemma AppendNoDup(x: seq<nat>, y: seq<nat>)
    requires NoDup(x) && NoDup(y) && forall e | e in x :: e !in y
    ensures NoDup(x + y)
  {
    var s := x + y;
    forall i, j | 0 <= i < j < |s|
      ensures s[i] != s[j]
    {
      if i < |x| <= j {
        assert s[i] in x && s[j] == y[j - |x|];
      }
    }
  }

  lemma {:induction false} FreedSlotsUnder(v: Volume, roots: Roots, slot: nat, x: nat)
    requires slot <= 15 && x in FreedSlots(v, roots, slot)
    ensures exists s :: slot <= s < 15 && Under(v, roots, s, [], x)
    decreases 15 - slot
  {
    if roots[slot] != 0 && x in Freed(v, roots[slot], Depth(slot)) {
      FreedUnder(v, roots, slot, [], x);
    } else {
      FreedSlotsUnder(v, roots, slot + 1, x);
    }
  }

  lemma {:induction false} FreedSlotsNoDup(v: Volume, roots: Roots, used: set<nat>, slot: nat)
    requires slot <= 15 && TreeOk(v, roots, used)
    ensures NoDup(FreedSlots(v, roots, slot))
    ensures forall x | x in FreedSlots(v, roots, slot) :: x in used
    decreases 15 - slot
  {
    if slot < 15 {
      FreedSlotsNoDup(v, roots, used, slot + 1);
      var head := if roots[slot] == 0 then [] else Freed(v, roots[slot], Depth(slot));
      var rest := FreedSlots(v, roots, slot + 1);
      if roots[slot] != 0 {
        FreedNoDup(v, roots, used, slot, []);
        forall x | x in head
          ensures x in used && x !in rest
        {
          FreedUnder(v, roots, slot, [], x);
          forall s: nat | slot < s < 15
            ensures !Under(v, roots, s, [], x)
          {
            UnderAtMostOne(v, roots, used, slot, [], s, [], x);
          }
          if x in rest {
            FreedSlotsUnder(v, roots, slot + 1, x);
          }
        }
      }
      AppendNoDup(head, rest);
    }
  }

  // ----- which nodes are freed

  /** The pointers of table `b` are a nonzero prefix followed by zeros. */
  ghost predicate PrefixTable(v: Volume, b: nat) {
    forall i, j | 0 <= i < j < Entries(v) && Ptr(v, b, j) != 0 :: Ptr(v, b, i) != 0
  }

  /** The path below `ds` runs through nonzero prefixes only: a truncate gets there. */
  ghost predicate Scanned(v: Volume, b: nat, ds: seq<nat>)
    decreases |ds|
  {
    ds == [] || ((forall a: nat | a <= ds[0] :: Ptr(v, b, a) != 0) && Scanned(v, Ptr(v, b, ds[0]), ds[1..]))
  }

  lemma {:induction false} FreedFromChild(v: Volume, b: nat, depth: nat, a: nat, c: nat, x: nat)
    requires depth > 0 && a <= c < Entries(v) && (forall i: nat | i <= c :: Ptr(v, b, i) != 0)
    requires x in Freed(v, Ptr(v, b, c), depth - 1)
    ensures x in FreedFrom(v, b, depth, a)
    decreases c - a
  {
    if a < c {
      FreedFromChild(v, b, depth, a + 1, c, x);
    }
  }

  /** A node reached through nonzero prefixes is freed. */
  lemma {:induction false} ScannedIsFreed(v: Volume, b: nat, ds: seq<nat>, depth: nat)
    requires |ds| <= depth && Digits(Entries(v), ds) && b != 0 && Scanned(v, b, ds)
    ensures Node(v, b, ds) in Freed(v, b, depth)
    decreases |ds|
  {
    if ds != [] {
      ScannedIsFreed(v, Ptr(v, b, ds[0]), ds[1..], depth - 1);
      FreedFromChild(v, b, depth, 0, ds[0], Node(v, b, ds));
    }
  }

  lemma {:induction false} PrefixScanned(v: Volume, roots: Roots, s: nat, pre: seq<nat>, ds: seq<nat>)
    requires Path(Entries(v), s, pre + ds) && At(v, roots, s, pre + ds) != 0
    requires forall b | Interior(v, roots, b) :: PrefixTable(v, b)
    ensures At(v, roots, s, pre) != 0 && Scanned(v, At(v, roots, s, pre), ds)
    ensures At(v, roots, s, pre + ds) == Node(v, At(v, roots, s, pre), ds)
    decreases |ds|
  {
    hide Ptr;
    if ds == [] {
      assert pre + ds == pre;
    } else {
      assert pre + ds == (pre + [ds[0]]) + ds[1..];
      PrefixScanned(v, roots, s, pre + [ds[0]], ds[1..]);
      NodeSnoc(v, roots[s], pre, ds[0]);
      var b := At(v, roots, s, pre);
      assert Path(Entries(v), s, pre) by {
        assert forall i | 0 <= i < |pre| :: pre[i] == (pre + ds)[i];
      }
      assert Interior(v, roots, b);
      assert ds[0] == (pre + ds)[|pre|];
      forall a: nat | a <= ds[0]
        ensures Ptr(v, b, a) != 0
      {
        assert PrefixTable(v, b);
      }
    }
  }

  lemma {:induction false} InSlots(v: Volume, roots: Roots, slot: nat, s: nat, x: nat)
    requires slot <= s < 15 && roots[s] != 0 && x in Freed(v, roots[s], Depth(s))
    ensures x in FreedSlots(v, roots, slot)
    decreases s - slot
  {
    if slot < s {
      InSlots(v, roots, slot + 1, s, x);
    }
  }

  ghost predicate AllPrefix(v: Volume, roots: Roots) {
    forall b | Interior(v, roots, b) :: PrefixTable(v, b)
  }

  ghost predicate FreesAll(v: Volume, roots: Roots) {
    forall s: nat, ds | Path(Entries(v), s, ds) && At(v, roots, s, ds) != 0 :: At(v, roots, s, ds) in FreedSlots(v, roots, 0)
  }

  /** With zero-terminated tables every node of the tree, leaf or table, is freed. */
  lemma PrefixFreesAll(v: Volume, roots: Roots)
    requires AllPrefix(v, roots)
    ensures FreesAll(v, roots)
  {
    forall s: nat, ds | Path(Entries(v), s, ds) && At(v, roots, s, ds) != 0
      ensures At(v, roots, s, ds) in FreedSlots(v, roots, 0)
    {
      assert [] + ds == ds;
      PrefixScanned(v, roots, s, [], ds);
      ScannedIsFreed(v, roots[s], ds, Depth(s));
      InSlots(v, roots, 0, s, At(v, roots, s, ds));
    }
  }

  /** Everything that is freed was reached through nonzero prefixes. */
  lemma {:induction false} FreedIsScanned(v: Volume, b: nat, depth: nat, x: nat) returns (es: seq<nat>)
    requires b != 0 && x in Freed(v, b, depth)
    ensures |es| <= depth && Digits(Entries(v), es) && Node(v, b, es) == x != 0 && Scanned(v, b, es)
    decreases depth, Entries(v) + 1
  {
    if x == b {
      es := [];
    } else {
      es := FreedFromIsScanned(v, b, depth, 0, x);
    }
  }

  lemma {:induction false} FreedFromIsScanned(v: Volume, b: nat, depth: nat, a: nat, x: nat) returns (es: seq<nat>)
    requires b != 0 && depth > 0 && a <= Entries(v) && x in FreedFrom(v, b, depth, a)
    requires forall i: nat | i < a :: Ptr(v, b, i) != 0
    ensures |es| <= depth && Digits(Entries(v), es) && Node(v, b, es) == x != 0 && Scanned(v, b, es)
    decreases depth, Entries(v) - a
  {
    if x in Freed(v, Ptr(v, b, a), depth - 1) {
      var rest := FreedIsScanned(v, Ptr(v, b, a), depth - 1, x);
      es := [a] + rest;
      assert es[1..] == rest;
    } else {
      es := FreedFromIsScanned(v, b, depth, a + 1, x);
    }
  }

  lemma {:induction false} ScannedLast(v: Volume, b: nat, ds: seq<nat>, j: nat)
    requires b != 0 && Scanned(v, b, ds + [j])
    ensures forall a: nat | a <= j :: Ptr(v, Node(v, b, ds), a) != 0
    decreases |ds|
  {
    if ds == [] {
      assert (ds + [j])[0] == j;
    } else {
      assert (ds + [j])[1..] == ds[1..] + [j] && (ds + [j])[0] == ds[0];
      ScannedLast(v, Ptr(v, b, ds[0]), ds[1..], j);
    }
  }

  lemma {:induction false} SlotOfFreed(v: Volume, roots: Roots, slot: nat, x: nat) returns (s: nat)
    requires slot <= 15 && x in FreedSlots(v, roots, slot)
    ensures slot <= s < 15 && roots[s] != 0 && x in Freed(v, roots[s], Depth(s))
    decreases 15 - slot
  {
    if roots[slot] != 0 && x in Freed(v, roots[slot], Depth(slot)) {
      s := slot;
    } else {
      s := SlotOfFreed(v, roots, slot + 1, x);
    }
  }

  /** A node behind a zero pointer of its table is not freed. */
  lemma FreedBehindZero(v: Volume, roots: Roots, used: set<nat>, s: nat, ds: seq<nat>, i: nat, j: nat)
    requires TreeOk(v, roots, used) && FreesAll(v, roots) && Path(Entries(v), s, ds) && |ds| < Depth(s)
    requires At(v, roots, s, ds) != 0 && i < j < Entries(v) && Ptr(v, At(v, roots, s, ds), j) != 0
    ensures Ptr(v, At(v, roots, s, ds), i) != 0
  {
    hide Ptr, Freed, FreedSlots, Scanned;
    NodeSnoc(v, roots[s], ds, j);
    var x := At(v, roots, s, ds + [j]);
    assert Path(Entries(v), s, ds + [j]);
    var t := SlotOfFreed(v, roots, 0, x);
    var es := FreedIsScanned(v, roots[t], Depth(t), x);
    assert Path(Entries(v), t, es);
    assert Unshared(At(v, roots, s, ds + [j]), At(v, roots, t, es), s == t && ds + [j] == es);
    ScannedLast(v, roots[s], ds, j);
  }

  /** A truncate frees the whole tree if and only if every table of it is zero-terminated. */
  lemma FreesAllIffPrefix(v: Volume, roots: Roots, used: set<nat>)
    requires TreeOk(v, roots, used)
    ensures FreesAll(v, roots) <==> AllPrefix(v, roots)
  {
    if AllPrefix(v, roots) {
      PrefixFreesAll(v, roots);
    }
    if FreesAll(v, roots) {
      forall b | Interior(v, roots, b)
        ensures PrefixTable(v, b)
      {
        var s, ds :| Path(Entries(v), s, ds) && |ds| < Depth(s) && At(v, roots, s, ds) == b && b != 0;
        forall i, j | 0 <= i < j < Entries(v) && Ptr(v, b, j) != 0
          ensures Ptr(v, b, i) != 0
        {
          FreedBehindZero(v, roots, used, s, ds, i, j);
        }
      }
    }
  }
}
