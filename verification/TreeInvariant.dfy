/** A pointer tree with no shared blocks: what keeps it, and how one leaf slot is filled. */
module TreeInvariant {
  import opened Volumes
  import opened PointerTree

  ghost function At(v: Volume, roots: Roots, slot: nat, ds: seq<nat>): nat
    requires slot < 15
  {
    Node(v, roots[slot], ds)
  }

  predicate Unshared(a: nat, b: nat, sameSlot: bool) {
    a != 0 && a == b ==> sameSlot
  }

  /** No block is reached through two slots, and every block reached is one of `used`. */
  ghost predicate TreeOk(v: Volume, roots: Roots, used: set<nat>) {
    && (forall s, ds | Path(Entries(v), s, ds) :: At(v, roots, s, ds) == 0 || At(v, roots, s, ds) in used)
    && (forall s, ds, t, es | Path(Entries(v), s, ds) && Path(Entries(v), t, es) ::
          Unshared(At(v, roots, s, ds), At(v, roots, t, es), s == t && ds == es))
  }

  ghost predicate Interior(v: Volume, roots: Roots, b: nat) {
    exists s, ds :: Path(Entries(v), s, ds) && |ds| < Depth(s) && At(v, roots, s, ds) == b && b != 0
  }

  /** Only the bytes of interior nodes matter to the tree. */
  lemma {:induction false} TreeFrame(v: Volume, w: Volume, roots: Roots, s: nat, ds: seq<nat>)
    requires SameShape(v, w) && Path(Entries(v), s, ds)
    requires forall b :: Interior(v, roots, b) ==> SameBlock(v, w, b)
    ensures At(w, roots, s, ds) == At(v, roots, s, ds)
    decreases |ds|
  {
    if ds != [] {
      var init := ds[..|ds| - 1];
      TreeFrame(v, w, roots, s, init);
      NodeInit(v, roots[s], ds);
      NodeInit(w, roots[s], ds);
      var m := At(v, roots, s, init);
      if m != 0 {
        assert Path(Entries(v), s, init);
        assert Interior(v, roots, m);
        SamePtr(v, w, m, ds[|ds| - 1]);
      }
    }
  }

  lemma TreeOkFrame(v: Volume, w: Volume, roots: Roots, used: set<nat>)
    requires SameShape(v, w) && TreeOk(v, roots, used)
    requires forall b :: Interior(v, roots, b) ==> SameBlock(v, w, b)
    ensures TreeOk(w, roots, used)
    ensures forall s, ds :: Path(Entries(v), s, ds) ==> At(w, roots, s, ds) == At(v, roots, s, ds)
  {
    forall s, ds | Path(Entries(v), s, ds)
      ensures At(w, roots, s, ds) == At(v, roots, s, ds)
    {
      TreeFrame(v, w, roots, s, ds);
    }
  }

  /** A leaf is not an interior node of the same tree. */
  lemma LeafNotInterior(v: Volume, roots: Roots, used: set<nat>, s: nat, ds: seq<nat>)
    requires TreeOk(v, roots, used) && LeafPath(Entries(v), s, ds)
    ensures !Interior(v, roots, At(v, roots, s, ds))
  {
  }

  /** The tree of `(w, roots')` is that of `(v, roots)` with leaf slot `(s, ds)` holding `block`. */
  ghost predicate LeafSet(v: Volume, roots: Roots, w: Volume, roots': Roots, s: nat, ds: seq<nat>, block: nat) {
    && SameShape(v, w)
    && LeafPath(Entries(v), s, ds)
    && forall t, es :: Path(Entries(v), t, es) ==>
         At(w, roots', t, es) == if t == s && es == ds then block else At(v, roots, t, es)
  }

  lemma LeafSetKeepsTree(v: Volume, roots: Roots, w: Volume, roots': Roots, s: nat, ds: seq<nat>,
                         block: nat, used: set<nat>)
    requires TreeOk(v, roots, used) && block !in used
    requires LeafSet(v, roots, w, roots', s, ds, block)
    ensures TreeOk(w, roots', used + {block})
  {
  }

  /** Direct slots live in the inode. */
  lemma SetDirect(v: Volume, roots: Roots, w: Volume, s: nat, block: nat)
    requires SameShape(v, w) && s < 12
    requires forall b :: Interior(v, roots, b) ==> SameBlock(v, w, b)
    ensures LeafSet(v, roots, w, roots[s := block], s, [], block)
  {
    forall t, es | Path(Entries(v), t, es)
      ensures At(w, roots[s := block], t, es) == if t == s && es == [] then block else At(v, roots, t, es)
    {
      if t != s {
        TreeFrame(v, w, roots, t, es);
      }
    }
  }

  /** From `v` to `w`, entry `d` of table `m` becomes `block` and the other tables stay. */
  ghost predicate TableUpdated(v: Volume, roots: Roots, w: Volume, m: nat, d: nat, block: nat) {
    && SameShape(v, w)
    && (forall b | Interior(v, roots, b) && b != m :: SameBlock(v, w, b))
    && (forall a | 0 <= a < Entries(v) :: Ptr(w, m, a) == if a == d then block else Ptr(v, m, a))
  }

  /** Other leaf slots live in the pointer table `m` that is their parent. */
  lemma SetIndirect(v: Volume, roots: Roots, used: set<nat>, w: Volume, s: nat, init: seq<nat>, d: nat,
                    m: nat, block: nat)
    requires TreeOk(v, roots, used) && LeafPath(Entries(v), s, init + [d])
    requires m != 0 && m == At(v, roots, s, init) && TableUpdated(v, roots, w, m, d, block)
    ensures LeafSet(v, roots, w, roots, s, init + [d], block)
  {
    forall t, es | Path(Entries(v), t, es)
      ensures At(w, roots, t, es) == if t == s && es == init + [d] then block else At(v, roots, t, es)
    {
      SetIndirectAt(v, roots, used, w, s, init, d, m, block, t, es);
    }
  }

  lemma {:induction false} SetIndirectAt(v: Volume, roots: Roots, used: set<nat>, w: Volume, s: nat, init: seq<nat>,
                                         d: nat, m: nat, block: nat, t: nat, es: seq<nat>)
    requires TreeOk(v, roots, used) && LeafPath(Entries(v), s, init + [d])
    requires m != 0 && m == At(v, roots, s, init) && TableUpdated(v, roots, w, m, d, block)
    requires Path(Entries(v), t, es)
    ensures At(w, roots, t, es) == if t == s && es == init + [d] then block else At(v, roots, t, es)
    decreases |es|
  {
    if es != [] {
      var pre, e := es[..|es| - 1], es[|es| - 1];
      assert es == pre + [e];
      assert pre == init + [d] && t == s ==> false;
      SetIndirectAt(v, roots, used, w, s, init, d, m, block, t, pre);
      NodeInit(v, roots[t], es);
      NodeInit(w, roots[t], es);
      ParentOf(v, roots, used, s, init, d, t, pre);
      var p := At(v, roots, t, pre);
      if p != 0 && p != m {
        assert Interior(v, roots, p);
        SamePtr(v, w, p, e);
      }
      assert es == init + [d] <==> pre == init && e == d by {
        if es == init + [d] {
          assert pre == init;
        }
      }
    }
  }

  lemma ParentOf(v: Volume, roots: Roots, used: set<nat>, s: nat, init: seq<nat>, d: nat, t: nat, pre: seq<nat>)
    requires TreeOk(v, roots, used) && LeafPath(Entries(v), s, init + [d]) && Path(Entries(v), t, pre)
    requires At(v, roots, s, init) != 0
    ensures At(v, roots, t, pre) == At(v, roots, s, init) <==> t == s && pre == init
  {
    assert forall i :: 0 <= i < |init| ==> init[i] == (init + [d])[i];
    assert Path(Entries(v), s, init);
  }
}
