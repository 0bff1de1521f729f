/**
 Addressing and replacing one node of a shape.  Replacing the node at a path
 leaves everything to its left and right alone, which is what makes a local
 change of one block a change of the whole index that can be described.
 */
module IndexPath {
  import opened Prelude
  import opened IndexShape

  ghost predicate IsPath(t: Tree, p: Path) {
    p == [] || (t.Inner? && p[0] < |t.kids| && IsPath(t.kids[p[0]], p[1..]))
  }

  ghost function Sub(t: Tree, p: Path): Tree
    requires IsPath(t, p)
  {
    if p == [] then t else Sub(t.kids[p[0]], p[1..])
  }

  ghost function Replace(t: Tree, p: Path, s: Tree): Tree
    requires IsPath(t, p)
  {
    if p == [] then s
    else t.(kids := t.kids[p[0] := Replace(t.kids[p[0]], p[1..], s)])
  }

  /** Elements left of the node at `p`. */
  ghost function Pre(t: Tree, p: Path): seq<Elem>
    requires IsPath(t, p)
  {
    if p == [] then [] else ElemsAll(t.kids[..p[0]]) + Pre(t.kids[p[0]], p[1..])
  }

  /** Elements right of the node at `p`. */
  ghost function Post(t: Tree, p: Path): seq<Elem>
    requires IsPath(t, p)
  {
    if p == [] then [] else Post(t.kids[p[0]], p[1..]) + ElemsAll(t.kids[p[0] + 1..])
  }

  /** Offsets left (right) of the node at `p`, `k` levels below it. */
  ghost function LevelPre(t: Tree, p: Path, k: nat): seq<int>
    requires IsPath(t, p)
  {
    if p == [] then []
    else LevelAll(t.kids[..p[0]], |p| - 1 + k) + LevelPre(t.kids[p[0]], p[1..], k)
  }

  ghost function LevelPost(t: Tree, p: Path, k: nat): seq<int>
    requires IsPath(t, p)
  {
    if p == [] then []
    else LevelPost(t.kids[p[0]], p[1..], k) + LevelAll(t.kids[p[0] + 1..], |p| - 1 + k)
  }

  /** The separator that bounds the node at `p` from above, if there is one. */
  ghost function Bound(t: Tree, p: Path, hi: Option<Key>): Option<Key>
    requires IsPath(t, p)
  {
    if p == [] then hi
    else Bound(t.kids[p[0]], p[1..], KidBound(t, p[0], hi))
  }

  ghost function KidBound(t: Tree, i: nat, hi: Option<Key>): Option<Key>
    requires t.Inner?
  {
    if i < |t.keys| then Some(t.keys[i]) else hi
  }

  // --------------------------------------------------------------- replacing

  lemma {:induction false} SubReplaceSelf(t: Tree, p: Path)
    requires IsPath(t, p)
    ensures Replace(t, p, Sub(t, p)) == t
  {
    if p != [] {
      SubReplaceSelf(t.kids[p[0]], p[1..]);
      assert t.kids[p[0] := t.kids[p[0]]] == t.kids;
    }
  }

  /** A replaced node keeps the path and the surroundings. */
  lemma {:induction false} ReplaceSurroundings(t: Tree, p: Path, s: Tree)
    requires IsPath(t, p)
    ensures IsPath(Replace(t, p, s), p)
    ensures Sub(Replace(t, p, s), p) == s
    ensures Pre(Replace(t, p, s), p) == Pre(t, p)
    ensures Post(Replace(t, p, s), p) == Post(t, p)
    ensures forall hi :: Bound(Replace(t, p, s), p, hi) == Bound(t, p, hi)
  {
    if p != [] {
      var i := p[0];
      ReplaceSurroundings(t.kids[i], p[1..], s);
      var r := Replace(t, p, s);
      assert r.kids[..i] == t.kids[..i];
      assert r.kids[i + 1..] == t.kids[i + 1..];
      forall hi ensures Bound(r, p, hi) == Bound(t, p, hi) {
        assert KidBound(r, i, hi) == KidBound(t, i, hi);
      }
    }
  }

  lemma {:induction false} ReplaceElems(t: Tree, p: Path, s: Tree)
    requires IsPath(t, p)
    ensures Elems(Replace(t, p, s)) == Pre(t, p) + Elems(s) + Post(t, p)
  {
    if p != [] {
      var i := p[0];
      ReplaceElems(t.kids[i], p[1..], s);
      var r := Replace(t, p, s);
      CutElems(r.kids, i);
      assert r.kids[..i] == t.kids[..i];
      assert r.kids[i + 1..] == t.kids[i + 1..];
    }
  }

  lemma SubElems(t: Tree, p: Path)
    requires IsPath(t, p)
    ensures Elems(t) == Pre(t, p) + Elems(Sub(t, p)) + Post(t, p)
  {
    ReplaceElems(t, p, Sub(t, p));
    SubReplaceSelf(t, p);
  }

  /** Levels from the replaced node downwards. */
  lemma {:induction false} ReplaceLevel(t: Tree, p: Path, s: Tree, k: nat)
    requires IsPath(t, p)
    ensures Level(Replace(t, p, s), |p| + k) == LevelPre(t, p, k) + Level(s, k) + LevelPost(t, p, k)
  {
    if p != [] {
      var i, r := p[0], Replace(t, p, s);
      var m := |p| - 1 + k;
      ReplaceLevel(t.kids[i], p[1..], s, k);
      assert r.kids[..i] == t.kids[..i] && r.kids[i + 1..] == t.kids[i + 1..];
      assert Level(r, m + 1) == LevelAll(t.kids[..i], m) + Level(r.kids[i], m) + LevelAll(t.kids[i + 1..], m) by {
        CutLevel(r.kids, i, m);
      }
    }
  }

  /** Levels above the replaced node, and its own, when it stays in its block. */
  lemma {:induction false} ReplaceLevelAbove(t: Tree, p: Path, s: Tree, k: nat)
    requires IsPath(t, p) && k <= |p| && s.off == Sub(t, p).off
    ensures Level(Replace(t, p, s), k) == Level(t, k)
  {
    if p != [] && k > 0 {
      var i := p[0];
      ReplaceLevelAbove(t.kids[i], p[1..], s, k - 1);
      var r := Replace(t, p, s);
      CutLevel(r.kids, i, k - 1);
      CutLevel(t.kids, i, k - 1);
      assert r.kids[..i] == t.kids[..i];
      assert r.kids[i + 1..] == t.kids[i + 1..];
    }
  }

  lemma SubLevel(t: Tree, p: Path, k: nat)
    requires IsPath(t, p)
    ensures Level(t, |p| + k) == LevelPre(t, p, k) + Level(Sub(t, p), k) + LevelPost(t, p, k)
  {
    ReplaceLevel(t, p, Sub(t, p), k);
    SubReplaceSelf(t, p);
  }

  // ------------------------------------------------------------ invariants

  lemma {:induction false} SubDistinct(t: Tree, p: Path)
    requires IsPath(t, p) && Distinct(t)
    ensures Distinct(Sub(t, p))
  {
    if p != [] {
      CutDistinct(t.kids, p[0]);
      SubDistinct(t.kids[p[0]], p[1..]);
    }
  }

  lemma {:induction false} SubBalanced(t: Tree, p: Path, h: nat)
    requires IsPath(t, p) && Balanced(t, h)
    ensures |p| <= h && Balanced(Sub(t, p), h - |p|)
  {
    if p != [] {
      SubBalanced(t.kids[p[0]], p[1..], h - 1);
    }
  }

  lemma {:induction false} SubOccupied(t: Tree, p: Path, d: nat)
    requires IsPath(t, p) && Occupied(t, d)
    ensures Occupied(Sub(t, p), d)
  {
    if p != [] {
      SubOccupied(t.kids[p[0]], p[1..], d);
    }
  }

  lemma {:induction false} SubSeps(t: Tree, p: Path)
    requires IsPath(t, p) && Seps(t)
    ensures Seps(Sub(t, p))
  {
    if p != [] {
      SubSeps(t.kids[p[0]], p[1..]);
    }
  }

  /** Every node of a well-formed index satisfies the invariants of a subtree. */
  lemma SubInvariants(t: Tree, p: Path, h: nat, d: nat)
    requires IsPath(t, p) && Balanced(t, h) && Seps(t) && RootOccupied(t, d) && Distinct(t)
    ensures |p| <= h && Balanced(Sub(t, p), h - |p|) && Seps(Sub(t, p)) && Distinct(Sub(t, p))
    ensures p != [] ==> Occupied(Sub(t, p), d)
    ensures p == [] ==> Sub(t, p) == t
  {
    SubBalanced(t, p, h);
    SubSeps(t, p);
    SubDistinct(t, p);
    if p != [] { SubOccupied(t.kids[p[0]], p[1..], d); }
  }

  lemma {:induction false} ReplaceBalanced(t: Tree, p: Path, s: Tree, h: nat)
    requires IsPath(t, p) && Balanced(t, h) && |p| <= h && Balanced(s, h - |p|)
    ensures Balanced(Replace(t, p, s), h)
  {
    if p != [] {
      ReplaceBalanced(t.kids[p[0]], p[1..], s, h - 1);
    }
  }

  lemma {:induction false} ReplaceOccupied(t: Tree, p: Path, s: Tree, d: nat)
    requires IsPath(t, p) && Occupied(t, d) && Occupied(s, d)
    ensures Occupied(Replace(t, p, s), d)
  {
    if p != [] {
      ReplaceOccupied(t.kids[p[0]], p[1..], s, d);
    }
  }

  lemma ReplaceRootOccupied(t: Tree, p: Path, s: Tree, d: nat)
    requires IsPath(t, p) && RootOccupied(t, d)
    requires if p == [] then RootOccupied(s, d) else Occupied(s, d)
    ensures RootOccupied(Replace(t, p, s), d)
  {
    if p != [] {
      ReplaceOccupied(t.kids[p[0]], p[1..], s, d);
    }
  }

  /** A non-rightmost node may be replaced only by one with the same largest key. */
  lemma {:induction false} ReplaceSeps(t: Tree, p: Path, s: Tree)
    requires IsPath(t, p) && Seps(t) && Seps(s)
    requires Elems(s) != [] && Elems(Sub(t, p)) != []
    requires Post(t, p) != [] ==> LastKey(Elems(s)) == LastKey(Elems(Sub(t, p)))
    ensures Seps(Replace(t, p, s))
  {
    if p != [] {
      var i := p[0];
      var c := t.kids[i];
      var c' := Replace(c, p[1..], s);
      ReplaceSeps(c, p[1..], s);
      ReplaceElems(c, p[1..], s);
      SubElems(c, p[1..]);
      if i < |t.keys| {
        assert ElemsAll(t.kids[i + 1..]) != [] by {
          assert t.kids[i + 1..] != [] && Elems(t.kids[i + 1]) != [];
        }
        assert LastKey(Elems(c')) == LastKey(Elems(c));
      }
      SepsUpdate(t, i, c');
    }
  }

  lemma SepsUpdate(t: Tree, i: nat, c: Tree)
    requires t.Inner? && Seps(t) && i < |t.kids| && Seps(c) && Elems(c) != []
    requires i < |t.keys| ==> LastKey(Elems(c)) == LastKey(Elems(t.kids[i]))
    ensures Seps(Inner(t.off, t.keys, t.kids[i := c]))
  {
    var u := t.kids[i := c];
    assert forall j :: 0 <= j < |u| ==> u[j] == if j == i then c else t.kids[j];
  }

  lemma {:induction false} SubOffs(t: Tree, p: Path)
    requires IsPath(t, p)
    ensures Offs(Sub(t, p)) <= Offs(t) && Sub(t, p).off in Offs(Sub(t, p))
  {
    if p != [] {
      SubOffs(t.kids[p[0]], p[1..]);
      CutOffs(t.kids, p[0]);
    }
  }

  lemma {:induction false} ReplaceDistinct(t: Tree, p: Path, s: Tree)
    requires IsPath(t, p) && Distinct(t) && Distinct(s)
    requires Offs(s) !! (Offs(t) - Offs(Sub(t, p)))
    ensures Distinct(Replace(t, p, s))
    ensures Offs(Replace(t, p, s)) == Offs(t) - Offs(Sub(t, p)) + Offs(s)
  {
    if p != [] {
      var i := p[0];
      CutOffs(t.kids, i);
      CutDistinct(t.kids, i);
      SubOffs(t.kids[i], p[1..]);
      ReplaceDistinct(t.kids[i], p[1..], s);
      var r := Replace(t, p, s);
      CutOffs(r.kids, i);
      CutDistinct(r.kids, i);
      assert r.kids[..i] == t.kids[..i];
      assert r.kids[i + 1..] == t.kids[i + 1..];
    }
  }

  // ------------------------------------------------------- stepping one down

  lemma {:induction false} StepSub(t: Tree, p: Path, c: nat)
    requires IsPath(t, p) && Sub(t, p).Inner? && c < |Sub(t, p).kids|
    ensures IsPath(t, p + [c]) && Sub(t, p + [c]) == Sub(t, p).kids[c]
  {
    var q := p + [c];
    if p == [] {
      assert q[1..] == [];
    } else {
      StepSub(t.kids[p[0]], p[1..], c);
      assert q[1..] == p[1..] + [c];
    }
  }

  lemma {:induction false} StepAround(t: Tree, p: Path, c: nat)
    requires IsPath(t, p) && Sub(t, p).Inner? && c < |Sub(t, p).kids| && IsPath(t, p + [c])
    ensures Pre(t, p + [c]) == Pre(t, p) + ElemsAll(Sub(t, p).kids[..c])
    ensures Post(t, p + [c]) == ElemsAll(Sub(t, p).kids[c + 1..]) + Post(t, p)
  {
    var q := p + [c];
    if p == [] {
      assert q[1..] == [];
    } else {
      var u, i := t.kids[p[0]], p[0];
      assert q[1..] == p[1..] + [c];
      StepAround(u, p[1..], c);
      Assoc(ElemsAll(t.kids[..i]), Pre(u, p[1..]), ElemsAll(Sub(t, p).kids[..c]));
      Assoc(ElemsAll(Sub(t, p).kids[c + 1..]), Post(u, p[1..]), ElemsAll(t.kids[i + 1..]));
    }
  }

  lemma {:induction false} StepBound(t: Tree, p: Path, c: nat, hi: Option<Key>)
    requires IsPath(t, p) && Sub(t, p).Inner? && c < |Sub(t, p).kids| && IsPath(t, p + [c])
    ensures Bound(t, p + [c], hi) == KidBound(Sub(t, p), c, Bound(t, p, hi))
  {
    var q := p + [c];
    if p == [] {
      assert q[1..] == [];
    } else {
      assert q[1..] == p[1..] + [c];
      StepBound(t.kids[p[0]], p[1..], c, KidBound(t, p[0], hi));
    }
  }

  lemma PathStep(t: Tree, p: Path, c: nat)
    requires IsPath(t, p) && Sub(t, p).Inner? && c < |Sub(t, p).kids|
    ensures IsPath(t, p + [c])
    ensures Sub(t, p + [c]) == Sub(t, p).kids[c]
    ensures Pre(t, p + [c]) == Pre(t, p) + ElemsAll(Sub(t, p).kids[..c])
    ensures Post(t, p + [c]) == ElemsAll(Sub(t, p).kids[c + 1..]) + Post(t, p)
    ensures forall hi :: Bound(t, p + [c], hi) == KidBound(Sub(t, p), c, Bound(t, p, hi))
  {
    StepSub(t, p, c);
    StepAround(t, p, c);
    forall hi ensures Bound(t, p + [c], hi) == KidBound(Sub(t, p), c, Bound(t, p, hi)) {
      StepBound(t, p, c, hi);
    }
  }
}
