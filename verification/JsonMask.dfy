/**
 What blanking string leaves of a document does to every other leaf, and when
 a partly blanked document is the original again.
 */
module JsonMask {
  import opened Text
  import opened Json

  ghost predicate IsLeaf(v: Json, p: Path) {
    Lookup(v, p).Some? && Lookup(v, p).value.Str?
  }

  /** `w` is `v` with some string leaves replaced by null. */
  ghost predicate Masks(w: Json, v: Json)
    decreases v
  {
    w == v
    || (w.Null? && v.Str?)
    || (SameShape(w, v) && forall i :: 0 <= i < Arity(v) ==> Masks(Child(w, i), Child(v, i)))
  }

  lemma {:induction false} MaskedLeaf(w: Json, v: Json, p: Path)
    requires Masks(w, v) && IsLeaf(v, p)
    ensures Lookup(w, p) == Lookup(v, p) || Lookup(w, p) == Some(Null)
    decreases p
  {
    if p == [] || w == v {
    } else {
      SelectByShape(w, v, p[0]);
      var i := Select(v, p[0]).value;
      MaskedLeaf(Child(w, i), Child(v, i), p[1..]);
    }
  }

  lemma {:induction false} MaskedChild(w: Json, v: Json, i: nat, c: Json)
    requires SameShape(w, v) && i < Arity(v) && Masks(c, Child(v, i))
    requires forall j :: 0 <= j < Arity(v) ==> Masks(Child(w, j), Child(v, j))
    ensures SameShape(WithChild(w, i, c), v) && Masks(WithChild(w, i, c), v)
  {
    var w' := WithChild(w, i, c);
    forall j | 0 <= j < Arity(v) ensures Masks(Child(w', j), Child(v, j)) {
      if j != i { assert Child(w', j) == Child(w, j); }
    }
  }

  /** Writing null or the original text to a leaf succeeds and stays a mask. */
  lemma {:induction false} MaskedWrite(w: Json, v: Json, p: Path, x: Json)
    requires Masks(w, v) && IsLeaf(v, p) && (x == Null || Some(x) == Lookup(v, p))
    ensures Replace(w, p, x).Some? && Masks(Replace(w, p, x).value, v)
    ensures Lookup(Replace(w, p, x).value, p) == Some(x)
    decreases p
  {
    if p == [] {
    } else {
      assert SameShape(w, v);
      SelectByShape(w, v, p[0]);
      var i := Select(v, p[0]).value;
      assert forall j :: 0 <= j < Arity(v) ==> Masks(Child(w, j), Child(v, j));
      MaskedWrite(Child(w, i), Child(v, i), p[1..], x);
      var c := Replace(Child(w, i), p[1..], x).value;
      MaskedChild(w, v, i, c);
      SelectByShape(WithChild(w, i, c), v, p[0]);
    }
  }

  /** ... and leaves every other leaf as it was. */
  lemma {:induction false} MaskedFrame(w: Json, v: Json, p: Path, x: Json, q: Path)
    requires Masks(w, v) && IsLeaf(v, p) && IsLeaf(v, q) && p != q
    requires Replace(w, p, x).Some?
    ensures Lookup(Replace(w, p, x).value, q) == Lookup(w, q)
    decreases p
  {
    assert p != [] && q != [];
    assert SameShape(w, v);
    SelectByShape(w, v, p[0]);
    SelectByShape(w, v, q[0]);
    var i, j := Select(v, p[0]).value, Select(v, q[0]).value;
    var w' := WithChild(w, i, Replace(Child(w, i), p[1..], x).value);
    SelectByShape(w', v, q[0]);
    if i == j {
      SelectInverse(v, p[0]);
      SelectInverse(v, q[0]);
      assert p == [p[0]] + p[1..] && q == [q[0]] + q[1..];
      MaskedFrame(Child(w, i), Child(v, i), p[1..], x, q[1..]);
    }
  }

  /** A mask that agrees with the original on every string leaf is it. */
  lemma {:induction false} UnmaskedIsOriginal(w: Json, v: Json)
    requires WellFormed(v) && Masks(w, v)
    requires forall p :: IsLeaf(v, p) ==> Lookup(w, p) == Lookup(v, p)
    ensures w == v
    decreases v
  {
    assert v.Str? ==> IsLeaf(v, []);
    if SameShape(w, v) {
      forall i | 0 <= i < Arity(v) ensures Child(w, i) == Child(v, i) {
        var t := ChildToken(v, i);
        SelectChild(v, i);
        SelectByShape(w, v, t);
        forall p | IsLeaf(Child(v, i), p) ensures Lookup(Child(w, i), p) == Lookup(Child(v, i), p) {
          assert ([t] + p)[1..] == p;
          assert IsLeaf(v, [t] + p);
        }
        UnmaskedIsOriginal(Child(w, i), Child(v, i));
      }
      if v.Arr? {
        forall i | 0 <= i < |v.items| ensures w.items[i] == v.items[i] {
          assert Child(w, i) == Child(v, i);
        }
        assert w.items == v.items;
      } else {
        forall i | 0 <= i < |v.fields| ensures w.fields[i] == v.fields[i] {
          assert Child(w, i) == Child(v, i);
        }
        assert w.fields == v.fields;
      }
    }
  }
}
