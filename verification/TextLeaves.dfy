/**
 Fingerprints of the long string leaves of a document
 (crates/pocox-core/src/history_sync.rs, `text_fingerprints`), checked against
 the plain list of those leaves in document order.
 */
module TextLeaves {
  import opened Text
  import opened Json

  /** Most text fingerprints kept for one document. */
  const MAX_TEXT_FIELDS: nat := 128

  /** Shortest text worth a fingerprint, in bytes. */
  const MIN_TEXT_BYTES: nat := 256

  /** SHA-256 as hexadecimal, of a text and of a serialized JSON value. */
  datatype Hasher = Hasher(text: string -> string, json: Json -> string) {
    /** The hypothesis under which equal digests stand for equal contents. */
    ghost predicate CollisionFree() {
      (forall a, b :: text(a) == text(b) ==> a == b)
      && forall v, w :: json(v) == json(w) ==> v == w
    }
  }

  /** A content-addressed prefix of the text at a pointer. */
  datatype Fingerprint = Fingerprint(pointer: string, bytes: nat, digest: string)

  datatype Leaf = Leaf(path: Path, text: string)

  // ---------- the reference list ----------

  function Under(token: string, leaves: seq<Leaf>): seq<Leaf> {
    seq(|leaves|, i requires 0 <= i < |leaves| => Leaf([token] + leaves[i].path, leaves[i].text))
  }

  /** Every string of at least `MIN_TEXT_BYTES`, in document order. */
  function LongLeaves(v: Json): seq<Leaf>
    decreases v, Arity(v) + 1
  {
    if v.Str? then if ByteLen(v.s) >= MIN_TEXT_BYTES then [Leaf([], v.s)] else []
    else LeavesUpTo(v, Arity(v))
  }

  function LeavesUpTo(v: Json, n: nat): seq<Leaf>
    requires n <= Arity(v)
    decreases v, n
  {
    if n == 0 then []
    else LeavesUpTo(v, n - 1) + Under(ChildToken(v, n - 1), LongLeaves(Child(v, n - 1)))
  }

  lemma {:induction false} UnderIff(token: string, leaves: seq<Leaf>, p: Path, s: string)
    ensures Leaf(p, s) in Under(token, leaves)
       <==> p != [] && p[0] == token && Leaf(p[1..], s) in leaves
  {
    var under := Under(token, leaves);
    if Leaf(p, s) in under {
      var i :| 0 <= i < |under| && under[i] == Leaf(p, s);
      assert p == [token] + leaves[i].path && p[1..] == leaves[i].path;
      assert leaves[i] == Leaf(p[1..], s);
    }
    if p != [] && p[0] == token && Leaf(p[1..], s) in leaves {
      var i :| 0 <= i < |leaves| && leaves[i] == Leaf(p[1..], s);
      assert p == [token] + p[1..];
      assert under[i] == Leaf(p, s);
    }
  }

  /** The list holds exactly the long strings lookup can reach. */
  lemma {:induction false} LongLeavesIff(v: Json, p: Path, s: string)
    requires WellFormed(v)
    ensures Leaf(p, s) in LongLeaves(v)
       <==> Lookup(v, p) == Some(Str(s)) && ByteLen(s) >= 256
    decreases v, Arity(v) + 1
  {
    if !v.Str? { LeavesUpToIff(v, Arity(v), p, s); }
  }

  /** Lookup of a long string that descends through one of the first `n` children. */
  ghost predicate ReachedBelow(v: Json, n: nat, p: Path, s: string) {
    p != [] && Select(v, p[0]).Some? && Select(v, p[0]).value < n
    && Lookup(Child(v, Select(v, p[0]).value), p[1..]) == Some(Str(s)) && ByteLen(s) >= MIN_TEXT_BYTES
  }

  lemma {:induction false} LeavesUpToIff(v: Json, n: nat, p: Path, s: string)
    requires WellFormed(v) && n <= Arity(v)
    ensures Leaf(p, s) in LeavesUpTo(v, n) <==> ReachedBelow(v, n, p, s)
    decreases v, n
  {
    if n == 0 {
    } else {
      LeavesUpToIff(v, n - 1, p, s);
      var token, child := ChildToken(v, n - 1), Child(v, n - 1);
      var under := Under(token, LongLeaves(child));
      assert LeavesUpTo(v, n) == LeavesUpTo(v, n - 1) + under;
      assert Leaf(p, s) in under <==> ReachedBelow(v, n, p, s) && !ReachedBelow(v, n - 1, p, s) by {
        UnderIff(token, LongLeaves(child), p, s);
        SelectChild(v, n - 1);
        if p != [] {
          SelectInverse(v, p[0]);
          LongLeavesIff(child, p[1..], s);
        }
      }
    }
  }

  ghost predicate DistinctPaths(leaves: seq<Leaf>) {
    forall i, j :: 0 <= i < j < |leaves| ==> leaves[i].path != leaves[j].path
  }

  lemma {:induction false} LongLeavesDistinct(v: Json)
    requires WellFormed(v)
    ensures DistinctPaths(LongLeaves(v))
    decreases v, Arity(v) + 1
  {
    if !v.Str? { LeavesUpToDistinct(v, Arity(v)); }
  }

  lemma {:induction false} LeavesUpToDistinct(v: Json, n: nat)
    requires WellFormed(v) && n <= Arity(v)
    ensures DistinctPaths(LeavesUpTo(v, n))
    decreases v, n
  {
    if n == 0 {
    } else {
      LeavesUpToDistinct(v, n - 1);
      LongLeavesDistinct(Child(v, n - 1));
      var before, token := LeavesUpTo(v, n - 1), ChildToken(v, n - 1);
      var inner := LongLeaves(Child(v, n - 1));
      var under := Under(token, inner);
      forall i, j | 0 <= i < |before| && 0 <= j < |under| ensures before[i].path != under[j].path {
        LeavesUpToIff(v, n - 1, before[i].path, before[i].text);
        assert before[i] in before;
        SelectChild(v, n - 1);
      }
      forall i, j | 0 <= i < j < |under| ensures under[i].path != under[j].path {
        assert under[i].path[1..] == inner[i].path && under[j].path[1..] == inner[j].path;
      }
    }
  }

  // ---------- the fingerprints ----------

  function FingerprintOf(h: Hasher, prefix: Path, leaf: Leaf): Fingerprint {
    Fingerprint(PointerOf(prefix + leaf.path), ByteLen(leaf.text), h.text(leaf.text))
  }

  function FingerprintsOf(h: Hasher, prefix: Path, leaves: seq<Leaf>): (fs: seq<Fingerprint>)
    ensures |fs| == |leaves|
    ensures forall i :: 0 <= i < |fs| ==> fs[i] == FingerprintOf(h, prefix, leaves[i])
  {
    seq(|leaves|, i requires 0 <= i < |leaves| => FingerprintOf(h, prefix, leaves[i]))
  }

  /** `out` extended by `more` as far as the bound allows. */
  function Capped(out: seq<Fingerprint>, more: seq<Fingerprint>): seq<Fingerprint> {
    if |out| >= MAX_TEXT_FIELDS then out
    else if |out + more| <= MAX_TEXT_FIELDS then out + more
    else (out + more)[..MAX_TEXT_FIELDS]
  }

  lemma {:induction false} CappedTwice(out: seq<Fingerprint>, a: seq<Fingerprint>, b: seq<Fingerprint>)
    ensures Capped(Capped(out, a), b) == Capped(out, a + b)
  {
    assert out + (a + b) == (out + a) + b;
  }

  lemma {:induction false} FingerprintsAppend(h: Hasher, prefix: Path, a: seq<Leaf>, b: seq<Leaf>)
    ensures FingerprintsOf(h, prefix, a + b) == FingerprintsOf(h, prefix, a) + FingerprintsOf(h, prefix, b)
  {
  }

  lemma {:induction false} FingerprintsUnder(h: Hasher, prefix: Path, token: string, leaves: seq<Leaf>)
    ensures FingerprintsOf(h, prefix, Under(token, leaves)) == FingerprintsOf(h, prefix + [token], leaves)
  {
    forall i | 0 <= i < |leaves|
      ensures prefix + ([token] + leaves[i].path) == (prefix + [token]) + leaves[i].path
    {
    }
  }

  /** The fingerprints a manifest carries for one document. */
  function Fingerprints(h: Hasher, v: Json): seq<Fingerprint> {
    Capped([], FingerprintsOf(h, [], LongLeaves(v)))
  }

  /** The recursive walk: appends to `out0` until the bound is reached. */
  method TextFingerprints(h: Hasher, v: Json, pointer: string, out0: seq<Fingerprint>, ghost path: Path)
    returns (out: seq<Fingerprint>)
    requires pointer == PointerOf(path)
    ensures out == Capped(out0, FingerprintsOf(h, path, LongLeaves(v)))
    decreases v
  {
    out := out0;
    if |out| >= MAX_TEXT_FIELDS {
      return;
    }
    if v.Str? {
      if ByteLen(v.s) >= MIN_TEXT_BYTES {
        out := out + [Fingerprint(pointer, ByteLen(v.s), h.text(v.s))];
        assert path + [] == path;
        assert out == out0 + FingerprintsOf(h, path, LongLeaves(v));
      }
    } else {
      for i := 0 to Arity(v)
        invariant out == Capped(out0, FingerprintsOf(h, path, LeavesUpTo(v, i)))
      {
        var token := ChildToken(v, i);
        assert (path + [token])[..|path|] == path;
        if v.Arr? { EscapeDecimal(i); }
        var step := if v.Arr? then token else Escape(token);
        ghost var inner := LongLeaves(Child(v, i));
        out := TextFingerprints(h, Child(v, i), pointer + "/" + step, out, path + [token]);
        CappedTwice(out0, FingerprintsOf(h, path, LeavesUpTo(v, i)), FingerprintsOf(h, path + [token], inner));
        FingerprintsUnder(h, path, token, inner);
        FingerprintsAppend(h, path, LeavesUpTo(v, i), Under(token, inner));
      }
    }
  }

  // ---------- what a fingerprint list promises ----------

  /** `f` names, by pointer lookup, exactly the string it was computed from. */
  ghost predicate Names(h: Hasher, v: Json, f: Fingerprint) {
    exists s :: Resolve(v, f.pointer) == Some(Str(s)) && f.bytes == ByteLen(s) && f.digest == h.text(s)
  }

  function RootFingerprint(h: Hasher, leaf: Leaf): Fingerprint {
    Fingerprint(PointerOf(leaf.path), ByteLen(leaf.text), h.text(leaf.text))
  }

  lemma {:induction false} FingerprintAt(h: Hasher, v: Json, i: nat)
    ensures |Fingerprints(h, v)| <= |LongLeaves(v)|
    ensures |Fingerprints(h, v)| < MAX_TEXT_FIELDS ==> |Fingerprints(h, v)| == |LongLeaves(v)|
    ensures i < |Fingerprints(h, v)| ==> Fingerprints(h, v)[i] == RootFingerprint(h, LongLeaves(v)[i])
  {
    var leaves := LongLeaves(v);
    if i < |leaves| { assert [] + leaves[i].path == leaves[i].path; }
  }

  lemma {:induction false} FingerprintsSound(h: Hasher, v: Json, f: Fingerprint)
    requires WellFormed(v) && f in Fingerprints(h, v)
    ensures Names(h, v, f) && f.bytes >= MIN_TEXT_BYTES
    ensures |Fingerprints(h, v)| <= 128
  {
    var i :| 0 <= i < |Fingerprints(h, v)| && f == Fingerprints(h, v)[i];
    FingerprintAt(h, v, i);
    var leaf := LongLeaves(v)[i];
    assert leaf in LongLeaves(v);
    LongLeavesIff(v, leaf.path, leaf.text);
    TokensOfPointer(leaf.path);
  }

  lemma {:induction false} FingerprintsDistinct(h: Hasher, v: Json, i: nat, j: nat)
    requires WellFormed(v) && i < j < |Fingerprints(h, v)|
    ensures Fingerprints(h, v)[i].pointer != Fingerprints(h, v)[j].pointer
  {
    FingerprintAt(h, v, i);
    FingerprintAt(h, v, j);
    LongLeavesDistinct(v);
    TokensOfPointer(LongLeaves(v)[i].path);
    TokensOfPointer(LongLeaves(v)[j].path);
  }

  /** Below the bound no long text is missed. */
  lemma {:induction false} FingerprintsComplete(h: Hasher, v: Json, p: Path, s: string)
    requires WellFormed(v) && Lookup(v, p) == Some(Str(s)) && ByteLen(s) >= 256
    requires |Fingerprints(h, v)| < 128
    ensures RootFingerprint(h, Leaf(p, s)) in Fingerprints(h, v)
  {
    LongLeavesIff(v, p, s);
    var i :| 0 <= i < |LongLeaves(v)| && LongLeaves(v)[i] == Leaf(p, s);
    FingerprintAt(h, v, i);
  }
}
