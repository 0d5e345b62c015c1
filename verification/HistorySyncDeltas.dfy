/**
 What a delta holds and what a client accepts, in terms of the documents
 alone: which texts are sent as suffixes, and which responses are refused.
 */
module HistorySyncDeltas {
  import opened Text
  import opened Json
  import opened JsonMask
  import opened TextLeaves
  import opened HistorySync
  import opened HistorySyncTheorems

  // ---------- which texts are reused ----------

  /** The client's fingerprint is that of the first `k` characters of `s`, the
      text now at its pointer. */
  ghost predicate Extends(h: Hasher, v: Json, f: Fingerprint, s: string, k: nat) {
    Resolve(v, f.pointer) == Some(Str(s)) && k <= |s| && ByteLen(s[..k]) == f.bytes && h.text(s[..k]) == f.digest
  }

  /** Some prefix of the text now at the pointer is the fingerprinted one. */
  ghost predicate Extended(h: Hasher, v: Json, f: Fingerprint) { exists s, k :: Extends(h, v, f, s, k) }

  /** The fingerprints of a list that still match, in order. */
  ghost function Matching(h: Hasher, v: Json, fields: seq<Fingerprint>): seq<Fingerprint> {
    if fields == [] then []
    else Matching(h, v, fields[..|fields| - 1])
         + if Extended(h, v, fields[|fields| - 1]) then [fields[|fields| - 1]] else []
  }

  function Bases(append: seq<TextAppend>): (bases: seq<Fingerprint>)
    ensures |bases| == |append| && forall i :: 0 <= i < |append| ==> bases[i] == append[i].base
  {
    seq(|append|, i requires 0 <= i < |append| => append[i].base)
  }

  lemma {:induction false} SuffixIff(h: Hasher, v: Json, f: Fingerprint, s: string, k: nat)
    ensures Extends(h, v, f, s, k) ==> ReusableSuffix(h, v, f) == Some(s[k..])
    ensures ReusableSuffix(h, v, f).Some? ==> Extended(h, v, f)
  {
    if Extends(h, v, f, s, k) {
      BoundaryIff(s, f.bytes, k);
    }
    if ReusableSuffix(h, v, f).Some? {
      var text := Resolve(v, f.pointer).value.s;
      var j := BoundaryAt(text, f.bytes).value;
      BoundaryIff(text, f.bytes, j);
      assert Extends(h, v, f, text, j);
    }
  }

  /** The texts reused are those that match, each once for its fingerprint and
      in the order of the list. */
  lemma {:induction false} DraftMatches(h: Hasher, v: Json, fields: seq<Fingerprint>)
    ensures Bases(DraftOf(h, v, fields).append) == Matching(h, v, fields)
  {
    if fields == [] {
    } else {
      var init, f := fields[..|fields| - 1], fields[|fields| - 1];
      DraftMatches(h, v, init);
      DraftRecoverable(h, v, init);
      if Extended(h, v, f) {
        var s, k :| Extends(h, v, f, s, k);
        SuffixIff(h, v, f, s, k);
        FieldRecoverable(h, v, DraftOf(h, v, init), f);
      } else {
        SuffixIff(h, v, f, "", 0);
      }
    }
  }

  lemma {:induction false} MatchingIff(h: Hasher, v: Json, fields: seq<Fingerprint>, f: Fingerprint)
    ensures f in Matching(h, v, fields) <==> f in fields && Extended(h, v, f)
  {
    if fields == [] {
    } else {
      var init, last := fields[..|fields| - 1], fields[|fields| - 1];
      MatchingIff(h, v, init, f);
      assert fields == init + [last];
    }
  }

  /** An append carries exactly the rest of the text after the fingerprint. */
  lemma {:induction false} DraftSuffix(h: Hasher, v: Json, fields: seq<Fingerprint>, a: TextAppend, s: string, k: nat)
    requires Extends(h, v, a.base, s, k) && a in DraftOf(h, v, fields).append
    ensures a.suffix == s[k..]
  {
    DraftRecoverable(h, v, fields);
    SuffixIff(h, v, a.base, s, k);
  }

  /** A leaf is blanked exactly when it is reused. */
  lemma {:induction false} DraftBlanks(h: Hasher, v: Json, fields: seq<Fingerprint>, q: Path)
    requires IsLeaf(v, q)
    ensures var d := DraftOf(h, v, fields);
            Lookup(d.template, q) == if Blanked(d.append, q) then Some(Null) else Lookup(v, q)
  {
    if fields == [] {
    } else {
      var init, f := fields[..|fields| - 1], fields[|fields| - 1];
      var d := DraftOf(h, v, init);
      DraftBlanks(h, v, init, q);
      DraftRecoverable(h, v, init);
      if ReusableSuffix(h, v, f).Some? {
        FieldRecoverable(h, v, d, f);
        FieldBlanks(h, v, d, f, q);
      }
    }
  }

  lemma {:induction false} FieldBlanks(h: Hasher, v: Json, d: Draft, f: Fingerprint, q: Path)
    requires IsLeaf(v, q) && Masks(d.template, v) && ReusableSuffix(h, v, f).Some?
    requires Lookup(d.template, q) == if Blanked(d.append, q) then Some(Null) else Lookup(v, q)
    ensures var d' := DraftField(h, v, d, f);
            Lookup(d'.template, q) == if Blanked(d'.append, q) then Some(Null) else Lookup(v, q)
  {
    var p := Tokens(f.pointer).value;
    MaskedWrite(d.template, v, p, Null);
    var d', n := DraftField(h, v, d, f), |d.append|;
    assert d'.append == d.append + [TextAppend(f, ReusableSuffix(h, v, f).value)];
    if q == p {
      assert Tokens(d'.append[n].base.pointer) == Some(q);
    } else {
      MaskedFrame(d.template, v, p, Null, q);
      BlankedMore(d.append, d'.append[n], q);
      if Blanked(d'.append, q) {
        var i :| 0 <= i < |d'.append| && Tokens(d'.append[i].base.pointer) == Some(q);
        assert d.append[i] == d'.append[i];
      }
    }
  }

  // ---------- what a response holds ----------

  /** What the client told of a document of this very history. */
  ghost predicate Tells(w: Window, known: Option<WindowManifest>, id: string, m: DocumentManifest) {
    known.Some? && known.value.provider == w.provider && known.value.generation == w.generation
    && id in known.value.documents && known.value.documents[id] == m
  }

  lemma {:induction false} TellsIff(w: Window, known: Option<WindowManifest>, id: string, m: DocumentManifest)
    ensures Tells(w, known, id, m) <==> KnownDocument(w, known, id) == Some(m)
  {
  }

  /** A response replaces the window outright exactly when the manifest is of
      another history, leaves the metadata out exactly when the client has it,
      and lists exactly the documents the client does not have as they are. */
  lemma {:induction false} ReconcileSends(h: Hasher, w: Window, known: Option<WindowManifest>, r: SyncResponse,
                                          id: string)
    requires Valid(w) && IsReconciliation(h, w, known, r)
    ensures r.version == 1 && r.provider == w.provider && r.generation == w.generation && r.order == w.order
    ensures r.reset <==> known.Some? && (known.value.provider != w.provider || known.value.generation != w.generation)
    ensures r.metadata == if known.Some? && known.value.provider == w.provider
                             && known.value.generation == w.generation
                             && known.value.metadataDigest == h.json(w.metadata)
                          then None else Some(w.metadata)
    ensures r.metadataDigest == h.json(w.metadata)
    ensures ChangeListed(r.changes, id) <==>
            id in w.documents && !exists m :: Tells(w, known, id, m) && m.digest == h.json(w.documents[id])
  {
    if id in w.documents && Unchanged(h, w, known, id) {
      var m := KnownDocument(w, known, id).value;
      TellsIff(w, known, id, m);
      assert Tells(w, known, id, m) && m.digest == h.json(w.documents[id]);
    }
    forall m | Tells(w, known, id, m) ensures KnownDocument(w, known, id) == Some(m) {
      TellsIff(w, known, id, m);
    }
  }

  /** A change of a document the client told of reuses exactly the texts that
      still start as fingerprinted: each is blanked in the template and followed
      by the rest of it, every other leaf is sent; and the client's digest is
      asked for exactly when something is reused. */
  lemma {:induction false} ChangeReuses(h: Hasher, w: Window, known: Option<WindowManifest>, r: SyncResponse,
                                        c: DocumentDelta, m: DocumentManifest)
    requires IsReconciliation(h, w, known, r) && c in r.changes && Tells(w, known, c.id, m)
    ensures c.id in w.documents && c.digest == h.json(w.documents[c.id])
    ensures Bases(c.append) == Matching(h, w.documents[c.id], m.text)
    ensures forall a, s, k :: a in c.append && Extends(h, w.documents[c.id], a.base, s, k) ==> a.suffix == s[k..]
    ensures forall q :: IsLeaf(w.documents[c.id], q) ==>
                          Lookup(c.value, q)
                          == if Blanked(c.append, q) then Some(Null) else Lookup(w.documents[c.id], q)
    ensures c.baseDigest == if c.append == [] then None else Some(m.digest)
  {
    TellsIff(w, known, c.id, m);
    var v := w.documents[c.id];
    DraftMatches(h, v, m.text);
    forall a, s, k | a in c.append && Extends(h, v, a.base, s, k) ensures a.suffix == s[k..] {
      DraftSuffix(h, v, m.text, a, s, k);
    }
    forall q | IsLeaf(v, q)
      ensures Lookup(c.value, q) == if Blanked(c.append, q) then Some(Null) else Lookup(v, q)
    {
      DraftBlanks(h, v, m.text, q);
    }
  }

  /** ... and of one it did not tell of, the document itself. */
  lemma {:induction false} ChangeWhole(h: Hasher, w: Window, known: Option<WindowManifest>, r: SyncResponse,
                                       c: DocumentDelta)
    requires IsReconciliation(h, w, known, r) && c in r.changes && forall m :: !Tells(w, known, c.id, m)
    ensures c.id in w.documents
    ensures c == DocumentDelta(c.id, None, w.documents[c.id], [], h.json(w.documents[c.id]))
  {
    if KnownDocument(w, known, c.id).Some? {
      TellsIff(w, known, c.id, KnownDocument(w, known, c.id).value);
    }
  }

  /** In particular: nothing is reused exactly when no fingerprint matches, and
      one text is reused exactly when its fingerprint is in the list and matches;
      its slot is then null and the client's digest is asked for. */
  lemma {:induction false} AppendedIff(h: Hasher, w: Window, known: Option<WindowManifest>, r: SyncResponse,
                                       c: DocumentDelta, m: DocumentManifest, f: Fingerprint, s: string, k: nat)
    requires IsReconciliation(h, w, known, r) && c in r.changes && Tells(w, known, c.id, m)
    requires c.id in w.documents && Extends(h, w.documents[c.id], f, s, k)
    ensures TextAppend(f, s[k..]) in c.append <==> f in m.text
    ensures f in m.text ==> Resolve(c.value, f.pointer) == Some(Null) && c.baseDigest == Some(m.digest)
    ensures c.append == [] <==> forall g :: g in m.text ==> !Extended(h, w.documents[c.id], g)
  {
    var v := w.documents[c.id];
    ChangeReuses(h, w, known, r, c, m);
    forall g ensures g in Bases(c.append) <==> g in m.text && Extended(h, v, g) {
      MatchingIff(h, v, m.text, g);
    }
    if f in m.text {
      assert f in Bases(c.append);
      var i :| 0 <= i < |c.append| && c.append[i].base == f;
      assert c.append[i] in c.append;
      assert Blanked(c.append, Tokens(f.pointer).value) && IsLeaf(v, Tokens(f.pointer).value);
    }
    if TextAppend(f, s[k..]) in c.append {
      var i :| 0 <= i < |c.append| && c.append[i] == TextAppend(f, s[k..]);
      assert Bases(c.append)[i] == f;
    }
    if c.append != [] {
      assert Bases(c.append)[0] in Bases(c.append);
    }
  }

  /** What appending is for: a text of at least 256 bytes that has grown in a
      document with fewer than 128 such texts is sent as its new part alone. */
  lemma {:induction false} GrownTextSentAsSuffix(h: Hasher, w: Window, prior: Window, r: SyncResponse,
                                                 c: DocumentDelta, p: Path, t: string, more: string)
    requires IsReconciliation(h, w, Some(ManifestOf(h, prior)), r) && c in r.changes && c.id in prior.documents
    requires prior.provider == w.provider && prior.generation == w.generation
    requires Canonical(prior) && |LongLeaves(prior.documents[c.id])| < 128
    requires Lookup(prior.documents[c.id], p) == Some(Str(t)) && ByteLen(t) >= 256
    requires c.id in w.documents && Lookup(w.documents[c.id], p) == Some(Str(t + more))
    ensures TextAppend(Fingerprint(PointerOf(p), ByteLen(t), h.text(t)), more) in c.append
    ensures Lookup(c.value, p) == Some(Null)
    ensures c.baseDigest == Some(h.json(prior.documents[c.id]))
  {
    var o, v, known := prior.documents[c.id], w.documents[c.id], Some(ManifestOf(h, prior));
    var m, f := DocumentManifestOf(h, o), Fingerprint(PointerOf(p), ByteLen(t), h.text(t));
    assert Tells(w, known, c.id, m);
    GrownExtends(h, o, v, p, t, more);
    AppendedIff(h, w, known, r, c, m, f, t + more, |t|);
    ChangeReuses(h, w, known, r, c, m);
    BlankedBy(c.append, TextAppend(f, more), p);
  }

  lemma {:induction false} GrownExtends(h: Hasher, o: Json, v: Json, p: Path, t: string, more: string)
    requires WellFormed(o) && |LongLeaves(o)| < 128 && Lookup(o, p) == Some(Str(t)) && ByteLen(t) >= 256
    requires Lookup(v, p) == Some(Str(t + more))
    ensures var f := Fingerprint(PointerOf(p), ByteLen(t), h.text(t));
            && f in Fingerprints(h, o) && Extends(h, v, f, t + more, |t|) && Tokens(f.pointer) == Some(p)
    ensures (t + more)[|t|..] == more && IsLeaf(v, p)
  {
    TokensOfPointer(p);
    FingerprintAt(h, o, 0);
    FingerprintsComplete(h, o, p, t);
    assert (t + more)[..|t|] == t;
  }

  lemma {:induction false} BlankedBy(append: seq<TextAppend>, a: TextAppend, p: Path)
    requires a in append && Tokens(a.base.pointer) == Some(p)
    ensures append != [] && Blanked(append, p)
  {
    var i :| 0 <= i < |append| && append[i] == a;
    assert Tokens(append[i].base.pointer) == Some(p);
  }

  /** A window reconciled with its own manifest has nothing to send. */
  lemma {:induction false} UnchangedSendsNothing(h: Hasher, w: Window, r: SyncResponse)
    requires Valid(w) && IsReconciliation(h, w, Some(ManifestOf(h, w)), r)
    ensures r.changes == [] && r.metadata.None? && !r.reset
  {
    var known := Some(ManifestOf(h, w));
    ReconcileSends(h, w, known, r, "");
    if r.changes != [] {
      var id := r.changes[0].id;
      ReconcileSends(h, w, known, r, id);
      assert Tells(w, known, id, DocumentManifestOf(h, w.documents[id]));
    }
  }

  // ---------- what a client accepts ----------

  /** The base a response is applied to: the client's window, unless it is of
      another history or the response asks for a reset. */
  ghost predicate StartsFrom(base: Option<Window>, r: SyncResponse, start: Option<Window>) {
    start == if base.Some? && !r.reset && base.value.provider == r.provider && base.value.generation == r.generation
             then base else None
  }

  /** The cached document holds the text that was fingerprinted, whole. */
  ghost predicate Cached(h: Hasher, prior: Option<Json>, f: Fingerprint, s: string) {
    prior.Some? && Resolve(prior.value, f.pointer) == Some(Str(s)) && ByteLen(s) == f.bytes && h.text(s) == f.digest
  }

  /** `v` is the template with each cached text and its suffix in its slot. */
  ghost predicate Fills(h: Hasher, prior: Option<Json>, template: Json, append: seq<TextAppend>, v: Json)
    decreases |append|
  {
    if append == [] then v == template
    else exists s, next ::
      && Cached(h, prior, append[0].base, s)
      && ReplaceAt(template, append[0].base.pointer, Str(s + append[0].suffix)) == Some(next)
      && Fills(h, prior, next, append[1..], v)
  }

  /** A change installs `v`: it was there already, or it was built on the
      document the change is for and has the digest announced. */
  ghost predicate Accepts(h: Hasher, prior: Option<Json>, c: DocumentDelta, v: Json) {
    h.json(v) == c.digest
    && if prior.Some? && h.json(prior.value) == c.digest then prior == Some(v)
       else (c.baseDigest.Some? ==> prior.Some? && h.json(prior.value) == c.baseDigest.value)
            && Fills(h, prior, c.value, c.append, v)
  }

  ghost predicate Installed(h: Hasher, documents: map<string, Json>, changes: seq<DocumentDelta>,
                            out: map<string, Json>)
    decreases |changes|
  {
    if changes == [] then out == documents
    else exists v :: Accepts(h, Get(documents, changes[0].id), changes[0], v)
                     && Installed(h, documents[changes[0].id := v], changes[1..], out)
  }

  lemma {:induction false} AppendTextIff(h: Hasher, prior: Option<Json>, value: Json, a: TextAppend, v: Json)
    ensures AppendText(h, prior, value, a) == Ok(v) <==>
            exists s :: Cached(h, prior, a.base, s)
                        && ReplaceAt(value, a.base.pointer, Str(s + a.suffix)) == Some(v)
    ensures AppendText(h, prior, value, a) == Err(MissingPrefix) <==>
            forall s :: !(prior.Some? && Resolve(prior.value, a.base.pointer) == Some(Str(s)))
    ensures AppendText(h, prior, value, a) == Err(PrefixMismatch) <==>
            exists s :: prior.Some? && Resolve(prior.value, a.base.pointer) == Some(Str(s))
                        && !Cached(h, prior, a.base, s)
    ensures AppendText(h, prior, value, a) == Err(InvalidPointer) <==>
            exists s :: Cached(h, prior, a.base, s)
                        && ReplaceAt(value, a.base.pointer, Str(s + a.suffix)).None?
  {
    if prior.Some? && Resolve(prior.value, a.base.pointer).Some? && Resolve(prior.value, a.base.pointer).value.Str? {
      var s := Resolve(prior.value, a.base.pointer).value.s;
      assert Resolve(prior.value, a.base.pointer) == Some(Str(s));
      assert Cached(h, prior, a.base, s) <==> ByteLen(s) == a.base.bytes && h.text(s) == a.base.digest;
    }
  }

  lemma {:induction false} RebuildIff(h: Hasher, prior: Option<Json>, value: Json, append: seq<TextAppend>, v: Json)
    ensures Rebuild(h, prior, value, append) == Ok(v) <==> Fills(h, prior, value, append, v)
    decreases |append|
  {
    if append == [] {
    } else {
      forall next ensures AppendText(h, prior, value, append[0]) == Ok(next) <==>
                          exists s :: Cached(h, prior, append[0].base, s)
                            && ReplaceAt(value, append[0].base.pointer, Str(s + append[0].suffix)) == Some(next)
      {
        AppendTextIff(h, prior, value, append[0], next);
      }
      forall next ensures Rebuild(h, prior, next, append[1..]) == Ok(v) <==> Fills(h, prior, next, append[1..], v) {
        RebuildIff(h, prior, next, append[1..], v);
      }
    }
  }

  lemma {:induction false} OtherRebuildErrors(h: Hasher, prior: Option<Json>, value: Json, append: seq<TextAppend>)
    ensures Rebuild(h, prior, value, append).Err? ==>
              Rebuild(h, prior, value, append).error in {MissingPrefix, PrefixMismatch, InvalidPointer}
    decreases |append|
  {
    if append == [] {
    } else if AppendText(h, prior, value, append[0]).Ok? {
      OtherRebuildErrors(h, prior, AppendText(h, prior, value, append[0]).value, append[1..]);
    }
  }

  lemma {:induction false} ApplyChangeIff(h: Hasher, documents: map<string, Json>, c: DocumentDelta,
                                          out: map<string, Json>)
    ensures ApplyChange(h, documents, c) == Ok(out) <==>
            exists v :: Accepts(h, Get(documents, c.id), c, v) && out == documents[c.id := v]
    ensures ApplyChange(h, documents, c) == Err(BaseMismatch) <==>
            var prior := Get(documents, c.id);
            c.baseDigest.Some?
            && (prior.Some? ==> h.json(prior.value) != c.digest && h.json(prior.value) != c.baseDigest.value)
  {
    var prior := Get(documents, c.id);
    forall v ensures Rebuild(h, prior, c.value, c.append) == Ok(v) <==> Fills(h, prior, c.value, c.append, v) {
      RebuildIff(h, prior, c.value, c.append, v);
    }
    OtherRebuildErrors(h, prior, c.value, c.append);
    if prior.Some? && h.json(prior.value) == c.digest {
      assert documents[c.id := prior.value] == documents;
      assert Accepts(h, prior, c, prior.value);
    } else if ApplyChange(h, documents, c).Ok? {
      var v := Rebuild(h, prior, c.value, c.append).value;
      assert Accepts(h, prior, c, v);
    }
  }

  lemma {:induction false} ApplyChangesIff(h: Hasher, documents: map<string, Json>, changes: seq<DocumentDelta>,
                                           out: map<string, Json>)
    ensures ApplyChanges(h, documents, changes) == Ok(out) <==> Installed(h, documents, changes, out)
    decreases |changes|
  {
    if changes == [] {
    } else {
      var c, rest := changes[0], changes[1..];
      if ApplyChange(h, documents, c).Ok? {
        var next := ApplyChange(h, documents, c).value;
        ApplyChangeIff(h, documents, c, next);
        ApplyChangesIff(h, next, rest, out);
      }
      forall v | Accepts(h, Get(documents, c.id), c, v)
        ensures ApplyChange(h, documents, c) == Ok(documents[c.id := v])
      {
        ApplyChangeIff(h, documents, c, documents[c.id := v]);
      }
    }
  }

  /** The window that a base and its changed documents make. */
  ghost predicate Assembles(h: Hasher, start: Option<Window>, r: SyncResponse, documents: map<string, Json>,
                            w: Window) {
    && w.provider == r.provider && w.generation == r.generation && w.order == r.order
    && (if r.metadata.Some? then w.metadata == r.metadata.value
        else start.Some? && w.metadata == start.value.metadata)
    && h.json(w.metadata) == r.metadataDigest
    && NoRepeats(r.order) && (forall id :: id in w.documents <==> id in r.order)
    && (forall id :: id in r.order ==> Get(documents, id) == Get(w.documents, id))
  }

  lemma {:induction false} FinishIff(h: Hasher, start: Option<Window>, r: SyncResponse, documents: map<string, Json>,
                                     w: Window)
    requires |r.order| <= 100
    ensures Finish(h, start, r, documents) == Ok(w) <==> Assembles(h, start, r, documents, w)
    ensures Finish(h, start, r, documents) == Err(MissingMetadata) <==> r.metadata.None? && start.None?
    ensures Finish(h, start, r, documents) == Err(MetadataMismatch) <==>
            if r.metadata.Some? then h.json(r.metadata.value) != r.metadataDigest
            else start.Some? && h.json(start.value.metadata) != r.metadataDigest
  {
    var kept := Retain(documents, r.order);
    if r.metadata.Some? || start.Some? {
      var metadata := if r.metadata.Some? then r.metadata.value else start.value.metadata;
      var made := Window(r.provider, r.generation, metadata, r.order, kept);
      ValidIff(made);
      var ids := set id | id in r.order;
      NoRepeatsByCardinality(r.order);
      assert |kept| == |kept.Keys| && kept.Keys <= ids;
      SmallerSubset(kept.Keys, ids);
      forall id ensures id in ids <==> id in r.order {}
      if Assembles(h, start, r, documents, w) {
        forall id | id in r.order ensures id in kept && kept[id] == w.documents[id] {
          assert Get(documents, id) == Get(w.documents, id) == Some(w.documents[id]);
        }
        assert w.documents == kept;
      }
      if Valid(made) {
        forall id | id in r.order ensures Get(documents, id) == Get(kept, id) {
          assert id in kept;
        }
      }
    }
  }

  lemma {:induction false} SmallerSubset(a: set<string>, b: set<string>)
    requires a <= b
    ensures |a| <= |b|
  {
    assert b == a + (b - a);
  }

  /** Exactly which responses a client accepts, and as what. */
  lemma {:induction false} AppliedIff(h: Hasher, base: Option<Window>, r: SyncResponse, w: Window)
    ensures Applied(h, base, r) == Ok(w) <==>
            r.version == 1 && |r.order| <= 100 && |r.changes| <= 100
            && exists start, documents :: StartsFrom(base, r, start)
                 && Installed(h, if start.Some? then start.value.documents else map[], r.changes, documents)
                 && Assembles(h, start, r, documents, w)
    ensures Applied(h, base, r) == Err(UnsupportedVersion) <==> r.version != 1
    ensures Applied(h, base, r) == Err(OversizedResponse) <==>
            r.version == 1 && (|r.order| > 100 || |r.changes| > 100)
  {
    var start := UsableBase(base, r);
    var held := if start.Some? then start.value.documents else map[];
    assert StartsFrom(base, r, start);
    if |r.order| <= 100 {
      forall documents ensures Finish(h, start, r, documents) == Ok(w) <==> Assembles(h, start, r, documents, w) {
        FinishIff(h, start, r, documents, w);
      }
    }
    forall documents
      ensures ApplyChanges(h, held, r.changes) == Ok(documents) <==> Installed(h, held, r.changes, documents)
    {
      ApplyChangesIff(h, held, r.changes, documents);
    }
    OtherErrors(h, held, r.changes);
  }

  /** The two refusals of the response as a whole have no other cause. */
  lemma {:induction false} OtherErrors(h: Hasher, documents: map<string, Json>, changes: seq<DocumentDelta>)
    ensures ApplyChanges(h, documents, changes).Err? ==>
              ApplyChanges(h, documents, changes).error !in {UnsupportedVersion, OversizedResponse}
    decreases |changes|
  {
    if changes == [] {
    } else {
      var c := changes[0];
      OtherRebuildErrors(h, Get(documents, c.id), c.value, c.append);
      if ApplyChange(h, documents, c).Ok? {
        OtherErrors(h, ApplyChange(h, documents, c).value, changes[1..]);
      }
    }
  }
}
