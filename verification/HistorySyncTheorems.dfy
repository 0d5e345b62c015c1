/**
 Main results on history synchronization: a delta applied to the window whose
 manifest was sent gives exactly the new window, and no base, right or wrong,
 yields an altered listed document.
 */
module HistorySyncTheorems {
  import opened Text
  import opened Json
  import opened JsonMask
  import opened TextLeaves
  import opened HistorySync

  // ---------- one document ----------

  /** `a` replaces a leaf of `v` by a prefix reference and its suffix. */
  ghost predicate Reuses(h: Hasher, v: Json, a: TextAppend) {
    ReusableSuffix(h, v, a.base) == Some(a.suffix)
  }

  ghost predicate Blanked(append: seq<TextAppend>, q: Path) {
    exists i :: 0 <= i < |append| && Tokens(append[i].base.pointer) == Some(q)
  }

  /** Every leaf of `v` is in `template` or waits in `append`. */
  ghost predicate Recoverable(h: Hasher, v: Json, template: Json, append: seq<TextAppend>) {
    && Masks(template, v)
    && (forall i :: 0 <= i < |append| ==> Reuses(h, v, append[i]))
    && (forall q :: IsLeaf(v, q) ==> Lookup(template, q) == Lookup(v, q) || Blanked(append, q))
  }

  /** Blanking one more reused text keeps every leaf recoverable. */
  lemma {:induction false} FieldRecoverable(h: Hasher, v: Json, d: Draft, f: Fingerprint)
    requires Recoverable(h, v, d.template, d.append) && ReusableSuffix(h, v, f).Some?
    ensures var d' := DraftField(h, v, d, f);
            && Recoverable(h, v, d'.template, d'.append)
            && d'.append == d.append + [TextAppend(f, ReusableSuffix(h, v, f).value)]
  {
    var p := Tokens(f.pointer).value;
    MaskedWrite(d.template, v, p, Null);
    var d' := DraftField(h, v, d, f);
    forall q | IsLeaf(v, q) ensures Lookup(d'.template, q) == Lookup(v, q) || Blanked(d'.append, q) {
      if q == p {
        assert Tokens(d'.append[|d.append|].base.pointer) == Some(q);
      } else {
        MaskedFrame(d.template, v, p, Null, q);
        BlankedMore(d.append, d'.append[|d.append|], q);
      }
    }
  }

  lemma {:induction false} BlankedMore(append: seq<TextAppend>, a: TextAppend, q: Path)
    ensures Blanked(append, q) ==> Blanked(append + [a], q)
  {
    if Blanked(append, q) {
      var i :| 0 <= i < |append| && Tokens(append[i].base.pointer) == Some(q);
      assert (append + [a])[i] == append[i];
    }
  }

  /** Blanking reused texts loses nothing that the appended suffixes do not
      carry, for any list of client fingerprints. */
  lemma {:induction false} DraftRecoverable(h: Hasher, v: Json, fields: seq<Fingerprint>)
    ensures Recoverable(h, v, DraftOf(h, v, fields).template, DraftOf(h, v, fields).append)
    ensures forall a :: a in DraftOf(h, v, fields).append ==> a.base in fields
  {
    if fields == [] {
    } else {
      var init, f := fields[..|fields| - 1], fields[|fields| - 1];
      DraftRecoverable(h, v, init);
      if ReusableSuffix(h, v, f).Some? {
        FieldRecoverable(h, v, DraftOf(h, v, init), f);
      }
    }
  }

  /** A reused prefix found in the cached document completes to the new text. */
  lemma {:induction false} AppendCompletes(h: Hasher, v: Json, o: Json, value: Json, a: TextAppend)
    requires h.CollisionFree() && Reuses(h, v, a) && Names(h, o, a.base)
    requires Masks(value, v)
    ensures var p := Tokens(a.base.pointer).value;
            IsLeaf(v, p) && AppendText(h, Some(o), value, a).Ok?
            && Some(AppendText(h, Some(o), value, a).value) == Replace(value, p, Lookup(v, p).value)
  {
    var p := Tokens(a.base.pointer).value;
    var s := Resolve(v, a.base.pointer).value.s;
    var k := BoundaryAt(s, a.base.bytes).value;
    var original := Resolve(o, a.base.pointer).value.s;
    assert h.text(original) == h.text(s[..k]);
    assert original + a.suffix == s;
    MaskedWrite(value, v, p, Str(s));
  }

  /** With its first slot filled, a template waits only for the others. */
  lemma {:induction false} FilledRecoverable(h: Hasher, v: Json, value: Json, append: seq<TextAppend>)
    requires Recoverable(h, v, value, append) && append != []
    requires Tokens(append[0].base.pointer).Some? && IsLeaf(v, Tokens(append[0].base.pointer).value)
    requires var p := Tokens(append[0].base.pointer).value; Replace(value, p, Lookup(v, p).value).Some?
    ensures var p := Tokens(append[0].base.pointer).value;
            Recoverable(h, v, Replace(value, p, Lookup(v, p).value).value, append[1..])
  {
    var p := Tokens(append[0].base.pointer).value;
    var x := Lookup(v, p).value;
    MaskedWrite(value, v, p, x);
    var value' := Replace(value, p, x).value;
    forall q | IsLeaf(v, q) ensures Lookup(value', q) == Lookup(v, q) || Blanked(append[1..], q) {
      if q != p {
        MaskedFrame(value, v, p, x, q);
        BlankedLater(append, p, q);
      }
    }
    forall i | 0 <= i < |append[1..]| ensures Reuses(h, v, append[1..][i]) {
      assert append[1..][i] == append[i + 1];
    }
  }

  lemma {:induction false} BlankedLater(append: seq<TextAppend>, p: Path, q: Path)
    requires append != [] && Tokens(append[0].base.pointer) == Some(p) && q != p
    ensures Blanked(append, q) ==> Blanked(append[1..], q)
  {
    if Blanked(append, q) {
      var i :| 0 <= i < |append| && Tokens(append[i].base.pointer) == Some(q);
      assert append[1..][i - 1] == append[i];
    }
  }

  lemma {:induction false} RebuildRecovers(h: Hasher, v: Json, o: Json, value: Json, append: seq<TextAppend>)
    requires h.CollisionFree() && WellFormed(v) && Recoverable(h, v, value, append)
    requires forall i :: 0 <= i < |append| ==> Names(h, o, append[i].base)
    ensures Rebuild(h, Some(o), value, append) == Ok(v)
    decreases |append|
  {
    if append == [] {
      UnmaskedIsOriginal(value, v);
    } else {
      var a := append[0];
      var p := Tokens(a.base.pointer).value;
      AppendCompletes(h, v, o, value, a);
      FilledRecoverable(h, v, value, append);
      RebuildRecovers(h, v, o, Replace(value, p, Lookup(v, p).value).value, append[1..]);
    }
  }

  /** One changed document, rebuilt on the client from the document the
      manifest described. */
  lemma {:induction false} DocumentRoundTrip(h: Hasher, id: string, v: Json, o: Json)
    requires h.CollisionFree() && WellFormed(v) && WellFormed(o)
    ensures var c := DeltaFor(h, id, v, Some(DocumentManifestOf(h, o)));
            Rebuild(h, Some(o), c.value, c.append) == Ok(v)
  {
    var fields := Fingerprints(h, o);
    var d := DraftOf(h, v, fields);
    DraftRecoverable(h, v, fields);
    forall i | 0 <= i < |d.append| ensures Names(h, o, d.append[i].base) {
      assert d.append[i] in d.append;
      FingerprintsSound(h, o, d.append[i].base);
    }
    RebuildRecovers(h, v, o, d.template, d.append);
  }

  // ---------- the change loop ----------

  /** Applying `c` on top of `documents` installs `target[c.id]`. */
  ghost predicate Installs(h: Hasher, prior: Option<Json>, c: DocumentDelta, target: Json) {
    h.json(target) == c.digest
    && ((prior.Some? && prior.value == target)
        || ((c.baseDigest.Some? ==> prior.Some? && h.json(prior.value) == c.baseDigest.value)
            && Rebuild(h, prior, c.value, c.append) == Ok(target)))
  }

  lemma {:induction false} ChangesInstall(
    h: Hasher, documents: map<string, Json>, changes: seq<DocumentDelta>, target: map<string, Json>)
    requires h.CollisionFree() && DistinctIds(changes)
    requires forall i :: 0 <= i < |changes| ==>
                           changes[i].id in target
                           && Installs(h, Get(documents, changes[i].id), changes[i], target[changes[i].id])
    ensures ApplyChanges(h, documents, changes).Ok?
    ensures var result := ApplyChanges(h, documents, changes).value;
            forall id :: Get(result, id)
                         == if ChangeListed(changes, id) then Get(target, id) else Get(documents, id)
    decreases |changes|
  {
    if changes == [] {
    } else {
      var c, rest := changes[0], changes[1..];
      var v := target[c.id];
      var documents' := documents[c.id := v];
      assert ApplyChange(h, documents, c).Ok?;
      assert ApplyChange(h, documents, c).value == documents';
      assert forall i :: 0 <= i < |rest| ==> rest[i] == changes[i + 1];
      ChangesInstall(h, documents', rest, target);
      var result := ApplyChanges(h, documents, changes).value;
      forall id
        ensures Get(result, id) == if ChangeListed(changes, id) then Get(target, id) else Get(documents, id)
      {
        ListedHead(changes, id);
      }
    }
  }

  lemma {:induction false} ListedHead(changes: seq<DocumentDelta>, id: string)
    requires changes != []
    ensures ChangeListed(changes, id) <==> changes[0].id == id || ChangeListed(changes[1..], id)
  {
    if ChangeListed(changes[1..], id) {
      var i :| 0 <= i < |changes[1..]| && changes[1..][i].id == id;
      assert changes[i + 1].id == id;
    }
    if ChangeListed(changes, id) && changes[0].id != id {
      var i :| 0 <= i < |changes| && changes[i].id == id;
      assert changes[1..][i - 1].id == id;
    }
  }

  /** There are no more changes than documents. */
  lemma {:induction false} ChangesBounded(changes: seq<DocumentDelta>, documents: map<string, Json>)
    requires DistinctIds(changes)
    requires forall i :: 0 <= i < |changes| ==> changes[i].id in documents
    ensures |changes| <= |documents|
  {
    if changes == [] {
    } else {
      var init, last := changes[..|changes| - 1], changes[|changes| - 1];
      var smaller := documents - {last.id};
      assert smaller.Keys == documents.Keys - {last.id};
      assert |smaller| == |smaller.Keys| && |documents| == |documents.Keys|;
      ChangesBounded(init, smaller);
    }
  }

  /** Enough for acceptance: the change loop installs the new documents. */
  lemma {:induction false} FinishesAsNew(h: Hasher, w: Window, known: Option<WindowManifest>, r: SyncResponse,
                                         base: Option<Window>, documents: map<string, Json>)
    requires h.CollisionFree() && Valid(w) && IsReconciliation(h, w, known, r)
    requires r.metadata.None? ==> base.Some? && h.json(base.value.metadata) == r.metadataDigest
    requires forall id :: id in w.documents ==> Get(documents, id) == Some(w.documents[id])
    ensures Finish(h, base, r, documents) == Ok(w)
  {
    RetainsNew(w, documents);
  }

  /** Retaining the order leaves exactly the new documents. */
  lemma {:induction false} RetainsNew(w: Window, documents: map<string, Json>)
    requires Valid(w) && forall id :: id in w.documents ==> Get(documents, id) == Some(w.documents[id])
    ensures Retain(documents, w.order) == w.documents
  {
    ValidIff(w);
    var kept := Retain(documents, w.order);
    forall id ensures id in kept <==> id in w.documents {
      assert id in w.order <==> id in (set i | i in w.order);
      assert id in w.documents ==> Get(documents, id) == Some(w.documents[id]);
    }
    forall id | id in kept ensures kept[id] == w.documents[id] {
      assert Get(documents, id) == Some(w.documents[id]);
    }
  }

  // ---------- theorems ----------

  /** Round trip: for every pair of valid windows, the delta built from the old
      window's manifest, applied to the old window, is exactly the new one.
      Rewrites, appends, deletions, reorderings, unchanged documents, reused
      metadata and replaced generations are all instances. */
  lemma {:induction false} RoundTrip(h: Hasher, prior: Window, w: Window, r: SyncResponse)
    requires h.CollisionFree() && Valid(w) && Canonical(prior) && Canonical(w)
    requires IsReconciliation(h, w, Some(ManifestOf(h, prior)), r)
    ensures Applied(h, Some(prior), r) == Ok(w)
  {
    var known := Some(ManifestOf(h, prior));
    if Usable(w, known).None? {
      ReloadIgnoresBase(h, w, known, r, Some(prior));
      return;
    }
    ValidIff(w);
    ChangesBounded(r.changes, w.documents);
    forall i | 0 <= i < |r.changes|
      ensures Installs(h, Get(prior.documents, r.changes[i].id), r.changes[i], w.documents[r.changes[i].id])
    {
      var id := r.changes[i].id;
      if id in prior.documents {
        DocumentRoundTrip(h, id, w.documents[id], prior.documents[id]);
      }
    }
    ChangesInstall(h, prior.documents, r.changes, w.documents);
    var documents := ApplyChanges(h, prior.documents, r.changes).value;
    forall id | id in w.documents ensures Get(documents, id) == Some(w.documents[id]) {
      if !ChangeListed(r.changes, id) {
        assert Unchanged(h, w, known, id);
      }
    }
    FinishesAsNew(h, w, known, r, Some(prior), documents);
  }

  /** A reconcile without a usable manifest is a full copy: whatever the client
      holds, applying it gives the new window. */
  lemma {:induction false} ReloadIgnoresBase(h: Hasher, w: Window, known: Option<WindowManifest>, r: SyncResponse,
                                             base: Option<Window>)
    requires h.CollisionFree() && Valid(w) && IsReconciliation(h, w, known, r)
    requires Usable(w, known).None?
    ensures Applied(h, base, r) == Ok(w)
  {
    ValidIff(w);
    ChangesBounded(r.changes, w.documents);
    var usable := UsableBase(base, r);
    var documents := if usable.Some? then usable.value.documents else map[];
    ChangesInstall(h, documents, r.changes, w.documents);
    FinishesAsNew(h, w, known, r, usable, ApplyChanges(h, documents, r.changes).value);
  }

  /** What the change loop leaves behind whenever it accepts. */
  lemma {:induction false} AcceptedChanges(h: Hasher, documents: map<string, Json>, changes: seq<DocumentDelta>)
    requires DistinctIds(changes) && ApplyChanges(h, documents, changes).Ok?
    ensures var result := ApplyChanges(h, documents, changes).value;
            && (forall i :: 0 <= i < |changes| ==>
                              changes[i].id in result && h.json(result[changes[i].id]) == changes[i].digest)
            && (forall id :: !ChangeListed(changes, id) ==> Get(result, id) == Get(documents, id))
    decreases |changes|
  {
    if changes == [] {
    } else {
      var rest := changes[1..];
      var documents' := ApplyChange(h, documents, changes[0]).value;
      assert forall i :: 0 <= i < |rest| ==> rest[i] == changes[i + 1];
      AcceptedChanges(h, documents', rest);
      assert !ChangeListed(rest, changes[0].id);
      var result := ApplyChanges(h, documents, changes).value;
      assert Get(result, changes[0].id) == Get(documents', changes[0].id);
      forall i | 0 <= i < |changes|
        ensures changes[i].id in result && h.json(result[changes[i].id]) == changes[i].digest
      {
        if i > 0 { assert rest[i - 1] == changes[i]; }
      }
      forall id | !ChangeListed(changes, id) ensures Get(result, id) == Get(documents, id) {
        ListedHead(changes, id);
      }
    }
  }

  /** Any base, right, wrong or missing: an accepted response carries the new
      identity, order, metadata and every listed document; an unlisted document
      is what the base held. */
  lemma {:induction false} AcceptedFromAnyBase(h: Hasher, w: Window, known: Option<WindowManifest>,
                                               r: SyncResponse,
                                               base: Option<Window>, result: Window, id: string)
    requires h.CollisionFree() && Valid(w) && IsReconciliation(h, w, known, r)
    requires Applied(h, base, r) == Ok(result)
    ensures result.provider == w.provider && result.generation == w.generation
    ensures result.order == w.order && result.metadata == w.metadata
    ensures result.documents.Keys == w.documents.Keys
    ensures ChangeListed(r.changes, id) ==> Get(result.documents, id) == Get(w.documents, id)
    ensures id in w.documents && !ChangeListed(r.changes, id) ==>
              base.Some? && Get(result.documents, id) == Get(base.value.documents, id)
  {
    var usable := UsableBase(base, r);
    var start := if usable.Some? then usable.value.documents else map[];
    AcceptedChanges(h, start, r.changes);
    var documents := ApplyChanges(h, start, r.changes).value;
    assert Finish(h, usable, r, documents) == Ok(result);
    assert result.documents.Keys == w.documents.Keys by {
      ValidIff(w);
      ValidIff(result);
    }
    assert id in result.documents ==> Get(result.documents, id) == Get(documents, id);
    if ChangeListed(r.changes, id) {
      var i :| 0 <= i < |r.changes| && r.changes[i].id == id;
      assert id in w.documents && h.json(documents[id]) == h.json(w.documents[id]);
    }
  }

  lemma {:induction false} SameDocumentsIff(w: Window, changes: seq<DocumentDelta>, base: Option<Window>,
                                            result: Window)
    requires result.documents.Keys == w.documents.Keys
    requires forall id :: ChangeListed(changes, id) ==> Get(result.documents, id) == Get(w.documents, id)
    requires forall id :: id in w.documents && !ChangeListed(changes, id) ==>
                            base.Some? && Get(result.documents, id) == Get(base.value.documents, id)
    ensures result.documents == w.documents <==>
            forall id :: id in w.documents && !ChangeListed(changes, id) ==>
                           base.Some? && Get(base.value.documents, id) == Some(w.documents[id])
  {
    forall id | id in w.documents && !ChangeListed(changes, id)
      ensures Get(base.value.documents, id) == Some(w.documents[id]) <==> result.documents[id] == w.documents[id]
    {
      assert Get(result.documents, id) == Some(result.documents[id]);
    }
    forall id | id in w.documents && ChangeListed(changes, id) ensures result.documents[id] == w.documents[id] {
      assert Get(result.documents, id) == Some(result.documents[id]);
    }
  }

  lemma {:induction false} AcceptedIsNewByContents(h: Hasher, w: Window, known: Option<WindowManifest>, r: SyncResponse,
                                            base: Option<Window>, result: Window)
    requires h.CollisionFree() && Valid(w) && IsReconciliation(h, w, known, r)
    requires Applied(h, base, r) == Ok(result)
    ensures result == w <==> forall id :: id in w.documents && !ChangeListed(r.changes, id) ==>
                                            base.Some? && Get(base.value.documents, id) == Some(w.documents[id])
  {
    AcceptedFromAnyBase(h, w, known, r, base, result, "");
    forall id
      ensures ChangeListed(r.changes, id) ==> Get(result.documents, id) == Get(w.documents, id)
      ensures id in w.documents && !ChangeListed(r.changes, id) ==>
                base.Some? && Get(result.documents, id) == Get(base.value.documents, id)
    {
      AcceptedFromAnyBase(h, w, known, r, base, result, id);
    }
    SameDocumentsIff(w, r.changes, base, result);
  }

  /** The client's base still holds a document as the manifest it sent says. */
  predicate StillAsSent(h: Hasher, known: Option<WindowManifest>, base: Option<Window>, id: string) {
    && known.Some? && id in known.value.documents
    && base.Some? && id in base.value.documents
    && h.json(base.value.documents[id]) == known.value.documents[id].digest
  }

  lemma {:induction false} StillAsSentIff(h: Hasher, w: Window, known: Option<WindowManifest>, r: SyncResponse,
                                          base: Option<Window>, id: string)
    requires h.CollisionFree() && IsReconciliation(h, w, known, r)
    requires id in w.documents && !ChangeListed(r.changes, id)
    ensures StillAsSent(h, known, base, id) <==>
            base.Some? && Get(base.value.documents, id) == Some(w.documents[id])
  {
    assert Unchanged(h, w, known, id);
    assert known.value.documents[id].digest == h.json(w.documents[id]);
  }

  /** An accepted window is the host's exactly when, for each document the
      response leaves out, the base still is what the manifest told the host. */
  lemma {:induction false} AcceptedIsNewIff(h: Hasher, w: Window, known: Option<WindowManifest>, r: SyncResponse,
                                            base: Option<Window>, result: Window)
    requires h.CollisionFree() && Valid(w) && IsReconciliation(h, w, known, r)
    requires Applied(h, base, r) == Ok(result)
    ensures result == w <==>
            forall id :: id in r.order && !ChangeListed(r.changes, id) ==> StillAsSent(h, known, base, id)
  {
    AcceptedIsNewByContents(h, w, known, r, base, result);
    ValidIff(w);
    forall id ensures id in r.order <==> id in w.documents {
      assert id in (set i | i in w.order) <==> id in w.order;
    }
    forall id | id in w.documents && !ChangeListed(r.changes, id)
      ensures StillAsSent(h, known, base, id) <==>
              base.Some? && Get(base.value.documents, id) == Some(w.documents[id])
    {
      StillAsSentIff(h, w, known, r, base, id);
    }
  }

  /** Delivered twice: the same response applied to its own result leaves the
      window as it is, whatever base it was first applied to. */
  lemma {:induction false} Redelivery(h: Hasher, r: SyncResponse, base: Option<Window>, result: Window)
    requires DistinctIds(r.changes) && forall i :: 0 <= i < |r.changes| ==> r.changes[i].id in r.order
    requires Applied(h, base, r) == Ok(result)
    ensures Applied(h, Some(result), r) == Ok(result)
  {
    if !r.reset {
      var usable := UsableBase(base, r);
      AcceptedChanges(h, if usable.Some? then usable.value.documents else map[], r.changes);
      SkipsAll(h, result.documents, r.changes);
      assert Retain(result.documents, r.order) == result.documents;
    }
  }

  lemma {:induction false} SkipsAll(h: Hasher, documents: map<string, Json>, changes: seq<DocumentDelta>)
    requires forall i :: 0 <= i < |changes| ==>
                           changes[i].id in documents && h.json(documents[changes[i].id]) == changes[i].digest
    ensures ApplyChanges(h, documents, changes) == Ok(documents)
    decreases |changes|
  {
    if changes == [] {
    } else {
      assert forall i :: 0 <= i < |changes[1..]| ==> changes[1..][i] == changes[i + 1];
      SkipsAll(h, documents, changes[1..]);
    }
  }

  /** Reconcile outputs meet the two conditions of `Redelivery`. */
  lemma {:induction false} ReconciliationRedelivers(h: Hasher, w: Window, known: Option<WindowManifest>,
                                                    r: SyncResponse,
                                                    base: Option<Window>, result: Window)
    requires Valid(w) && IsReconciliation(h, w, known, r) && Applied(h, base, r) == Ok(result)
    ensures Applied(h, Some(result), r) == Ok(result)
  {
    ValidIff(w);
    forall i | 0 <= i < |r.changes| ensures r.changes[i].id in r.order {
      assert r.changes[i].id in (set id | id in w.order);
    }
    Redelivery(h, r, base, result);
  }

  /** Unlisted documents are not digested again: a response meant for one base
      is accepted by another that differs only there, and keeps the difference. */
  lemma {:induction false} StaleUnlistedDocumentSurvives(h: Hasher)
    returns (prior: Window, wrong: Window, r: SyncResponse)
    ensures Valid(prior) && Valid(wrong) && wrong != prior
    ensures IsReconciliation(h, prior, Some(ManifestOf(h, prior)), r)
    ensures Applied(h, Some(wrong), r) == Ok(wrong)
  {
    prior := Window("p", "g", Null, ["a"], map["a" := Null]);
    wrong := prior.(documents := map["a" := Bool(true)]);
    r := SyncResponse(VERSION, "p", "g", false, None, h.json(Null), ["a"], []);
    assert (set id | id in ["a"]) == {"a"};
    assert Retain(wrong.documents, r.order) == wrong.documents;
    assert wrong.documents["a"] != prior.documents["a"];
  }
}
