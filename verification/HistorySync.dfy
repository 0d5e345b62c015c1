/**
 Content-verified synchronization of document windows
 (crates/pocox-core/src/history_sync.rs): a client advertises fingerprints of
 what it holds, `Reconcile` answers with a delta, `Apply` rebuilds the window.
 */
module HistorySync {
  import opened Text
  import opened Json
  import opened TextLeaves

  const VERSION: nat := 1
  const MAX_DOCUMENTS: nat := 100

  datatype SyncError =
    | TooManyDocuments | OrderLengthMismatch | DuplicateId | UnknownOrdered
    | UnsupportedVersion | OversizedResponse
    | BaseMismatch | MissingPrefix | PrefixMismatch | InvalidPointer | DigestMismatch
    | MissingMetadata | MetadataMismatch

  datatype Result<+T> = Ok(value: T) | Err(error: SyncError)

  datatype Window = Window(
    provider: string,
    generation: string,
    metadata: Json,
    order: seq<string>,
    documents: map<string, Json>)

  datatype DocumentManifest = DocumentManifest(digest: string, text: seq<Fingerprint>)

  datatype WindowManifest = WindowManifest(
    provider: string,
    generation: string,
    metadataDigest: string,
    documents: map<string, DocumentManifest>)

  datatype TextAppend = TextAppend(base: Fingerprint, suffix: string)

  datatype DocumentDelta = DocumentDelta(
    id: string,
    baseDigest: Option<string>,
    value: Json,
    append: seq<TextAppend>,
    digest: string)

  datatype SyncResponse = SyncResponse(
    version: nat,
    provider: string,
    generation: string,
    reset: bool,
    metadata: Option<Json>,
    metadataDigest: string,
    order: seq<string>,
    changes: seq<DocumentDelta>)

  function Get<K, V>(m: map<K, V>, k: K): Option<V> {
    if k in m then Some(m[k]) else None
  }

  // ---------- windows ----------

  /** `HistoryWindow::validate`: the first bound or identity it fails. */
  function Validate(w: Window): Option<SyncError> {
    if |w.documents| > MAX_DOCUMENTS then Some(TooManyDocuments)
    else if |w.order| != |w.documents| then Some(OrderLengthMismatch)
    else if |set id | id in w.order| != |w.order| then Some(DuplicateId)
    else if exists id :: id in w.order && id !in w.documents then Some(UnknownOrdered)
    else None
  }

  predicate Valid(w: Window) { Validate(w) == None }

  predicate NoRepeats(ids: seq<string>) {
    forall i, j :: 0 <= i < j < |ids| ==> ids[i] != ids[j]
  }

  /** The documents as the sorted maps of the source hold them. */
  predicate Canonical(w: Window) {
    forall id :: id in w.documents ==> WellFormed(w.documents[id])
  }

  lemma {:induction false} NoRepeatsByCardinality(ids: seq<string>)
    ensures |set id | id in ids| <= |ids|
    ensures NoRepeats(ids) <==> |set id | id in ids| == |ids|
  {
    if ids == [] {
      assert (set id | id in ids) == {};
    } else {
      var init, last := ids[..|ids| - 1], ids[|ids| - 1];
      assert ids == init + [last];
      NoRepeatsByCardinality(init);
      var all, some := set id | id in ids, set id | id in init;
      assert all == some + {last};
      if last in init {
        assert all == some;
        var i :| 0 <= i < |init| && init[i] == last;
        assert ids[i] == ids[|ids| - 1];
      } else {
        assert |all| == |some| + 1;
        assert NoRepeats(init) ==> NoRepeats(ids);
      }
    }
  }

  lemma {:induction false} SubsetOfEqualSize<T>(a: set<T>, b: set<T>)
    requires a <= b && |a| == |b|
    ensures a == b
  {
    assert |b - a| == |b| - |a|;
  }

  /** A valid window lists each of its at most 100 documents exactly once. */
  lemma {:induction false} ValidIff(w: Window)
    ensures Valid(w) <==> |w.documents| <= 100 && NoRepeats(w.order) && (set id | id in w.order) == w.documents.Keys
    ensures Validate(w) == Some(TooManyDocuments) <==> |w.documents| > 100
    ensures Validate(w) == Some(OrderLengthMismatch) <==> |w.documents| <= 100 && |w.order| != |w.documents|
    ensures Validate(w) == Some(DuplicateId) <==>
            |w.documents| <= 100 && |w.order| == |w.documents| && !NoRepeats(w.order)
  {
    NoRepeatsByCardinality(w.order);
    var ids := set id | id in w.order;
    assert |w.documents| == |w.documents.Keys|;
    if Valid(w) {
      SubsetOfEqualSize(ids, w.documents.Keys);
    }
    if NoRepeats(w.order) && ids == w.documents.Keys {
      forall id | id in w.order ensures id in w.documents {
        assert id in ids;
      }
    }
  }

  // ---------- manifests ----------

  function DocumentManifestOf(h: Hasher, v: Json): DocumentManifest {
    DocumentManifest(h.json(v), Fingerprints(h, v))
  }

  function ManifestOf(h: Hasher, w: Window): WindowManifest {
    WindowManifest(w.provider, w.generation, h.json(w.metadata),
                   map id | id in w.documents :: DocumentManifestOf(h, w.documents[id]))
  }

  /** `HistoryWindow::manifest`. */
  method Manifest(h: Hasher, w: Window) returns (r: Result<WindowManifest>)
    ensures r == match Validate(w) case Some(e) => Err(e) case None => Ok(ManifestOf(h, w))
  {
    var invalid := Validate(w);
    if invalid.Some? {
      return Err(invalid.value);
    }
    var documents: map<string, DocumentManifest> := map[];
    var remaining := w.documents.Keys;
    while remaining != {}
      invariant remaining <= w.documents.Keys && documents.Keys == w.documents.Keys - remaining
      invariant forall id :: id in documents ==> documents[id] == DocumentManifestOf(h, w.documents[id])
    {
      var id :| id in remaining;
      var text := TextFingerprints(h, w.documents[id], "", [], []);
      documents := documents[id := DocumentManifest(h.json(w.documents[id]), text)];
      remaining := remaining - {id};
    }
    assert documents == ManifestOf(h, w).documents;
    r := Ok(WindowManifest(w.provider, w.generation, h.json(w.metadata), documents));
  }

  // ---------- reconcile ----------

  /** The suffix to send when the client's fingerprint is a prefix of the text
      now at its pointer. */
  function ReusableSuffix(h: Hasher, value: Json, field: Fingerprint): Option<string> {
    match Resolve(value, field.pointer)
    case Some(Str(text)) =>
      (match BoundaryAt(text, field.bytes)
       case Some(k) => if h.text(text[..k]) == field.digest then Some(text[k..]) else None
       case None => None)
    case _ => None
  }

  datatype Draft = Draft(template: Json, append: seq<TextAppend>)

  /** One turn of the field loop: blank the slot and keep the suffix. */
  function DraftField(h: Hasher, value: Json, d: Draft, field: Fingerprint): Draft {
    match ReusableSuffix(h, value, field)
    case None => d
    case Some(suffix) =>
      match ReplaceAt(d.template, field.pointer, Null)
      case None => d
      case Some(t) => Draft(t, d.append + [TextAppend(field, suffix)])
  }

  function DraftOf(h: Hasher, value: Json, fields: seq<Fingerprint>): Draft {
    if fields == [] then Draft(value, [])
    else DraftField(h, value, DraftOf(h, value, fields[..|fields| - 1]), fields[|fields| - 1])
  }

  function DeltaFor(h: Hasher, id: string, value: Json, base: Option<DocumentManifest>): DocumentDelta {
    var d := DraftOf(h, value, if base.Some? then base.value.text else []);
    DocumentDelta(id, if base.Some? && d.append != [] then Some(base.value.digest) else None,
                  d.template, d.append, h.json(value))
  }

  /** The client manifest, when it describes this history. */
  function Usable(w: Window, known: Option<WindowManifest>): Option<WindowManifest> {
    if known.Some? && known.value.provider == w.provider && known.value.generation == w.generation
    then known else None
  }

  function KnownDocument(w: Window, known: Option<WindowManifest>, id: string): Option<DocumentManifest> {
    match Usable(w, known) case Some(k) => Get(k.documents, id) case None => None
  }

  predicate Unchanged(h: Hasher, w: Window, known: Option<WindowManifest>, id: string)
    requires id in w.documents
  {
    var base := KnownDocument(w, known, id);
    base.Some? && base.value.digest == h.json(w.documents[id])
  }

  predicate DistinctIds(changes: seq<DocumentDelta>) {
    forall i, j :: 0 <= i < j < |changes| ==> changes[i].id != changes[j].id
  }

  ghost predicate ChangeListed(changes: seq<DocumentDelta>, id: string) {
    exists i :: 0 <= i < |changes| && changes[i].id == id
  }

  /** `r` is a delta for `w` against `known`: the changed documents once each,
      in any order. */
  ghost predicate IsReconciliation(h: Hasher, w: Window, known: Option<WindowManifest>, r: SyncResponse) {
    var usable := Usable(w, known);
    && r.version == VERSION
    && r.provider == w.provider
    && r.generation == w.generation
    && r.reset == (known.Some? && usable.None?)
    && r.metadataDigest == h.json(w.metadata)
    && r.metadata == (if usable.Some? && usable.value.metadataDigest == h.json(w.metadata)
                      then None else Some(w.metadata))
    && r.order == w.order
    && DistinctIds(r.changes)
    && (forall i :: 0 <= i < |r.changes| ==>
                      var id := r.changes[i].id;
                      id in w.documents && !Unchanged(h, w, known, id)
                      && r.changes[i] == DeltaFor(h, id, w.documents[id], KnownDocument(w, known, id)))
    && (forall id :: id in w.documents && !Unchanged(h, w, known, id) ==> ChangeListed(r.changes, id))
  }

  /** `reconcile`. */
  method Reconcile(h: Hasher, w: Window, known: Option<WindowManifest>) returns (r: Result<SyncResponse>)
    ensures Validate(w).Some? ==> r == Err(Validate(w).value)
    ensures Valid(w) ==> r.Ok? && IsReconciliation(h, w, known, r.value)
  {
    var invalid := Validate(w);
    if invalid.Some? {
      return Err(invalid.value);
    }
    var usable := Usable(w, known);
    var reset := known.Some? && usable.None?;
    var metadataDigest := h.json(w.metadata);
    var metadata := if usable.Some? && usable.value.metadataDigest == metadataDigest
    then None else Some(w.metadata);
    var changes: seq<DocumentDelta> := [];
    var remaining := w.documents.Keys;
    while remaining != {}
      invariant remaining <= w.documents.Keys
      invariant DistinctIds(changes)
      invariant forall i :: 0 <= i < |changes| ==>
                              var id := changes[i].id;
                              id in w.documents && id !in remaining && !Unchanged(h, w, known, id)
                              && changes[i] == DeltaFor(h, id, w.documents[id], KnownDocument(w, known, id))
      invariant forall id :: id in w.documents.Keys - remaining && !Unchanged(h, w, known, id)
                             ==> ChangeListed(changes, id)
    {
      var id :| id in remaining;
      remaining := remaining - {id};
      var value := w.documents[id];
      var digest := h.json(value);
      var base := if usable.Some? then Get(usable.value.documents, id) else None;
      if !(base.Some? && base.value.digest == digest) {
        var d := Draft(value, []);
        if base.Some? {
          var fields := base.value.text;
          for i := 0 to |fields|
            invariant d == DraftOf(h, value, fields[..i])
          {
            assert fields[..i + 1][..i] == fields[..i];
            var suffix := ReusableSuffix(h, value, fields[i]);
            if suffix.Some? {
              var slot := ReplaceAt(d.template, fields[i].pointer, Null);
              if slot.Some? {
                d := Draft(slot.value, d.append + [TextAppend(fields[i], suffix.value)]);
              }
            }
          }
          assert fields[..|fields|] == fields;
        }
        ghost var before := changes;
        changes := changes + [DocumentDelta(
                                id, if base.Some? && d.append != [] then Some(base.value.digest) else None,
                                d.template, d.append, digest)];
        assert changes[|before|].id == id;
        forall other | ChangeListed(before, other) ensures ChangeListed(changes, other) {
          var i :| 0 <= i < |before| && before[i].id == other;
          assert changes[i].id == other;
        }
      }
    }
    r := Ok(SyncResponse(VERSION, w.provider, w.generation, reset, metadata, metadataDigest, w.order, changes));
  }

  // ---------- apply ----------

  /** Restore one reused text from the cached document. */
  function AppendText(h: Hasher, prior: Option<Json>, value: Json, text: TextAppend): Result<Json> {
    match (if prior.Some? then Resolve(prior.value, text.base.pointer) else None)
    case Some(Str(original)) =>
      if ByteLen(original) != text.base.bytes || h.text(original) != text.base.digest then Err(PrefixMismatch)
      else
        (match ReplaceAt(value, text.base.pointer, Str(original + text.suffix))
         case None => Err(InvalidPointer)
         case Some(v) => Ok(v))
    case _ => Err(MissingPrefix)
  }

  function Rebuild(h: Hasher, prior: Option<Json>, value: Json, append: seq<TextAppend>): Result<Json>
    decreases |append|
  {
    if append == [] then Ok(value)
    else match AppendText(h, prior, value, append[0])
         case Err(e) => Err(e)
         case Ok(v) => Rebuild(h, prior, v, append[1..])
  }

  /** One turn of the change loop over the retained documents. */
  function ApplyChange(h: Hasher, documents: map<string, Json>, c: DocumentDelta): Result<map<string, Json>> {
    var prior := Get(documents, c.id);
    if prior.Some? && h.json(prior.value) == c.digest then Ok(documents)
    else if c.baseDigest.Some? && !(prior.Some? && h.json(prior.value) == c.baseDigest.value) then Err(BaseMismatch)
    else match Rebuild(h, prior, c.value, c.append)
         case Err(e) => Err(e)
         case Ok(v) => if h.json(v) != c.digest then Err(DigestMismatch) else Ok(documents[c.id := v])
  }

  function ApplyChanges(h: Hasher, documents: map<string, Json>, changes: seq<DocumentDelta>)
    : Result<map<string, Json>>
    decreases |changes|
  {
    if changes == [] then Ok(documents)
    else match ApplyChange(h, documents, changes[0])
         case Err(e) => Err(e)
         case Ok(d) => ApplyChanges(h, d, changes[1..])
  }

  function UsableBase(base: Option<Window>, r: SyncResponse): Option<Window> {
    if base.Some? && !r.reset && base.value.provider == r.provider && base.value.generation == r.generation
    then base else None
  }

  /** Documents the order does not name are dropped. */
  function Retain(documents: map<string, Json>, order: seq<string>): map<string, Json> {
    map id | id in documents && id in order :: documents[id]
  }

  /** The checks and assembly after the changes. Validation already refuses an
      order naming an absent document, so the source's last test never fires. */
  function Finish(h: Hasher, base: Option<Window>, r: SyncResponse, documents: map<string, Json>): Result<Window> {
    match (if r.metadata.Some? then r.metadata else if base.Some? then Some(base.value.metadata) else None)
    case None => Err(MissingMetadata)
    case Some(metadata) =>
      if h.json(metadata) != r.metadataDigest then Err(MetadataMismatch)
      else
        var w := Window(r.provider, r.generation, metadata, r.order, Retain(documents, r.order));
        match Validate(w) case Some(e) => Err(e) case None => Ok(w)
  }

  /** What `apply` answers. */
  function Applied(h: Hasher, base: Option<Window>, r: SyncResponse): Result<Window> {
    if r.version != VERSION then Err(UnsupportedVersion)
    else if |r.order| > MAX_DOCUMENTS || |r.changes| > MAX_DOCUMENTS then Err(OversizedResponse)
    else
      var usable := UsableBase(base, r);
      match ApplyChanges(h, if usable.Some? then usable.value.documents else map[], r.changes)
      case Err(e) => Err(e)
      case Ok(documents) => Finish(h, usable, r, documents)
  }

  /** The inner loop of `apply`: every slot of the template filled in place. */
  method FillSlots(h: Hasher, prior: Option<Json>, template: Json, append: seq<TextAppend>) returns (r: Result<Json>)
    ensures r == Rebuild(h, prior, template, append)
  {
    var value := template;
    for j := 0 to |append|
      invariant Rebuild(h, prior, template, append) == Rebuild(h, prior, value, append[j..])
    {
      var text := append[j];
      assert append[j..][1..] == append[j + 1..];
      var cached := if prior.Some? then Resolve(prior.value, text.base.pointer) else None;
      if !(cached.Some? && cached.value.Str?) {
        return Err(MissingPrefix);
      }
      var original := cached.value.s;
      if ByteLen(original) != text.base.bytes || h.text(original) != text.base.digest {
        return Err(PrefixMismatch);
      }
      var slot := ReplaceAt(value, text.base.pointer, Str(original + text.suffix));
      if slot.None? {
        return Err(InvalidPointer);
      }
      value := slot.value;
    }
    return Ok(value);
  }

  /** `apply`, as the loop the source runs. */
  method Apply(h: Hasher, base: Option<Window>, r: SyncResponse) returns (w: Result<Window>)
    ensures w == Applied(h, base, r)
  {
    if r.version != VERSION {
      return Err(UnsupportedVersion);
    }
    if |r.order| > MAX_DOCUMENTS || |r.changes| > MAX_DOCUMENTS {
      return Err(OversizedResponse);
    }
    var usable := UsableBase(base, r);
    var documents := if usable.Some? then usable.value.documents else map[];
    ghost var start := documents;
    for i := 0 to |r.changes|
      invariant ApplyChanges(h, start, r.changes) == ApplyChanges(h, documents, r.changes[i..])
    {
      var change := r.changes[i];
      assert r.changes[i..][1..] == r.changes[i + 1..];
      var prior := Get(documents, change.id);
      if prior.Some? && h.json(prior.value) == change.digest {
        continue;
      }
      if change.baseDigest.Some? && !(prior.Some? && h.json(prior.value) == change.baseDigest.value) {
        return Err(BaseMismatch);
      }
      var rebuilt := FillSlots(h, prior, change.value, change.append);
      if rebuilt.Err? {
        return Err(rebuilt.error);
      }
      if h.json(rebuilt.value) != change.digest {
        return Err(DigestMismatch);
      }
      documents := documents[change.id := rebuilt.value];
    }
    w := Finish(h, usable, r, documents);
  }
}
