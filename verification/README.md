# Verified model of POCOX

Dafny models of the parts of POCOX whose correctness is hardest to see by
reading, with proofs of what they are for. Each module doc comment names the
source it follows.

- `HistorySync`, `HistorySyncTheorems`, `HistorySyncDeltas` (over `Json`,
  `JsonMask`, `TextLeaves`, `Text`): content-verified synchronization of document
  windows. A client sends fingerprints, the host answers a delta with reused texts
  blanked out, the client rebuilds the window; and exactly what is reused, sent
  and accepted.
- `RpcClient`, `RpcClientTheorems`, `RpcClientAnswers`: one JSON-RPC connection
  as a state machine over its atomic steps, with callers, reader, keepalive and
  several closers interleaving; what is safe in every run, and which requests are
  answered.
- `AuthSessions`, `AuthTheorems`, `AuthOutcomes`: refresh-token sessions with
  calls as single steps, any statement of which may fail; what holds over every
  run, and what each call answers and leaves. `RefreshRotation`, `WebLogin`,
  `WebLoginOutcomes` (over `SingleUse`): the same rows and the web login with
  every statement a step.
- `RelayCredentials`, `RelayAnswers`: a cache of relay keys that must agree with a
  remote table through lost replies, failures, expiry, revocation, crashes and
  restarts; and when it answers.
  `RelayKeys` adds the table itself, as the relay's state.
- `LineSplitter`, `Redactor`, `RedactorOutput`, `RedactedCopies`: an incremental
  bounded line splitter against a whole-stream specification, the substring
  argument for withheld secrets, the lines that are shown, and which escaped
  copies of a secret are withheld.
- `LsofListing`, `LsofListingTheorems`, `LsofOutcomes`, `ProcessTree`: the
  fail-closed listing parser against the records of its text, whom a text names,
  and endpoint attribution over a process snapshot.
- `ServiceKeys`: sanitising, printing and parsing relay keys, and the
  per-account listing.
- `CiAffected`, `RuntimeState`, `ProviderId`, `Retry`: the reverse-dependency
  worklist and test selection, keyed vectors with swap removal, provider ids,
  and bounded retries.

Conventions. A loop or an object of the source is a method or a class, proved
against a specification function or predicate, and the lemmas are about that.
Every lemma switches automatic induction off, so each inductive step is written
out. `dafny verify dfyconfig.toml` checks the project.

Hypotheses, always explicit in a contract: digests do not collide
(`CollisionFree`); lower-casing leaves lower-case ASCII alone and yields no
upper-case ASCII (`Lowers`); drawn row ids, states, codes and token hashes are
new; relay replies agree with the labels in its registry (`Truthful`), which
`RelayKeys` derives from a relay that carries out each request when it is asked
or never (`Carried`).

Seven properties one might expect are false of the code. Each is given with an
input that shows it and the exact condition under which it holds:

- Applying a response to a base other than the one whose manifest was sent can
  succeed and keep a difference in a document the response does not list
  (`StaleUnlistedDocumentSurvives`). The result is the host's window if and only
  if every unlisted document still has the digest the manifest gave it
  (`AcceptedIsNewIff`).
- After a restart the relay namespace of an account can move while its old key
  lives: an issue whose reply is lost, carried out after the next call's, leaves
  a second key that expires later (`RestartCanMoveLiveNamespace`). A restarted
  call keeps it if and only if the last vended key is the account's latest in the
  listing, ties to the later in the list (`RestartKeepsIff`). Issues carried out
  when asked never bring that about, two keys in the same second aside
  (`NamespaceStableAtRelay`).
- A drained connection may still hold an unresolved request, its answer in the
  reader's hand (`DrainedStillInHand`); nothing else can (`DrainedForever`).
- The redactor promises to withhold JSON-escaped copies of a secret, but shows
  one with an escaped quote (`QuotedProxyShown`). It withholds them if and only
  if no quote or backslash stands inside the secret (`JsonCopiesHeldIff`).
- A secret that occurs in the text of the withheld-line notice is shown by it
  (`NoticeShowsKey`, `TextHidesFormsIff`), and one broken over two lines is shown
  on both when a break leaves fewer than four characters, trimmed, on either side
  (`SpacedKeyWrapShown`); exactly then (`KeyWrapHeldIff`).
- A state file that holds a key twice keeps it after removal
  (`TwiceHeldRemains`, `RemovalExactIff`).
- The listing parser's comment promises refusal of cut-off listings, but one cut
  right after a complete file record is accepted with the holders listed so far
  (`CutNamesFewer`); it is accepted exactly there (`CutAcceptedIff`).

## Model

| member | source | states |
|---|---|---|
| `Json.UnescapeEscape` | crates/pocox-core/src/history_sync.rs:363-371 | the `~1`/`~0` escaping of a key (section 3 of RFC 6901) is undone by the order of replacements that lookup uses, for every key |
| `Json.EscapeIs` | crates/pocox-core/src/history_sync.rs:363-371 | character by character: `~` becomes `~0`, `/` becomes `~1`, any other stays |
| `Json.UnescapeIs` | crates/pocox-core/src/history_sync.rs:231 | a token of any pointer is decoded from the left (section 4 of RFC 6901): `~1` is a slash, `~0` a tilde, any other character itself |
| `Json.TokensIs` | crates/pocox-core/src/history_sync.rs:231 | a pointer is empty or a slash and a token after a pointer, and no other text is one |
| `Json.WellFormedIs` | crates/pocox-core/src/history_sync.rs:65 | documents as the source holds them: members in the order of their keys, no key twice |
| `Json.LessIff` | crates/pocox-core/src/history_sync.rs:65 | that order: a proper prefix first, otherwise by the first characters that differ |
| `Text.ByteLenIs` | crates/pocox-core/src/history_sync.rs:233 | a length in bytes counts one to four per character, as UTF-8 does (section 3 of RFC 3629) |
| `Json.TokensOfPointer` | crates/pocox-core/src/history_sync.rs:348-374 | the pointer printed for a path reads back as exactly that path, so distinct leaves get distinct pointers |
| `Json.SelectChild` | crates/pocox-core/src/history_sync.rs:231 | a child is found again under the token it was printed with (section 4 of RFC 6901), in objects and arrays |
| `Json.SelectInverse` | crates/pocox-core/src/history_sync.rs:231 | a token selects at most the one child that prints it |
| `JsonMask.MaskedWrite` | crates/pocox-core/src/history_sync.rs:238-244 | writing a slot of a blanked template keeps it a template of the same document and reads back |
| `JsonMask.MaskedFrame` | crates/pocox-core/src/history_sync.rs:238-244 | and leaves every other leaf as it was, so reuse of one text never disturbs another |
| `JsonMask.UnmaskedIsOriginal` | crates/pocox-core/src/history_sync.rs:304-309 | a template whose every leaf agrees with the document is the document |
| `TextLeaves.TextFingerprints` | crates/pocox-core/src/history_sync.rs:348-374 | the recursive walk emits the first 128 of exactly the strings of at least 256 bytes, in document order |
| `TextLeaves.LongLeavesIff` | crates/pocox-core/src/history_sync.rs:348-374 | that reference list holds a path and text iff pointer lookup of the path finds that long text |
| `TextLeaves.LongLeavesDistinct` | crates/pocox-core/src/history_sync.rs:348-374 | no path occurs twice in it |
| `TextLeaves.FingerprintsSound` | crates/pocox-core/src/history_sync.rs:348-374 | every fingerprint of any nested document names, by pointer lookup, exactly the string its length and digest were computed from, and there are at most 128 |
| `TextLeaves.FingerprintsDistinct` | crates/pocox-core/src/history_sync.rs:348-374 | no two fingerprints of a document share a pointer |
| `TextLeaves.FingerprintsComplete` | crates/pocox-core/src/history_sync.rs:348-374 | below the bound no long text is missed |
| `HistorySync.ValidIff` | crates/pocox-core/src/history_sync.rs:70-77 | `validate` accepts exactly the windows of at most 100 documents whose order lists each once; each refusal has its own exact case |
| `HistorySync.Manifest` | crates/pocox-core/src/history_sync.rs:80-99 | the manifest is the digests and fingerprints of each document, or the validation error |
| `HistorySync.Reconcile` | crates/pocox-core/src/history_sync.rs:212-267 | the delta lists each changed document once with the template and suffixes its fingerprints allow, and no unchanged one; an invalid window is refused with its error |
| `HistorySync.FillSlots` | crates/pocox-core/src/history_sync.rs:293-308 | the slot loop restores each listed text or stops at the first error |
| `HistorySync.Apply` | crates/pocox-core/src/history_sync.rs:271-335 | accepts, refuses and rebuilds exactly as the step-by-step specification, error for error |
| `HistorySyncTheorems.DraftRecoverable` | crates/pocox-core/src/history_sync.rs:227-255 | for any client fingerprints, every leaf of the new text is in the template or in one pending append |
| `HistorySyncTheorems.AppendCompletes` | crates/pocox-core/src/history_sync.rs:294-308 | a reused prefix with its suffix is the new text, and its slot takes it |
| `HistorySyncTheorems.RebuildRecovers` | crates/pocox-core/src/history_sync.rs:293-309 | filling all slots of a recoverable template gives the original document |
| `HistorySyncTheorems.DocumentRoundTrip` | crates/pocox-core/src/history_sync.rs:227-310 | one changed document is rebuilt from the cached one the manifest described |
| `HistorySyncTheorems.RoundTrip` | crates/pocox-core/src/history_sync.rs:212-335 | for every pair of valid windows, apply of the delta built from the old manifest onto the old window is exactly the new window |
| `HistorySyncTheorems.ReloadIgnoresBase` | crates/pocox-core/src/history_sync.rs:212-335 | a delta made without a usable manifest restores the new window onto any base or none |
| `HistorySyncTheorems.AcceptedFromAnyBase` | crates/pocox-core/src/history_sync.rs:271-335 | any accepted response, whatever the base, carries the new identity, order and metadata and every listed document unaltered; an unlisted one is the base's |
| `HistorySyncTheorems.AcceptedIsNewIff` | crates/pocox-core/src/history_sync.rs:271-335 | an accepted window is the host's iff every document the response leaves out is, in the base, still what the manifest the client sent says: a check on what the client holds |
| `HistorySyncTheorems.Redelivery` | crates/pocox-core/src/history_sync.rs:271-335 | a response applied again to its own result leaves the window unchanged, whatever base it first met |
| `HistorySyncTheorems.ReconciliationRedelivers` | crates/pocox-core/src/history_sync.rs:212-335 | every reconcile output meets the conditions for that |
| `HistorySyncTheorems.StaleUnlistedDocumentSurvives` | crates/pocox-core/src/history_sync.rs:312-334 | witness that unlisted documents are not digested again: a wrong base can be accepted and keep its difference there |
| `HistorySyncDeltas.ReconcileSends` | crates/pocox-core/src/history_sync.rs:212-226 | a response replaces the window outright iff the manifest is of another history, leaves the metadata out iff the client has it, and lists a document iff the client does not have it as it is |
| `HistorySyncDeltas.ChangeReuses` | crates/pocox-core/src/history_sync.rs:227-255 | of a changed document the client told of, exactly the texts that still start as fingerprinted are reused, once for each such fingerprint and in their order: null in the template and followed by the rest; every other text is sent; the client's digest is asked for iff something is reused |
| `HistorySyncDeltas.ChangeWhole` | crates/pocox-core/src/history_sync.rs:227-255 | a document the client did not tell of is sent as it is |
| `HistorySyncDeltas.AppendedIff` | crates/pocox-core/src/history_sync.rs:230-245 | a fingerprint that matches the first characters of the text now at its pointer is followed by the rest of it, its slot null and the base digest asked for, iff the client listed it; nothing is appended iff nothing listed matches |
| `HistorySyncDeltas.GrownTextSentAsSuffix` | crates/pocox-core/src/history_sync.rs:212-255 | what the synchronization saves: a text of 256 bytes or more that has grown is sent as its new part alone |
| `HistorySyncDeltas.UnchangedSendsNothing` | crates/pocox-core/src/history_sync.rs:212-230 | a window reconciled with its own manifest sends no document and no metadata |
| `HistorySyncDeltas.AppendTextIff` | crates/pocox-core/src/history_sync.rs:293-308 | an append is carried out, or refused with each of its three errors, exactly for what the cached document holds at the pointer |
| `HistorySyncDeltas.ApplyChangeIff` | crates/pocox-core/src/history_sync.rs:281-310 | a change installs a document iff it was there already or was built on the document asked for and has the digest announced; a base mismatch has its exact case |
| `HistorySyncDeltas.FinishIff` | crates/pocox-core/src/history_sync.rs:312-333 | the window made is the one whose documents, order and metadata were announced, and metadata missing or mismatched is refused |
| `HistorySyncDeltas.AppliedIff` | crates/pocox-core/src/history_sync.rs:271-335 | exactly which responses are accepted and as what, and exactly which are refused for their version or size |
| `RpcClient.Connection.DrawId` | crates/pocox-codex/src/client.rs:372 | request ids are the counter's numerals, wrapping at 64 bits |
| `RpcClient.Connection.Register` | crates/pocox-codex/src/client.rs:381-393 | the check and the insert under one lock: registered only on an open connection |
| `RpcClient.Connection.TakePending` | crates/pocox-codex/src/client.rs:495-504 | the entry under a reply's id leaves the map, its sender goes to the reader; without one nothing happens |
| `RpcClient.Connection.SendTo` | crates/pocox-codex/src/client.rs:195-204 | the reader's send, after the lock is released |
| `RpcClient.Connection.CloseConnection` | crates/pocox-codex/src/client.rs:531-540 | cancels and then resolves and removes every pending entry |
| `RpcClient.Connection.DropRegistration` | crates/pocox-codex/src/client.rs:549-556 | dropping a request removes its own entry |
| `RpcClient.Connection.RecordCloseReason` | crates/pocox-codex/src/client.rs:506-512 | the first close reason stays |
| `RpcClient.Connection.RecordServerRequest` | crates/pocox-codex/src/client.rs:207-216 | a server request is kept under its token, the last one winning |
| `RpcClient.Connection.TakeServerRequest` | crates/pocox-codex/src/client.rs:337-349 | a server request is taken once, under the id it arrived with |
| `RpcClientTheorems.InvStep` | crates/pocox-codex/src/client.rs:118-560 | every step of callers, reader, keepalive and closers keeps the connection invariant |
| `RpcClientTheorems.Reachable` | crates/pocox-codex/src/client.rs:118-560 | so every reachable state has it: pending keys are those of unfinished requests, each with an unresolved channel; the reader's hand holds at most one sender, of a request in no entry |
| `RpcClientTheorems.DrainedForever` | crates/pocox-codex/src/client.rs:531-540 | once any closer has cancelled and drained, in every later state the pending map is empty and every registered request is resolved or its answer is in the reader's hand, whose send can be made |
| `RpcClientTheorems.DrainedStillInHand` | crates/pocox-codex/src/client.rs:195-204 | witness for the second case: a watchdog drains between the reader's take and its send |
| `RpcClientTheorems.NothingTakenAfterDrain` | crates/pocox-codex/src/client.rs:495-504 | after the drain the reader takes no sender, so what is in its hand was taken before |
| `RpcClientTheorems.NoRegistrationAfterDrain` | crates/pocox-codex/src/client.rs:382-394 | no request registers after the drain |
| `RpcClientTheorems.DrainedRequestCompletes` | crates/pocox-codex/src/client.rs:366-455 | on a drained connection every request finishes within eight steps of its own, no timeout needed, and at most one more: the send of the answer the reader holds for it |
| `RpcClientTheorems.ClosedNoSetback` | crates/pocox-codex/src/client.rs:366-455 | and no step of anyone else moves it further from its end |
| `RpcClientTheorems.ClosedDrains` | crates/pocox-codex/src/client.rs:531-540 | a closed connection not yet drained has a closer that can drain, or a lock holder that can let go |
| `RpcClientTheorems.AnsweredByOwnReply` | crates/pocox-codex/src/client.rs:366-455 | in every run a request is answered only by a reply under its own key, and each reply answers at most one request |
| `RpcClientAnswers.DeliveredIsAnswered` | crates/pocox-codex/src/client.rs:415-436 | and a waiting request whose channel holds a reply is answered by that reply, once it receives and drops its registration |
| `RpcClientAnswers.OpenRequestAnswered` | crates/pocox-codex/src/client.rs:195-455 | from any reachable state of an open connection with nobody in the way, a new request written and replied to under its key is answered by that reply, whatever else is pending |
| `RpcClientAnswers.FirstRequestAnswered` | crates/pocox-codex/src/client.rs:118-455 | a fresh connection is such a state: its first request is answered by the reply under `1` |
| `RpcClientAnswers.OutcomeIff` | crates/pocox-codex/src/client.rs:381-453 | each outcome has its one cause: an answer a delivered reply received, a timeout a timeout, an abort an abort, and a connection error a connection closed before registering or writing, a broken write or a refused channel |
| `RpcClientTheorems.KeysEqualIff` | crates/pocox-codex/src/client.rs:372 | two requests share a key iff the 64-bit counter wrapped between them |
| `RpcClientTheorems.KeysDiffer` | crates/pocox-codex/src/client.rs:372 | so keys are unique for the first 2^64 requests |
| `RpcClientTheorems.LateReplyDiscarded` | crates/pocox-codex/src/client.rs:195-204 | taking a reply whose request is over, or never was, changes nothing and puts nothing in the reader's hand |
| `RpcClientTheorems.TimeoutTouchesNothingElse` | crates/pocox-codex/src/client.rs:433-453 | in every run and interleaving a timeout after a completed write moves only that request, whoever holds the lock; its outcome stays; and its guard, dropped whenever, removes its own entry and leaves every other request, entry and channel |
| `RpcClientTheorems.DropGuardRemovesOwn` | crates/pocox-codex/src/client.rs:549-556 | the second half for any state of the invariant: a dropped guard removes only its own entry |
| `RpcClientTheorems.ServerRequestsAnsweredOnce` | crates/pocox-codex/src/client.rs:337-349 | each server request is answered at most once |
| `RpcClientAnswers.ServerRequestAnswered` | crates/pocox-codex/src/client.rs:207-216 | and from any reachable state it is answered by the next response under its token, unless another came under that token meanwhile |
| `RpcClientAnswers.StoppedReaderReadsNothing` | crates/pocox-codex/src/client.rs:152-237 | in every run the reader reads until it begins to close, and from then on reads no other reply or server request |
| `RpcClientAnswers.TokenIff` | crates/pocox-codex/src/client.rs:208-211 | two ids share a token iff they are equal or one is the numeral of the other |
| `AuthSessions.Auth.RevokeRefreshToken` | crates/pocox-store/src/tokens.rs:58-73 | the conditional update flips at most one unrevoked row and clears its successor |
| `AuthSessions.Auth.RevokeFamily` | crates/pocox-store/src/tokens.rs:133-150 | every row of the user issued by then is revoked and left without a successor; no other row changes |
| `AuthSessions.Auth.IssueSession` | crates/pocox-auth/src/lib.rs:466-503 | inserts the new row or fails on a key collision |
| `AuthSessions.Auth.HandleInactiveRefresh` | crates/pocox-auth/src/lib.rs:407-445 | a replay is ignored when recent or settled and answered by the family response otherwise |
| `AuthSessions.Auth.RefreshSession` | crates/pocox-auth/src/lib.rs:347-384 | one refresh call, with a store failure possible at each statement |
| `AuthSessions.Auth.LogoutSession` | crates/pocox-auth/src/lib.rs:449-457 | revokes the presented session if it is active |
| `AuthTheorems.KeyedAfter` | crates/pocox-store/src/tokens.rs:10-31 | every call keeps row ids and hashes unique |
| `AuthTheorems.RevokedIff` | crates/pocox-auth/src/lib.rs:347-445 | a live session is revoked by a call iff the call presents it or is a stale replay of its user's tokens issued no later |
| `AuthTheorems.RemovedOnlyByExpiry` | crates/pocox-store/src/flows.rs:61-71 | no call removes a row; purging removes only expired ones |
| `AuthTheorems.StaleReplaySettles` | crates/pocox-auth/src/lib.rs:407-445 | a stale replay settles exactly the family issued by then |
| `AuthTheorems.SettledForever` | crates/pocox-auth/src/lib.rs:347-445 | settled tokens stay dead and successor-free over every run |
| `AuthTheorems.ReplaysInertForever` | crates/pocox-auth/src/lib.rs:347-445 | after the family response, in every later state each replay of a token issued by then is refused and changes nothing |
| `AuthTheorems.AnyNumberOfReplays` | crates/pocox-auth/src/lib.rs:347-445 | any number of replays of settled tokens is refused and leaves the whole store, later sessions included, as if none had been made |
| `AuthTheorems.RecoveredSessionSurvives` | crates/pocox-auth/src/lib.rs:417-443 | a session issued after it survives any number of those replays, unchanged |
| `AuthTheorems.RotationGrantsSuccessor` | crates/pocox-auth/src/lib.rs:347-384 | a live session refreshes into a new one, and its own replay is harmless for the grace period |
| `AuthOutcomes.RefreshTrades` | crates/pocox-auth/src/lib.rs:347-384 | a live token of a known user is revoked naming its successor, and the successor is the one row added |
| `AuthOutcomes.RefreshSpends` | crates/pocox-auth/src/lib.rs:347-384 | when the user is gone or the successor cannot be stored it is spent without one |
| `AuthOutcomes.RefreshRefuses` | crates/pocox-auth/src/lib.rs:407-445 | every other token is refused; the store changes only for one traded more than a minute ago, which ends the user's family |
| `AuthOutcomes.RefreshGrantsIff` | crates/pocox-auth/src/lib.rs:347-384 | so a session is granted iff the token is live, its user known and the successor's id and hash are new |
| `AuthOutcomes.RefreshFaults` | crates/pocox-auth/src/lib.rs:347-384 | what a store failure at each statement leaves behind |
| `AuthOutcomes.ReplayAfterRotation` | crates/pocox-auth/src/lib.rs:407-445 | an old token replayed after its rotation changes nothing iff at most 60 seconds have passed; past that the successor is revoked with the whole family and no successor stays recorded |
| `AuthOutcomes.LogoutSpends` | crates/pocox-auth/src/lib.rs:449-457 | logging out spends the presented session iff it lives, and no other row |
| `AuthOutcomes.LoginAdds` | crates/pocox-auth/src/lib.rs:466-503 | a sign-in adds one live row, or fails on a key already stored |
| `AuthOutcomes.PurgeRemovesIff` | crates/pocox-store/src/flows.rs:61-71 | a row is purged iff its expiry has passed |
| `AuthTheorems.UnchainedReplayIsSettled` | crates/pocox-auth/src/lib.rs:376-383 | when recording the successor fails, a replay is read as settled and the successor lives on |
| `SingleUse.MovesKeep` | crates/pocox-auth/src/lib.rs:356-359 | the shared core: tickets won by a conditional update are held by one call and traded once, under every interleaved move |
| `RefreshRotation.RotationFormsChains` | crates/pocox-auth/src/lib.rs:347-384 | with each store statement a separate step, a refresh token yields at most one successor and a session has one predecessor |
| `RefreshRotation.RecordedSuccessorIsTheOne` | crates/pocox-auth/src/lib.rs:376-383 | the successor a row records is the one issued for it |
| `RefreshRotation.TradedStaysSpent` | crates/pocox-store/src/tokens.rs:58-73 | a traded token is never active again |
| `RefreshRotation.RefreshAlone` | crates/pocox-auth/src/lib.rs:347-384 | run alone, the statements of a refresh do what the call does as one step |
| `RefreshRotation.ReplayAlone` | crates/pocox-auth/src/lib.rs:407-445 | so do those of a refused refresh |
| `RefreshRotation.LogoutAlone` | crates/pocox-auth/src/lib.rs:449-457 | and those of a logout |
| `RefreshRotation.LogoutRefusedAlone` | crates/pocox-auth/src/lib.rs:449-457 | a logout of a session that does not live ends after the read, as the call does |
| `RefreshRotation.PurgeAlone` | crates/pocox-store/src/flows.rs:61-71 | and a purge is one statement at any time, which removes exactly the expired rows |
| `WebLogin.OneProductPerTicket` | crates/pocox-auth/src/lib.rs:246-342 | in every interleaving a login state yields at most one exchange code and a code at most one session |
| `WebLogin.SessionNeedsVerifier` | crates/pocox-auth/src/lib.rs:319-342 | a session is issued only for a verifier that answers the challenge its own login stored |
| `WebLogin.OneSessionPerLogin` | crates/pocox-auth/src/lib.rs:203-342 | end to end, two sessions come from two logins |
| `WebLogin.LedgerStep` | crates/pocox-store/src/web.rs:57-125 | every step keeps flows and codes single-use |
| `WebLoginOutcomes.CallbackProceedsIff` | crates/pocox-auth/src/lib.rs:246-262 | a callback goes ahead iff its flow was started, is not consumed, has this state and has not expired |
| `WebLoginOutcomes.ExchangeProceedsIff` | crates/pocox-auth/src/lib.rs:319-332 | an exchange goes ahead iff its code was issued, is not redeemed, has not expired and its challenge is answered |
| `WebLoginOutcomes.LoginCompletes` | crates/pocox-auth/src/lib.rs:203-342 | from any state a new login, called back and exchanged in time by the client that started it, ends in a session |
| `WebLoginOutcomes.CodeNeedsCallback` | crates/pocox-auth/src/lib.rs:246-318 | in every run, a code is issued only to a flow that was started and called back with its state before it expired |
| `WebLoginOutcomes.SessionNeedsCode` | crates/pocox-auth/src/lib.rs:319-342 | and a session only for a code issued and presented before it expired |
| `RelayCredentials.LatestIff` | crates/pocox-backend/src/credentials.rs:219-228 | the key adopted is the last of the account's latest-expiring keys, and only that |
| `RelayCredentials.Credentials.Serve` | crates/pocox-backend/src/credentials.rs:108-168 | one vending call over any replies, lost ones included; other accounts' entries stay |
| `RelayCredentials.Credentials.Issue` | crates/pocox-backend/src/credentials.rs:155-167 | the issue that ends a vending call; a failed one leaves the entry alone |
| `RelayCredentials.Credentials.FindNamespace` | crates/pocox-backend/src/credentials.rs:87-94 | answers the cached key id, adopting one first; a failed listing is an error, an account without a key is none |
| `RelayCredentials.NamespaceIff` | crates/pocox-backend/src/credentials.rs:81-94 | the lookup fails iff nothing is cached and the listing fails, finds none iff no listed key is the account's, and otherwise names the cached key or the latest |
| `RelayCredentials.Credentials.Revoke` | crates/pocox-backend/src/credentials.rs:176-191 | forgets the account and names the key to withdraw |
| `RelayCredentials.IssueOnlyWhenGone` | crates/pocox-backend/src/credentials.rs:111-167 | every issue call directly follows a successful listing with no key of the account, or none with the id asked for renewal, which is the cached or else the adopted one |
| `RelayCredentials.AnswersUsable` | crates/pocox-backend/src/credentials.rs:111-167 | an answer given without a relay call has a credential and more than the renewal margin left |
| `RelayAnswers.CachedAnswered` | crates/pocox-backend/src/credentials.rs:123-126 | a cached key with more than an hour left is answered at once, whatever the relay would reply |
| `RelayAnswers.AnsweredIff` | crates/pocox-backend/src/credentials.rs:108-168 | the answer of every call: a good cached key; else the renewal of the key cached or adopted; else the key issued once a listing shows none; and failure exactly when the relay does not reply what that takes |
| `RelayAnswers.FailedIff` | crates/pocox-backend/src/credentials.rs:123-168 | with a cached key the call fails iff that is not good and no renewal arrives, nor an issue after a listing without it |
| `RelayAnswers.EntryAfter` | crates/pocox-backend/src/credentials.rs:108-168 | what is cached afterwards: the answer, or after a failure the entry found or the key adopted, without a secret |
| `RelayAnswers.LookupLeaves` | crates/pocox-backend/src/credentials.rs:87-94 | a lookup caches the entry found, or else the account's latest listed key without a secret: the key a withdrawal names |
| `RelayAnswers.CrashCuts` | crates/pocox-backend/src/credentials.rs:108-168 | a process that dies within a call has made its first events and caches nothing afterwards |
| `RelayCredentials.FailureKeepsEntry` | crates/pocox-backend/src/credentials.rs:108-168 | a failed call keeps the cached key id |
| `RelayCredentials.OwnKeysAlways` | crates/pocox-backend/src/credentials.rs:209-240 | over every run an account caches and vends only keys of its own label |
| `RelayCredentials.AccountsNeverShareKeys` | crates/pocox-backend/src/credentials.rs:209-240 | so no key is vended to two accounts |
| `RelayCredentials.StableMeans` | crates/pocox-backend/src/credentials.rs:108-168 | what the stability invariant says of two consecutive vendings |
| `RelayCredentials.NamespaceStable` | crates/pocox-backend/src/credentials.rs:108-229 | over every run, with lost replies, failures, expiry, revocations, crashes and restarts, the vended key id changes only after a listing without the old one, if restarts find the last key, where listed, to be the latest |
| `RelayCredentials.AdoptionIff` | crates/pocox-backend/src/credentials.rs:209-229 | of distinct listed keys one is adopted iff it is the account's latest, ties to the later in the list |
| `RelayCredentials.RestartedCallStableIff` | crates/pocox-backend/src/credentials.rs:108-229 | a renewing call after a restart, with the last vended key listed and never missed, keeps the namespace iff that key is the latest |
| `RelayCredentials.RestartKeepsIff` | crates/pocox-backend/src/credentials.rs:108-229 | all calls after a restart keep it, whatever else the relay answers, iff that key is the latest: the condition of the run theorem is exact |
| `RelayCredentials.RestartCanMoveLiveNamespace` | crates/pocox-backend/src/credentials.rs:209-229 | witness that without it a restart moves a live namespace: an issue whose reply was lost, carried out after the next one, leaves a later sibling |
| `RelayKeys.ServeFits` | crates/pocox-backend/src/credentials.rs:108-168 | every vending call asks the relay in order: list and adopt, renew, list again, issue only when the key is gone; and ends holding what it caches |
| `RelayKeys.CallKeeps` | crates/pocox-backend/src/credentials.rs:108-168 | against the relay's key table, every event of a call keeps the last vended key the account's longest-lived, or dead |
| `RelayKeys.LastIsLatest` | crates/pocox-backend/src/credentials.rs:219-228 | so a listing of the live keys that shows it shows it as the latest |
| `RelayKeys.PlayedIsGood` | crates/pocox-backend/src/credentials.rs:108-229 | a run against a relay that carries out each request when asked or never, whether its reply arrives or not, meets all the conditions of the run theorem |
| `RelayKeys.NamespaceStableAtRelay` | crates/pocox-backend/src/credentials.rs:108-229 | so against such a relay the vended key id changes only after a listing without the old one, with no assumption on what the listings show |
| `RelayKeys.LostIssueAdopted` | crates/pocox-backend/src/credentials.rs:111-119 | witness: an issue whose reply is lost leaves a key that the next call adopts and renews |
| `LineSplitter.Lines.Feed` | crates/pocox-core/src/redact.rs:194-227 | whatever the chunking, the pieces emitted so far are exactly the lines due of the bytes fed so far |
| `LineSplitter.Lines.Reset` | crates/pocox-core/src/redact.rs:188-191 | forgets the partial line |
| `LineSplitter.ReportsAgree` | crates/pocox-core/src/redact.rs:171-228 | two chunkings of a stream give the same pieces, each line within the cap verbatim, but for withheld counts, which lie above the cap and at most at the true length |
| `LineSplitter.ExtendReport` | crates/pocox-core/src/redact.rs:194-210 | an over-long line is reported once, as soon as the cap is passed |
| `LineSplitter.EndReport` | crates/pocox-core/src/redact.rs:210-226 | a newline ends the open line, which is emitted verbatim within the cap |
| `LineSplitter.Notices` | crates/pocox-codex/src/output.rs:39-57 | the notices are one for each ended matching line within the cap: a function of the bytes read, not of the reads |
| `LineSplitter.LinesEnd` | crates/pocox-core/src/redact.rs:194-226 | byte 10 ends a line and no other byte does |
| `LineSplitter.InputIs` | crates/pocox-codex/src/output.rs:39-57 | the bytes read are those of every read in order, interruptions skipped, up to an empty read or an error |
| `LineSplitter.PickedIs` | crates/pocox-codex/src/output.rs:39-57 | the lines noticed are those within the cap that match |
| `Redactor.PercentEncoded` | crates/pocox-core/src/redact.rs:43-55 | computes the percent form |
| `Redactor.PercentRoundTrip` | crates/pocox-core/src/redact.rs:43-55 | which percent-decodes (section 2.1 of RFC 3986) to the key, in either case |
| `Redactor.PercentIs` | crates/pocox-core/src/redact.rs:43-55 | character by character: letters, digits and `-._~` stay, any other becomes its two hexadecimal digits |
| `Redactor.EscapeRoundTrip` | crates/pocox-core/src/redact.rs:83-85 | escaping loses nothing, whichever characters are escaped: `/` alone as in the redactor's form, or all that JSON escapes |
| `Redactor.FormsOf` | crates/pocox-core/src/redact.rs:75-91 | the forms are non-empty, without line breaks, no shorter than the secret, and include it |
| `Redactor.Redactor.Include` | crates/pocox-core/src/redact.rs:94-98 | another key only adds lines withheld |
| `Redactor.ShownText` | crates/pocox-core/src/redact.rs:136-154 | the cut loop ends at the last character boundary within the bound |
| `Redactor.BoundedLength` | crates/pocox-core/src/redact.rs:145-152 | at most 600 bytes and an ellipsis are shown |
| `RedactorOutput.LinesOf` | crates/pocox-core/src/redact.rs:140-143 | a line ends before a newline, or a carriage return and a newline; a last line needs no end |
| `RedactorOutput.FilteredLines` | crates/pocox-core/src/redact.rs:136-144 | the text shown has the lines of the text in their places: the notice for exactly those that hold a form, are a piece of one, or end or start with four or more of its first or last characters; all others as they were |
| `RedactorOutput.LineShown` | crates/pocox-core/src/redact.rs:120-154 | so for a text of one line, as it is shown |
| `RedactorOutput.HarmlessShown` | crates/pocox-core/src/redact.rs:136-154 | a text of at most 600 bytes, no line of which holds a form or four consecutive characters of one, is shown as it is |
| `RedactorOutput.KeyTextShown` | crates/pocox-core/src/redact.rs:75-91 | so with one key a text is shown as it is unless some line holds the key, its percent-encoding in either case or its copy with slashes escaped, or four characters of one |
| `RedactorOutput.SlashIs` | crates/pocox-core/src/redact.rs:83-85 | character by character: a slash gets a backslash before it, any other character stays |
| `Text.TrimIs` | crates/pocox-core/src/redact.rs:108 | trimming takes off the white space at both ends and nothing else |
| `RedactorOutput.BoundedCut` | crates/pocox-core/src/redact.rs:145-152 | a longer text is cut after the last character that fits in 600 bytes, and an ellipsis added |
| `Redactor.CopiesHeld` | crates/pocox-core/src/redact.rs:107-117 | a line with a whole copy of a secret anywhere, verbatim, percent-encoded in either case or with slashes escaped, is withheld |
| `RedactedCopies.JsonCopyHeldIff` | crates/pocox-core/src/redact.rs:11-15 | the promised JSON-escaped copy is withheld wherever it stands iff, outer backslashes aside, the secret has no backslash and no quote after its first character |
| `RedactedCopies.JsonCopiesHeldIff` | crates/pocox-core/src/redact.rs:11-15 | and the copies of every encoder, slashes escaped or not, are withheld exactly then, for every secret |
| `RedactedCopies.PlainTailIff` | crates/pocox-core/src/redact.rs:83-85 | for a secret that starts with neither and ends without a backslash: iff it holds neither quote nor backslash |
| `RedactedCopies.EscapedSlashHeld` | crates/pocox-core/src/redact.rs:83-85 | a backslash before a slash is the one other way to be held: the copy is the slash form |
| `RedactedCopies.QuotedProxyShown` | crates/pocox-core/src/redact.rs:11-15 | witness: a proxy URL with a quote, its JSON-escaped copy shown |
| `Redactor.TextHidesForms` | crates/pocox-core/src/redact.rs:136-154 | no form without a line break is in the shown text, truncated or not, when none is in the notice |
| `Redactor.TextHidesFormsIff` | crates/pocox-core/src/redact.rs:136-154 | and that condition on the notice is exact |
| `Redactor.NoticeShowsKey` | crates/pocox-core/src/redact.rs:136-154 | witness: the key `key` lies in the notice, so the text that withholds it shows it |
| `Redactor.HeadFragmentHeld` | crates/pocox-core/src/redact.rs:107-117 | a line ending with a form's first characters is withheld when at least four are left of them trimmed, whitespace after them or not |
| `Redactor.TailFragmentHeld` | crates/pocox-core/src/redact.rs:107-117 | a line starting with its last characters likewise |
| `Redactor.MiddleFragmentHeld` | crates/pocox-core/src/redact.rs:107-117 | and a line that is nothing but a piece of a form |
| `Redactor.WideCutsHeld` | crates/pocox-core/src/redact.rs:107-117 | a form wrapped over two line edges withholds one of the lines if every break leaves four characters, trimmed, on a side |
| `Redactor.KeyWrapHeldIff` | crates/pocox-core/src/redact.rs:107-117 | for the secret itself exactly then, inner spaces or not |
| `Redactor.UnspacedCutsIff` | crates/pocox-core/src/redact.rs:107-117 | without spaces that is one character or at least seven |
| `Redactor.SpacedKeyWrapShown` | crates/pocox-core/src/redact.rs:107-117 | witness that with a space seven do not suffice |
| `LsofListing.LsofRecords.CloseFile` | crates/pocox-core/src/listener.rs:310-330 | ends the current file: refused without both fields or an address it can read |
| `LsofListing.LsofRecords.CloseProcess` | crates/pocox-core/src/listener.rs:333-340 | ends the current process: refused without a file |
| `LsofListing.LsofRecords.Take` | crates/pocox-core/src/listener.rs:265-282 | one line of the listing |
| `LsofListing.LsofPids` | crates/pocox-core/src/listener.rs:262-286 | for every text the parser answers exactly what the text's records say |
| `LsofListing.GroupedPrints` | crates/pocox-core/src/listener.rs:255-286 | grouping a listing into records loses no line |
| `LsofListing.SteppedGroups` | crates/pocox-core/src/listener.rs:265-282 | the parser's state is a function of the records so far |
| `LsofListing.FinishedSays` | crates/pocox-core/src/listener.rs:284-285 | at the end it answers their verdict: the pids of applicable files in order, or refusal |
| `LsofOutcomes.TextVerdictIff` | crates/pocox-core/src/listener.rs:255-286 | a text is accepted iff its last line is ended and every record can be read, and it names exactly the processes that hold an applicable socket |
| `LsofOutcomes.FileVerdictIff` | crates/pocox-core/src/listener.rs:310-330 | a file applies or not iff its one family and its one name say so, all other files refused |
| `LsofOutcomes.ReadFileIff` | crates/pocox-core/src/listener.rs:310-330 | by its port and host: without a 16-bit port, or under `*` of no known family, it cannot be read; another port does not apply |
| `LsofListingTheorems.PrintedVerdict` | crates/pocox-core/src/listener.rs:262-286 | parsing the printed form of any well-formed listing gives its records' verdict |
| `LsofListingTheorems.CutAcceptedIff` | crates/pocox-core/src/listener.rs:255-286 | a listing cut short anywhere is accepted iff the cut follows a line that leaves every record begun complete, and then its holders are the first of the whole listing's |
| `LsofListingTheorems.CutAfterProcess` | crates/pocox-core/src/listener.rs:255-286 | cut back to before any added process, an accepted text answers the holders listed before it |
| `LsofListingTheorems.CutNamesFewer` | crates/pocox-core/src/listener.rs:255-286 | witness, for every port: a listing of two holders, cut, is answered with one |
| `LsofListing.MappedIsSame` | crates/pocox-core/src/listener.rs:131-142 | an IPv4 address and its IPv6-mapped form are one, bound or requested; an address reaches itself and the unspecified IPv6 address every request |
| `LsofOutcomes.AppliesIff` | crates/pocox-core/src/listener.rs:131-142 | a socket applies iff some requested address is the bound one or either is unspecified, within a family; across families only a listener on the unspecified IPv6 address takes IPv4 |
| `LsofListing.ScopedRefused` | crates/pocox-core/src/listener.rs:116-127 | a scoped address that names a requested one is never read, bracketed or bare |
| `LsofOutcomes.ListedAppliesIff` | crates/pocox-core/src/listener.rs:99-127 | a listed literal, bracketed or bare, applies as its address does, unless it has a zone and names a requested address |
| `LsofOutcomes.NamedIff` | crates/pocox-core/src/listener.rs:116-127 | it names one when both stand for the same IPv4 address, or are the same address |
| `LsofListingTheorems.UnreadableFileRefuses` | crates/pocox-core/src/listener.rs:262-286 | one file that cannot be read refuses any text it is grouped from |
| `LsofListingTheorems.UnreadableListingRefused` | crates/pocox-core/src/listener.rs:262-286 | and any printed listing |
| `LsofListingTheorems.ScopedListingRefused` | crates/pocox-core/src/listener.rs:116-127 | so one scoped socket on a requested address refuses the whole listing |
| `LsofListing.ParseUnsignedIff` | crates/pocox-core/src/listener.rs:271 | a number is read exactly from its own numerals (an optional plus, zeros, its digits) and only within its type |
| `ServiceKeys.SanitizeComponent` | crates/pocox-core/src/service.rs:159-178 | the loop computes the sanitised name |
| `ServiceKeys.SanitizedIsWords` | crates/pocox-core/src/service.rs:159-178 | which is the lower-cased runs of kept characters joined by single dashes, or the default |
| `ServiceKeys.SanitizedCanonical` | crates/pocox-core/src/service.rs:159-178 | is always canonical |
| `ServiceKeys.SanitizedFixedIff` | crates/pocox-core/src/service.rs:159-178 | and sanitising fixes exactly the canonical names |
| `ServiceKeys.SanitizedIdempotent` | crates/pocox-core/src/service.rs:159-178 | so it is idempotent |
| `ServiceKeys.CanonicalIff` | crates/pocox-core/src/service.rs:159-178 | the canonical names: runs of lower-case letters, digits, underscores and dots joined by single dashes |
| `ServiceKeys.ServiceKeyIff` | crates/pocox-core/src/service.rs:130-154 | a device key is read as an id iff it prints as that key with non-empty segments and a known kind |
| `ServiceKeys.AccountKeyIff` | crates/pocox-account-proto/src/key.rs:64-121 | an account key is read as an id iff the id is canonical, of a known kind, and prints as that key |
| `ServiceKeys.NewAccountParses` | crates/pocox-account-proto/src/key.rs:56-61 | whatever strings an id is built from, its key reads back as it |
| `ServiceKeys.PrefixIff` | crates/pocox-account-proto/src/key.rs:76-88 | a key starts with a user's prefix iff the sanitised users are equal |
| `ServiceKeys.EntryIff` | crates/pocox-backend/src/api.rs:321-352 | a record is listed as an entry iff it is in the account's own namespace, its kind is an app, an API or an opted-in agent, and its name is the key that deregistering the entry retires |
| `ServiceKeys.RebuiltKeyPrints` | crates/pocox-backend/src/api.rs:354-368 | which is the account's prefix, the device, the kind and the name |
| `ServiceKeys.OwnServicesExact` | crates/pocox-backend/src/api.rs:321-368 | the listing holds exactly the entries that some record is registered as |
| `CiAffected.Reversed` | scripts/ci_affected.py:120-123 | the map read backwards |
| `CiAffected.PushNew` | scripts/ci_affected.py:126-129 | the inner loop adds and pushes exactly the new dependents |
| `CiAffected.DependentsClosure` | scripts/ci_affected.py:118-130 | ends on every graph, cycles included, with exactly the crates from which a seed is reached |
| `CiAffected.OwningCrate` | scripts/ci_affected.py:108-115 | the name of the longest member directory that contains the file |
| `CiAffected.LongestOwnerUnique` | scripts/ci_affected.py:108-115 | which does not depend on the order they are tried in |
| `CiAffected.Seeds` | scripts/ci_affected.py:174 | the owners of the changed files |
| `CiAffected.Detect` | scripts/ci_affected.py:152-182 | every crate that reaches a changed one is tested unless everything is, and nothing is tested without such a reason |
| `CiAffected.ReachesOne` | scripts/ci_affected.py:118-130 | reaching a set of seeds is reaching one of them |
| `CiAffected.DependsOnIff` | scripts/ci_affected.py:118-130 | a crate reaches itself and each of its dependencies |
| `CiAffected.OwnerIff` | scripts/ci_affected.py:108-115 | a crate owns a file iff its directory is the longest that is the file or holds it, and none does iff no named directory is or holds it |
| `CiAffected.CrossCuttingIff` | scripts/ci_affected.py:100-105 | a change cuts across iff it is to a workspace file, a shared build input or the toolchain's file |
| `CiAffected.PathNameIs` | scripts/ci_affected.py:100-105 | the name of a path is its last component |
| `CiAffected.PathNameSkips` | scripts/ci_affected.py:100-105 | slashes and dots after a path do not change its name |
| `CiAffected.TriggersIff` | scripts/ci_affected.py:152-182 | which changed files trigger everything, and which the app's checks |
| `ProcessTree.DescendsFrom` | crates/pocox-core/src/process.rs:312-327 | the walk accepts exactly the processes with fewer than 32 parent links to the root through processes no older |
| `ProcessTree.WalkIff` | crates/pocox-core/src/process.rs:312-327 | for every table, dangling or cyclic parents included |
| `ProcessTree.PickHolder` | crates/pocox-core/src/process.rs:390-400 | prefers a holder that serves |
| `ProcessTree.EndpointOwnerUnder` | crates/pocox-core/src/process.rs:361-401 | the verdict is `Owned` iff something listens and every applicable holder is of the launch's tree; the last `Unknown` is never reached |
| `ProcessTree.OwnedHoldersAreYounger` | crates/pocox-core/src/process.rs:361-401 | every holder of an owned endpoint descends from the root and started no earlier |
| `ProcessTree.VerdictIff` | crates/pocox-core/src/process.rs:361-401 | each of the four verdicts has its exact case, and an owner is one of the holders, serving if any serves |
| `RuntimeState.RuntimeState.UpsertPb` | crates/pocox-core/src/state.rs:231-241 | overwrites the first row with the key or appends |
| `RuntimeState.RuntimeState.RemovePb` | crates/pocox-core/src/state.rs:244-250 | answers and swap-removes the first row with the key |
| `RuntimeState.RuntimeState.UpsertApi` | crates/pocox-core/src/state.rs:258-264 | the same for proxies |
| `RuntimeState.RuntimeState.RemoveApi` | crates/pocox-core/src/state.rs:267-270 | the same for proxies |
| `RuntimeState.RuntimeState.RecordSelectedService` | crates/pocox-core/src/state.rs:278-295 | the kind's answer becomes the sanitised target, every other answer stays |
| `RuntimeState.UpsertedLookup` | crates/pocox-core/src/state.rs:231-241 | upserting changes that key's answer and no other, duplicates or not |
| `RuntimeState.RemovedLookup` | crates/pocox-core/src/state.rs:244-250 | with distinct keys removal takes that key away and no other, despite the swap |
| `RuntimeState.RemovedRows` | crates/pocox-core/src/state.rs:244-250 | and loses no other row |
| `RuntimeState.RemovalExactIff` | crates/pocox-core/src/state.rs:244-250 | removal behaves as a map's for every key iff no key is held twice |
| `RuntimeState.TwiceHeldRemains` | crates/pocox-core/src/state.rs:244-250 | witness: a key held twice is answered after its removal |
| `RuntimeState.VectorIsMap` | crates/pocox-core/src/state.rs:225-270 | after any sequence of upserts and removals the vector answers as a map |
| `ProviderId.HostProviderId` | crates/pocox-codex/src/provider_launch.rs:44-60 | the loops compute the id |
| `ProviderId.IdIff` | crates/pocox-codex/src/provider_launch.rs:44-60 | two ids are equal iff the instances and the filtered generations are: an id determines its instance |
| `ProviderId.GenerationIs` | crates/pocox-codex/src/provider_launch.rs:50-58 | character by character: letters and digits stay, lower-cased, and nothing else does |
| `ProviderId.HexIs` | crates/pocox-codex/src/provider_launch.rs:44-50 | two lower-case hexadecimal digits for each byte, in order |
| `ProviderId.IdPrints` | crates/pocox-codex/src/provider_launch.rs:44-60 | the id is the prefix, the instance in hexadecimal and the generation, joined by underscores |
| `Retry.RetryBackoff.NextDelay` | crates/pocox-account-proto/src/params.rs:58-65 | the next delay of the curve, the counter saturating |
| `Retry.BoundedRetry.Fail` | crates/pocox-account-proto/src/params.rs:151-157 | the k-th failure of any history is told the k-th delay below the budget and refused from it on |
| `Retry.DelayCurve` | crates/pocox-account-proto/src/params.rs:58-65 | delays never shrink, stay within the cap, double until a bound is met and are constant after ten |
| `Retry.DelayValues` | crates/pocox-account-proto/src/params.rs:58-65 | in milliseconds: 100, then twice as much each time up to 102400, never above the cap |
| `Retry.OutcomeIff` | crates/pocox-account-proto/src/params.rs:151-157 | a failure waits iff an attempt is left, as long as the curve says |
| `Retry.BudgetSpent` | crates/pocox-account-proto/src/params.rs:151-157 | a budget of n gives exactly n - 1 waits, however long it is driven |
| `Retry.OutcomesOrdered` | crates/pocox-account-proto/src/params.rs:151-157 | once refused always refused, and until then no wait is shorter than one before |

## Left out

- SHA-256, JWT signing, random drawing and PKCE hashing: function parameters, with collision-freedom or newness as stated hypotheses.
- The text encoding of JSON and TOML by serde: documents are the JSON datatype, numbers are opaque numerals, and a digest is a function of the value.
- `WindowQuery::validate` and `SyncRequest::validate`: single-branch limit checks.
- Iteration order of ordered maps in `reconcile` and `manifest`: the models process documents in any order, and the theorems hold for all of them.
- Real time in the client: a timeout is a step that may fire whenever a request waits, and the keepalive is a closer that may start at any time, so its activity counter is not modelled.
- Partial writes, the sink lock and WebSocket frames: a write succeeds, breaks or is cancelled as one step.
- `AppClient::drop`, which aborts reader and keepalive: a request borrows the client, so none waits then. Of `close` only the recorded reason is modelled; the reader then ends as it may at any time.
- The device login: `device_poll` does not look at whether consuming the flow succeeded, so single use there rests on GitHub.
- The recovery property with calls interleaved: a call in flight during a family response can record its successor afterwards, so that property is proved for calls as single steps.
- SQL: store statements are functions on rows, any of which may fail; the foreign keys and other columns are not modelled.
- User deletion, access-token claims and the GitHub calls of the logins: outcomes that end a call early.
- Concurrent calls for one relay account: the source serialises them under the account's lock, so they are single steps; the withdrawal request of `revoke_account` is a named key only, and the withdrawal a change at the relay.
- The relay's own code is not part of this repository: how its key table answers is a hypothesis (`RelayKeys.Carried`).
- `RelayKeys.NamespaceStableAtRelay`: no two keys of the account are given the same second of expiry, because the source breaks that tie by the order of the listing.
- `Redactor.FormsOf`: the source keeps the forms sorted without duplicates; the model keeps the set.
- `Redactor.output` and the notices themselves: two constants.
- `Redactor.Redactor.constructor`: secrets other than ASCII without control characters, which the host configuration refuses (crates/pocox-bridge/src/engine/host_profiles_secrets.rs:12-26, host_profiles_environment.rs:109-121).
- `String::from_utf8_lossy` before the notice test: part of the predicate passed to `Notices`.
- `LsofListing.LsofPids`: IP literal parsing is a function parameter; running `lsof` and its exit codes are not modelled.
- `listening_inodes`, `netstat_pids`, `requested`: row filters over the same address rule, without the record structure that makes `lsof` hard.
- `ProcessTree.EndpointOwnerUnder`: whether a process serves the URL, and what the listing answers for a set of processes, are inputs of the snapshot.
- `find_codex_app_server_under`: the same walk over a filter.
- Percent-encoded route segments and relay calls around `own_services` and `deregister_service`.
- Parsing of workspace manifests and the git diff: `Detect` takes the changed files and the graph.
- Printing of selections and the commands run from them.
- `Retry.RetryBackoff.NextDelay`: jitter is floating point and is not modelled; durations are milliseconds.
- File input and output of the runtime state.
