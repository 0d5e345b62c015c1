/**
 When a relay credential is vended: the exact calls that answer and with what,
 in terms of the cached entry and the relay's replies.
 */
module RelayAnswers {
  import opened Text
  import opened RelayCredentials

  /** A secret is at hand with more than an hour left. */
  predicate Good(key: Cached, now: nat) { key.credential != "" && key.expiresAt > now + 3600 }

  predicate Shows(listing: Option<seq<KeyRecord>>, keyId: nat) {
    listing.Some? && exists i :: 0 <= i < |listing.value| && listing.value[i].keyId == keyId
  }

  /** The relay listed its keys and this one was not among them. */
  predicate Gone(listing: Option<seq<KeyRecord>>, keyId: nat) { listing.Some? && !Shows(listing, keyId) }

  /** The account's key of a listing: the one that expires last, ties to the
      later in the list. */
  ghost predicate Adopts(listing: Option<seq<KeyRecord>>, user: string, keyId: nat) {
    listing.Some? && exists i :: IsLatestAt(listing.value, user, i) && listing.value[i].keyId == keyId
  }

  ghost predicate NoneOf(listing: Option<seq<KeyRecord>>, user: string) {
    listing.Some? && forall i :: 0 <= i < |listing.value| ==>
                                   listing.value[i].tag != Some("pcx-account:" + user)
  }

  /** A cached key with more than an hour left is answered at once, whatever the
      relay would say. */
  lemma {:induction false} CachedAnswered(key: Cached, user: string, now: nat, r: Replies)
    requires key.credential != "" && key.expiresAt > now + 3600
    ensures ForAccount(Some(key), user, now, r) == Served(Some(key), Answer(key), [Vended(key)])
  {
  }

  /** What becomes of a known key that needs renewal: renewed if the relay
      answers that, replaced only when a listing shows it gone. */
  ghost predicate RenewedOrReplaced(keyId: nat, r: Replies, outcome: Outcome) {
    if r.renewal.Some? then outcome == Answer(r.renewal.value)
    else if Gone(r.recheck, keyId) && r.issue.Some? then outcome == Answer(r.issue.value)
    else outcome == Failed
  }

  /** The answer of every call: a good cached key; else the renewal of the key
      cached or adopted; else the key issued when none is left. It fails exactly
      when the relay does not answer what that takes. */
  lemma {:induction false} AnsweredIff(entry: Option<Cached>, user: string, now: nat, r: Replies)
    ensures var outcome := ForAccount(entry, user, now, r).outcome;
            && (forall key :: entry == Some(key) && Good(key, now) ==> outcome == Answer(key))
            && (forall key :: entry == Some(key) && !Good(key, now) ==> RenewedOrReplaced(key.keyId, r, outcome))
            && (entry.None? && r.adoption.None? ==> outcome == Failed)
            && (forall k :: entry.None? && Adopts(r.adoption, user, k) ==> RenewedOrReplaced(k, r, outcome))
            && (entry.None? && NoneOf(r.adoption, user) ==>
                  outcome == if r.issue.Some? then Answer(r.issue.value) else Failed)
    ensures entry.None? && r.adoption.Some? ==>
              NoneOf(r.adoption, user) || exists k :: Adopts(r.adoption, user, k)
  {
    if entry.Some? {
      KnownAnswered(entry.value, user, now, r);
    } else if r.adoption.Some? {
      var keys := r.adoption.value;
      var i := LatestFound(keys, user);
      forall k | Adopts(r.adoption, user, k) ensures Adopt(keys, user).Some? && Adopt(keys, user).value.keyId == k {
        var j :| IsLatestAt(keys, user, j) && keys[j].keyId == k;
        LatestIff(keys, user, j);
      }
      if Adopt(keys, user).Some? {
        KnownAnswered(Adopt(keys, user).value, user, now, r);
        assert Adopts(r.adoption, user, Adopt(keys, user).value.keyId);
      }
    }
  }

  lemma {:induction false} KnownAnswered(key: Cached, user: string, now: nat, r: Replies)
    ensures Good(key, now) ==> ServeKnown(key, now, r).outcome == Answer(key)
    ensures !Good(key, now) ==> RenewedOrReplaced(key.keyId, r, ServeKnown(key, now, r).outcome)
  {
    assert r.recheck.Some? ==> (Lists(r.recheck.value, key.keyId) <==> Shows(r.recheck, key.keyId));
  }

  /** So a call fails exactly when the cached key is not good and no renewal
      arrives, nor an issue after a listing without the key. */
  lemma {:induction false} FailedIff(key: Cached, user: string, now: nat, r: Replies)
    ensures ForAccount(Some(key), user, now, r).outcome == Failed <==>
            !(key.credential != "" && key.expiresAt > now + 3600)
            && r.renewal.None? && (r.issue.None? || !Gone(r.recheck, key.keyId))
  {
    AnsweredIff(Some(key), user, now, r);
  }

  /** What a call leaves cached: its answer, and on failure the entry it found or
      the key it adopted, whose secret the relay does not repeat. */
  lemma {:induction false} EntryAfter(entry: Option<Cached>, user: string, now: nat, r: Replies)
    ensures var served := ForAccount(entry, user, now, r);
            && (served.outcome.Answer? ==> served.entry == Some(served.outcome.key))
            && (served.outcome.Failed? && entry.Some? ==> served.entry == entry)
            && (served.outcome.Failed? && entry.None? && r.adoption.None? ==> served.entry == None)
            && (served.outcome.Failed? && entry.None? && NoneOf(r.adoption, user) ==> served.entry == None)
            && (forall i :: served.outcome.Failed? && entry.None? && r.adoption.Some?
                            && IsLatestAt(r.adoption.value, user, i) ==>
                              var adopted := r.adoption.value[i];
                              served.entry == Some(Cached("", adopted.keyId, adopted.expiresAt)))
  {
    if entry.None? && r.adoption.Some? {
      var keys := r.adoption.value;
      var i := LatestFound(keys, user);
      forall j | IsLatestAt(keys, user, j) ensures Latest(keys, user) == Some(keys[j]) {
        LatestIff(keys, user, j);
      }
    }
  }

  /** A process that dies within a call has made its first events and caches
      nothing afterwards. */
  lemma {:induction false} CrashCuts(user: string, a: Account, now: nat, r: Replies, n: nat)
    ensures var trace, after := ForAccount(a.entry, user, now, r).trace, After(user, a, Crash(now, r, n));
            && after.entry == None && a.log <= after.log <= a.log + trace
            && |after.log| == |a.log| + if n < |trace| then n else |trace|
  {
  }

  /** What a lookup caches, and so which key a withdrawal names: the entry found,
      or else the account's key of the listing. */
  lemma {:induction false} LookupLeaves(entry: Option<Cached>, user: string, r: Replies)
    ensures var left := NamespaceOf(entry, user, r).entry;
            && (entry.Some? ==> left == entry)
            && (entry.None? && (r.adoption.None? || NoneOf(r.adoption, user)) ==> left == None)
            && (forall i :: entry.None? && r.adoption.Some? && IsLatestAt(r.adoption.value, user, i) ==>
                              var adopted := r.adoption.value[i];
                              left == Some(Cached("", adopted.keyId, adopted.expiresAt)))
  {
    if entry.None? && r.adoption.Some? {
      var keys := r.adoption.value;
      var i := LatestFound(keys, user);
      forall j | IsLatestAt(keys, user, j) ensures Latest(keys, user) == Some(keys[j]) {
        LatestIff(keys, user, j);
      }
    }
  }
}
