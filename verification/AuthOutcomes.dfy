/**
 What each session call answers and leaves behind, in the columns of the rows
 alone.
 */
module AuthOutcomes {
  import opened Text
  import opened AuthSessions
  import opened AuthTheorems

  /** The stored token is neither revoked nor past its expiry. */
  predicate Lives(row: TokenRow, now: int) { row.revokedAt.None? && now < row.expiresAt }

  /** It was traded for a successor no more than a minute ago. */
  predicate JustTraded(row: TokenRow, now: int) {
    row.rotatedTo.Some? && row.revokedAt.Some? && now <= row.revokedAt.value + 60
  }

  ghost predicate Stored(ts: Tokens, id: string, hash: string) { id in ts && ts[id].hash == hash }

  ghost predicate FreshIn(ts: Tokens, w: World) {
    w.newId !in ts && forall id :: id in ts ==> ts[id].hash != w.newHash
  }

  function SpentRow(row: TokenRow, now: int, successor: Option<string>): TokenRow {
    TokenRow(row.id, row.user, row.hash, row.createdAt, row.expiresAt, Some(now), successor)
  }

  function SessionRow(user: string, w: World): TokenRow {
    TokenRow(w.newId, user, w.newHash, w.now, w.now + w.ttl, None, None)
  }

  /** The user's rows issued by `now` are revoked, from then or before, and name
      no successor; the others are as they were. */
  ghost predicate FamilyEnded(ts: Tokens, user: string, now: int, after: Tokens) {
    && after.Keys == ts.Keys
    && (forall id :: id in ts ==>
          after[id] == if ts[id].user == user && ts[id].createdAt <= now
                       then TokenRow(ts[id].id, ts[id].user, ts[id].hash, ts[id].createdAt, ts[id].expiresAt,
                                     if ts[id].revokedAt.Some? then ts[id].revokedAt else Some(now), None)
                       else ts[id])
  }

  lemma {:induction false} FoundByHash(ts: Tokens, id: string, hash: string)
    requires Keyed(ts) && Stored(ts, id, hash)
    ensures ByHash(ts, hash) == Some(ts[id])
  {
    assert HasHash(ts, hash);
  }

  // ---------- refresh ----------

  /** A live token of a known user is traded: it is revoked, naming its
      successor, and the successor is the one row added. */
  lemma {:induction false} RefreshTrades(db: Db, id: string, hash: string, w: World)
    requires Keyed(db.tokens) && Stored(db.tokens, id, hash) && w.fault == NoFault
    requires Lives(db.tokens[id], w.now) && db.tokens[id].user in db.users && FreshIn(db.tokens, w)
    ensures var row := db.tokens[id];
            Refresh(db, hash, w) == (Db(db.tokens[id := SpentRow(row, w.now, Some(w.newId))]
                                                 [w.newId := SessionRow(row.user, w)], db.users),
                                     Session(w.newId))
  {
    FoundByHash(db.tokens, id, hash);
    var row := db.tokens[id];
    var spent := db.tokens[id := SpentRow(row, w.now, None)];
    var after := Refresh(db, hash, w).0.tokens;
    assert spent[id].hash == row.hash;
    assert !HasHash(spent, w.newHash);
    assert after == db.tokens[id := SpentRow(row, w.now, Some(w.newId))][w.newId := SessionRow(row.user, w)];
  }

  /** A live token whose user is gone, or whose successor cannot be stored, is
      spent without one. */
  lemma {:induction false} RefreshSpends(db: Db, id: string, hash: string, w: World)
    requires Keyed(db.tokens) && Stored(db.tokens, id, hash) && Lives(db.tokens[id], w.now)
    requires w.fault == NoFault || w.fault == AtUser || w.fault == AtIssue
    requires w.fault != NoFault || db.tokens[id].user !in db.users || !FreshIn(db.tokens, w)
    ensures Refresh(db, hash, w).0 == Db(db.tokens[id := SpentRow(db.tokens[id], w.now, None)], db.users)
    ensures Refresh(db, hash, w).1
         == if w.fault != AtUser && db.tokens[id].user !in db.users then BadRefresh else StoreError
  {
    FoundByHash(db.tokens, id, hash);
    var spent := db.tokens[id := SpentRow(db.tokens[id], w.now, None)];
    assert spent[id].hash == db.tokens[id].hash;
    if other :| other in db.tokens && db.tokens[other].hash == w.newHash {
      assert spent[other].hash == w.newHash;
    }
    if other :| other in spent && spent[other].hash == w.newHash {
      assert db.tokens[other].hash == w.newHash;
    }
  }

  /** Any other token is refused. Nothing changes unless the token was traded
      for a successor more than a minute ago: that ends the user's family. */
  lemma {:induction false} RefreshRefuses(db: Db, hash: string, w: World)
    requires Keyed(db.tokens) && w.fault == NoFault
    requires forall id :: Stored(db.tokens, id, hash) ==> !Lives(db.tokens[id], w.now)
    ensures Refresh(db, hash, w).1 == BadRefresh && Refresh(db, hash, w).0.users == db.users
    ensures (forall id :: Stored(db.tokens, id, hash) ==>
                            db.tokens[id].rotatedTo.None? || JustTraded(db.tokens[id], w.now))
            ==> Refresh(db, hash, w).0 == db
    ensures forall id :: Stored(db.tokens, id, hash) && db.tokens[id].rotatedTo.Some?
                         && !JustTraded(db.tokens[id], w.now) ==>
                           FamilyEnded(db.tokens, db.tokens[id].user, w.now, Refresh(db, hash, w).0.tokens)
  {
    if HasHash(db.tokens, hash) {
      var id :| id in db.tokens && db.tokens[id].hash == hash;
      assert Stored(db.tokens, id, hash);
      FoundByHash(db.tokens, id, hash);
      forall other | Stored(db.tokens, other, hash) ensures other == id {}
    }
  }

  /** So a session is granted exactly for a live token of a known user, under
      an id and a hash not yet stored. */
  lemma {:induction false} RefreshGrantsIff(db: Db, hash: string, w: World)
    requires Keyed(db.tokens) && w.fault == NoFault
    ensures Refresh(db, hash, w).1.Session? <==>
            FreshIn(db.tokens, w)
            && exists id :: Stored(db.tokens, id, hash) && Lives(db.tokens[id], w.now) && db.tokens[id].user in db.users
  {
    if id :| Stored(db.tokens, id, hash) && Lives(db.tokens[id], w.now) {
      forall other | Stored(db.tokens, other, hash) ensures other == id {}
      if db.tokens[id].user in db.users && FreshIn(db.tokens, w) {
        RefreshTrades(db, id, hash, w);
      } else {
        RefreshSpends(db, id, hash, w);
      }
    } else {
      RefreshRefuses(db, hash, w);
    }
  }

  /** A store that fails before the token is spent leaves all as it was; one
      that fails at the last statement leaves the successor unrecorded. */
  lemma {:induction false} RefreshFaults(db: Db, id: string, hash: string, w: World)
    requires Keyed(db.tokens) && Stored(db.tokens, id, hash) && Lives(db.tokens[id], w.now)
    ensures w.fault == AtRead || w.fault == AtConsume ==> Refresh(db, hash, w) == (db, StoreError)
    ensures w.fault == AtChain && db.tokens[id].user in db.users && FreshIn(db.tokens, w) ==>
              Refresh(db, hash, w) == (Db(db.tokens[id := SpentRow(db.tokens[id], w.now, None)]
                                                   [w.newId := SessionRow(db.tokens[id].user, w)], db.users),
                                       Session(w.newId))
  {
    FoundByHash(db.tokens, id, hash);
    var spent := db.tokens[id := SpentRow(db.tokens[id], w.now, None)];
    assert spent[id].hash == db.tokens[id].hash;
    if FreshIn(db.tokens, w) {
      assert !HasHash(spent, w.newHash);
    }
  }

  // ---------- the response to a replay ----------

  /** The old token presented again after its rotation: within a minute nothing
      happens, and afterwards the session issued for it is revoked with the rest
      of the family. The minute decides, exactly. */
  lemma {:induction false} ReplayAfterRotation(db: Db, id: string, w: World, again: World)
    requires Keyed(db.tokens) && id in db.tokens && Lives(db.tokens[id], w.now)
    requires db.tokens[id].user in db.users && w.fault == NoFault && FreshIn(db.tokens, w)
    requires again.fault == NoFault && again.now >= w.now
    ensures Keyed(Refresh(db, db.tokens[id].hash, w).0.tokens)
    ensures var hash := db.tokens[id].hash;
            var after := Refresh(db, hash, w).0;
            var replayed := Refresh(after, hash, again);
            && replayed.1 == BadRefresh
            && (replayed.0 == after <==> again.now - w.now <= 60)
            && (again.now - w.now > 60 ==>
                  && FamilyEnded(after.tokens, db.tokens[id].user, again.now, replayed.0.tokens)
                  && w.newId in replayed.0.tokens && replayed.0.tokens[w.newId].revokedAt == Some(again.now)
                  && (forall k :: k in replayed.0.tokens && replayed.0.tokens[k].user == db.tokens[id].user
                                  && replayed.0.tokens[k].createdAt <= again.now ==>
                                    replayed.0.tokens[k].revokedAt.Some? && replayed.0.tokens[k].rotatedTo.None?))
  {
    var hash := db.tokens[id].hash;
    KeyedAfter(db, RefreshCall(hash, w));
    RefreshTrades(db, id, hash, w);
    var after := Refresh(db, hash, w).0;
    assert Stored(after.tokens, id, hash);
    forall other | Stored(after.tokens, other, hash) ensures other == id {}
    RefreshRefuses(after, hash, again);
    if again.now - w.now > 60 {
      assert Refresh(after, hash, again).0.tokens[w.newId] != after.tokens[w.newId];
    }
  }

  // ---------- the other calls ----------

  /** Logging out spends the presented session if it lives, and no other row. */
  lemma {:induction false} LogoutSpends(db: Db, hash: string, w: World)
    requires Keyed(db.tokens) && w.fault == NoFault
    ensures Logout(db, hash, w).1 == Done
    ensures forall id :: Stored(db.tokens, id, hash) && Lives(db.tokens[id], w.now) ==>
                           Logout(db, hash, w).0 == Db(db.tokens[id := SpentRow(db.tokens[id], w.now, None)], db.users)
    ensures (forall id :: Stored(db.tokens, id, hash) ==> !Lives(db.tokens[id], w.now)) ==> Logout(db, hash, w).0 == db
  {
    forall id | Stored(db.tokens, id, hash) ensures ByHash(db.tokens, hash) == Some(db.tokens[id]) {
      FoundByHash(db.tokens, id, hash);
    }
  }

  /** A sign-in adds one live row, or fails on a key already stored. */
  lemma {:induction false} LoginAdds(db: Db, user: string, w: World)
    requires Keyed(db.tokens) && w.fault == NoFault
    ensures FreshIn(db.tokens, w) ==>
              Issue(db, user, w) == (Db(db.tokens[w.newId := SessionRow(user, w)], db.users), Session(w.newId))
    ensures !FreshIn(db.tokens, w) ==> Issue(db, user, w) == (db, StoreError)
  {
    if HasHash(db.tokens, w.newHash) {
      var id :| id in db.tokens && db.tokens[id].hash == w.newHash;
      assert !FreshIn(db.tokens, w);
    }
  }

  /** A purge removes exactly the rows whose expiry has passed. */
  lemma {:induction false} PurgeRemovesIff(db: Db, now: int, id: string)
    requires Keyed(db.tokens)
    ensures var after := After(db, PurgeCall(now)).tokens;
            && (id in after <==> id in db.tokens && now <= db.tokens[id].expiresAt)
            && (id in after ==> after[id] == db.tokens[id])
  {
  }
}
