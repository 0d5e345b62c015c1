/**
 Rotation and recovery over whole runs of calls: exactly what revokes a
 session, and why a dead token cannot take down a later sign-in however often
 it is replayed.
 */
module AuthTheorems {
  import opened Text
  import opened AuthSessions

  // ---------- runs of calls ----------

  datatype Op =
    | Login(user: string, w: World)
    | RefreshCall(hash: string, w: World)
    | LogoutCall(hash: string, w: World)
    | PurgeCall(now: int)
    | NewUser(user: string)

  function After(db: Db, op: Op): Db
    requires Keyed(db.tokens)
  {
    match op
    case Login(user, w) => if user in db.users then Issue(db, user, w).0 else db
    case RefreshCall(hash, w) => Refresh(db, hash, w).0
    case LogoutCall(hash, w) => Logout(db, hash, w).0
    case PurgeCall(now) => db.(tokens := Purged(db.tokens, now))
    case NewUser(user) => db.(users := db.users + {user})
  }

  /** Updating columns other than the keys keeps them. */
  lemma {:induction false} KeyedByColumns(ts: Tokens, after: Tokens)
    requires Keyed(ts) && after.Keys <= ts.Keys
    requires forall id :: id in after ==> after[id].id == id && after[id].hash == ts[id].hash
    ensures Keyed(after)
  {
  }

  lemma {:induction false} KeyedIssue(db: Db, user: string, w: World)
    requires Keyed(db.tokens)
    ensures Keyed(Issue(db, user, w).0.tokens)
  {
  }

  lemma {:induction false} KeyedTrade(db: Db, id: string, user: string, w: World)
    requires Keyed(db.tokens)
    ensures var consumed := db.(tokens := Revoked(db.tokens, id, w.now));
            var issued := Issue(consumed, user, w).0;
            Keyed(consumed.tokens) && Keyed(issued.tokens) && Keyed(Chained(issued.tokens, id, w.newId))
  {
    var consumed := db.(tokens := Revoked(db.tokens, id, w.now));
    KeyedByColumns(db.tokens, consumed.tokens);
    KeyedIssue(consumed, user, w);
    var issued := Issue(consumed, user, w).0;
    KeyedByColumns(issued.tokens, Chained(issued.tokens, id, w.newId));
  }

  lemma {:induction false} KeyedRefresh(db: Db, hash: string, w: World)
    requires Keyed(db.tokens)
    ensures Keyed(Refresh(db, hash, w).0.tokens)
  {
    var existing := Active(db.tokens, hash, w.now);
    if existing.Some? {
      KeyedTrade(db, existing.value.id, existing.value.user, w);
    } else {
      KeyedInactive(db, hash, w);
    }
  }

  lemma {:induction false} KeyedInactive(db: Db, hash: string, w: World)
    requires Keyed(db.tokens)
    ensures Keyed(HandleInactive(db, hash, w).0.tokens)
  {
    KeyedByColumns(db.tokens, HandleInactive(db, hash, w).0.tokens);
  }

  lemma {:induction false} KeyedAfter(db: Db, op: Op)
    requires Keyed(db.tokens)
    ensures Keyed(After(db, op).tokens)
  {
    match op {
      case Login(user, w) => KeyedIssue(db, user, w);
      case RefreshCall(hash, w) => KeyedRefresh(db, hash, w);
      case LogoutCall(hash, w) => KeyedByColumns(db.tokens, After(db, op).tokens);
      case PurgeCall(now) => KeyedByColumns(db.tokens, After(db, op).tokens);
      case NewUser(user) =>
    }
  }

  function AfterAll(db: Db, ops: seq<Op>): (r: Db)
    requires Keyed(db.tokens)
    ensures Keyed(r.tokens)
    decreases |ops|
  {
    if ops == [] then db
    else
      KeyedAfter(db, ops[0]);
      AfterAll(After(db, ops[0]), ops[1..])
  }

  /** The hash of the session the call would issue. */
  predicate MayIssue(op: Op, hash: string) {
    (op.Login? || op.RefreshCall?) && op.w.newHash == hash
  }

  // ---------- what revokes a session ----------

  /** The call presents this very session while it is active. */
  predicate UsesUp(db: Db, op: Op, x: TokenRow)
    requires Keyed(db.tokens)
  {
    (op.RefreshCall? || op.LogoutCall?)
    && op.hash == x.hash && op.w.fault != AtRead && op.w.fault != AtConsume && IsActive(x, op.w.now)
  }

  /** The call is a stale replay of one of the user's tokens, and the session
      was already issued. */
  predicate CaughtByReplay(db: Db, op: Op, x: TokenRow)
    requires Keyed(db.tokens)
  {
    op.RefreshCall? && StaleReplay(db.tokens, op.hash, op.w.now)
    && op.w.fault != AtRead && op.w.fault != AtReplay && op.w.fault != AtFamily
    && ByHash(db.tokens, op.hash).value.user == x.user && x.createdAt <= op.w.now
  }

  /** A live session row stays as it is unless purged, used up, or caught by a
      stale replay; and those two do revoke it. */
  lemma {:induction false} RevokedIff(db: Db, op: Op, id: string)
    requires Keyed(db.tokens) && id in db.tokens && db.tokens[id].revokedAt.None?
    requires id in After(db, op).tokens
    ensures After(db, op).tokens[id].revokedAt.Some?
       <==> UsesUp(db, op, db.tokens[id]) || CaughtByReplay(db, op, db.tokens[id])
    ensures After(db, op).tokens[id].revokedAt.None? ==> After(db, op).tokens[id] == db.tokens[id]
  {
    var x := db.tokens[id];
    if op.RefreshCall? || op.LogoutCall? {
      var seen := ByHash(db.tokens, op.hash);
      assert HasHash(db.tokens, x.hash);
      assert op.hash == x.hash <==> seen == Some(x);
    }
  }

  /** Rows leave the table only by expiry. */
  lemma {:induction false} RemovedOnlyByExpiry(db: Db, op: Op, id: string)
    requires Keyed(db.tokens) && id in db.tokens
    ensures id !in After(db, op).tokens ==> op.PurgeCall? && db.tokens[id].expiresAt < op.now
  {
  }

  // ---------- the family response ----------

  /** The hashes of the user's tokens issued through `through`. */
  function Family(db: Db, user: string, through: int): set<string> {
    set id | id in db.tokens && db.tokens[id].user == user && db.tokens[id].createdAt <= through
      :: db.tokens[id].hash
  }

  /** Every token of `hashes` still stored is dead with no successor. */
  ghost predicate Settled(db: Db, hashes: set<string>) {
    forall id :: id in db.tokens && db.tokens[id].hash in hashes ==>
                   db.tokens[id].revokedAt.Some? && db.tokens[id].rotatedTo.None?
  }

  /** A stale replay revokes and settles the user's tokens issued by then, and
      touches no other row. */
  lemma {:induction false} StaleReplaySettles(db: Db, hash: string, w: World)
    requires Keyed(db.tokens) && StaleReplay(db.tokens, hash, w.now)
    requires w.fault != AtRead && w.fault != AtReplay && w.fault != AtFamily
    ensures var user := ByHash(db.tokens, hash).value.user;
            var after := Refresh(db, hash, w);
            && after.1 == BadRefresh
            && after.0.tokens.Keys == db.tokens.Keys
            && Settled(after.0, Family(db, user, w.now))
            && forall id :: id in db.tokens && (db.tokens[id].user != user || db.tokens[id].createdAt > w.now) ==>
                              after.0.tokens[id] == db.tokens[id]
  {
    var user := ByHash(db.tokens, hash).value.user;
    var after := Refresh(db, hash, w).0;
    forall id | id in after.tokens && after.tokens[id].hash in Family(db, user, w.now)
      ensures after.tokens[id].revokedAt.Some? && after.tokens[id].rotatedTo.None?
    {
      var other :| other in db.tokens && db.tokens[other].user == user && db.tokens[other].createdAt <= w.now
                   && db.tokens[other].hash == after.tokens[id].hash;
      assert other == id;
    }
  }

  /** A settled token is refused and changes nothing. */
  lemma {:induction false} SettledReplayInert(db: Db, hashes: set<string>, hash: string, w: World)
    requires Keyed(db.tokens) && Settled(db, hashes) && hash in hashes
    ensures Refresh(db, hash, w).0 == db && !Refresh(db, hash, w).1.Session?
    ensures Logout(db, hash, w).0 == db
    ensures !StaleReplay(db.tokens, hash, w.now)
  {
  }

  lemma {:induction false} SettledRevoked(db: Db, hashes: set<string>, id: string, now: int)
    requires Settled(db, hashes)
    ensures Settled(db.(tokens := Revoked(db.tokens, id, now)), hashes)
  {
  }

  lemma {:induction false} SettledIssue(db: Db, hashes: set<string>, user: string, w: World)
    requires Settled(db, hashes) && w.newHash !in hashes
    ensures Settled(Issue(db, user, w).0, hashes)
  {
  }

  lemma {:induction false} SettledChained(db: Db, hashes: set<string>, id: string, successor: string)
    requires Settled(db, hashes) && (id in db.tokens ==> db.tokens[id].hash !in hashes)
    ensures Settled(db.(tokens := Chained(db.tokens, id, successor)), hashes)
  {
  }

  lemma {:induction false} SettledInactive(db: Db, hashes: set<string>, hash: string, w: World)
    requires Keyed(db.tokens) && Settled(db, hashes)
    ensures Settled(HandleInactive(db, hash, w).0, hashes)
  {
  }

  /** A live session traded for its successor, to a hash that is not settled. */
  lemma {:induction false} SettledTrade(db: Db, hashes: set<string>, row: TokenRow, w: World)
    requires Settled(db, hashes) && w.newHash !in hashes
    requires Keyed(db.tokens) && row.id in db.tokens && db.tokens[row.id] == row && row.hash !in hashes
    ensures var consumed := db.(tokens := Revoked(db.tokens, row.id, w.now));
            var issued := Issue(consumed, row.user, w).0;
            && Settled(consumed, hashes) && Settled(issued, hashes)
            && Settled(issued.(tokens := Chained(issued.tokens, row.id, w.newId)), hashes)
  {
    var consumed := db.(tokens := Revoked(db.tokens, row.id, w.now));
    SettledRevoked(db, hashes, row.id, w.now);
    SettledIssue(consumed, hashes, row.user, w);
    SettledChained(Issue(consumed, row.user, w).0, hashes, row.id, w.newId);
  }

  lemma {:induction false} SettledRefresh(db: Db, hashes: set<string>, hash: string, w: World)
    requires Keyed(db.tokens) && Settled(db, hashes) && w.newHash !in hashes
    ensures Settled(Refresh(db, hash, w).0, hashes)
  {
    var existing := Active(db.tokens, hash, w.now);
    if existing.None? {
      SettledInactive(db, hashes, hash, w);
    } else if hash in hashes {
      SettledReplayInert(db, hashes, hash, w);
    } else {
      SettledTrade(db, hashes, existing.value, w);
    }
  }

  /** Settling is for good, as long as no new token collides with a dead one. */
  lemma {:induction false} SettledAfter(db: Db, hashes: set<string>, op: Op)
    requires Keyed(db.tokens) && Settled(db, hashes)
    requires forall hash :: hash in hashes ==> !MayIssue(op, hash)
    ensures Settled(After(db, op), hashes)
  {
    if op.RefreshCall? {
      SettledRefresh(db, hashes, op.hash, op.w);
    } else if op.Login? {
      SettledIssue(db, hashes, op.user, op.w);
    }
  }

  lemma {:induction false} SettledForever(db: Db, hashes: set<string>, ops: seq<Op>)
    requires Keyed(db.tokens) && Settled(db, hashes)
    requires forall i, hash :: 0 <= i < |ops| && hash in hashes ==> !MayIssue(ops[i], hash)
    ensures Settled(AfterAll(db, ops), hashes)
    decreases |ops|
  {
    if ops == [] {
    } else {
      SettledAfter(db, hashes, ops[0]);
      KeyedAfter(db, ops[0]);
      SettledForever(After(db, ops[0]), hashes, ops[1..]);
    }
  }

  /** After the family response, every later replay of a token issued by then is
      refused and leaves the store untouched, after any run whatever. */
  lemma {:induction false} ReplaysInertForever(db: Db, stale: string, w: World, ops: seq<Op>, hash: string,
                                               again: World)
    requires Keyed(db.tokens) && StaleReplay(db.tokens, stale, w.now)
    requires w.fault != AtRead && w.fault != AtReplay && w.fault != AtFamily
    requires hash in Family(db, ByHash(db.tokens, stale).value.user, w.now)
    requires forall i, dead :: 0 <= i < |ops| && dead in Family(db, ByHash(db.tokens, stale).value.user, w.now) ==>
                                 !MayIssue(ops[i], dead)
    ensures Keyed(Refresh(db, stale, w).0.tokens)
    ensures var s := AfterAll(Refresh(db, stale, w).0, ops);
            Refresh(s, hash, again).0 == s && !Refresh(s, hash, again).1.Session?
  {
    KeyedAfter(db, RefreshCall(stale, w));
    StaleReplaySettles(db, stale, w);
    var dead := Family(db, ByHash(db.tokens, stale).value.user, w.now);
    SettledForever(Refresh(db, stale, w).0, dead, ops);
    SettledReplayInert(AfterAll(Refresh(db, stale, w).0, ops), dead, hash, again);
  }

  /** However many replays of settled tokens follow, each refused, the store is
      as if none had been made: no session, old or new, is touched. */
  lemma {:induction false} AnyNumberOfReplays(db: Db, hashes: set<string>, replays: seq<Op>)
    requires Keyed(db.tokens) && Settled(db, hashes)
    requires forall i :: 0 <= i < |replays| ==> replays[i].RefreshCall? && replays[i].hash in hashes
    ensures AfterAll(db, replays) == db
    ensures forall i :: 0 <= i < |replays| ==> !Refresh(db, replays[i].hash, replays[i].w).1.Session?
    decreases |replays|
  {
    if replays == [] {
    } else {
      SettledReplayInert(db, hashes, replays[0].hash, replays[0].w);
      AnyNumberOfReplays(db, hashes, replays[1..]);
    }
  }

  // ---------- recovery ----------

  /** The call leaves the session alone: it presents another token, one that is
      dead, belongs to someone else, or is not a stale replay; and it does not
      purge the session. */
  ghost predicate Harmless(db: Db, hashes: set<string>, op: Op, x: TokenRow)
    requires Keyed(db.tokens)
  {
    match op
    case RefreshCall(hash, w) =>
      hash != x.hash
      && (hash in hashes || !StaleReplay(db.tokens, hash, w.now) || ByHash(db.tokens, hash).value.user != x.user)
    case LogoutCall(hash, _) => hash != x.hash
    case PurgeCall(now) => now <= x.expiresAt
    case _ => true
  }

  ghost predicate HarmlessRun(db: Db, hashes: set<string>, ops: seq<Op>, x: TokenRow)
    requires Keyed(db.tokens)
    decreases |ops|
  {
    ops == []
    || (Harmless(db, hashes, ops[0], x)
        && (forall hash :: hash in hashes ==> !MayIssue(ops[0], hash))
        && Keyed(After(db, ops[0]).tokens)
        && HarmlessRun(After(db, ops[0]), hashes, ops[1..], x))
  }

  /** A session created after the family response survives any number of
      replays of the dead tokens, mixed with everything else other sessions do,
      and can still be refreshed. */
  lemma {:induction false} RecoveredSessionSurvives(db: Db, hashes: set<string>, id: string, ops: seq<Op>)
    requires Keyed(db.tokens) && Settled(db, hashes)
    requires id in db.tokens && db.tokens[id].revokedAt.None?
    requires HarmlessRun(db, hashes, ops, db.tokens[id])
    ensures id in AfterAll(db, ops).tokens && AfterAll(db, ops).tokens[id] == db.tokens[id]
    decreases |ops|
  {
    if ops == [] {
    } else {
      var op, x := ops[0], db.tokens[id];
      RemovedOnlyByExpiry(db, op, id);
      RevokedIff(db, op, id);
      if op.RefreshCall? && op.hash in hashes {
        SettledReplayInert(db, hashes, op.hash, op.w);
      }
      SettledAfter(db, hashes, op);
      RecoveredSessionSurvives(After(db, op), hashes, id, ops[1..]);
    }
  }

  /** A live session of a known user refreshes into a new one, and its own
      token then reads as a lost-response retry within the grace period. */
  lemma {:induction false} RotationGrantsSuccessor(db: Db, id: string, w: World)
    requires Keyed(db.tokens) && id in db.tokens && IsActive(db.tokens[id], w.now)
    requires db.tokens[id].user in db.users && w.fault == NoFault
    requires w.newId !in db.tokens && !HasHash(db.tokens, w.newHash)
    ensures var hash := db.tokens[id].hash;
            var after := Refresh(db, hash, w);
            && after.1 == Session(w.newId)
            && w.newId in after.0.tokens && after.0.tokens[w.newId] == FreshRow(db.tokens[id].user, w)
            && id in after.0.tokens && after.0.tokens[id].revokedAt == Some(w.now)
            && after.0.tokens[id].rotatedTo == Some(w.newId)
            && Keyed(after.0.tokens)
            && forall again: World :: w.now <= again.now <= w.now + REUSE_GRACE_SECS ==>
                 Refresh(after.0, hash, again).0 == after.0 && !Refresh(after.0, hash, again).1.Session?
  {
    var hash := db.tokens[id].hash;
    KeyedAfter(db, RefreshCall(hash, w));
    assert ByHash(db.tokens, hash) == Some(db.tokens[id]);
    var after := Refresh(db, hash, w).0;
    assert after.tokens[id].hash == hash;
    assert ByHash(after.tokens, hash) == Some(after.tokens[id]);
  }

  /** Without the recorded chain a replay is read as settled: the successor
      lives on, which is what a failed `set_rotated_to` costs. */
  lemma {:induction false} UnchainedReplayIsSettled(db: Db, id: string, w: World, again: World)
    requires Keyed(db.tokens) && id in db.tokens && IsActive(db.tokens[id], w.now) && w.fault == AtChain
    requires db.tokens[id].user in db.users && w.newId !in db.tokens && !HasHash(db.tokens, w.newHash)
    ensures var hash := db.tokens[id].hash;
            var after := Refresh(db, hash, w);
            && after.1 == Session(w.newId) && Keyed(after.0.tokens)
            && Refresh(after.0, hash, again).0 == after.0
  {
    var hash := db.tokens[id].hash;
    KeyedAfter(db, RefreshCall(hash, w));
    assert ByHash(db.tokens, hash) == Some(db.tokens[id]);
    var after := Refresh(db, hash, w).0;
    assert ByHash(after.tokens, hash) == Some(after.tokens[id]);
  }
}
