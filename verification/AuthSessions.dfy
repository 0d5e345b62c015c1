/**
 Refresh-token sessions (crates/pocox-auth/src/lib.rs over
 crates/pocox-store/src/tokens.rs), one call at a time: rotation, replay
 handling, logout and the response to a stale replay. A token is known by its
 hash, the only form the store keeps.
 */
module AuthSessions {
  import opened Text

  /** How recent a rotation excuses a replay as a lost response, in seconds. */
  const REUSE_GRACE_SECS: int := 60

  datatype TokenRow = TokenRow(
    id: string,
    user: string,
    hash: string,
    createdAt: int,
    expiresAt: int,
    revokedAt: Option<int>,
    rotatedTo: Option<string>)

  type Tokens = map<string, TokenRow>

  /** The primary key and the unique hash column. */
  predicate Keyed(ts: Tokens) {
    (forall id :: id in ts ==> ts[id].id == id)
    && forall a, b :: a in ts && b in ts && ts[a].hash == ts[b].hash ==> a == b
  }

  // ---------- store statements ----------

  predicate HasHash(ts: Tokens, hash: string) {
    exists id :: id in ts && ts[id].hash == hash
  }

  /** `refresh_token_by_hash`. */
  function ByHash(ts: Tokens, hash: string): (row: Option<TokenRow>)
    requires Keyed(ts)
    ensures row.Some? ==> row.value.id in ts && ts[row.value.id] == row.value && row.value.hash == hash
    ensures row.None? <==> !HasHash(ts, hash)
  {
    if HasHash(ts, hash) then
      var id :| id in ts && ts[id].hash == hash;
      Some(ts[id])
    else None
  }

  predicate IsActive(row: TokenRow, now: int) { row.revokedAt.None? && row.expiresAt > now }

  /** `active_refresh_token`. */
  function Active(ts: Tokens, hash: string, now: int): Option<TokenRow>
    requires Keyed(ts)
  {
    var row := ByHash(ts, hash);
    if row.Some? && IsActive(row.value, now) then row else None
  }

  /** `revoke_refresh_token`: the conditional update flips at most one row. */
  function Revoked(ts: Tokens, id: string, now: int): Tokens {
    if id in ts && ts[id].revokedAt.None? then ts[id := ts[id].(revokedAt := Some(now), rotatedTo := None)] else ts
  }

  /** `set_rotated_to`. */
  function Chained(ts: Tokens, id: string, successor: string): Tokens {
    if id in ts then ts[id := ts[id].(rotatedTo := Some(successor))] else ts
  }

  function SettledRow(row: TokenRow, now: int): TokenRow {
    row.(revokedAt := if row.revokedAt.Some? then row.revokedAt else Some(now), rotatedTo := None)
  }

  /** `revoke_user_refresh_tokens_issued_through`. */
  function FamilyRevoked(ts: Tokens, user: string, through: int, now: int): Tokens {
    map id | id in ts ::
      if ts[id].user == user && ts[id].createdAt <= through then SettledRow(ts[id], now) else ts[id]
  }

  /** `insert_refresh_token`; `None` when a key constraint refuses it. */
  function Inserted(ts: Tokens, row: TokenRow): Option<Tokens> {
    if row.id in ts || HasHash(ts, row.hash) then None else Some(ts[row.id := row])
  }

  /** `purge_expired`. */
  function Purged(ts: Tokens, now: int): Tokens {
    map id | id in ts && ts[id].expiresAt >= now :: ts[id]
  }

  // ---------- the calls ----------

  /** `is_lost_response_retry`. */
  predicate LostResponseRetry(row: TokenRow, now: int) {
    row.rotatedTo.Some? && row.revokedAt.Some? && now - row.revokedAt.value <= REUSE_GRACE_SECS
  }

  /** A replay that carries new information: rotated, and not just now. */
  predicate StaleReplay(ts: Tokens, hash: string, now: int)
    requires Keyed(ts)
  {
    Active(ts, hash, now).None?
    && (match ByHash(ts, hash)
        case None => false
        case Some(row) => !LostResponseRetry(row, now) && row.rotatedTo.Some?)
  }

  /** The statement at which the store fails, if it does. */
  datatype Fault = NoFault | AtRead | AtReplay | AtFamily | AtConsume | AtUser | AtIssue | AtChain

  /** What a call draws from the world: time, fresh identifiers, store faults. */
  datatype World = World(now: int, ttl: int, newId: string, newHash: string, fault: Fault)

  datatype Reply = Session(id: string) | BadRefresh | StoreError | Done

  datatype Db = Db(tokens: Tokens, users: set<string>)

  function FreshRow(user: string, w: World): TokenRow {
    TokenRow(w.newId, user, w.newHash, w.now, w.now + w.ttl, None, None)
  }

  /** `issue_session`. */
  function Issue(db: Db, user: string, w: World): (Db, Reply) {
    match (if w.fault == AtIssue then None else Inserted(db.tokens, FreshRow(user, w)))
    case None => (db, StoreError)
    case Some(ts) => (db.(tokens := ts), Session(w.newId))
  }

  /** `handle_inactive_refresh`; the caller answers `BadRefresh` unless the
      store failed. */
  function HandleInactive(db: Db, hash: string, w: World): (Db, Reply)
    requires Keyed(db.tokens)
  {
    if w.fault == AtReplay then (db, StoreError)
    else match ByHash(db.tokens, hash)
         case None => (db, BadRefresh)
         case Some(seen) =>
           if LostResponseRetry(seen, w.now) then (db, BadRefresh)
           else if seen.rotatedTo.None? then (db, BadRefresh)
           else if w.fault == AtFamily then (db, StoreError)
           else (db.(tokens := FamilyRevoked(db.tokens, seen.user, w.now, w.now)), BadRefresh)
  }

  /** `refresh`. */
  function Refresh(db: Db, hash: string, w: World): (Db, Reply)
    requires Keyed(db.tokens)
  {
    if w.fault == AtRead then (db, StoreError)
    else match Active(db.tokens, hash, w.now)
         case None => HandleInactive(db, hash, w)
         case Some(existing) =>
           if w.fault == AtConsume then (db, StoreError)
           else
             var consumed := db.(tokens := Revoked(db.tokens, existing.id, w.now));
             if w.fault == AtUser then (consumed, StoreError)
             else if existing.user !in db.users then (consumed, BadRefresh)
             else
               var (issued, reply) := Issue(consumed, existing.user, w);
               if !reply.Session? || w.fault == AtChain then (issued, reply)
               else (issued.(tokens := Chained(issued.tokens, existing.id, w.newId)), reply)
  }

  /** `logout`. */
  function Logout(db: Db, hash: string, w: World): (Db, Reply)
    requires Keyed(db.tokens)
  {
    if w.fault == AtRead then (db, StoreError)
    else match Active(db.tokens, hash, w.now)
         case None => (db, Done)
         case Some(existing) =>
           if w.fault == AtConsume then (db, StoreError)
           else (db.(tokens := Revoked(db.tokens, existing.id, w.now)), Done)
  }

  // ---------- the service as an object ----------

  class Auth {
    var tokens: Tokens
    var users: set<string>

    function State(): Db
      reads this
    {
      Db(tokens, users)
    }

    constructor (users: set<string>)
      ensures State() == Db(map[], users)
    {
      tokens, this.users := map[], users;
    }

    /** The conditional update of the store, answering the rows it flipped. */
    method RevokeRefreshToken(id: string, now: int) returns (rows: nat)
      modifies `tokens
      ensures tokens == Revoked(old(tokens), id, now)
      ensures rows == (if id in old(tokens) && old(tokens)[id].revokedAt.None? then 1 else 0)
    {
      rows := 0;
      if id in tokens && tokens[id].revokedAt.None? {
        tokens := tokens[id := tokens[id].(revokedAt := Some(now), rotatedTo := None)];
        rows := 1;
      }
    }

    /** The family update, row by row. */
    method RevokeFamily(user: string, through: int, now: int)
      modifies `tokens
      ensures tokens == FamilyRevoked(old(tokens), user, through, now)
    {
      var remaining := tokens.Keys;
      while remaining != {}
        invariant remaining <= tokens.Keys == old(tokens).Keys
        invariant forall id :: id in remaining ==> tokens[id] == old(tokens)[id]
        invariant forall id :: id in tokens.Keys - remaining ==>
                                 tokens[id] == FamilyRevoked(old(tokens), user, through, now)[id]
      {
        var id :| id in remaining;
        remaining := remaining - {id};
        var row := tokens[id];
        if row.user == user && row.createdAt <= through {
          tokens := tokens[id := SettledRow(row, now)];
        }
      }
    }

    method IssueSession(user: string, w: World) returns (reply: Reply)
      modifies `tokens
      ensures State() == Issue(old(State()), user, w).0 && reply == Issue(old(State()), user, w).1
    {
      if w.fault == AtIssue || w.newId in tokens || HasHash(tokens, w.newHash) {
        return StoreError;
      }
      tokens := tokens[w.newId := FreshRow(user, w)];
      reply := Session(w.newId);
    }

    method HandleInactiveRefresh(hash: string, w: World) returns (reply: Reply)
      requires Keyed(tokens)
      modifies `tokens
      ensures State() == HandleInactive(old(State()), hash, w).0
      ensures reply == HandleInactive(old(State()), hash, w).1
    {
      if w.fault == AtReplay {
        return StoreError;
      }
      var seen := ByHash(tokens, hash);
      if seen.None? {
        return BadRefresh;
      }
      if !LostResponseRetry(seen.value, w.now) && seen.value.rotatedTo.Some? {
        if w.fault == AtFamily {
          return StoreError;
        }
        RevokeFamily(seen.value.user, w.now, w.now);
      }
      reply := BadRefresh;
    }

    method RefreshSession(hash: string, w: World) returns (reply: Reply)
      requires Keyed(tokens)
      modifies `tokens
      ensures State() == Refresh(old(State()), hash, w).0 && reply == Refresh(old(State()), hash, w).1
    {
      if w.fault == AtRead {
        return StoreError;
      }
      var existing := Active(tokens, hash, w.now);
      if existing.None? {
        reply := HandleInactiveRefresh(hash, w);
        return;
      }
      if w.fault == AtConsume {
        return StoreError;
      }
      var rows := RevokeRefreshToken(existing.value.id, w.now);
      if rows != 1 {
        return BadRefresh;
      }
      if w.fault == AtUser {
        return StoreError;
      }
      if existing.value.user !in users {
        return BadRefresh;
      }
      reply := IssueSession(existing.value.user, w);
      if reply.Session? && w.fault != AtChain {
        tokens := Chained(tokens, existing.value.id, w.newId);
      }
    }

    method LogoutSession(hash: string, w: World) returns (reply: Reply)
      requires Keyed(tokens)
      modifies `tokens
      ensures State() == Logout(old(State()), hash, w).0 && reply == Logout(old(State()), hash, w).1
    {
      if w.fault == AtRead {
        return StoreError;
      }
      var existing := Active(tokens, hash, w.now);
      if existing.Some? {
        if w.fault == AtConsume {
          return StoreError;
        }
        var _ := RevokeRefreshToken(existing.value.id, w.now);
      }
      reply := Done;
    }
  }
}
