/**
 The relay's key table as state: requests are carried out when they are asked,
 whether or not their replies arrive, and the account's namespace follows
 without an assumption on what the listings show.
 */
module RelayKeys {
  import opened Text
  import opened RelayCredentials

  /** `CREDENTIAL_TTL`, in seconds. */
  const CREDENTIAL_TTL: nat := 86400

  /** A key of the relay's table; one that is withdrawn expires at once. */
  datatype Key = Key(tag: Option<string>, expiresAt: nat)

  type Relay = map<nat, Key>

  predicate Alive(relay: Relay, keyId: nat, at: nat) { keyId in relay && relay[keyId].expiresAt > at }

  predicate Mine(relay: Relay, user: string, keyId: nat) {
    keyId in relay && relay[keyId].tag == Some(AccountLabel(user))
  }

  /** What else happens at the relay: other accounts' keys come and change, and
      a key of this account may be withdrawn. */
  ghost predicate Elsewhere(user: string, before: Relay, after: Relay) {
    && (forall k :: k in before ==>
                      k in after && after[k].tag == before[k].tag
                      && (Mine(before, user, k) ==> after[k] == before[k] || after[k].expiresAt == 0))
    && (forall k :: Mine(after, user, k) ==> k in before)
  }

  /** The listing names exactly the live keys, each once. */
  ghost predicate ListsLive(relay: Relay, at: nat, keys: seq<KeyRecord>) {
    && (forall i :: 0 <= i < |keys| ==>
                      Alive(relay, keys[i].keyId, at)
                      && relay[keys[i].keyId] == Key(keys[i].tag, keys[i].expiresAt))
    && (forall k :: Alive(relay, k, at) ==> Lists(keys, k))
    && DistinctKeys(keys)
  }

  /** No other key of the account expires in that second. */
  ghost predicate ExpiresAlone(relay: Relay, user: string, keyId: nat, expiresAt: nat) {
    forall k :: Mine(relay, user, k) && k != keyId ==> relay[k].expiresAt != expiresAt
  }

  // ---------- what a call is doing ----------

  datatype Phase = Starting | Holding | Renewing | Clear | Issuing | Over

  datatype Stage = Stage(held: Option<Cached>, phase: Phase)

  function StageOf(entry: Option<Cached>): Stage { Stage(entry, if entry.Some? then Holding else Starting) }

  predicate Fits(s: Stage, e: Event) {
    match s.phase
    case Starting => s.held.None? && e.Listed?
    case Holding =>
      s.held.Some?
      && (e == RenewAsked(s.held.value.keyId) || (e == Vended(s.held.value) && s.held.value.credential != ""))
    case Renewing => s.held.Some? && (e.Vended? || e.Listed?)
    case Clear => e.IssueAsked?
    case Issuing => e.Vended?
    case Over => false
  }

  function Staged(user: string, s: Stage, e: Event): Stage {
    match e
    case Vended(key) => Stage(Some(key), Over)
    case RenewAsked(_) => Stage(s.held, Renewing)
    case IssueAsked => Stage(s.held, Issuing)
    case Listed(keys) =>
      match s.held
      case None => Stage(Adopt(keys, user), if Adopt(keys, user).Some? then Holding else Clear)
      case Some(key) => Stage(s.held, if Lists(keys, key.keyId) then Over else Clear)
  }

  predicate FitsAll(user: string, s: Stage, trace: seq<Event>)
    decreases |trace|
  {
    trace == [] || (Fits(s, trace[0]) && FitsAll(user, Staged(user, s, trace[0]), trace[1..]))
  }

  function StagedAll(user: string, s: Stage, trace: seq<Event>): Stage
    decreases |trace|
  {
    if trace == [] then s else StagedAll(user, Staged(user, s, trace[0]), trace[1..])
  }

  /** Every call runs through the stages and ends with what it caches. */
  lemma {:induction false} ServeFits(entry: Option<Cached>, user: string, now: nat, r: Replies)
    ensures var served := ForAccount(entry, user, now, r);
            && FitsAll(user, StageOf(entry), served.trace)
            && StagedAll(user, StageOf(entry), served.trace).held == served.entry
  {
    var trace := ForAccount(entry, user, now, r).trace;
    match entry {
      case Some(key) => KnownFits(key, user, now, r);
      case None =>
        if r.adoption.Some? {
          var keys := r.adoption.value;
          var s := Staged(user, StageOf(None), Listed(keys));
          match Adopt(keys, user) {
            case Some(adopted) =>
              KnownFits(adopted, user, now, r);
              assert trace[1..] == ServeKnown(adopted, now, r).trace;
            case None =>
              MintFits(s, user, r);
              assert trace[1..] == Mint(None, r).trace;
          }
        }
    }
  }

  lemma {:induction false} PairFits(user: string, s: Stage, e: Event, f: Event)
    ensures FitsAll(user, s, [e, f]) <==> Fits(s, e) && Fits(Staged(user, s, e), f)
    ensures StagedAll(user, s, [e, f]) == Staged(user, Staged(user, s, e), f)
  {
    var t := Staged(user, s, e);
    assert [e, f][1..] == [f] && [f][1..] == [];
    assert FitsAll(user, t, [f]) <==> Fits(t, f);
    assert StagedAll(user, t, [f]) == Staged(user, t, f);
  }

  lemma {:induction false} KnownFits(key: Cached, user: string, now: nat, r: Replies)
    ensures var served := ServeKnown(key, now, r);
            && FitsAll(user, Stage(Some(key), Holding), served.trace)
            && StagedAll(user, Stage(Some(key), Holding), served.trace).held == served.entry
  {
    var trace := ServeKnown(key, now, r).trace;
    if !Servable(key, now) {
      assert trace[0] == RenewAsked(key.keyId);
      if r.renewal.Some? {
        PairFits(user, Stage(Some(key), Holding), trace[0], Vended(r.renewal.value));
      } else if r.recheck.None? {
        assert trace[1..] == [];
      } else if Lists(r.recheck.value, key.keyId) {
        PairFits(user, Stage(Some(key), Holding), trace[0], Listed(r.recheck.value));
      } else {
        assert trace[1..][1..] == Mint(Some(key), r).trace && trace[1..][0] == Listed(r.recheck.value);
        MintFits(Stage(Some(key), Clear), user, r);
      }
    }
  }

  lemma {:induction false} MintFits(s: Stage, user: string, r: Replies)
    requires s.phase == Clear
    ensures var served := Mint(s.held, r);
            FitsAll(user, s, served.trace) && StagedAll(user, s, served.trace).held == served.entry
  {
    var trace := Mint(s.held, r).trace;
    if r.issue.Some? {
      PairFits(user, s, IssueAsked, Vended(r.issue.value));
    } else {
      assert trace[1..] == [];
    }
  }

  lemma {:induction false} PrefixFits(user: string, s: Stage, trace: seq<Event>, part: seq<Event>)
    requires FitsAll(user, s, trace) && part <= trace
    ensures FitsAll(user, s, part)
    decreases |part|
  {
    if part == [] {
    } else {
      PrefixFits(user, Staged(user, s, trace[0]), trace[1..], part[1..]);
    }
  }

  /** So does every operation's part of the log, crashes included. */
  lemma {:induction false} OpFits(user: string, a: Account, op: Op)
    ensures FitsAll(user, StageOf(a.entry), Added(user, a, op))
    ensures Kept(user, a, op).Some? ==>
              StagedAll(user, StageOf(a.entry), Added(user, a, op)).held == Kept(user, a, op)
  {
    if op.ServeCall? || op.Crash? {
      ServeFits(a.entry, user, op.now, op.r);
      PrefixFits(user, StageOf(a.entry), ForAccount(a.entry, user, op.now, op.r).trace, Added(user, a, op));
    } else if Added(user, a, op) != [] {
      assert Added(user, a, op)[1..] == [];
    }
  }

  // ---------- a call played against the relay ----------

  /** One event at the relay: its clock, its table before and after, and the key
      a request was carried out on, if it was. */
  datatype Moment = Moment(at: nat, before: Relay, done: Option<nat>, after: Relay)

  /** A request is carried out at once or never, its reply arriving or not. The
      relay may renew a key it no longer lists; an issued id is a new one. */
  ghost predicate Carried(user: string, e: Event, m: Moment) {
    match e
    case Listed(keys) => m.after == m.before && m.done.None? && ListsLive(m.before, m.at, keys)
    case Vended(key) => m.after == m.before && m.done.None?
    case RenewAsked(k) =>
      if m.done.None? then m.after == m.before
      else
        && m.done == Some(k) && k in m.before
        && m.after == m.before[k := Key(m.before[k].tag, m.at + CREDENTIAL_TTL)]
        && ExpiresAlone(m.before, user, k, m.at + CREDENTIAL_TTL)
    case IssueAsked =>
      if m.done.None? then m.after == m.before
      else
        && m.done.value !in m.before
        && m.after == m.before[m.done.value := Key(Some(AccountLabel(user)), m.at + CREDENTIAL_TTL)]
        && ExpiresAlone(m.before, user, m.done.value, m.at + CREDENTIAL_TTL)
  }

  /** An answer of the relay names the key the request was carried out on. */
  predicate Answers(s: Stage, e: Event, done: Option<nat>) {
    e.Vended? && (s.phase.Renewing? || s.phase.Issuing?) ==> done == Some(e.key.keyId)
  }

  ghost predicate Known(reg: Registry, relay: Relay) {
    forall k :: k in relay ==> k in reg && reg[k] == relay[k].tag
  }

  /** The events of one call, at relay moments from `relay` and `clock` on. */
  ghost predicate Plays(reg: Registry, user: string, s: Stage, done: Option<nat>, trace: seq<Event>,
                        ms: seq<Moment>, relay: Relay, clock: nat)
    decreases |trace|
  {
    |ms| == |trace|
    && (trace == [] || (
          var m := ms[0];
          && clock <= m.at && Elsewhere(user, relay, m.before) && Known(reg, m.before) && Known(reg, m.after)
          && Carried(user, trace[0], m) && Answers(s, trace[0], done)
          && Plays(reg, user, Staged(user, s, trace[0]), m.done, trace[1..], ms[1..], m.after, m.at)))
  }

  function EndRelay(relay: Relay, ms: seq<Moment>): Relay { if ms == [] then relay else ms[|ms| - 1].after }

  function EndClock(clock: nat, ms: seq<Moment>): nat { if ms == [] then clock else ms[|ms| - 1].at }

  function EndDone(done: Option<nat>, ms: seq<Moment>): Option<nat> {
    if ms == [] then done else ms[|ms| - 1].done
  }

  // ---------- what every event keeps ----------

  /** The key outlives every other key of the account, or is dead. */
  ghost predicate Longest(relay: Relay, user: string, keyId: nat, at: nat) {
    Alive(relay, keyId, at) ==>
      forall k :: Mine(relay, user, k) && k != keyId ==> relay[k].expiresAt < relay[keyId].expiresAt
  }

  predicate Dead(relay: Relay, last: Option<nat>, at: nat) { last.Some? ==> !Alive(relay, last.value, at) }

  /** The last vended key lives longest; what is held is that key, or it is dead. */
  ghost predicate KeyInv(user: string, held: Option<Cached>, relay: Relay, clock: nat, last: Option<nat>) {
    && (forall k :: Mine(relay, user, k) ==> relay[k].expiresAt <= clock + CREDENTIAL_TTL)
    && (last.Some? ==> Mine(relay, user, last.value) && Longest(relay, user, last.value, clock))
    && (held.Some? ==>
          && Mine(relay, user, held.value.keyId)
          && (last == Some(held.value.keyId) || (Dead(relay, last, clock) && held.value.credential == "")))
  }

  ghost predicate PhaseInv(user: string, s: Stage, done: Option<nat>, relay: Relay, clock: nat, last: Option<nat>) {
    match s.phase
    case Renewing =>
      s.held.Some? && (done.Some? ==> done.value == s.held.value.keyId && Longest(relay, user, done.value, clock))
    case Clear => Dead(relay, last, clock)
    case Issuing =>
      Dead(relay, last, clock)
      && (done.Some? ==> Mine(relay, user, done.value) && Longest(relay, user, done.value, clock))
    case _ => true
  }

  ghost predicate StageInv(user: string, s: Stage, done: Option<nat>, relay: Relay, clock: nat, last: Option<nat>) {
    KeyInv(user, s.held, relay, clock, last) && PhaseInv(user, s, done, relay, clock, last)
  }

  lemma {:induction false} ElsewhereKeeps(user: string, s: Stage, done: Option<nat>, relay: Relay, clock: nat,
                                          last: Option<nat>, before: Relay, at: nat)
    requires StageInv(user, s, done, relay, clock, last) && Elsewhere(user, relay, before) && clock <= at
    ensures StageInv(user, s, done, before, at, last)
  {
  }

  lemma {:induction false} ListingKeeps(user: string, s: Stage, done: Option<nat>, relay: Relay, at: nat,
                                        last: Option<nat>, keys: seq<KeyRecord>)
    requires StageInv(user, s, done, relay, at, last) && ListsLive(relay, at, keys) && Fits(s, Listed(keys))
    ensures StageInv(user, Staged(user, s, Listed(keys)), None, relay, at, last)
    ensures s.held.None? && last.Some? ==> LatestIfListed(keys, user, last.value)
  {
    if s.held.None? {
      var i := LatestFound(keys, user);
      if last.Some? && Lists(keys, last.value) {
        LastIsLatest(user, relay, at, last.value, keys);
      }
    }
  }

  lemma {:induction false} LastIsLatest(user: string, relay: Relay, at: nat, last: nat, keys: seq<KeyRecord>)
    requires ListsLive(relay, at, keys) && Lists(keys, last)
    requires Mine(relay, user, last) && Longest(relay, user, last, at)
    ensures LatestIfListed(keys, user, last)
    ensures Latest(keys, user).Some? && Latest(keys, user).value.keyId == last
  {
    var i :| 0 <= i < |keys| && keys[i].keyId == last;
    forall j | 0 <= j < |keys| && j != i && LabelledFor(keys[j], user) ensures keys[j].expiresAt < keys[i].expiresAt {
      assert Mine(relay, user, keys[j].keyId);
    }
    assert IsLatestAt(keys, user, i);
    LatestIff(keys, user, i);
  }

  lemma {:induction false} RenewalKeeps(user: string, s: Stage, last: Option<nat>, m: Moment)
    requires StageInv(user, s, None, m.before, m.at, last) && s.phase == Holding && s.held.Some?
    requires Carried(user, RenewAsked(s.held.value.keyId), m)
    ensures StageInv(user, Stage(s.held, Renewing), m.done, m.after, m.at, last)
  {
  }

  lemma {:induction false} IssueKeeps(user: string, s: Stage, last: Option<nat>, m: Moment)
    requires StageInv(user, s, None, m.before, m.at, last) && s.phase == Clear
    requires Carried(user, IssueAsked, m)
    ensures StageInv(user, Stage(s.held, Issuing), m.done, m.after, m.at, last)
  {
  }

  lemma {:induction false} VendingKeeps(user: string, s: Stage, done: Option<nat>, relay: Relay, at: nat,
                                        last: Option<nat>, key: Cached)
    requires StageInv(user, s, done, relay, at, last) && Fits(s, Vended(key)) && Answers(s, Vended(key), done)
    ensures StageInv(user, Stage(Some(key), Over), None, relay, at, Some(key.keyId))
  {
  }

  lemma {:induction false} EventKeeps(user: string, s: Stage, done: Option<nat>, relay: Relay, clock: nat, w: Watch,
                                      e: Event, m: Moment)
    requires StageInv(user, s, done, relay, clock, w.last) && Fits(s, e)
    requires clock <= m.at && Elsewhere(user, relay, m.before) && Carried(user, e, m) && Answers(s, e, done)
    requires e.RenewAsked? || e.IssueAsked? ==> done.None?
    ensures StageInv(user, Staged(user, s, e), m.done, m.after, m.at, See(w, e).last)
  {
    ElsewhereKeeps(user, s, done, relay, clock, w.last, m.before, m.at);
    match e {
      case Listed(keys) => ListingKeeps(user, s, done, m.before, m.at, w.last, keys);
      case Vended(key) => VendingKeeps(user, s, done, m.before, m.at, w.last, key);
      case RenewAsked(k) => RenewalKeeps(user, s, w.last, m);
      case IssueAsked => IssueKeeps(user, s, w.last, m);
    }
  }

  /** Only the answer to a request follows it with something done. */
  predicate Settled(s: Stage, done: Option<nat>) { s.phase.Renewing? || s.phase.Issuing? || done.None? }

  lemma {:induction false} CallKeeps(reg: Registry, user: string, s: Stage, done: Option<nat>, trace: seq<Event>,
                                     ms: seq<Moment>, relay: Relay, clock: nat, w: Watch)
    requires StageInv(user, s, done, relay, clock, w.last) && Settled(s, done)
    requires FitsAll(user, s, trace) && Plays(reg, user, s, done, trace, ms, relay, clock)
    ensures StageInv(user, StagedAll(user, s, trace), EndDone(done, ms), EndRelay(relay, ms), EndClock(clock, ms),
                     SeeAll(w, trace).last)
    decreases |trace|
  {
    if trace == [] {
    } else {
      var m := ms[0];
      EventKeeps(user, s, done, relay, clock, w, trace[0], m);
      CallKeeps(reg, user, Staged(user, s, trace[0]), m.done, trace[1..], ms[1..], m.after, m.at, See(w, trace[0]));
    }
  }

  // ---------- a run played against the relay ----------

  /** A reply the call did not receive is absent. */
  ghost predicate Received(trace: seq<Event>, r: Replies) {
    && (r.adoption.Some? ==> Listed(r.adoption.value) in trace)
    && (r.recheck.Some? ==> Listed(r.recheck.value) in trace)
    && (r.renewal.Some? ==>
          exists i :: 0 < i < |trace| && trace[i - 1].RenewAsked? && trace[i] == Vended(r.renewal.value))
    && (r.issue.Some? ==>
          exists i :: 0 < i < |trace| && trace[i - 1].IssueAsked? && trace[i] == Vended(r.issue.value))
  }

  /** An operation with its moments at the relay. */
  datatype Turn = Turn(op: Op, moments: seq<Moment>)

  function Ops(turns: seq<Turn>): seq<Op> { if turns == [] then [] else [turns[0].op] + Ops(turns[1..]) }

  ghost predicate Played(reg: Registry, user: string, a: Account, t: Turn, relay: Relay, clock: nat) {
    && Plays(reg, user, StageOf(a.entry), None, Added(user, a, t.op), t.moments, relay, clock)
    && (!t.op.Restart? ==> Received(Added(user, a, t.op), t.op.r))
  }

  ghost predicate PlayedAll(reg: Registry, user: string, a: Account, turns: seq<Turn>, relay: Relay, clock: nat)
    decreases |turns|
  {
    turns == []
    || (Played(reg, user, a, turns[0], relay, clock)
        && PlayedAll(reg, user, After(user, a, turns[0].op), turns[1..],
                     EndRelay(relay, turns[0].moments), EndClock(clock, turns[0].moments)))
  }

  ghost predicate AccountInv(user: string, a: Account, relay: Relay, clock: nat) {
    KeyInv(user, a.entry, relay, clock, SeeAll(UNWATCHED, a.log).last)
  }

  lemma {:induction false} TurnKeeps(reg: Registry, user: string, a: Account, t: Turn, relay: Relay, clock: nat)
    requires AccountInv(user, a, relay, clock) && Played(reg, user, a, t, relay, clock)
    ensures AccountInv(user, After(user, a, t.op), EndRelay(relay, t.moments), EndClock(clock, t.moments))
  {
    var trace := Added(user, a, t.op);
    OpFits(user, a, t.op);
    CallKeeps(reg, user, StageOf(a.entry), None, trace, t.moments, relay, clock, SeeAll(UNWATCHED, a.log));
    StableAppend(UNWATCHED, a.log, trace);
  }

  // ---------- so the replies are those of a good run ----------

  lemma {:induction false} ListingsTrue(reg: Registry, user: string, s: Stage, done: Option<nat>, trace: seq<Event>,
                                        ms: seq<Moment>, relay: Relay, clock: nat, i: nat)
    requires Plays(reg, user, s, done, trace, ms, relay, clock) && i < |trace| && trace[i].Listed?
    ensures ListingTrue(reg, trace[i].keys)
    decreases |trace|
  {
    if i == 0 {
    } else {
      ListingsTrue(reg, user, Staged(user, s, trace[0]), ms[0].done, trace[1..], ms[1..], ms[0].after, ms[0].at,
                   i - 1);
    }
  }

  lemma {:induction false} AnswersTrue(reg: Registry, user: string, s: Stage, done: Option<nat>, trace: seq<Event>,
                                       ms: seq<Moment>, relay: Relay, clock: nat, i: nat)
    requires Plays(reg, user, s, done, trace, ms, relay, clock) && 0 < i < |trace| && trace[i].Vended?
    ensures trace[i - 1].IssueAsked? ==> OwnKey(reg, user, trace[i].key.keyId)
    ensures trace[i - 1].RenewAsked? ==> trace[i].key.keyId == trace[i - 1].keyId
    decreases |trace|
  {
    var t := Staged(user, s, trace[0]);
    assert Plays(reg, user, t, ms[0].done, trace[1..], ms[1..], ms[0].after, ms[0].at);
    if i == 1 {
      assert trace[1..][0] == trace[1];
    } else {
      AnswersTrue(reg, user, t, ms[0].done, trace[1..], ms[1..], ms[0].after, ms[0].at, i - 1);
    }
  }

  /** A call asks for at most one renewal. */
  lemma {:induction false} OneRenewal(entry: Option<Cached>, user: string, now: nat, r: Replies, e: Event, f: Event)
    requires e in ForAccount(entry, user, now, r).trace && f in ForAccount(entry, user, now, r).trace
    requires e.RenewAsked? && f.RenewAsked?
    ensures e == f
  {
  }

  lemma {:induction false} TurnTruthful(reg: Registry, user: string, a: Account, t: Turn, relay: Relay, clock: nat)
    requires Played(reg, user, a, t, relay, clock)
    ensures Truthful(reg, user, a, t.op)
  {
    var trace, op := Added(user, a, t.op), t.op;
    if !op.Restart? {
      var s := StageOf(a.entry);
      forall i | 0 <= i < |trace| && trace[i].Listed? ensures ListingTrue(reg, trace[i].keys) {
        ListingsTrue(reg, user, s, None, trace, t.moments, relay, clock, i);
      }
      forall i | 0 < i < |trace| && trace[i].Vended?
        ensures trace[i - 1].IssueAsked? ==> OwnKey(reg, user, trace[i].key.keyId)
        ensures trace[i - 1].RenewAsked? ==> trace[i].key.keyId == trace[i - 1].keyId
      {
        AnswersTrue(reg, user, s, None, trace, t.moments, relay, clock, i);
      }
      if (op.ServeCall? || op.Crash?) && op.r.renewal.Some? {
        RenewalKept(user, a, op);
      }
    }
  }

  lemma {:induction false} RenewalKept(user: string, a: Account, op: Op)
    requires (op.ServeCall? || op.Crash?) && op.r.renewal.Some? && Received(Added(user, a, op), op.r)
    requires forall i :: 0 < i < |Added(user, a, op)| && Added(user, a, op)[i].Vended?
                         && Added(user, a, op)[i - 1].RenewAsked? ==>
                           Added(user, a, op)[i].key.keyId == Added(user, a, op)[i - 1].keyId
    ensures forall e :: e in ForAccount(a.entry, user, op.now, op.r).trace && e.RenewAsked? ==>
                          op.r.renewal.value.keyId == e.keyId
  {
    var trace := Added(user, a, op);
    var i :| 0 < i < |trace| && trace[i - 1].RenewAsked? && trace[i] == Vended(op.r.renewal.value);
    var whole := ForAccount(a.entry, user, op.now, op.r).trace;
    assert trace[i - 1] in whole;
    forall e | e in whole && e.RenewAsked? ensures op.r.renewal.value.keyId == e.keyId {
      OneRenewal(a.entry, user, op.now, op.r, e, trace[i - 1]);
    }
  }

  lemma {:induction false} TurnShowsNoLaterSibling(reg: Registry, user: string, a: Account, t: Turn, relay: Relay,
                                                   clock: nat)
    requires AccountInv(user, a, relay, clock) && Played(reg, user, a, t, relay, clock)
    ensures NoLaterSibling(user, a, t.op)
  {
    var last := SeeAll(UNWATCHED, a.log).last;
    if a.entry.None? && Looks(t.op) && t.op.r.adoption.Some? && last.Some? {
      var m := t.moments[0];
      assert Added(user, a, t.op)[0] == Listed(t.op.r.adoption.value);
      ElsewhereKeeps(user, StageOf(None), None, relay, clock, last, m.before, m.at);
      ListingKeeps(user, StageOf(None), None, m.before, m.at, last, t.op.r.adoption.value);
    }
  }

  /** Played against the relay's table, every run is a good one: the restarted
      process never sees a sibling it would adopt before the last vended key. */
  lemma {:induction false} PlayedIsGood(reg: Registry, user: string, a: Account, turns: seq<Turn>, relay: Relay,
                                        clock: nat)
    requires AccountInv(user, a, relay, clock) && PlayedAll(reg, user, a, turns, relay, clock)
    ensures GoodRun(reg, user, a, Ops(turns), false)
    decreases |turns|
  {
    if turns == [] {
    } else {
      TurnTruthful(reg, user, a, turns[0], relay, clock);
      TurnShowsNoLaterSibling(reg, user, a, turns[0], relay, clock);
      TurnKeeps(reg, user, a, turns[0], relay, clock);
      PlayedIsGood(reg, user, After(user, a, turns[0].op), turns[1..], EndRelay(relay, turns[0].moments),
                   EndClock(clock, turns[0].moments));
      assert Ops(turns)[0] == turns[0].op && Ops(turns)[1..] == Ops(turns[1..]);
    }
  }

  /** The namespace is stable against a relay that carries out what it is asked
      at once or never: from any table whose keys of the account were issued for
      at most a full term, over every run, lost replies, failures, expiry,
      revocation, crashes and restarts included, the vended key id changes only
      after a successful listing without the old one. */
  lemma {:induction false} NamespaceStableAtRelay(reg: Registry, user: string, turns: seq<Turn>, relay: Relay,
                                                  clock: nat, i: nat, j: nat)
    requires forall k :: Mine(relay, user, k) ==> relay[k].expiresAt <= clock + CREDENTIAL_TTL
    requires PlayedAll(reg, user, Account(None, []), turns, relay, clock)
    requires var log := AfterAll(user, Account(None, []), Ops(turns)).log;
             && i < j < |log| && log[i].Vended? && log[j].Vended? && log[i].key.keyId != log[j].key.keyId
             && forall m :: i < m < j ==> !log[m].Vended?
    ensures var log := AfterAll(user, Account(None, []), Ops(turns)).log;
            exists m :: i < m < j && log[m].Listed? && !Lists(log[m].keys, log[i].key.keyId)
  {
    PlayedIsGood(reg, user, Account(None, []), turns, relay, clock);
    NamespaceStable(reg, user, Ops(turns), i, j);
  }

  lemma {:induction false} PlayedCons(reg: Registry, user: string, a: Account, t: Turn, rest: seq<Turn>, relay: Relay,
                                      clock: nat)
    requires Played(reg, user, a, t, relay, clock)
    requires PlayedAll(reg, user, After(user, a, t.op), rest, EndRelay(relay, t.moments), EndClock(clock, t.moments))
    ensures PlayedAll(reg, user, a, [t] + rest, relay, clock)
    ensures AfterAll(user, a, Ops([t] + rest)) == AfterAll(user, After(user, a, t.op), Ops(rest))
  {
    assert ([t] + rest)[1..] == rest && Ops([t] + rest)[1..] == Ops(rest);
  }

  /** Such runs exist: an issue carried out at once, its reply lost, leaves a key
      that the next call finds and renews. */
  lemma {:induction false} LostIssueAdopted(user: string) returns (reg: Registry, turns: seq<Turn>, key: Cached)
    ensures PlayedAll(reg, user, Account(None, []), turns, map[], 0)
    ensures AfterAll(user, Account(None, []), Ops(turns)).log
         == [Listed([]), IssueAsked] + [Listed([KeyRecord(1, Some(AccountLabel(user)), 86400)]), RenewAsked(1),
                                        Vended(key)]
  {
    var start, asked, tag := Account(None, []), Account(None, [Listed([]), IssueAsked]), Some(AccountLabel(user));
    reg := map[1 := tag];
    var issued := map[1 := Key(tag, 86400)];
    var lost := LostTurn(reg, user, issued);
    assert After(user, start, lost.op) == asked by {
      assert [] + [Listed([]), IssueAsked] == [Listed([]), IssueAsked];
    }
    var next;
    next, key := NextTurn(reg, user, asked, issued);
    turns := [lost] + ([next] + []);
    PlayedCons(reg, user, asked, next, [], issued, 0);
    PlayedCons(reg, user, start, lost, [next] + [], map[], 0);
  }

  lemma {:induction false} PlaysCons(reg: Registry, user: string, s: Stage, done: Option<nat>, e: Event, m: Moment,
                                     trace: seq<Event>, ms: seq<Moment>, clock: nat)
    requires clock <= m.at && Known(reg, m.before) && Known(reg, m.after) && Carried(user, e, m) && Answers(s, e, done)
    requires Plays(reg, user, Staged(user, s, e), m.done, trace, ms, m.after, m.at)
    ensures Plays(reg, user, s, done, [e] + trace, [m] + ms, m.before, clock)
  {
    assert ([e] + trace)[1..] == trace && ([m] + ms)[1..] == ms;
  }

  lemma {:induction false} LostTurn(reg: Registry, user: string, issued: Relay) returns (t: Turn)
    requires reg == map[1 := Some(AccountLabel(user))] && issued == map[1 := Key(Some(AccountLabel(user)), 86400)]
    ensures Played(reg, user, Account(None, []), t, map[], 0)
    ensures Added(user, Account(None, []), t.op) == [Listed([]), IssueAsked]
    ensures After(user, Account(None, []), t.op).entry.None?
    ensures EndRelay(map[], t.moments) == issued && EndClock(0, t.moments) == 0
  {
    var listing, issue := Moment(0, map[], None, map[]), Moment(0, map[], Some(1), issued);
    t := Turn(ServeCall(0, Replies(Some([]), None, None, None)), [listing] + [issue]);
    PlaysCons(reg, user, Stage(None, Clear), None, IssueAsked, issue, [], [], 0);
    PlaysCons(reg, user, StageOf(None), None, Listed([]), listing, [IssueAsked], [issue], 0);
    assert [Listed([])] + [IssueAsked] == [Listed([]), IssueAsked];
  }

  lemma {:induction false} NextTurn(reg: Registry, user: string, a: Account, issued: Relay)
    returns (t: Turn, key: Cached)
    requires reg == map[1 := Some(AccountLabel(user))] && issued == map[1 := Key(Some(AccountLabel(user)), 86400)]
    requires a.entry.None?
    ensures Played(reg, user, a, t, issued, 0)
    ensures Added(user, a, t.op)
         == [Listed([KeyRecord(1, Some(AccountLabel(user)), 86400)]), RenewAsked(1), Vended(key)]
  {
    var tag := Some(AccountLabel(user));
    var renewed := map[1 := Key(tag, 86410)];
    key := Cached("one", 1, 86410);
    var keys, held := [KeyRecord(1, tag, 86400)], Cached("", 1, 86400);
    LatestIff(keys, user, 0);
    var listing, renewal, answer := Moment(10, issued, None, issued), Moment(10, issued, Some(1), renewed),
                                    Moment(10, renewed, None, renewed);
    t := Turn(ServeCall(10, Replies(Some(keys), Some(key), None, None)), [listing] + ([renewal] + [answer]));
    PlaysCons(reg, user, Stage(Some(held), Renewing), Some(1), Vended(key), answer, [], [], 10);
    PlaysCons(reg, user, Stage(Some(held), Holding), None, RenewAsked(1), renewal, [Vended(key)], [answer], 10);
    PlaysCons(reg, user, StageOf(None), None, Listed(keys), listing, [RenewAsked(1)] + [Vended(key)],
              [renewal] + [answer], 0);
    assert [Listed(keys)] + ([RenewAsked(1)] + [Vended(key)]) == [Listed(keys), RenewAsked(1), Vended(key)];
  }
}
