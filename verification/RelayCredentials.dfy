/**
 Vending one relay credential per account (crates/pocox-backend/src/
 credentials.rs over crates/pocox-pb/src/admin.rs). A relay call whose reply is
 lost, or that fails, is an absent reply; the key id is the account's namespace.
 */
module RelayCredentials {
  import opened Text

  /** Renew when no more than this is left, in seconds. */
  const RENEW_MARGIN: nat := 3600

  datatype Cached = Cached(credential: string, keyId: nat, expiresAt: nat)

  /** A key as the relay lists it, without its secret. */
  datatype KeyRecord = KeyRecord(keyId: nat, tag: Option<string>, expiresAt: nat)

  /** The relay's replies to one call, in the order the call may ask for them. */
  datatype Replies = Replies(
    adoption: Option<seq<KeyRecord>>,
    renewal: Option<Cached>,
    recheck: Option<seq<KeyRecord>>,
    issue: Option<Cached>)

  datatype Event =
    | Listed(keys: seq<KeyRecord>)
    | RenewAsked(keyId: nat)
    | IssueAsked
    | Vended(key: Cached)

  datatype Outcome = Answer(key: Cached) | Failed

  function AccountLabel(user: string): string { "pcx-account:" + user }

  // ---------- adoption ----------

  function LabelledFor(key: KeyRecord, user: string): bool { key.tag == Some(AccountLabel(user)) }

  /** `max_by_key` on the expiry of the account's keys: the last of the latest. */
  function Latest(keys: seq<KeyRecord>, user: string): Option<KeyRecord> {
    if keys == [] then None
    else
      var best, last := Latest(keys[..|keys| - 1], user), keys[|keys| - 1];
      if LabelledFor(last, user) && (best.None? || last.expiresAt >= best.value.expiresAt) then Some(last) else best
  }

  /** `adopt_from_relay`: the secret is never listed again. */
  function Adopt(keys: seq<KeyRecord>, user: string): Option<Cached> {
    match Latest(keys, user)
    case None => None
    case Some(key) => Some(Cached("", key.keyId, key.expiresAt))
  }

  predicate Lists(keys: seq<KeyRecord>, keyId: nat) {
    exists i :: 0 <= i < |keys| && keys[i].keyId == keyId
  }

  /** Position `i` is the account's latest key, later in the list than any tie. */
  ghost predicate IsLatestAt(keys: seq<KeyRecord>, user: string, i: int) {
    0 <= i < |keys| && LabelledFor(keys[i], user)
    && (forall j :: 0 <= j < i && LabelledFor(keys[j], user) ==> keys[j].expiresAt <= keys[i].expiresAt)
    && (forall j :: i < j < |keys| && LabelledFor(keys[j], user) ==> keys[j].expiresAt < keys[i].expiresAt)
  }

  /** The key the recursion keeps is at such a position. */
  lemma {:induction false} LatestFound(keys: seq<KeyRecord>, user: string) returns (i: int)
    ensures Latest(keys, user).None? ==> forall j :: 0 <= j < |keys| ==> !LabelledFor(keys[j], user)
    ensures Latest(keys, user).Some? ==> IsLatestAt(keys, user, i) && Latest(keys, user) == Some(keys[i])
  {
    i := 0;
    if keys == [] {
    } else {
      var n := |keys| - 1;
      var init, last := keys[..n], keys[n];
      i := LatestFound(init, user);
      var best := Latest(init, user);
      if LabelledFor(last, user) && (best.None? || last.expiresAt >= best.value.expiresAt) {
        forall j | 0 <= j < n && LabelledFor(keys[j], user) ensures keys[j].expiresAt <= last.expiresAt {
          assert init[j] == keys[j];
        }
        i := n;
      } else {
        forall j | 0 <= j < n ensures keys[j] == init[j] {}
      }
    }
  }

  /** Exactly which key is adopted, and when none is. */
  lemma {:induction false} LatestIff(keys: seq<KeyRecord>, user: string, i: int)
    ensures IsLatestAt(keys, user, i) ==> Latest(keys, user) == Some(keys[i])
    ensures Latest(keys, user).None? <==> forall j :: 0 <= j < |keys| ==> !LabelledFor(keys[j], user)
    ensures Latest(keys, user).Some? ==>
              exists j :: IsLatestAt(keys, user, j) && Latest(keys, user) == Some(keys[j])
  {
    var j := LatestFound(keys, user);
    if IsLatestAt(keys, user, i) && Latest(keys, user).Some? {
      assert i == j;
    }
  }

  // ---------- one call under the account lock ----------

  datatype Served = Served(entry: Option<Cached>, outcome: Outcome, trace: seq<Event>)

  /** `cached.expires_at > now + RENEW_MARGIN` with a usable secret. */
  predicate Servable(key: Cached, now: nat) { key.expiresAt > now + RENEW_MARGIN && key.credential != "" }

  /** The last resort: mint a key. A failed issue leaves the entry alone. */
  function Mint(entry: Option<Cached>, r: Replies): Served {
    match r.issue
    case None => Served(entry, Failed, [IssueAsked])
    case Some(key) => Served(Some(key), Answer(key), [IssueAsked, Vended(key)])
  }

  /** Renew, and change keys only after a listing without the old one. */
  function RenewOrMint(key: Cached, r: Replies): Served {
    match r.renewal
    case Some(renewed) => Served(Some(renewed), Answer(renewed), [RenewAsked(key.keyId), Vended(renewed)])
    case None =>
      match r.recheck
      case None => Served(Some(key), Failed, [RenewAsked(key.keyId)])
      case Some(live) =>
        if Lists(live, key.keyId) then Served(Some(key), Failed, [RenewAsked(key.keyId), Listed(live)])
        else
          var minted := Mint(Some(key), r);
          minted.(trace := [RenewAsked(key.keyId), Listed(live)] + minted.trace)
  }

  function ServeKnown(key: Cached, now: nat, r: Replies): Served {
    if Servable(key, now) then Served(Some(key), Answer(key), [Vended(key)]) else RenewOrMint(key, r)
  }

  /** `for_account`. */
  function ForAccount(entry: Option<Cached>, user: string, now: nat, r: Replies): Served {
    match entry
    case Some(key) => ServeKnown(key, now, r)
    case None =>
      match r.adoption
      case None => Served(None, Failed, [])
      case Some(keys) =>
        var served := match Adopt(keys, user)
          case None => Mint(None, r)
          case Some(adopted) => ServeKnown(adopted, now, r);
        served.(trace := [Listed(keys)] + served.trace)
  }

  /** What `namespace_of` finds: no key at all is not a failure. */
  datatype Namespace = Named(keyId: nat) | NoKey | Unlisted

  datatype Lookup = Lookup(entry: Option<Cached>, namespace: Namespace, trace: seq<Event>)

  function NamespaceIn(entry: Option<Cached>): Namespace {
    match entry
    case Some(key) => Named(key.keyId)
    case None => NoKey
  }

  /** `namespace_of`: a failed listing is an error and changes nothing. */
  function NamespaceOf(entry: Option<Cached>, user: string, r: Replies): Lookup {
    match (entry, r.adoption)
    case (Some(key), _) => Lookup(entry, NamespaceIn(entry), [])
    case (None, None) => Lookup(None, Unlisted, [])
    case (None, Some(keys)) =>
      var adopted := Adopt(keys, user);
      Lookup(adopted, NamespaceIn(adopted), [Listed(keys)])
  }

  // ---------- the vendor as an object ----------

  class Credentials {
    var cache: map<string, Cached>

    function Entry(user: string): Option<Cached>
      reads this
    {
      if user in cache then Some(cache[user]) else None
    }

    constructor ()
      ensures cache == map[]
    {
      cache := map[];
    }

    /** The call as the source runs it, with `r` the relay's replies. */
    method Serve(user: string, now: nat, r: Replies) returns (outcome: Outcome, ghost trace: seq<Event>)
      modifies this
      ensures Served(Entry(user), outcome, trace) == ForAccount(old(Entry(user)), user, now, r)
      ensures cache - {user} == old(cache) - {user}
    {
      trace := [];
      if user !in cache {
        if r.adoption.None? {
          return Failed, [];
        }
        var keys := r.adoption.value;
        trace := [Listed(keys)];
        var adopted := Adopt(keys, user);
        if adopted.Some? {
          cache := cache[user := adopted.value];
        }
      }
      if user in cache {
        var cached := cache[user];
        if cached.expiresAt > now + RENEW_MARGIN && cached.credential != "" {
          return Answer(cached), trace + [Vended(cached)];
        }
        trace := trace + [RenewAsked(cached.keyId)];
        if r.renewal.Some? {
          cache := cache[user := r.renewal.value];
          return Answer(r.renewal.value), trace + [Vended(r.renewal.value)];
        }
        if r.recheck.None? {
          return Failed, trace;
        }
        trace := trace + [Listed(r.recheck.value)];
        if Lists(r.recheck.value, cached.keyId) {
          return Failed, trace;
        }
      }
      ghost var more;
      outcome, more := Issue(user, r);
      trace := trace + more;
    }

    /** The issue that ends such a call. */
    method Issue(user: string, r: Replies) returns (outcome: Outcome, ghost trace: seq<Event>)
      modifies this
      ensures Served(Entry(user), outcome, trace) == Mint(old(Entry(user)), r)
      ensures cache - {user} == old(cache) - {user}
    {
      if r.issue.None? {
        return Failed, [IssueAsked];
      }
      cache := cache[user := r.issue.value];
      outcome, trace := Answer(r.issue.value), [IssueAsked, Vended(r.issue.value)];
    }

    /** `namespace_of`: the cached key id, adopting one if nothing is cached. */
    method FindNamespace(user: string, r: Replies) returns (found: Namespace, ghost trace: seq<Event>)
      modifies this
      ensures Lookup(Entry(user), found, trace) == NamespaceOf(old(Entry(user)), user, r)
      ensures cache - {user} == old(cache) - {user}
    {
      trace := [];
      if user !in cache {
        if r.adoption.None? {
          return Unlisted, [];
        }
        trace := [Listed(r.adoption.value)];
        var adopted := Adopt(r.adoption.value, user);
        if adopted.Some? {
          cache := cache[user := adopted.value];
        }
      }
      found := if user in cache then Named(cache[user].keyId) else NoKey;
    }

    /** `revoke_account`: the entry is dropped whatever the relay answers; the
        key to withdraw is the cached one, or else the adopted one. */
    method Revoke(user: string, r: Replies) returns (withdraw: Option<nat>)
      modifies this
      ensures user !in cache && cache - {user} == old(cache) - {user}
      ensures withdraw == match old(Entry(user))
                          case Some(key) => Some(key.keyId)
                          case None =>
                            match NamespaceOf(None, user, r).entry
                            case Some(key) => Some(key.keyId)
                            case None => None
    {
      var cached := Entry(user);
      cache := cache - {user};
      if cached.None? && r.adoption.Some? {
        cached := Adopt(r.adoption.value, user);
      }
      withdraw := if cached.Some? then Some(cached.value.keyId) else None;
    }
  }

  // ---------- one call ----------

  /** Every issue call is preceded, in the same call, by a successful listing
      with no key of the account's label, or none with its cached or else
      adopted id. */
  lemma {:induction false} IssueOnlyWhenGone(entry: Option<Cached>, user: string, now: nat, r: Replies, n: nat)
    requires n < |ForAccount(entry, user, now, r).trace| && ForAccount(entry, user, now, r).trace[n] == IssueAsked
    ensures n > 0 && ForAccount(entry, user, now, r).trace[n - 1].Listed?
    ensures var trace := ForAccount(entry, user, now, r).trace;
            var keys := trace[n - 1].keys;
            if n >= 2 && trace[n - 2].RenewAsked? then
              && !Lists(keys, trace[n - 2].keyId)
              && (entry.Some? ==> trace[n - 2].keyId == entry.value.keyId)
              && (entry.None? ==> r.adoption.Some? && Adopt(r.adoption.value, user).Some?
                                  && trace[n - 2].keyId == Adopt(r.adoption.value, user).value.keyId)
            else entry.None? && forall j :: 0 <= j < |keys| ==> !LabelledFor(keys[j], user)
  {
    if entry.None? && r.adoption.Some? { LatestIff(r.adoption.value, user, 0); }
  }

  /** A successful answer is usable when the relay's own replies are, and one
      served without a relay call outlasts the renewal margin. */
  lemma {:induction false} AnswersUsable(entry: Option<Cached>, user: string, now: nat, r: Replies)
    requires r.issue.Some? ==> r.issue.value.credential != ""
    requires r.renewal.Some? ==> r.renewal.value.credential != ""
    ensures var served := ForAccount(entry, user, now, r);
            && (served.outcome.Answer? ==>
                  served.outcome.key.credential != "" && served.entry == Some(served.outcome.key))
            && (served.outcome.Answer? && |served.trace| == 1 ==>
                  entry == Some(served.outcome.key) && served.outcome.key.expiresAt > now + RENEW_MARGIN)
  {
  }

  /** A failed call never loses a cached key. */
  lemma {:induction false} FailureKeepsEntry(entry: Option<Cached>, user: string, now: nat, r: Replies)
    requires entry.Some? && ForAccount(entry, user, now, r).outcome.Failed?
    ensures ForAccount(entry, user, now, r).entry == entry
  {
  }

  /** A lookup fails exactly when nothing is cached and the relay does not list
      its keys; it finds none exactly when the relay lists none of the account's. */
  lemma {:induction false} NamespaceIff(entry: Option<Cached>, user: string, r: Replies, keyId: nat)
    ensures var found := NamespaceOf(entry, user, r).namespace;
            && (found == Unlisted <==> entry.None? && r.adoption.None?)
            && (found == NoKey <==> entry.None? && r.adoption.Some?
                                    && forall j :: 0 <= j < |r.adoption.value| ==>
                                                     !LabelledFor(r.adoption.value[j], user))
            && (found == Named(keyId) <==>
                  if entry.Some? then entry.value.keyId == keyId
                  else r.adoption.Some?
                       && exists j :: IsLatestAt(r.adoption.value, user, j) && r.adoption.value[j].keyId == keyId)
  {
    if r.adoption.Some? {
      var keys := r.adoption.value;
      var i := LatestFound(keys, user);
      forall j | IsLatestAt(keys, user, j) ensures Latest(keys, user) == Some(keys[j]) {
        LatestIff(keys, user, j);
      }
    }
  }

  // ---------- runs of one account ----------

  datatype Account = Account(entry: Option<Cached>, log: seq<Event>)

  /** `Crash` is a process that dies `n` events into a call. */
  datatype Op =
    | ServeCall(now: nat, r: Replies)
    | NamespaceCall(r: Replies)
    | RevokeCall(r: Replies)
    | Crash(now: nat, r: Replies, n: nat)
    | Restart

  /** The events one operation adds to the log. */
  function Added(user: string, a: Account, op: Op): seq<Event> {
    match op
    case ServeCall(now, r) => ForAccount(a.entry, user, now, r).trace
    case NamespaceCall(r) => NamespaceOf(a.entry, user, r).trace
    case RevokeCall(r) => NamespaceOf(a.entry, user, r).trace
    case Crash(now, r, n) =>
      var trace := ForAccount(a.entry, user, now, r).trace;
      if n <= |trace| then trace[..n] else trace
    case Restart => []
  }

  /** What is cached afterwards. */
  function Kept(user: string, a: Account, op: Op): Option<Cached> {
    match op
    case ServeCall(now, r) => ForAccount(a.entry, user, now, r).entry
    case NamespaceCall(r) => NamespaceOf(a.entry, user, r).entry
    case _ => None
  }

  function After(user: string, a: Account, op: Op): Account {
    Account(Kept(user, a, op), a.log + Added(user, a, op))
  }

  function AfterAll(user: string, a: Account, ops: seq<Op>): Account
    decreases |ops|
  {
    if ops == [] then a else AfterAll(user, After(user, a, ops[0]), ops[1..])
  }

  // ---------- stability of the namespace ----------

  /** The last key id vended, and whether a listing since has lacked it. */
  datatype Watch = Watch(last: Option<nat>, gone: bool)

  const UNWATCHED := Watch(None, false)

  function See(w: Watch, e: Event): Watch {
    match e
    case Vended(key) => Watch(Some(key.keyId), false)
    case Listed(keys) => if w.last.Some? && !Lists(keys, w.last.value) then Watch(w.last, true) else w
    case _ => w
  }

  function SeeAll(w: Watch, log: seq<Event>): Watch
    decreases |log|
  {
    if log == [] then w else SeeAll(See(w, log[0]), log[1..])
  }

  predicate MayFollow(w: Watch, keyId: nat) { w.last.None? || w.last.value == keyId || w.gone }

  /** Every vended id equals the last one, or follows a listing without it. */
  predicate Stable(w: Watch, log: seq<Event>)
    decreases |log|
  {
    log == []
    || ((log[0].Vended? ==> MayFollow(w, log[0].key.keyId)) && Stable(See(w, log[0]), log[1..]))
  }

  lemma {:induction false} StableAppend(w: Watch, a: seq<Event>, b: seq<Event>)
    ensures SeeAll(w, a + b) == SeeAll(SeeAll(w, a), b)
    ensures Stable(w, a + b) <==> Stable(w, a) && Stable(SeeAll(w, a), b)
    decreases |a|
  {
    if a == [] {
      assert a + b == b;
    } else {
      assert (a + b)[1..] == a[1..] + b;
      StableAppend(See(w, a[0]), a[1..], b);
    }
  }

  lemma {:induction false} StablePrefix(w: Watch, log: seq<Event>, part: seq<Event>)
    requires part <= log && Stable(w, log)
    ensures Stable(w, part)
  {
    assert log == part + log[|part|..];
    StableAppend(w, part, log[|part|..]);
  }

  /** What stability says of two consecutive vendings. */
  lemma {:induction false} StableMeans(w: Watch, log: seq<Event>, i: nat, j: nat)
    requires Stable(w, log) && i < j < |log| && log[i].Vended? && log[j].Vended?
    requires forall m :: i < m < j ==> !log[m].Vended?
    requires log[i].key.keyId != log[j].key.keyId
    ensures exists m :: i < m < j && log[m].Listed? && !Lists(log[m].keys, log[i].key.keyId)
    decreases i
  {
    if i > 0 {
      var rest := log[1..];
      assert rest[i - 1] == log[i] && rest[j - 1] == log[j];
      StableMeans(See(w, log[0]), rest, i - 1, j - 1);
      var m :| i - 1 < m < j - 1 && rest[m].Listed? && !Lists(rest[m].keys, rest[i - 1].key.keyId);
      assert log[m + 1] == rest[m];
    } else if forall m :: 0 < m < j ==> !(log[m].Listed? && !Lists(log[m].keys, log[0].key.keyId)) {
      Unmoved(See(w, log[0]), log[1..], j - 1);
    }
  }

  lemma {:induction false} Unmoved(w: Watch, log: seq<Event>, j: nat)
    requires Stable(w, log) && w.last.Some? && !w.gone && j < |log| && log[j].Vended?
    requires forall m :: 0 <= m < j ==> !log[m].Vended? && !(log[m].Listed? && !Lists(log[m].keys, w.last.value))
    ensures log[j].key.keyId == w.last.value
    decreases j
  {
    if j == 0 {
    } else {
      assert See(w, log[0]) == w;
      assert forall m :: 0 <= m < j - 1 ==> log[1..][m] == log[m + 1];
      Unmoved(w, log[1..], j - 1);
    }
  }

  // ---------- what the relay guarantees ----------

  /** The relay's registry of labels, which a key keeps for life. */
  type Registry = map<nat, Option<string>>

  ghost predicate ListingTrue(reg: Registry, keys: seq<KeyRecord>) {
    forall i :: 0 <= i < |keys| ==> keys[i].keyId in reg && reg[keys[i].keyId] == keys[i].tag
  }

  predicate OwnKey(reg: Registry, user: string, keyId: nat) {
    keyId in reg && reg[keyId] == Some(AccountLabel(user))
  }

  /** Replies agree with the registry: listings report labels, an issued key
      carries the label it was asked under, a renewal keeps the key id. */
  ghost predicate Truthful(reg: Registry, user: string, a: Account, op: Op) {
    op.Restart? || (
      && (op.r.adoption.Some? ==> ListingTrue(reg, op.r.adoption.value))
      && (op.r.recheck.Some? ==> ListingTrue(reg, op.r.recheck.value))
      && (op.r.issue.Some? ==> OwnKey(reg, user, op.r.issue.value.keyId))
      && ((op.ServeCall? || op.Crash?) && op.r.renewal.Some? ==>
            forall e :: e in ForAccount(a.entry, user, op.now, op.r).trace && e.RenewAsked? ==>
                          op.r.renewal.value.keyId == e.keyId))
  }

  /** The key is, where it is listed, the account's latest. */
  ghost predicate LatestIfListed(keys: seq<KeyRecord>, user: string, keyId: nat) {
    Lists(keys, keyId) ==> exists i :: IsLatestAt(keys, user, i) && keys[i].keyId == keyId
  }

  /** A call that may cache what it adopts. */
  predicate Looks(op: Op) { op.ServeCall? || op.NamespaceCall? || op.Crash? }

  /** The listing a restarted process adopts from shows no sibling of the last
      vended key that would be adopted before it. */
  ghost predicate NoLaterSibling(user: string, a: Account, op: Op) {
    var last := SeeAll(UNWATCHED, a.log).last;
    a.entry.None? && Looks(op) && op.r.adoption.Some? && last.Some? ==>
      LatestIfListed(op.r.adoption.value, user, last.value)
  }

  ghost predicate GoodRun(reg: Registry, user: string, a: Account, ops: seq<Op>, siblings: bool)
    decreases |ops|
  {
    ops == []
    || (Truthful(reg, user, a, ops[0]) && (siblings || NoLaterSibling(user, a, ops[0]))
        && GoodRun(reg, user, After(user, a, ops[0]), ops[1..], siblings))
  }

  // ---------- isolation ----------

  ghost predicate OwnKeysOnly(reg: Registry, user: string, a: Account) {
    && (a.entry.Some? ==> OwnKey(reg, user, a.entry.value.keyId))
    && (forall e :: e in a.log && e.Vended? ==> OwnKey(reg, user, e.key.keyId))
  }

  lemma {:induction false} AdoptedIsOwn(reg: Registry, user: string, keys: seq<KeyRecord>)
    requires ListingTrue(reg, keys) && Adopt(keys, user).Some?
    ensures OwnKey(reg, user, Adopt(keys, user).value.keyId)
  {
    LatestIff(keys, user, 0);
  }

  lemma {:induction false} OwnKeysAfter(reg: Registry, user: string, a: Account, op: Op)
    requires OwnKeysOnly(reg, user, a) && Truthful(reg, user, a, op)
    ensures OwnKeysOnly(reg, user, After(user, a, op))
  {
    if !op.Restart? && op.r.adoption.Some? && Adopt(op.r.adoption.value, user).Some? {
      AdoptedIsOwn(reg, user, op.r.adoption.value);
    }
    if op.ServeCall? || op.Crash? {
      OwnKeysServed(reg, user, a.entry, op.now, op.r);
    }
  }

  lemma {:induction false} OwnKeysServed(reg: Registry, user: string, entry: Option<Cached>, now: nat, r: Replies)
    requires entry.Some? ==> OwnKey(reg, user, entry.value.keyId)
    requires entry.None? && r.adoption.Some? && Adopt(r.adoption.value, user).Some? ==>
               OwnKey(reg, user, Adopt(r.adoption.value, user).value.keyId)
    requires r.issue.Some? ==> OwnKey(reg, user, r.issue.value.keyId)
    requires r.renewal.Some? ==> forall e :: e in ForAccount(entry, user, now, r).trace && e.RenewAsked? ==>
                                               r.renewal.value.keyId == e.keyId
    ensures var served := ForAccount(entry, user, now, r);
            && (served.entry.Some? ==> OwnKey(reg, user, served.entry.value.keyId))
            && forall e :: e in served.trace && e.Vended? ==> OwnKey(reg, user, e.key.keyId)
  {
    var trace := ForAccount(entry, user, now, r).trace;
    if entry.Some? && !Servable(entry.value, now) {
      assert trace[0] == RenewAsked(entry.value.keyId);
    }
    if entry.None? && r.adoption.Some? && Adopt(r.adoption.value, user).Some?
       && !Servable(Adopt(r.adoption.value, user).value, now) {
      assert trace[1] == RenewAsked(Adopt(r.adoption.value, user).value.keyId);
    }
  }

  lemma {:induction false} OwnKeysAlways(reg: Registry, user: string, a: Account, ops: seq<Op>, siblings: bool)
    requires OwnKeysOnly(reg, user, a) && GoodRun(reg, user, a, ops, siblings)
    ensures OwnKeysOnly(reg, user, AfterAll(user, a, ops))
    decreases |ops|
  {
    if ops == [] {
    } else {
      OwnKeysAfter(reg, user, a, ops[0]);
      OwnKeysAlways(reg, user, After(user, a, ops[0]), ops[1..], siblings);
    }
  }

  /** Isolation: no key is ever vended to two accounts, over all their runs
      against one relay, restarts and lost replies included. */
  lemma {:induction false} AccountsNeverShareKeys(reg: Registry, u: string, uOps: seq<Op>, v: string,
                                                  vOps: seq<Op>, e: Event, f: Event)
    requires GoodRun(reg, u, Account(None, []), uOps, true) && GoodRun(reg, v, Account(None, []), vOps, true)
    requires e in AfterAll(u, Account(None, []), uOps).log && e.Vended?
    requires f in AfterAll(v, Account(None, []), vOps).log && f.Vended?
    requires e.key.keyId == f.key.keyId
    ensures u == v
  {
    OwnKeysAlways(reg, u, Account(None, []), uOps, true);
    OwnKeysAlways(reg, v, Account(None, []), vOps, true);
    assert AccountLabel(u)[12..] == u && AccountLabel(v)[12..] == v;
  }

  // ---------- the namespace moves only when its key is gone ----------

  ghost predicate Anchored(a: Account) {
    var w := SeeAll(UNWATCHED, a.log);
    Stable(UNWATCHED, a.log) && (a.entry.Some? ==> MayFollow(w, a.entry.value.keyId))
  }

  /** A listed key that is the account's latest is the one adopted. */
  lemma {:induction false} AdoptedLatest(keys: seq<KeyRecord>, user: string, keyId: nat)
    requires Lists(keys, keyId) && LatestIfListed(keys, user, keyId)
    ensures Adopt(keys, user).Some? && Adopt(keys, user).value.keyId == keyId
  {
    var i :| IsLatestAt(keys, user, i) && keys[i].keyId == keyId;
    LatestIff(keys, user, i);
  }

  lemma {:induction false} AnchoredAfter(reg: Registry, user: string, a: Account, op: Op)
    requires Anchored(a)
    requires Truthful(reg, user, a, op) && NoLaterSibling(user, a, op)
    ensures Anchored(After(user, a, op))
  {
    var w := SeeAll(UNWATCHED, a.log);
    if Looks(op) && a.entry.None? && op.r.adoption.Some? && w.last.Some?
       && Lists(op.r.adoption.value, w.last.value) {
      AdoptedLatest(op.r.adoption.value, user, w.last.value);
    }
    StableAppend(UNWATCHED, a.log, Added(user, a, op));
    if op.ServeCall? || op.Crash? {
      var trace := ForAccount(a.entry, user, op.now, op.r).trace;
      ServedStable(w, a.entry, user, op.now, op.r);
      StablePrefix(w, trace, Added(user, a, op));
    }
  }

  /** Events of one call, watched from `w`. */
  lemma {:induction false} KnownStable(w: Watch, key: Cached, now: nat, r: Replies)
    requires MayFollow(w, key.keyId)
    requires r.renewal.Some? && !Servable(key, now) ==> r.renewal.value.keyId == key.keyId
    ensures var served := ServeKnown(key, now, r);
            && Stable(w, served.trace)
            && served.entry.Some? && MayFollow(SeeAll(w, served.trace), served.entry.value.keyId)
  {
    var trace := ServeKnown(key, now, r).trace;
    Unroll(w, trace);
  }

  /** Calls leave at most four events beyond an adoption listing. */
  lemma {:induction false} Unroll(w: Watch, t: seq<Event>)
    requires |t| <= 4
    ensures SeeAll(w, t) == match |t|
                            case 0 => w
                            case 1 => See(w, t[0])
                            case 2 => See(See(w, t[0]), t[1])
                            case 3 => See(See(See(w, t[0]), t[1]), t[2])
                            case _ => See(See(See(See(w, t[0]), t[1]), t[2]), t[3])
    ensures Stable(w, t) <==>
            && (|t| > 0 && t[0].Vended? ==> MayFollow(w, t[0].key.keyId))
            && (|t| > 1 && t[1].Vended? ==> MayFollow(See(w, t[0]), t[1].key.keyId))
            && (|t| > 2 && t[2].Vended? ==> MayFollow(See(See(w, t[0]), t[1]), t[2].key.keyId))
            && (|t| > 3 && t[3].Vended? ==> MayFollow(See(See(See(w, t[0]), t[1]), t[2]), t[3].key.keyId))
  {
    if |t| > 0 { UnrollOne(w, t); }
    if |t| > 1 { UnrollOne(See(w, t[0]), t[1..]); }
    if |t| > 2 { UnrollOne(See(See(w, t[0]), t[1]), t[1..][1..]); }
    if |t| > 3 { UnrollOne(See(See(See(w, t[0]), t[1]), t[2]), t[1..][1..][1..]); }
  }

  lemma {:induction false} UnrollOne(w: Watch, t: seq<Event>)
    requires |t| > 0
    ensures SeeAll(w, t) == SeeAll(See(w, t[0]), t[1..])
    ensures Stable(w, t) <==> (t[0].Vended? ==> MayFollow(w, t[0].key.keyId)) && Stable(See(w, t[0]), t[1..])
  {
  }

  lemma {:induction false} ServedStable(w: Watch, entry: Option<Cached>, user: string, now: nat, r: Replies)
    requires entry.Some? ==> MayFollow(w, entry.value.keyId)
    requires entry.None? && r.adoption.Some? && w.last.Some? && Lists(r.adoption.value, w.last.value) ==>
               Adopt(r.adoption.value, user).Some? && Adopt(r.adoption.value, user).value.keyId == w.last.value
    requires r.renewal.Some? ==> forall e :: e in ForAccount(entry, user, now, r).trace && e.RenewAsked? ==>
                                               r.renewal.value.keyId == e.keyId
    ensures var served := ForAccount(entry, user, now, r);
            && Stable(w, served.trace)
            && (served.entry.Some? ==> MayFollow(SeeAll(w, served.trace), served.entry.value.keyId))
  {
    var trace := ForAccount(entry, user, now, r).trace;
    match entry {
      case Some(key) =>
        if !Servable(key, now) { assert trace[0] == RenewAsked(key.keyId); }
        KnownStable(w, key, now, r);
      case None =>
        if r.adoption.Some? {
          var keys := r.adoption.value;
          var w' := See(w, Listed(keys));
          var inner := match Adopt(keys, user) case None => Mint(None, r) case Some(c) => ServeKnown(c, now, r);
          assert trace == [Listed(keys)] + inner.trace && trace[1..] == inner.trace;
          match Adopt(keys, user) {
            case None => Unroll(w', inner.trace);
            case Some(adopted) =>
              if !Servable(adopted, now) { assert trace[1] == RenewAsked(adopted.keyId); }
              KnownStable(w', adopted, now, r);
          }
        }
    }
  }

  lemma {:induction false} AnchoredAlways(reg: Registry, user: string, a: Account, ops: seq<Op>)
    requires Anchored(a) && GoodRun(reg, user, a, ops, false)
    ensures Anchored(AfterAll(user, a, ops))
    decreases |ops|
  {
    if ops == [] {
    } else {
      AnchoredAfter(reg, user, a, ops[0]);
      AnchoredAlways(reg, user, After(user, a, ops[0]), ops[1..]);
    }
  }

  /** Over every run, lost replies, failures, expiry, revocations and restarts
      included, two consecutive vendings differ in key id only with a
      successful listing in between that lacks the old key. */
  lemma {:induction false} NamespaceStable(reg: Registry, user: string, ops: seq<Op>, i: nat, j: nat)
    requires GoodRun(reg, user, Account(None, []), ops, false)
    requires var log := AfterAll(user, Account(None, []), ops).log;
             && i < j < |log| && log[i].Vended? && log[j].Vended? && log[i].key.keyId != log[j].key.keyId
             && forall m :: i < m < j ==> !log[m].Vended?
    ensures var log := AfterAll(user, Account(None, []), ops).log;
            exists m :: i < m < j && log[m].Listed? && !Lists(log[m].keys, log[i].key.keyId)
  {
    AnchoredAlways(reg, user, Account(None, []), ops);
    StableMeans(UNWATCHED, AfterAll(user, Account(None, []), ops).log, i, j);
  }

  /** Among distinct listed keys, the one at `i` is adopted if and only if it
      is the latest. */
  lemma {:induction false} AdoptionIff(keys: seq<KeyRecord>, user: string, i: nat)
    requires i < |keys| && DistinctKeys(keys)
    ensures Adopt(keys, user).Some? && Adopt(keys, user).value.keyId == keys[i].keyId <==> IsLatestAt(keys, user, i)
  {
    LatestIff(keys, user, i);
  }

  predicate DistinctKeys(keys: seq<KeyRecord>) {
    forall m, n :: 0 <= m < n < |keys| ==> keys[m].keyId != keys[n].keyId
  }

  /** The relay's reply to a renewal, if any, keeps the id of the adopted key. */
  predicate RenewsAdopted(keys: seq<KeyRecord>, user: string, r: Replies) {
    r.adoption == Some(keys)
    && (r.renewal.Some? && Adopt(keys, user).Some? ==> r.renewal.value.keyId == Adopt(keys, user).value.keyId)
  }

  /** A call after a restart, while the last vended key is listed and was never
      missed, keeps the namespace exactly when that key is the latest. */
  lemma {:induction false} RestartedCallStableIff(w: Watch, user: string, keys: seq<KeyRecord>, i: nat, now: nat,
                                                  r: Replies)
    requires i < |keys| && DistinctKeys(keys) && LabelledFor(keys[i], user)
    requires w.last == Some(keys[i].keyId) && !w.gone
    requires RenewsAdopted(keys, user, r) && r.renewal.Some?
    ensures Stable(w, ForAccount(None, user, now, r).trace) <==> IsLatestAt(keys, user, i)
  {
    AdoptionIff(keys, user, i);
    LatestIff(keys, user, i);
    var adopted, renewed := Adopt(keys, user).value, r.renewal.value;
    assert ForAccount(None, user, now, r).trace
        == [Listed(keys)] + [RenewAsked(adopted.keyId), Vended(renewed)];
    Unroll(w, [Listed(keys), RenewAsked(adopted.keyId), Vended(renewed)]);
  }

  /** Whatever the relay goes on to answer, the calls after a restart keep the
      namespace of a listed key if and only if that key is the latest. */
  lemma {:induction false} RestartKeepsIff(w: Watch, user: string, keys: seq<KeyRecord>, i: nat)
    requires i < |keys| && DistinctKeys(keys) && LabelledFor(keys[i], user)
    requires w.last == Some(keys[i].keyId) && !w.gone
    ensures (forall now, r :: RenewsAdopted(keys, user, r) ==> Stable(w, ForAccount(None, user, now, r).trace))
            <==> IsLatestAt(keys, user, i)
  {
    AdoptionIff(keys, user, i);
    LatestIff(keys, user, i);
    if IsLatestAt(keys, user, i) {
      forall now, r | RenewsAdopted(keys, user, r) ensures Stable(w, ForAccount(None, user, now, r).trace) {
        RestartedStable(w, user, keys, now, r);
      }
    } else {
      var r := Replies(Some(keys), Some(Cached("", Adopt(keys, user).value.keyId, 0)), None, None);
      RestartedCallStableIff(w, user, keys, i, 0, r);
      assert RenewsAdopted(keys, user, r) && !Stable(w, ForAccount(None, user, 0, r).trace);
    }
  }

  lemma {:induction false} RestartedStable(w: Watch, user: string, keys: seq<KeyRecord>, now: nat, r: Replies)
    requires RenewsAdopted(keys, user, r)
    requires Adopt(keys, user).Some? && w.last == Some(Adopt(keys, user).value.keyId)
    ensures Stable(w, ForAccount(None, user, now, r).trace)
  {
    var trace := ForAccount(None, user, now, r).trace;
    var adopted := Adopt(keys, user).value;
    var known := ServeKnown(adopted, now, r).trace;
    assert trace == [Listed(keys)] + known && trace[1..] == known;
    KnownStable(See(w, Listed(keys)), adopted, now, r);
  }

  /** Without it a restart moves a live namespace: the relay carries out an
      issue whose reply is lost only after the next call's issue, so a sibling
      expires a second later, and the next process adopts that one. */
  lemma {:induction false} RestartCanMoveLiveNamespace(user: string) returns (reg: Registry, ops: seq<Op>)
    ensures GoodRun(reg, user, Account(None, []), ops, true)
    ensures !Stable(UNWATCHED, AfterAll(user, Account(None, []), ops).log)
  {
    var tag := Some(AccountLabel(user));
    reg := map[1 := tag, 2 := tag];
    var one, two := Cached("one", 1, 86400), Cached("two", 2, 86410);
    var both := [KeyRecord(1, tag, 86400), KeyRecord(2, tag, 86401)];
    var lost := ServeCall(0, Replies(Some([]), None, None, None));
    var first := ServeCall(0, Replies(Some([]), None, None, Some(one)));
    var next := ServeCall(10, Replies(Some(both), Some(two), None, None));
    ops := [lost, first, Restart, next];
    LatestIff(both, user, 1);
    var start := Account(None, []);
    var asked := Account(None, [Listed([]), IssueAsked]);
    var minted := Account(Some(one), asked.log + [Listed([]), IssueAsked, Vended(one)]);
    var restarted := Account(None, minted.log);
    assert After(user, start, lost) == asked;
    assert After(user, asked, first) == minted;
    assert After(user, minted, Restart) == restarted;
    var more := [Listed(both), RenewAsked(2), Vended(two)];
    assert ForAccount(None, user, 10, next.r).trace == more;
    GoodCons(reg, user, restarted, next, []);
    GoodCons(reg, user, minted, Restart, [next]);
    GoodCons(reg, user, asked, first, [Restart] + [next]);
    GoodCons(reg, user, start, lost, [first] + ([Restart] + [next]));
    assert ops == [lost] + ([first] + ([Restart] + [next]));
    MovedUnstable(one, two, both);
  }

  lemma {:induction false} GoodCons(reg: Registry, user: string, a: Account, op: Op, rest: seq<Op>)
    requires Truthful(reg, user, a, op) && GoodRun(reg, user, After(user, a, op), rest, true)
    ensures GoodRun(reg, user, a, [op] + rest, true)
    ensures AfterAll(user, a, [op] + rest) == AfterAll(user, After(user, a, op), rest)
  {
    assert ([op] + rest)[1..] == rest;
  }

  lemma {:induction false} MovedUnstable(one: Cached, two: Cached, both: seq<KeyRecord>)
    requires one.keyId == 1 && two.keyId == 2 && |both| == 2 && both[0].keyId == 1
    ensures !Stable(UNWATCHED, [Listed([]), IssueAsked] + [Listed([]), IssueAsked, Vended(one)]
                               + [Listed(both), RenewAsked(2), Vended(two)])
  {
    var asked, first, more := [Listed([]), IssueAsked], [Listed([]), IssueAsked, Vended(one)],
                              [Listed(both), RenewAsked(2), Vended(two)];
    StableAppend(UNWATCHED, asked + first, more);
    StableAppend(UNWATCHED, asked, first);
    Unroll(UNWATCHED, asked);
    Unroll(UNWATCHED, first);
    Unroll(Watch(Some(1), false), more);
  }
}
