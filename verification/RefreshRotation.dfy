/**
 Refresh-token rotation with every store statement a separate step
 (crates/pocox-auth/src/lib.rs over crates/pocox-store/src/tokens.rs): any
 number of refreshes, replays, logouts and purges interleave.
 */
module RefreshRotation {
  import opened Text
  import opened SingleUse
  import opened AuthSessions

  /** Where a call is between two of its statements. */
  datatype Call =
    | Read(id: string)                        // saw the row active
    | Won(id: string)                         // its update flipped the row
    | Issued(id: string, successor: string)   // inserted the successor
    | Inactive(id: string, now: int)          // saw no active row
    | FamilyDue(user: string, now: int)       // decided on the family response
    | LogoutRead(id: string)
    | Over

  datatype Succession = Succession(from: string, to: string)

  /** `used` are the row ids ever drawn, `history` the sessions refreshes issued. */
  datatype State = State(tokens: Tokens, calls: seq<Call>, used: set<string>, history: seq<Succession>)

  const INIT := State(map[], [], {}, [])

  /** `BeginRefresh` and `BeginLogout` name the row the token's hash selects. */
  datatype Step =
    | SignIn(row: TokenRow)
    | BeginRefresh(id: string, now: int)
    | JudgeReplay(c: nat)
    | Consume(c: nat, now: int)
    | Issue(c: nat, row: TokenRow)
    | SetRotatedTo(c: nat)
    | RevokeFamily(c: nat)
    | BeginLogout(id: string, now: int)
    | LogoutRevoke(c: nat, now: int)
    | GiveUp(c: nat)
    | Purge(now: int)

  /** A new row is unspent, under an id never drawn before. */
  predicate NewRow(s: State, row: TokenRow) {
    row.revokedAt.None? && row.rotatedTo.None? && row.id !in s.used
  }

  predicate Enabled(s: State, step: Step) {
    match step
    case SignIn(row) => NewRow(s, row)
    case BeginRefresh(_, _) => true
    case JudgeReplay(c) => c < |s.calls| && s.calls[c].Inactive?
    case Consume(c, _) => c < |s.calls| && s.calls[c].Read?
    case Issue(c, row) => c < |s.calls| && s.calls[c].Won? && NewRow(s, row)
    case SetRotatedTo(c) => c < |s.calls| && s.calls[c].Issued?
    case RevokeFamily(c) => c < |s.calls| && s.calls[c].FamilyDue?
    case BeginLogout(_, _) => true
    case LogoutRevoke(c, _) => c < |s.calls| && s.calls[c].LogoutRead?
    case GiveUp(c) => c < |s.calls|
    case Purge(_) => true
  }

  predicate Unspent(ts: Tokens, id: string) { id in ts && ts[id].revokedAt.None? }

  /** What the second read, by hash alone, makes of a replay. */
  function Judged(ts: Tokens, id: string, now: int): Call {
    if id !in ts then Over
    else if !LostResponseRetry(ts[id], now) && ts[id].rotatedTo.Some? then FamilyDue(ts[id].user, now)
    else Over
  }

  function Next(s: State, step: Step): State
    requires Enabled(s, step)
  {
    match step
    case SignIn(row) => s.(tokens := s.tokens[row.id := row], used := s.used + {row.id})
    case BeginRefresh(id, now) =>
      s.(calls := s.calls + [if id in s.tokens && IsActive(s.tokens[id], now) then Read(id) else Inactive(id, now)])
    case JudgeReplay(c) => s.(calls := s.calls[c := Judged(s.tokens, s.calls[c].id, s.calls[c].now)])
    case Consume(c, now) =>
      var id := s.calls[c].id;
      s.(tokens := Revoked(s.tokens, id, now), calls := s.calls[c := if Unspent(s.tokens, id) then Won(id) else Over])
    case Issue(c, row) =>
      var id := s.calls[c].id;
      State(s.tokens[row.id := row], s.calls[c := Issued(id, row.id)], s.used + {row.id},
            s.history + [Succession(id, row.id)])
    case SetRotatedTo(c) =>
      s.(tokens := Chained(s.tokens, s.calls[c].id, s.calls[c].successor), calls := s.calls[c := Over])
    case RevokeFamily(c) =>
      s.(tokens := FamilyRevoked(s.tokens, s.calls[c].user, s.calls[c].now, s.calls[c].now),
         calls := s.calls[c := Over])
    case BeginLogout(id, now) =>
      s.(calls := s.calls + [if id in s.tokens && IsActive(s.tokens[id], now) then LogoutRead(id) else Over])
    case LogoutRevoke(c, now) =>
      s.(tokens := Revoked(s.tokens, s.calls[c].id, now), calls := s.calls[c := Over])
    case GiveUp(c) => s.(calls := s.calls[c := Over])
    case Purge(now) => s.(tokens := Purged(s.tokens, now))
  }

  ghost predicate CanRun(s: State, steps: seq<Step>)
    decreases |steps|
  {
    steps == [] || (Enabled(s, steps[0]) && CanRun(Next(s, steps[0]), steps[1..]))
  }

  ghost function Run(s: State, steps: seq<Step>): State
    requires CanRun(s, steps)
    decreases |steps|
  {
    if steps == [] then s else Run(Next(s, steps[0]), steps[1..])
  }

  // ---------- the invariant ----------

  function HeldBy(call: Call): Option<string> { if call.Won? then Some(call.id) else None }

  ghost function LedgerOf(s: State): Ledger<string> {
    Ledger((set id | id in s.tokens && s.tokens[id].revokedAt.None?),
           s.used,
           seq(|s.calls|, c requires 0 <= c < |s.calls| => HeldBy(s.calls[c])),
           seq(|s.history|, i requires 0 <= i < |s.history| => s.history[i].from))
  }

  /** A recorded successor is one that a refresh of this very row issued. */
  ghost predicate Chains(s: State) {
    && (forall id :: id in s.tokens && s.tokens[id].rotatedTo.Some? ==>
          Succession(id, s.tokens[id].rotatedTo.value) in s.history)
    && (forall c :: 0 <= c < |s.calls| && s.calls[c].Issued? ==>
          Succession(s.calls[c].id, s.calls[c].successor) in s.history)
  }

  /** Every successor id was drawn for it alone. */
  ghost predicate Successors(s: State) {
    && (forall i :: 0 <= i < |s.history| ==> s.history[i].to in s.used)
    && (forall i, j :: 0 <= i < j < |s.history| ==> s.history[i].to != s.history[j].to)
  }

  /** The statements that win, issue and trade nothing. */
  lemma {:induction false} QuietStep(s: State, step: Step)
    requires Sound(LedgerOf(s)) && Enabled(s, step)
    requires !step.SignIn? && !step.Consume? && !step.Issue?
    ensures Sound(LedgerOf(Next(s, step)))
  {
    var c := if step.BeginRefresh? || step.BeginLogout? || step.Purge? then |s.calls| else step.c;
    MovesKeep(LedgerOf(s), LedgerOf(Next(s, step)), c, None, {}, false);
  }

  lemma {:induction false} LedgerStep(s: State, step: Step)
    requires Sound(LedgerOf(s)) && Enabled(s, step)
    ensures Sound(LedgerOf(Next(s, step)))
  {
    var l, m := LedgerOf(s), LedgerOf(Next(s, step));
    match step {
      case SignIn(row) => MovesKeep(l, m, |s.calls|, None, {row.id}, false);
      case Consume(c, _) =>
        var id := s.calls[c].id;
        MovesKeep(l, m, c, if Unspent(s.tokens, id) then Some(id) else None, {}, false);
      case Issue(c, row) => MovesKeep(l, m, c, None, {row.id}, true);
      case _ => QuietStep(s, step);
    }
  }

  lemma {:induction false} ChainsStep(s: State, step: Step)
    requires Chains(s) && Enabled(s, step)
    ensures Chains(Next(s, step))
  {
    var t := Next(s, step);
    assert forall p :: p in s.history ==> p in t.history;
  }

  lemma {:induction false} SuccessorsStep(s: State, step: Step)
    requires Successors(s) && Enabled(s, step)
    ensures Successors(Next(s, step))
  {
  }

  lemma {:induction false} Invariant(s: State, steps: seq<Step>)
    requires Sound(LedgerOf(s)) && Chains(s) && Successors(s) && CanRun(s, steps)
    ensures var t := Run(s, steps); Sound(LedgerOf(t)) && Chains(t) && Successors(t)
    decreases |steps|
  {
    if steps == [] {
    } else {
      LedgerStep(s, steps[0]);
      ChainsStep(s, steps[0]);
      SuccessorsStep(s, steps[0]);
      Invariant(Next(s, steps[0]), steps[1..]);
    }
  }

  // ---------- theorems ----------

  /** In every interleaving a refresh token yields at most one successor, and a
      session succeeds at most one token: rotation forms chains. */
  lemma {:induction false} RotationFormsChains(steps: seq<Step>, i: nat, j: nat)
    requires CanRun(INIT, steps)
    requires i < |Run(INIT, steps).history| && j < |Run(INIT, steps).history|
    ensures var h := Run(INIT, steps).history;
            (h[i].from == h[j].from <==> i == j) && (h[i].to == h[j].to <==> i == j)
  {
    Invariant(INIT, steps);
    var s := Run(INIT, steps);
    assert LedgerOf(s).traded[i] == s.history[i].from && LedgerOf(s).traded[j] == s.history[j].from;
  }

  /** The chain a row records is its one successor. */
  lemma {:induction false} RecordedSuccessorIsTheOne(steps: seq<Step>, id: string, i: nat)
    requires CanRun(INIT, steps) && i < |Run(INIT, steps).history|
    requires id in Run(INIT, steps).tokens && Run(INIT, steps).tokens[id].rotatedTo.Some?
    requires Run(INIT, steps).history[i].from == id
    ensures Run(INIT, steps).tokens[id].rotatedTo == Some(Run(INIT, steps).history[i].to)
  {
    Invariant(INIT, steps);
    var s := Run(INIT, steps);
    var j :| 0 <= j < |s.history| && s.history[j] == Succession(id, s.tokens[id].rotatedTo.value);
    RotationFormsChains(steps, i, j);
  }

  /** A token that was traded is revoked for good: no later step reopens it. */
  lemma {:induction false} TradedStaysSpent(steps: seq<Step>, i: nat)
    requires CanRun(INIT, steps) && i < |Run(INIT, steps).history|
    ensures !Unspent(Run(INIT, steps).tokens, Run(INIT, steps).history[i].from)
  {
    Invariant(INIT, steps);
    var s := Run(INIT, steps);
    assert LedgerOf(s).traded[i] == s.history[i].from;
    assert s.history[i].from in LedgerOf(s).traded && s.history[i].from !in LedgerOf(s).open;
  }

  // ---------- a call by itself ----------

  lemma {:induction false} RunCons(s: State, step: Step, rest: seq<Step>)
    requires Enabled(s, step) && CanRun(Next(s, step), rest)
    ensures CanRun(s, [step] + rest) && Run(s, [step] + rest) == Run(Next(s, step), rest)
  {
    assert ([step] + rest)[1..] == rest;
  }

  /** The statements of a refresh of a live token, in order. */
  function Refreshing(c: nat, id: string, row: TokenRow, now: int): seq<Step> {
    [BeginRefresh(id, now)] + ([Consume(c, now)] + ([Step.Issue(c, row)] + [SetRotatedTo(c)]))
  }

  /** With no other call in between, they do what the call does as one step. */
  lemma {:induction false} RefreshAlone(s: State, id: string, w: World, users: set<string>)
    requires Keyed(s.tokens) && id in s.tokens && IsActive(s.tokens[id], w.now) && s.tokens[id].user in users
    requires w.fault == NoFault && w.newId !in s.used && w.newId !in s.tokens && !HasHash(s.tokens, w.newHash)
    ensures var steps := Refreshing(|s.calls|, id, FreshRow(s.tokens[id].user, w), w.now);
            && CanRun(s, steps)
            && Run(s, steps).tokens == Refresh(Db(s.tokens, users), s.tokens[id].hash, w).0.tokens
            && Run(s, steps).calls == s.calls + [Over]
            && Run(s, steps).history == s.history + [Succession(id, w.newId)]
  {
    var c, row := |s.calls|, FreshRow(s.tokens[id].user, w);
    var read := Next(s, BeginRefresh(id, w.now));
    var won := Next(read, Consume(c, w.now));
    var issued := Next(won, Step.Issue(c, row));
    RunCons(issued, SetRotatedTo(c), []);
    RunCons(won, Step.Issue(c, row), [SetRotatedTo(c)]);
    RunCons(read, Consume(c, w.now), [Step.Issue(c, row)] + [SetRotatedTo(c)]);
    RunCons(s, BeginRefresh(id, w.now), [Consume(c, w.now)] + ([Step.Issue(c, row)] + [SetRotatedTo(c)]));
    SelectedByHash(s.tokens, id);
    var spent := Revoked(s.tokens, id, w.now);
    assert spent[id].hash == s.tokens[id].hash;
    assert !HasHash(spent, w.newHash);
    assert Next(issued, SetRotatedTo(c)).calls == s.calls + [Over];
  }

  lemma {:induction false} SelectedByHash(ts: Tokens, id: string)
    requires Keyed(ts) && id in ts
    ensures ByHash(ts, ts[id].hash) == Some(ts[id])
  {
    assert HasHash(ts, ts[id].hash);
  }

  /** The statements of a replay: the judgment, and the family response where
      it is due. */
  function Replaying(c: nat, id: string, now: int, due: bool): seq<Step> {
    [BeginRefresh(id, now)] + ([JudgeReplay(c)] + if due then [Step.RevokeFamily(c)] else [])
  }

  lemma {:induction false} ReplayAlone(s: State, id: string, w: World, users: set<string>)
    requires Keyed(s.tokens) && id in s.tokens && !IsActive(s.tokens[id], w.now) && w.fault == NoFault
    ensures var due := Judged(s.tokens, id, w.now).FamilyDue?;
            var steps := Replaying(|s.calls|, id, w.now, due);
            && CanRun(s, steps)
            && Run(s, steps).tokens == Refresh(Db(s.tokens, users), s.tokens[id].hash, w).0.tokens
            && Run(s, steps).calls == s.calls + [Over]
            && Run(s, steps).history == s.history
  {
    var c, due := |s.calls|, Judged(s.tokens, id, w.now).FamilyDue?;
    SelectedByHash(s.tokens, id);
    var inactive := Next(s, BeginRefresh(id, w.now));
    var judged := Next(inactive, JudgeReplay(c));
    assert judged.calls == s.calls + [Judged(s.tokens, id, w.now)];
    if due {
      RunCons(judged, Step.RevokeFamily(c), []);
      assert Next(judged, Step.RevokeFamily(c)).calls == s.calls + [Over];
      RunCons(inactive, JudgeReplay(c), [Step.RevokeFamily(c)]);
      RunCons(s, BeginRefresh(id, w.now), [JudgeReplay(c)] + [Step.RevokeFamily(c)]);
    } else {
      RunCons(inactive, JudgeReplay(c), []);
      RunCons(s, BeginRefresh(id, w.now), [JudgeReplay(c)] + []);
    }
  }

  lemma {:induction false} LogoutAlone(s: State, id: string, w: World, users: set<string>)
    requires Keyed(s.tokens) && id in s.tokens && IsActive(s.tokens[id], w.now) && w.fault == NoFault
    ensures var steps := [BeginLogout(id, w.now)] + [LogoutRevoke(|s.calls|, w.now)];
            && CanRun(s, steps)
            && Run(s, steps).tokens == Logout(Db(s.tokens, users), s.tokens[id].hash, w).0.tokens
  {
    SelectedByHash(s.tokens, id);
    var read := Next(s, BeginLogout(id, w.now));
    RunCons(read, LogoutRevoke(|s.calls|, w.now), []);
    RunCons(s, BeginLogout(id, w.now), [LogoutRevoke(|s.calls|, w.now)]);
  }

  /** A purge is one statement, whatever calls are under way. */
  lemma {:induction false} PurgeAlone(s: State, now: int, id: string)
    ensures Enabled(s, Purge(now)) && Next(s, Purge(now)) == s.(tokens := Next(s, Purge(now)).tokens)
    ensures var after := Next(s, Purge(now)).tokens;
            && (id in after <==> id in s.tokens && now <= s.tokens[id].expiresAt)
            && (id in after ==> after[id] == s.tokens[id])
  {
  }

  /** A logout of a session that does not live ends after the read. */
  lemma {:induction false} LogoutRefusedAlone(s: State, id: string, w: World, users: set<string>)
    requires Keyed(s.tokens) && id in s.tokens && !IsActive(s.tokens[id], w.now) && w.fault == NoFault
    ensures Next(s, BeginLogout(id, w.now)) == s.(calls := s.calls + [Over])
    ensures Logout(Db(s.tokens, users), s.tokens[id].hash, w).0.tokens == s.tokens
  {
    SelectedByHash(s.tokens, id);
  }
}
