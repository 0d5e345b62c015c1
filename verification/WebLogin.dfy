/**
 The web login flow with every store statement a separate step
 (crates/pocox-auth/src/lib.rs, `web_start`, `web_callback`, `web_exchange`,
 over crates/pocox-store/src/web.rs): callbacks and exchanges interleave.
 */
module WebLogin {
  import opened Text
  import opened SingleUse

  datatype FlowRow = FlowRow(state: string, challenge: string, expiresAt: int, consumedAt: Option<int>)

  datatype CodeRow = CodeRow(flow: string, challenge: string, expiresAt: int, consumedAt: Option<int>)

  /** A single-use row: a started flow, or an exchange code. */
  datatype Ticket = Flow(id: string) | Code(id: string)

  /** Where a call is between two of its statements. */
  datatype Call =
    | CallbackRead(flow: string)
    | CallbackWon(flow: string, challenge: string)
    | ExchangeRead(code: string, verifier: string)   // active, verifier accepted
    | ExchangeWon(code: string, verifier: string)
    | Over

  /** What a consumed row was traded for. */
  datatype Product =
    | CodeIssued(flow: string, code: string)
    | SessionIssued(code: string, verifier: string)

  /** `states` and `challenges` record what each flow was started with, and
      `origins` the flow each code came from; they outlive the rows. */
  datatype State = State(
    flows: map<string, FlowRow>,
    codes: map<string, CodeRow>,
    calls: seq<Call>,
    states: map<string, string>,
    challenges: map<string, string>,
    origins: map<string, string>,
    products: seq<Product>)

  const INIT := State(map[], map[], [], map[], map[], map[], [])

  datatype Step =
    | WebStart(flow: string, state: string, challenge: string, expiresAt: int)
    | BeginCallback(flow: string, state: string, now: int)
    | ConsumeFlow(c: nat, now: int)
    | IssueCode(c: nat, code: string, expiresAt: int)
    | BeginExchange(code: string, verifier: string, now: int)
    | ConsumeCode(c: nat, now: int)
    | IssueSession(c: nat)
    | GiveUp(c: nat)
    | Purge(now: int)

  /** Flow ids, states and codes are random: none is drawn twice. */
  predicate Enabled(s: State, step: Step) {
    match step
    case WebStart(flow, state, _, _) => flow !in s.states && forall f :: f in s.states ==> s.states[f] != state
    case BeginCallback(_, _, _) => true
    case ConsumeFlow(c, _) => c < |s.calls| && s.calls[c].CallbackRead?
    case IssueCode(c, code, _) => c < |s.calls| && s.calls[c].CallbackWon? && code !in s.origins
    case BeginExchange(_, _, _) => true
    case ConsumeCode(c, _) => c < |s.calls| && s.calls[c].ExchangeRead?
    case IssueSession(c) => c < |s.calls| && s.calls[c].ExchangeWon?
    case GiveUp(c) => c < |s.calls|
    case Purge(_) => true
  }

  predicate FlowUnspent(s: State, id: string) { id in s.flows && s.flows[id].consumedAt.None? }

  predicate CodeUnspent(s: State, id: string) { id in s.codes && s.codes[id].consumedAt.None? }

  /** `pkce` is `base64url(SHA-256(verifier))`. */
  function Next(pkce: string -> string, s: State, step: Step): State
    requires Enabled(s, step)
  {
    match step
    case WebStart(flow, state, challenge, expiresAt) =>
      s.(flows := s.flows[flow := FlowRow(state, challenge, expiresAt, None)],
         states := s.states[flow := state], challenges := s.challenges[flow := challenge])
    case BeginCallback(flow, state, now) =>
      var ok := FlowUnspent(s, flow) && s.flows[flow].state == state && s.flows[flow].expiresAt > now;
      s.(calls := s.calls + [if ok then CallbackRead(flow) else Over])
    case ConsumeFlow(c, now) =>
      var id := s.calls[c].flow;
      if !FlowUnspent(s, id) then s.(calls := s.calls[c := Over])
      else s.(flows := s.flows[id := s.flows[id].(consumedAt := Some(now))],
              calls := s.calls[c := CallbackWon(id, s.flows[id].challenge)])
    case IssueCode(c, code, expiresAt) =>
      var call := s.calls[c];
      s.(codes := s.codes[code := CodeRow(call.flow, call.challenge, expiresAt, None)],
         calls := s.calls[c := Over], origins := s.origins[code := call.flow],
         products := s.products + [CodeIssued(call.flow, code)])
    case BeginExchange(code, verifier, now) =>
      var ok := CodeUnspent(s, code) && s.codes[code].expiresAt > now && pkce(verifier) == s.codes[code].challenge;
      s.(calls := s.calls + [if ok then ExchangeRead(code, verifier) else Over])
    case ConsumeCode(c, now) =>
      var call := s.calls[c];
      if !CodeUnspent(s, call.code) then s.(calls := s.calls[c := Over])
      else s.(codes := s.codes[call.code := s.codes[call.code].(consumedAt := Some(now))],
              calls := s.calls[c := ExchangeWon(call.code, call.verifier)])
    case IssueSession(c) =>
      s.(calls := s.calls[c := Over],
         products := s.products + [SessionIssued(s.calls[c].code, s.calls[c].verifier)])
    case GiveUp(c) => s.(calls := s.calls[c := Over])
    case Purge(now) =>
      s.(flows := map id | id in s.flows && s.flows[id].expiresAt >= now :: s.flows[id],
         codes := map id | id in s.codes && s.codes[id].expiresAt >= now :: s.codes[id])
  }

  ghost predicate CanRun(pkce: string -> string, s: State, steps: seq<Step>)
    decreases |steps|
  {
    steps == [] || (Enabled(s, steps[0]) && CanRun(pkce, Next(pkce, s, steps[0]), steps[1..]))
  }

  ghost function Run(pkce: string -> string, s: State, steps: seq<Step>): State
    requires CanRun(pkce, s, steps)
    decreases |steps|
  {
    if steps == [] then s else Run(pkce, Next(pkce, s, steps[0]), steps[1..])
  }

  // ---------- single use ----------

  function HeldBy(call: Call): Option<Ticket> {
    match call
    case CallbackWon(flow, _) => Some(Flow(flow))
    case ExchangeWon(code, _) => Some(Code(code))
    case _ => None
  }

  function Spends(p: Product): Ticket {
    match p case CodeIssued(flow, _) => Flow(flow) case SessionIssued(code, _) => Code(code)
  }

  ghost function LedgerOf(s: State): Ledger<Ticket> {
    Ledger((set id | id in s.flows && s.flows[id].consumedAt.None? :: Flow(id))
           + (set id | id in s.codes && s.codes[id].consumedAt.None? :: Code(id)),
           (set id | id in s.states :: Flow(id)) + (set id | id in s.origins :: Code(id)),
           seq(|s.calls|, c requires 0 <= c < |s.calls| => HeldBy(s.calls[c])),
           seq(|s.products|, i requires 0 <= i < |s.products| => Spends(s.products[i])))
  }

  lemma {:induction false} QuietStep(pkce: string -> string, s: State, step: Step)
    requires Sound(LedgerOf(s)) && Enabled(s, step)
    requires step.BeginCallback? || step.BeginExchange? || step.GiveUp? || step.Purge?
    ensures Sound(LedgerOf(Next(pkce, s, step)))
  {
    MovesKeep(LedgerOf(s), LedgerOf(Next(pkce, s, step)),
              if step.GiveUp? then step.c else |s.calls|, None, {}, false);
  }

  lemma {:induction false} WinFlow(pkce: string -> string, s: State, step: Step)
    requires Sound(LedgerOf(s)) && Enabled(s, step) && step.ConsumeFlow?
    ensures Sound(LedgerOf(Next(pkce, s, step)))
  {
    var id := s.calls[step.c].flow;
    MovesKeep(LedgerOf(s), LedgerOf(Next(pkce, s, step)), step.c,
              if FlowUnspent(s, id) then Some(Flow(id)) else None, {}, false);
  }

  lemma {:induction false} WinCode(pkce: string -> string, s: State, step: Step)
    requires Sound(LedgerOf(s)) && Enabled(s, step) && step.ConsumeCode?
    ensures Sound(LedgerOf(Next(pkce, s, step)))
  {
    var id := s.calls[step.c].code;
    MovesKeep(LedgerOf(s), LedgerOf(Next(pkce, s, step)), step.c,
              if CodeUnspent(s, id) then Some(Code(id)) else None, {}, false);
  }

  lemma {:induction false} TradeFlow(pkce: string -> string, s: State, step: Step)
    requires Sound(LedgerOf(s)) && Enabled(s, step) && step.IssueCode?
    ensures Sound(LedgerOf(Next(pkce, s, step)))
  {
    MovesKeep(LedgerOf(s), LedgerOf(Next(pkce, s, step)), step.c, None, {Code(step.code)}, true);
  }

  lemma {:induction false} TradeCode(pkce: string -> string, s: State, step: Step)
    requires Sound(LedgerOf(s)) && Enabled(s, step) && step.IssueSession?
    ensures Sound(LedgerOf(Next(pkce, s, step)))
  {
    MovesKeep(LedgerOf(s), LedgerOf(Next(pkce, s, step)), step.c, None, {}, true);
  }

  lemma {:induction false} LedgerStep(pkce: string -> string, s: State, step: Step)
    requires Sound(LedgerOf(s)) && Enabled(s, step)
    ensures Sound(LedgerOf(Next(pkce, s, step)))
  {
    if step.WebStart? {
      MovesKeep(LedgerOf(s), LedgerOf(Next(pkce, s, step)), |s.calls|, None, {Flow(step.flow)}, false);
    } else if step.ConsumeFlow? {
      WinFlow(pkce, s, step);
    } else if step.ConsumeCode? {
      WinCode(pkce, s, step);
    } else if step.IssueCode? {
      TradeFlow(pkce, s, step);
    } else if step.IssueSession? {
      TradeCode(pkce, s, step);
    } else {
      QuietStep(pkce, s, step);
    }
  }

  // ---------- the challenge travels with the login ----------

  ghost predicate RowsAgree(s: State) {
    && (forall id :: id in s.flows ==>
          id in s.states && id in s.challenges && s.flows[id].challenge == s.challenges[id]
          && s.flows[id].state == s.states[id])
    && (forall id :: id in s.codes ==>
          id in s.origins && s.codes[id].flow == s.origins[id]
          && s.origins[id] in s.challenges && s.codes[id].challenge == s.challenges[s.origins[id]])
    && s.challenges.Keys == s.states.Keys
    && (forall f, g :: f in s.states && g in s.states && s.states[f] == s.states[g] ==> f == g)
  }

  /** The verifier of an exchange answers the challenge of the flow its code
      came from. */
  ghost predicate Answers(pkce: string -> string, s: State, code: string, verifier: string) {
    code in s.origins && s.origins[code] in s.challenges && pkce(verifier) == s.challenges[s.origins[code]]
  }

  ghost predicate CallAgrees(pkce: string -> string, s: State, call: Call) {
    match call
    case CallbackRead(flow) => flow in s.challenges
    case CallbackWon(flow, challenge) => flow in s.challenges && s.challenges[flow] == challenge
    case ExchangeRead(code, verifier) => Answers(pkce, s, code, verifier)
    case ExchangeWon(code, verifier) => Answers(pkce, s, code, verifier)
    case Over => true
  }

  ghost predicate ProductAgrees(pkce: string -> string, s: State, p: Product) {
    match p
    case CodeIssued(flow, code) => flow in s.states && code in s.origins && s.origins[code] == flow
    case SessionIssued(code, verifier) => Answers(pkce, s, code, verifier)
  }

  ghost predicate Agrees(pkce: string -> string, s: State) {
    && RowsAgree(s)
    && (forall c :: 0 <= c < |s.calls| ==> CallAgrees(pkce, s, s.calls[c]))
    && (forall i :: 0 <= i < |s.products| ==> ProductAgrees(pkce, s, s.products[i]))
  }

  /** What was recorded about logins is never rewritten. */
  ghost predicate Recorded(s: State, t: State) {
    && (forall f :: f in s.states ==> f in t.states && t.states[f] == s.states[f])
    && (forall f :: f in s.challenges ==> f in t.challenges && t.challenges[f] == s.challenges[f])
    && (forall c :: c in s.origins ==> c in t.origins && t.origins[c] == s.origins[c])
  }

  lemma {:induction false} RecordedStep(pkce: string -> string, s: State, step: Step)
    requires RowsAgree(s) && Enabled(s, step)
    ensures Recorded(s, Next(pkce, s, step))
  {
    if step.WebStart? {
      StartRecorded(pkce, s, step);
    } else if step.IssueCode? {
      CodeRecorded(pkce, s, step);
    } else {
      OnlyConsumes(pkce, s, step);
    }
  }

  lemma {:induction false} StartRecorded(pkce: string -> string, s: State, step: Step)
    requires RowsAgree(s) && Enabled(s, step) && step.WebStart?
    ensures Recorded(s, Next(pkce, s, step))
  {
    assert step.flow !in s.challenges;
  }

  lemma {:induction false} CodeRecorded(pkce: string -> string, s: State, step: Step)
    requires Enabled(s, step) && step.IssueCode?
    ensures Recorded(s, Next(pkce, s, step))
  {
  }

  /** No row is new, and only consumption times differ. */
  ghost predicate OnlyConsumed(s: State, t: State) {
    && t.states == s.states && t.challenges == s.challenges && t.origins == s.origins
    && (forall id :: id in t.flows ==>
          id in s.flows && t.flows[id] == s.flows[id].(consumedAt := t.flows[id].consumedAt))
    && (forall id :: id in t.codes ==>
          id in s.codes && t.codes[id] == s.codes[id].(consumedAt := t.codes[id].consumedAt))
  }

  lemma {:induction false} OnlyConsumes(pkce: string -> string, s: State, step: Step)
    requires Enabled(s, step) && !step.WebStart? && !step.IssueCode?
    ensures OnlyConsumed(s, Next(pkce, s, step))
  {
    if step.ConsumeFlow? {
      ConsumeFlowOnly(pkce, s, step);
    } else if step.ConsumeCode? {
      ConsumeCodeOnly(pkce, s, step);
    }
  }

  lemma {:induction false} ConsumeFlowOnly(pkce: string -> string, s: State, step: Step)
    requires Enabled(s, step) && step.ConsumeFlow?
    ensures OnlyConsumed(s, Next(pkce, s, step))
  {
  }

  lemma {:induction false} ConsumeCodeOnly(pkce: string -> string, s: State, step: Step)
    requires Enabled(s, step) && step.ConsumeCode?
    ensures OnlyConsumed(s, Next(pkce, s, step))
  {
  }

  lemma {:induction false} RowsKept(s: State, t: State)
    requires RowsAgree(s) && OnlyConsumed(s, t)
    ensures RowsAgree(t)
  {
  }

  lemma {:induction false} FlowAdded(s: State, t: State, flow: string, row: FlowRow)
    requires RowsAgree(s) && flow !in s.states && forall f :: f in s.states ==> s.states[f] != row.state
    requires t.flows == s.flows[flow := row] && t.states == s.states[flow := row.state]
    requires t.challenges == s.challenges[flow := row.challenge] && t.codes == s.codes && t.origins == s.origins
    ensures RowsAgree(t)
  {
  }

  lemma {:induction false} CodeAdded(s: State, t: State, code: string, row: CodeRow)
    requires RowsAgree(s) && code !in s.origins
    requires row.flow in s.challenges && row.challenge == s.challenges[row.flow]
    requires t.codes == s.codes[code := row] && t.origins == s.origins[code := row.flow]
    requires t.flows == s.flows && t.states == s.states && t.challenges == s.challenges
    ensures RowsAgree(t)
  {
  }

  lemma {:induction false} RowsStep(pkce: string -> string, s: State, step: Step)
    requires RowsAgree(s) && Enabled(s, step)
    requires step.IssueCode? ==> CallAgrees(pkce, s, s.calls[step.c])
    ensures RowsAgree(Next(pkce, s, step))
  {
    var t := Next(pkce, s, step);
    if step.WebStart? {
      FlowAdded(s, t, step.flow, t.flows[step.flow]);
    } else if step.IssueCode? {
      CodeAdded(s, t, step.code, t.codes[step.code]);
    } else {
      OnlyConsumes(pkce, s, step);
      RowsKept(s, t);
    }
  }

  lemma {:induction false} CallKept(pkce: string -> string, s: State, t: State, call: Call)
    requires Recorded(s, t) && CallAgrees(pkce, s, call)
    ensures CallAgrees(pkce, t, call)
  {
  }

  /** The call a step leaves where it moved one. */
  lemma {:induction false} CallMoved(pkce: string -> string, s: State, step: Step, c: nat)
    requires RowsAgree(s) && Enabled(s, step) && c < |Next(pkce, s, step).calls|
    requires step.ConsumeCode? ==> CallAgrees(pkce, s, s.calls[step.c])
    requires c >= |s.calls| || Next(pkce, s, step).calls[c] != s.calls[c]
    ensures CallAgrees(pkce, s, Next(pkce, s, step).calls[c])
  {
    if step.BeginCallback? || step.BeginExchange? {
      CallBegun(pkce, s, step, c);
    } else if step.ConsumeFlow? {
      FlowWon(pkce, s, step, c);
    } else if step.ConsumeCode? {
      CodeWon(pkce, s, step, c);
    }
  }

  lemma {:induction false} CallBegun(pkce: string -> string, s: State, step: Step, c: nat)
    requires RowsAgree(s) && Enabled(s, step) && (step.BeginCallback? || step.BeginExchange?)
    requires |s.calls| <= c < |Next(pkce, s, step).calls|
    ensures CallAgrees(pkce, s, Next(pkce, s, step).calls[c])
  {
  }

  lemma {:induction false} FlowWon(pkce: string -> string, s: State, step: Step, c: nat)
    requires RowsAgree(s) && Enabled(s, step) && step.ConsumeFlow? && c < |Next(pkce, s, step).calls|
    requires Next(pkce, s, step).calls[c] != s.calls[c]
    ensures CallAgrees(pkce, s, Next(pkce, s, step).calls[c])
  {
  }

  lemma {:induction false} CodeWon(pkce: string -> string, s: State, step: Step, c: nat)
    requires RowsAgree(s) && Enabled(s, step) && step.ConsumeCode? && c < |Next(pkce, s, step).calls|
    requires CallAgrees(pkce, s, s.calls[step.c]) && Next(pkce, s, step).calls[c] != s.calls[c]
    ensures CallAgrees(pkce, s, Next(pkce, s, step).calls[c])
  {
  }

  lemma {:induction false} CallStep(pkce: string -> string, s: State, step: Step, c: nat)
    requires Agrees(pkce, s) && Enabled(s, step) && c < |Next(pkce, s, step).calls|
    ensures CallAgrees(pkce, Next(pkce, s, step), Next(pkce, s, step).calls[c])
  {
    var t := Next(pkce, s, step);
    RecordedStep(pkce, s, step);
    if c >= |s.calls| || t.calls[c] != s.calls[c] {
      CallMoved(pkce, s, step, c);
    }
    CallKept(pkce, s, t, t.calls[c]);
  }

  lemma {:induction false} ProductKept(pkce: string -> string, s: State, t: State, p: Product)
    requires Recorded(s, t) && ProductAgrees(pkce, s, p)
    ensures ProductAgrees(pkce, t, p)
  {
  }

  lemma {:induction false} ProductStep(pkce: string -> string, s: State, step: Step, i: nat)
    requires Agrees(pkce, s) && Enabled(s, step) && i < |Next(pkce, s, step).products|
    ensures ProductAgrees(pkce, Next(pkce, s, step), Next(pkce, s, step).products[i])
  {
    var t := Next(pkce, s, step);
    RecordedStep(pkce, s, step);
    if i < |s.products| {
      assert t.products[i] == s.products[i];
      ProductKept(pkce, s, t, s.products[i]);
    } else {
      assert CallAgrees(pkce, s, s.calls[step.c]);
    }
  }

  lemma {:induction false} AgreesStep(pkce: string -> string, s: State, step: Step)
    requires Agrees(pkce, s) && Enabled(s, step)
    ensures Agrees(pkce, Next(pkce, s, step))
  {
    var t := Next(pkce, s, step);
    assert step.IssueCode? ==> CallAgrees(pkce, s, s.calls[step.c]);
    RowsStep(pkce, s, step);
    forall c | 0 <= c < |t.calls| ensures CallAgrees(pkce, t, t.calls[c]) { CallStep(pkce, s, step, c); }
    forall i | 0 <= i < |t.products| ensures ProductAgrees(pkce, t, t.products[i]) {
      ProductStep(pkce, s, step, i);
    }
  }

  /** Every code was issued to the flow it is recorded under. */
  ghost predicate CodesIssued(s: State) {
    forall code :: code in s.origins ==> CodeIssued(s.origins[code], code) in s.products
  }

  lemma {:induction false} CodesIssuedStep(pkce: string -> string, s: State, step: Step)
    requires CodesIssued(s) && Enabled(s, step)
    ensures CodesIssued(Next(pkce, s, step))
  {
    var t := Next(pkce, s, step);
    if step.IssueCode? {
      CodeIssuedLast(pkce, s, step);
    } else {
      ProductsGrow(pkce, s, step);
    }
    forall p | p in s.products ensures p in t.products {
      var i :| 0 <= i < |s.products| && s.products[i] == p;
      assert t.products[i] == p;
    }
  }

  lemma {:induction false} CodeIssuedLast(pkce: string -> string, s: State, step: Step)
    requires Enabled(s, step) && step.IssueCode?
    ensures var t, issued := Next(pkce, s, step), CodeIssued(s.calls[step.c].flow, step.code);
            && t.products == s.products + [issued] && issued in t.products
            && t.origins == s.origins[step.code := s.calls[step.c].flow]
  {
    var t := Next(pkce, s, step);
    assert t.products[|s.products|] == CodeIssued(s.calls[step.c].flow, step.code);
  }

  lemma {:induction false} ProductsGrow(pkce: string -> string, s: State, step: Step)
    requires Enabled(s, step) && !step.IssueCode?
    ensures var t := Next(pkce, s, step);
            s.products <= t.products && t.origins == s.origins
  {
    if step.IssueSession? {
      SessionIssuedLast(pkce, s, step);
    } else {
      ProductsSame(pkce, s, step);
    }
  }

  lemma {:induction false} SessionIssuedLast(pkce: string -> string, s: State, step: Step)
    requires Enabled(s, step) && step.IssueSession?
    ensures var t := Next(pkce, s, step);
            s.products <= t.products && t.origins == s.origins
  {
  }

  lemma {:induction false} ProductsSame(pkce: string -> string, s: State, step: Step)
    requires Enabled(s, step) && !step.IssueCode? && !step.IssueSession?
    ensures var t := Next(pkce, s, step);
            t.products == s.products && t.origins == s.origins
  {
  }

  lemma {:induction false} Invariant(pkce: string -> string, s: State, steps: seq<Step>)
    requires Sound(LedgerOf(s)) && Agrees(pkce, s) && CodesIssued(s) && CanRun(pkce, s, steps)
    ensures Sound(LedgerOf(Run(pkce, s, steps))) && Agrees(pkce, Run(pkce, s, steps))
    ensures CodesIssued(Run(pkce, s, steps))
    decreases |steps|
  {
    if steps == [] {
    } else {
      LedgerStep(pkce, s, steps[0]);
      AgreesStep(pkce, s, steps[0]);
      CodesIssuedStep(pkce, s, steps[0]);
      Invariant(pkce, Next(pkce, s, steps[0]), steps[1..]);
    }
  }

  // ---------- theorems ----------

  /** Different products spend different logins and yield different results. */
  ghost predicate Apart(s: State, p: Product, q: Product) {
    match (p, q)
    case (CodeIssued(f, a), CodeIssued(g, b)) =>
      f in s.states && g in s.states && s.states[f] != s.states[g] && a != b
    case (SessionIssued(a, _), SessionIssued(b, _)) => a != b
    case _ => true
  }

  lemma {:induction false} ProductsApart(pkce: string -> string, s: State, i: nat, j: nat)
    requires Sound(LedgerOf(s)) && Agrees(pkce, s) && i < |s.products| && j < |s.products| && i != j
    ensures Apart(s, s.products[i], s.products[j])
  {
    var l := LedgerOf(s);
    assert l.traded[i] == Spends(s.products[i]) && l.traded[j] == Spends(s.products[j]);
    assert l.traded[i] != l.traded[j];
    assert ProductAgrees(pkce, s, s.products[i]) && ProductAgrees(pkce, s, s.products[j]);
  }

  /** In every interleaving a login state yields at most one exchange code, and
      an exchange code at most one session. */
  lemma {:induction false} OneProductPerTicket(pkce: string -> string, steps: seq<Step>, i: nat, j: nat)
    requires CanRun(pkce, INIT, steps) && i < j < |Run(pkce, INIT, steps).products|
    ensures var s := Run(pkce, INIT, steps); Apart(s, s.products[i], s.products[j])
  {
    Invariant(pkce, INIT, steps);
    ProductsApart(pkce, Run(pkce, INIT, steps), i, j);
  }

  /** A session comes only from a verifier that answers the challenge its login
      was started with. */
  lemma {:induction false} SessionNeedsVerifier(pkce: string -> string, steps: seq<Step>, i: nat)
    requires CanRun(pkce, INIT, steps) && i < |Run(pkce, INIT, steps).products|
    requires Run(pkce, INIT, steps).products[i].SessionIssued?
    ensures var s := Run(pkce, INIT, steps);
            Answers(pkce, s, s.products[i].code, s.products[i].verifier)
  {
    Invariant(pkce, INIT, steps);
    var s := Run(pkce, INIT, steps);
    assert ProductAgrees(pkce, s, s.products[i]);
  }

  lemma {:induction false} SessionsApart(pkce: string -> string, s: State, i: nat, j: nat)
    requires Sound(LedgerOf(s)) && Agrees(pkce, s) && CodesIssued(s) && i < j < |s.products|
    requires s.products[i].SessionIssued? && s.products[j].SessionIssued?
    ensures var a, b := s.products[i].code, s.products[j].code;
            && a in s.origins && b in s.origins && s.origins[a] in s.states && s.origins[b] in s.states
            && s.states[s.origins[a]] != s.states[s.origins[b]]
  {
    assert ProductAgrees(pkce, s, s.products[i]) && ProductAgrees(pkce, s, s.products[j]);
    ProductsApart(pkce, s, i, j);
    var a, b := s.products[i].code, s.products[j].code;
    var m :| 0 <= m < |s.products| && s.products[m] == CodeIssued(s.origins[a], a);
    var n :| 0 <= n < |s.products| && s.products[n] == CodeIssued(s.origins[b], b);
    ProductsApart(pkce, s, m, n);
  }

  /** ... and so one login, from its state to its session, happens once. */
  lemma {:induction false} OneSessionPerLogin(pkce: string -> string, steps: seq<Step>, i: nat, j: nat)
    requires CanRun(pkce, INIT, steps) && i < j < |Run(pkce, INIT, steps).products|
    requires Run(pkce, INIT, steps).products[i].SessionIssued? && Run(pkce, INIT, steps).products[j].SessionIssued?
    ensures var s := Run(pkce, INIT, steps);
            var a, b := s.products[i].code, s.products[j].code;
            && a in s.origins && b in s.origins && s.origins[a] in s.states && s.origins[b] in s.states
            && s.states[s.origins[a]] != s.states[s.origins[b]]
  {
    Invariant(pkce, INIT, steps);
    SessionsApart(pkce, Run(pkce, INIT, steps), i, j);
  }
}
