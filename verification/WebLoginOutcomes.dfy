/**
 When a web login succeeds: exactly which callbacks and exchanges go ahead, a
 login that runs to its session, and the steps every issued code and session
 must have behind it.
 */
module WebLoginOutcomes {
  import opened Text
  import opened WebLogin

  // ---------- which calls go ahead ----------

  /** A callback goes ahead exactly for a started flow that is not consumed, was
      started with this state, and has not expired. It changes nothing yet. */
  lemma {:induction false} CallbackProceedsIff(pkce: string -> string, s: State, flow: string, state: string, now: int)
    ensures var t := Next(pkce, s, BeginCallback(flow, state, now));
            && t == s.(calls := t.calls) && |t.calls| == |s.calls| + 1 && s.calls <= t.calls
            && t.calls[|s.calls|] in {CallbackRead(flow), Over}
            && (t.calls[|s.calls|] == CallbackRead(flow) <==>
                  flow in s.flows && s.flows[flow].consumedAt == None && s.flows[flow].state == state
                  && now < s.flows[flow].expiresAt)
  {
  }

  /** An exchange goes ahead exactly for an issued code that is not redeemed, has
      not expired, and whose challenge the verifier answers. */
  lemma {:induction false} ExchangeProceedsIff(pkce: string -> string, s: State, code: string, verifier: string,
                                               now: int)
    ensures var t := Next(pkce, s, BeginExchange(code, verifier, now));
            && t == s.(calls := t.calls) && |t.calls| == |s.calls| + 1 && s.calls <= t.calls
            && t.calls[|s.calls|] in {ExchangeRead(code, verifier), Over}
            && (t.calls[|s.calls|] == ExchangeRead(code, verifier) <==>
                  code in s.codes && s.codes[code].consumedAt == None && now < s.codes[code].expiresAt
                  && s.codes[code].challenge == pkce(verifier))
  {
  }

  /** A purge removes exactly the rows whose expiry has passed. */
  lemma {:induction false} PurgeRemovesIff(pkce: string -> string, s: State, now: int, id: string)
    ensures var t := Next(pkce, s, Purge(now));
            && t == s.(flows := t.flows, codes := t.codes)
            && (id in t.flows <==> id in s.flows && now <= s.flows[id].expiresAt)
            && (id in t.codes <==> id in s.codes && now <= s.codes[id].expiresAt)
            && (id in t.flows ==> t.flows[id] == s.flows[id]) && (id in t.codes ==> t.codes[id] == s.codes[id])
  {
  }

  // ---------- a login that succeeds ----------

  lemma {:induction false} RunCons(pkce: string -> string, s: State, step: Step, rest: seq<Step>)
    requires Enabled(s, step) && CanRun(pkce, Next(pkce, s, step), rest)
    ensures CanRun(pkce, s, [step] + rest) && Run(pkce, s, [step] + rest) == Run(pkce, Next(pkce, s, step), rest)
  {
    assert ([step] + rest)[1..] == rest;
  }

  lemma {:induction false} RunJoin(pkce: string -> string, s: State, a: seq<Step>, b: seq<Step>)
    requires CanRun(pkce, s, a) && CanRun(pkce, Run(pkce, s, a), b)
    ensures CanRun(pkce, s, a + b) && Run(pkce, s, a + b) == Run(pkce, Run(pkce, s, a), b)
    decreases |a|
  {
    if a == [] {
      assert a + b == b;
    } else {
      assert (a + b)[1..] == a[1..] + b;
      RunJoin(pkce, Next(pkce, s, a[0]), a[1..], b);
    }
  }

  /** The callback of a flow, by a call of its own, up to its exchange code. */
  function CallingBack(c: nat, flow: string, state: string, now: int, code: string, expiresAt: int): seq<Step> {
    [BeginCallback(flow, state, now)] + ([ConsumeFlow(c, now)] + [IssueCode(c, code, expiresAt)])
  }

  function Exchanging(c: nat, code: string, verifier: string, now: int): seq<Step> {
    [BeginExchange(code, verifier, now)] + ([ConsumeCode(c, now)] + [IssueSession(c)])
  }

  /** In any state, a callback in time with the flow's state yields its code. */
  lemma {:induction false} CallbackIssues(pkce: string -> string, s: State, flow: string, state: string, now: int,
                                          code: string, expiresAt: int)
    requires flow in s.flows && s.flows[flow].consumedAt == None && s.flows[flow].state == state
    requires now < s.flows[flow].expiresAt && code !in s.origins
    ensures var steps := CallingBack(|s.calls|, flow, state, now, code, expiresAt);
            && CanRun(pkce, s, steps)
            && var t := Run(pkce, s, steps);
            && t.products == s.products + [CodeIssued(flow, code)]
            && code in t.codes && t.codes[code] == CodeRow(flow, s.flows[flow].challenge, expiresAt, None)
            && flow in t.flows && t.flows[flow].consumedAt == Some(now)
  {
    var c := |s.calls|;
    var read := Next(pkce, s, BeginCallback(flow, state, now));
    assert read.calls[c] == CallbackRead(flow);
    var won := Next(pkce, read, ConsumeFlow(c, now));
    assert won.calls[c] == CallbackWon(flow, s.flows[flow].challenge);
    RunCons(pkce, won, IssueCode(c, code, expiresAt), []);
    RunCons(pkce, read, ConsumeFlow(c, now), [IssueCode(c, code, expiresAt)]);
    RunCons(pkce, s, BeginCallback(flow, state, now), [ConsumeFlow(c, now)] + [IssueCode(c, code, expiresAt)]);
  }

  /** In any state, an exchange in time with an answering verifier yields a
      session. */
  lemma {:induction false} ExchangeIssues(pkce: string -> string, s: State, code: string, verifier: string, now: int)
    requires code in s.codes && s.codes[code].consumedAt == None && now < s.codes[code].expiresAt
    requires s.codes[code].challenge == pkce(verifier)
    ensures var steps := Exchanging(|s.calls|, code, verifier, now);
            && CanRun(pkce, s, steps)
            && var t := Run(pkce, s, steps);
            && t.products == s.products + [SessionIssued(code, verifier)]
            && code in t.codes && t.codes[code].consumedAt == Some(now)
  {
    var c := |s.calls|;
    var read := Next(pkce, s, BeginExchange(code, verifier, now));
    assert read.calls[c] == ExchangeRead(code, verifier);
    var won := Next(pkce, read, ConsumeCode(c, now));
    assert won.calls[c] == ExchangeWon(code, verifier);
    RunCons(pkce, won, IssueSession(c), []);
    RunCons(pkce, read, ConsumeCode(c, now), [IssueSession(c)]);
    RunCons(pkce, s, BeginExchange(code, verifier, now), [ConsumeCode(c, now)] + [IssueSession(c)]);
  }

  /** Whatever else has happened, a new login called back and exchanged in time
      by the client that started it ends in a session. */
  lemma {:induction false} LoginCompletes(pkce: string -> string, s: State, flow: string, state: string,
                                          verifier: string, flowEnd: int, calledBack: int, code: string, codeEnd: int,
                                          exchanged: int)
    returns (steps: seq<Step>)
    requires flow !in s.states && (forall f :: f in s.states ==> s.states[f] != state) && code !in s.origins
    requires calledBack < flowEnd && exchanged < codeEnd
    ensures CanRun(pkce, s, steps)
    ensures Run(pkce, s, steps).products == s.products + [CodeIssued(flow, code)] + [SessionIssued(code, verifier)]
  {
    var start := WebStart(flow, state, pkce(verifier), flowEnd);
    var begun := Next(pkce, s, start);
    var back := CallingBack(|begun.calls|, flow, state, calledBack, code, codeEnd);
    CallbackIssues(pkce, begun, flow, state, calledBack, code, codeEnd);
    var issued := Run(pkce, begun, back);
    var exchange := Exchanging(|issued.calls|, code, verifier, exchanged);
    ExchangeIssues(pkce, issued, code, verifier, exchanged);
    RunJoin(pkce, begun, back, exchange);
    RunCons(pkce, s, start, back + exchange);
    steps := [start] + (back + exchange);
  }

  // ---------- what lies behind every code and session ----------

  /** The flow was started, and called back with its state before it expired. */
  ghost predicate CalledBack(past: seq<Step>, flow: string) {
    exists state, challenge, expiresAt, now ::
      WebStart(flow, state, challenge, expiresAt) in past && BeginCallback(flow, state, now) in past && now < expiresAt
  }

  /** The code was issued, and presented with the verifier before it expired. */
  ghost predicate Presented(past: seq<Step>, code: string, verifier: string) {
    exists c, expiresAt, now ::
      IssueCode(c, code, expiresAt) in past && BeginExchange(code, verifier, now) in past && now < expiresAt
  }

  ghost predicate CallTrail(past: seq<Step>, call: Call) {
    match call
    case CallbackRead(flow) => CalledBack(past, flow)
    case CallbackWon(flow, _) => CalledBack(past, flow)
    case ExchangeRead(code, verifier) => Presented(past, code, verifier)
    case ExchangeWon(code, verifier) => Presented(past, code, verifier)
    case Over => true
  }

  ghost predicate ProductTrail(past: seq<Step>, p: Product) {
    match p
    case CodeIssued(flow, _) => CalledBack(past, flow)
    case SessionIssued(code, verifier) => Presented(past, code, verifier)
  }

  ghost predicate RowTrail(past: seq<Step>, s: State) {
    && (forall f :: f in s.flows ==>
          WebStart(f, s.flows[f].state, s.flows[f].challenge, s.flows[f].expiresAt) in past)
    && (forall k :: k in s.codes ==> exists c :: IssueCode(c, k, s.codes[k].expiresAt) in past)
  }

  ghost predicate Trail(past: seq<Step>, s: State) {
    && RowTrail(past, s)
    && (forall c :: 0 <= c < |s.calls| ==> CallTrail(past, s.calls[c]))
    && (forall i :: 0 <= i < |s.products| ==> ProductTrail(past, s.products[i]))
  }

  lemma {:induction false} TrailGrows(past: seq<Step>, step: Step, call: Call, p: Product)
    ensures CallTrail(past, call) ==> CallTrail(past + [step], call)
    ensures ProductTrail(past, p) ==> ProductTrail(past + [step], p)
  {
    forall e | e in past ensures e in past + [step] {}
  }

  lemma {:induction false} RowTrailStep(pkce: string -> string, past: seq<Step>, s: State, step: Step)
    requires RowTrail(past, s) && Enabled(s, step)
    ensures RowTrail(past + [step], Next(pkce, s, step))
  {
    var t, more := Next(pkce, s, step), past + [step];
    assert step in more;
    forall e | e in past ensures e in more {}
    if !step.WebStart? && !step.IssueCode? {
      OnlyConsumes(pkce, s, step);
    }
    forall k | k in t.codes ensures exists c :: IssueCode(c, k, t.codes[k].expiresAt) in more {
      if step.IssueCode? && k == step.code {
        assert IssueCode(step.c, k, t.codes[k].expiresAt) in more;
      } else {
        var c :| IssueCode(c, k, s.codes[k].expiresAt) in past;
        assert IssueCode(c, k, t.codes[k].expiresAt) in more;
      }
    }
  }

  /** A call that goes ahead has its trail. */
  lemma {:induction false} BegunTrail(pkce: string -> string, past: seq<Step>, s: State, step: Step)
    requires RowTrail(past, s) && (step.BeginCallback? || step.BeginExchange?)
    ensures CallTrail(past + [step], Next(pkce, s, step).calls[|s.calls|])
  {
    var more, call := past + [step], Next(pkce, s, step).calls[|s.calls|];
    assert step in more;
    forall e | e in past ensures e in more {}
    if call.CallbackRead? {
      var row := s.flows[step.flow];
      assert WebStart(step.flow, step.state, row.challenge, row.expiresAt) in more;
    } else if call.ExchangeRead? {
      var c :| IssueCode(c, step.code, s.codes[step.code].expiresAt) in past;
      assert IssueCode(c, step.code, s.codes[step.code].expiresAt) in more;
    }
  }

  lemma {:induction false} CallsGrow(pkce: string -> string, s: State, step: Step)
    requires Enabled(s, step)
    ensures |Next(pkce, s, step).calls|
         == |s.calls| + if step.BeginCallback? || step.BeginExchange? then 1 else 0
  {
  }

  lemma {:induction false} CallTrailStep(pkce: string -> string, past: seq<Step>, s: State, step: Step, c: nat)
    requires Trail(past, s) && Enabled(s, step) && c < |Next(pkce, s, step).calls|
    ensures CallTrail(past + [step], Next(pkce, s, step).calls[c])
  {
    CallsGrow(pkce, s, step);
    if c == |s.calls| {
      BegunTrail(pkce, past, s, step);
    } else {
      TrailGrows(past, step, s.calls[c], CodeIssued("", ""));
      SameTrail(pkce, past + [step], s, step, c);
    }
  }

  /** A call moves on for the same flow, code and verifier, or ends. */
  predicate MovesOn(before: Call, after: Call) {
    || after == before || after == Over
    || (before.CallbackRead? && after.CallbackWon? && after.flow == before.flow)
    || (before.ExchangeRead? && after.ExchangeWon? && after.code == before.code && after.verifier == before.verifier)
  }

  lemma {:induction false} CallMovesOn(pkce: string -> string, s: State, step: Step, c: nat)
    requires Enabled(s, step) && c < |s.calls|
    ensures MovesOn(s.calls[c], Next(pkce, s, step).calls[c])
  {
  }

  lemma {:induction false} SameTrail(pkce: string -> string, past: seq<Step>, s: State, step: Step, c: nat)
    requires Enabled(s, step) && c < |s.calls| && CallTrail(past, s.calls[c])
    ensures CallTrail(past, Next(pkce, s, step).calls[c])
  {
    CallMovesOn(pkce, s, step, c);
  }

  /** A product is what its call was about. */
  lemma {:induction false} ProductOfCall(pkce: string -> string, s: State, step: Step)
    requires Enabled(s, step) && |Next(pkce, s, step).products| > |s.products|
    ensures (step.IssueCode? || step.IssueSession?) && step.c < |s.calls|
    ensures Next(pkce, s, step).products
         == s.products + [if step.IssueCode? then CodeIssued(s.calls[step.c].flow, step.code)
                          else SessionIssued(s.calls[step.c].code, s.calls[step.c].verifier)]
  {
  }

  lemma {:induction false} ProductsKeep(pkce: string -> string, s: State, step: Step)
    requires Enabled(s, step)
    ensures s.products <= Next(pkce, s, step).products
  {
  }

  lemma {:induction false} ProductTrailStep(pkce: string -> string, past: seq<Step>, s: State, step: Step, i: nat)
    requires Trail(past, s) && Enabled(s, step) && i < |Next(pkce, s, step).products|
    ensures ProductTrail(past + [step], Next(pkce, s, step).products[i])
  {
    if i < |s.products| {
      ProductsKeep(pkce, s, step);
      TrailGrows(past, step, Over, s.products[i]);
    } else {
      ProductOfCall(pkce, s, step);
      TrailGrows(past, step, s.calls[step.c], CodeIssued("", ""));
    }
  }

  lemma {:induction false} TrailRun(pkce: string -> string, past: seq<Step>, s: State, steps: seq<Step>)
    requires Trail(past, s) && CanRun(pkce, s, steps)
    ensures Trail(past + steps, Run(pkce, s, steps))
    decreases |steps|
  {
    if steps == [] {
      assert past + steps == past;
    } else {
      var t := Next(pkce, s, steps[0]);
      RowTrailStep(pkce, past, s, steps[0]);
      forall c | 0 <= c < |t.calls| ensures CallTrail(past + [steps[0]], t.calls[c]) {
        CallTrailStep(pkce, past, s, steps[0], c);
      }
      forall i | 0 <= i < |t.products| ensures ProductTrail(past + [steps[0]], t.products[i]) {
        ProductTrailStep(pkce, past, s, steps[0], i);
      }
      TrailRun(pkce, past + [steps[0]], t, steps[1..]);
      assert past + [steps[0]] + steps[1..] == past + steps;
    }
  }

  /** In every run, a code is issued only to a flow that was started and called
      back with its state before it expired ... */
  lemma {:induction false} CodeNeedsCallback(pkce: string -> string, steps: seq<Step>, i: nat)
    requires CanRun(pkce, INIT, steps) && i < |Run(pkce, INIT, steps).products|
    requires Run(pkce, INIT, steps).products[i].CodeIssued?
    ensures CalledBack(steps, Run(pkce, INIT, steps).products[i].flow)
  {
    TrailRun(pkce, [], INIT, steps);
    assert [] + steps == steps;
    assert ProductTrail(steps, Run(pkce, INIT, steps).products[i]);
  }

  /** ... and a session only for a code presented before it expired. */
  lemma {:induction false} SessionNeedsCode(pkce: string -> string, steps: seq<Step>, i: nat)
    requires CanRun(pkce, INIT, steps) && i < |Run(pkce, INIT, steps).products|
    requires Run(pkce, INIT, steps).products[i].SessionIssued?
    ensures var p := Run(pkce, INIT, steps).products[i]; Presented(steps, p.code, p.verifier)
  {
    TrailRun(pkce, [], INIT, steps);
    assert [] + steps == steps;
    assert ProductTrail(steps, Run(pkce, INIT, steps).products[i]);
  }
}
