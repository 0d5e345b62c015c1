/**
 What the JSON-RPC client is for: a request on an open connection is answered
 by the reply sent under its key, and every other outcome has its one cause.
 */
module RpcClientAnswers {
  import opened Text
  import opened RpcClient
  import opened RpcClientTheorems

  // ---------- every outcome has its cause ----------

  /** A step that gives a request its outcome. */
  ghost predicate Decides(s: State, step: Step, r: Request)
    requires Owned(s.table) && Enabled(s, step)
  {
    r < |s.phases| && !HasOutcome(s.phases[r])
    && r < |Next(s, step).phases| && HasOutcome(Next(s, step).phases[r])
  }

  /** An answer is a delivered reply received, a timeout a timeout, an abort an
      abort; and the connection is to blame for the rest: it was closed before
      the request registered or was written, its write broke, or its channel
      was refused. */
  lemma {:induction false} OutcomeIff(s: State, step: Step, r: Request)
    requires Inv(s) && Enabled(s, step) && Decides(s, step, r)
    ensures var o := Next(s, step).phases[r].o;
            && (forall i :: o == Answered(i) <==> step == Receive(r) && s.table.channels[r] == Delivered(i))
            && (o == TimedOut <==> step == Timeout(r))
            && (o == Aborted <==> step == Abort(r))
            && (o == ConnectionError <==>
                  || (step == Check(r) && s.closed)
                  || (step == WriteCancelled(r) && s.closed)
                  || step == BrokenDone(r)
                  || (step == Receive(r) && s.table.channels[r] == Refused))
  {
    if MovesOneRequest(step) {
      RequestMoves(s, step);
      if step.r == r {
        OwnOutcome(s, step);
      }
    } else if KeepsPhases(step) {
      PhasesKept(s, step);
    }
  }

  lemma {:induction false} OwnOutcome(s: State, step: Step)
    requires Owned(s.table) && Enabled(s, step) && MovesOneRequest(step) && Decides(s, step, step.r)
    ensures var r, o := step.r, Next(s, step).phases[step.r].o;
            && (forall i :: o == Answered(i) <==> step == Receive(r) && s.table.channels[r] == Delivered(i))
            && (o == TimedOut <==> step == Timeout(r)) && (o == Aborted <==> step == Abort(r))
            && (o == ConnectionError <==>
                  || (step == Check(r) && s.closed) || (step == WriteCancelled(r) && s.closed)
                  || step == BrokenDone(r) || (step == Receive(r) && s.table.channels[r] == Refused))
  {
    if step.Receive? {
      ReceivedOutcome(s, step.r);
    }
  }

  lemma {:induction false} ReceivedOutcome(s: State, r: Request)
    requires Owned(s.table) && Enabled(s, Receive(r))
    ensures Next(s, Receive(r)) == s.(phases := Next(s, Receive(r)).phases)
    ensures Next(s, Receive(r)).phases
         == s.phases[r := Finishing(match s.table.channels[r]
                                    case Delivered(i) => Answered(i)
                                    case _ => ConnectionError)]
  {
  }

  // ---------- a delivered reply is the answer ----------

  /** In every run, a waiting request whose channel holds a reply receives that
      reply, drops its registration, and is done with it. */
  lemma {:induction false} DeliveredIsAnswered(before: seq<Step>, r: Request, i: nat)
    requires CanRun(INIT, before) && In(Run(INIT, before), r, Waiting) && Run(INIT, before).lock.None?
    requires r < |Run(INIT, before).table.channels| && Run(INIT, before).table.channels[r] == Delivered(i)
    ensures CanRun(INIT, before + [Receive(r), DropGuard(r)])
    ensures var t := Run(INIT, before + [Receive(r), DropGuard(r)]);
            && r < |t.phases| && t.phases[r] == Done(Answered(i))
            && i < |t.replies| && t.replies[i].key == Key(r)
  {
    var s := Run(INIT, before);
    Reachable(before);
    ReceivesAndDrops(s, r, i);
    assert [Receive(r)] + [DropGuard(r)] == [Receive(r), DropGuard(r)];
    RunJoin(INIT, before, [Receive(r), DropGuard(r)]);
  }

  lemma {:induction false} ReceivesAndDrops(s: State, r: Request, i: nat)
    requires Owned(s.table) && s.lock.None? && In(s, r, Waiting)
    requires r < |s.table.channels| && s.table.channels[r] == Delivered(i)
    ensures CanRun(s, [Receive(r)] + [DropGuard(r)])
    ensures var t := Run(s, [Receive(r)] + [DropGuard(r)]);
            t.phases == s.phases[r := Done(Answered(i))] && t.replies == s.replies && t.closed == s.closed
  {
    ReceivedOutcome(s, r);
    var received := Next(s, Receive(r));
    RunCons(received, DropGuard(r), []);
    RunCons(s, Receive(r), [DropGuard(r)]);
    assert received.phases[r := Done(Answered(i))] == s.phases[r := Done(Answered(i))];
  }

  lemma {:induction false} RunJoin(s: State, before: seq<Step>, after: seq<Step>)
    requires CanRun(s, before) && CanRun(Run(s, before), after)
    ensures CanRun(s, before + after) && Run(s, before + after) == Run(Run(s, before), after)
    decreases |before|
  {
    if before == [] {
      assert before + after == after;
    } else {
      assert (before + after)[1..] == before[1..] + after;
      RunJoin(Next(s, before[0]), before[1..], after);
    }
  }

  // ---------- so a request on an open connection can be answered ----------

  /** Nobody stands in the way of a new request and its reply. */
  predicate Ready(s: State) { !s.closed && s.lock.None? && s.reading && s.hand.None? }

  function Asking(r: Request): seq<Step> { [Start] + ([Check(r)] + ([Insert(r)] + [WriteOk(r)])) }

  function Answering(r: Request, payload: Payload): seq<Step> {
    [Take(Reply(Key(r), payload))] + ([Send] + ([Receive(r)] + [DropGuard(r)]))
  }

  /** From any reachable state of an open connection a new request, written and
      replied to under its key, is answered by that reply, whatever else is
      pending and however often the counter has wrapped. */
  lemma {:induction false} OpenRequestAnswered(s: State, payload: Payload)
    requires Inv(s) && Ready(s)
    ensures var r := |s.phases|;
            var steps := Asking(r) + Answering(r, payload);
            && CanRun(s, steps)
            && var t := Run(s, steps);
            && |t.phases| == r + 1 && t.phases[r] == Done(Answered(|s.replies|))
            && t.replies == s.replies + [Reply(Key(r), payload)] && !t.closed
  {
    var r := |s.phases|;
    Asked(s);
    var asked := Run(s, Asking(r));
    InvRun(s, Asking(r));
    ReplyReceived(asked, r, payload);
    RunJoin(s, Asking(r), Answering(r, payload));
  }

  lemma {:induction false} Asked(s: State)
    requires Inv(s) && Ready(s)
    ensures var r := |s.phases|;
            && CanRun(s, Asking(r))
            && var t := Run(s, Asking(r));
            && Ready(t) && t.phases == s.phases + [Waiting] && t.replies == s.replies
            && Key(r) in t.table.pending && t.table.pending[Key(r)] == r
  {
    var r := |s.phases|;
    InvStep(s, Start);
    var started := Next(s, Start);
    Registers(started, r);
    RunCons(s, Start, [Check(r)] + ([Insert(r)] + [WriteOk(r)]));
    assert started.phases[r := Waiting] == s.phases + [Waiting];
  }

  lemma {:induction false} Registers(s: State, r: Request)
    requires Owned(s.table) && Ready(s) && In(s, r, Allocated) && r < |s.table.channels|
    ensures CanRun(s, [Check(r)] + ([Insert(r)] + [WriteOk(r)]))
    ensures var t := Run(s, [Check(r)] + ([Insert(r)] + [WriteOk(r)]));
            && Ready(t) && t.phases == s.phases[r := Waiting] && t.replies == s.replies
            && Key(r) in t.table.pending && t.table.pending[Key(r)] == r
  {
    var checked := Next(s, Check(r));
    var writing := Next(checked, Insert(r));
    RunCons(writing, WriteOk(r), []);
    RunCons(checked, Insert(r), [WriteOk(r)]);
    RunCons(s, Check(r), [Insert(r)] + [WriteOk(r)]);
    assert writing.phases[r := Waiting] == s.phases[r := Waiting];
  }

  lemma {:induction false} ReplyReceived(s: State, r: Request, payload: Payload)
    requires Inv(s) && Ready(s) && r + 1 == |s.phases| && s.phases[r] == Waiting
    requires Key(r) in s.table.pending && s.table.pending[Key(r)] == r
    ensures CanRun(s, Answering(r, payload))
    ensures var t := Run(s, Answering(r, payload));
            && t.phases == s.phases[r := Done(Answered(|s.replies|))]
            && t.replies == s.replies + [Reply(Key(r), payload)] && !t.closed
  {
    var taken := Next(s, Take(Reply(Key(r), payload)));
    var sent := Next(taken, Send);
    ReceivesAndDrops(sent, r, |s.replies|);
    RunCons(taken, Send, [Receive(r)] + [DropGuard(r)]);
    RunCons(s, Take(Reply(Key(r), payload)), [Send] + ([Receive(r)] + [DropGuard(r)]));
  }

  /** A fresh connection is such a state. */
  lemma {:induction false} FirstRequestAnswered(payload: Payload)
    ensures CanRun(INIT, Asking(0) + Answering(0, payload))
    ensures var t := Run(INIT, Asking(0) + Answering(0, payload));
            t.phases == [Done(Answered(0))] && t.replies == [Reply("1", payload)]
  {
    OpenRequestAnswered(INIT, payload);
    assert Key(0) == "1";
  }

  // ---------- a server request is answered under its id ----------

  /** Nothing in these steps supersedes or answers what is recorded under the
      token. */
  predicate LeavesToken(steps: seq<Step>, token: string) {
    forall i :: 0 <= i < |steps| ==>
      steps[i] != Respond(token) && (steps[i].ServerRequest? ==> TokenOf(steps[i].id) != token)
  }

  lemma {:induction false} TokenKept(s: State, steps: seq<Step>, token: string, i: nat)
    requires CanRun(s, steps) && LeavesToken(steps, token) && token in s.serverReqs && s.serverReqs[token] == i
    ensures var t := Run(s, steps); token in t.serverReqs && t.serverReqs[token] == i && s.arrivals <= t.arrivals
    decreases |steps|
  {
    if steps == [] {
    } else {
      var step := steps[0];
      if !step.ServerRequest? && !step.Respond? {
        ServerTablesKept(s, step);
      }
      assert LeavesToken(steps[1..], token) by {
        forall k | 0 <= k < |steps[1..]| ensures steps[1..][k] == steps[k + 1] {}
      }
      TokenKept(Next(s, step), steps[1..], token, i);
    }
  }

  /** From any reachable state, a server request is answered by the next response
      given under its token, unless another came under that token meanwhile. */
  lemma {:induction false} ServerRequestAnswered(s: State, id: RequestId, between: seq<Step>)
    requires Inv(s) && Enabled(s, ServerRequest(id))
    requires CanRun(Next(s, ServerRequest(id)), between) && LeavesToken(between, TokenOf(id))
    ensures var u := Run(Next(s, ServerRequest(id)), between);
            && Inv(u) && Owned(u.table) && Enabled(u, Respond(TokenOf(id)))
            && var t := Next(u, Respond(TokenOf(id)));
            && t.answers == u.answers + [|s.arrivals|] && |s.arrivals| < |t.arrivals| && t.arrivals[|s.arrivals|] == id
  {
    InvStep(s, ServerRequest(id));
    InvRun(Next(s, ServerRequest(id)), between);
    TokenKept(Next(s, ServerRequest(id)), between, TokenOf(id), |s.arrivals|);
    InvStep(Run(Next(s, ServerRequest(id)), between), Respond(TokenOf(id)));
  }

  // ---------- the reader in its turn ----------

  /** The reader handles one message at a time: until its last reply is sent it
      takes no other, records no server request and does not close. */
  lemma {:induction false} OneMessageAtATime(s: State, step: Step)
    requires Enabled(s, step) && s.hand.Some?
    ensures !step.Take? && !step.ServerRequest? && !(step.CloseBegin? && step.c == Reader)
  {
  }

  predicate BeginsToClose(steps: seq<Step>, c: Closer) {
    exists i :: 0 <= i < |steps| && steps[i].CloseBegin? && steps[i].c == c
  }

  /** Once it has begun to close it reads nothing more, and only then. */
  lemma {:induction false} StoppedReaderReadsNothing(s: State, steps: seq<Step>)
    requires CanRun(s, steps)
    ensures !s.reading ==> Run(s, steps).replies == s.replies && Run(s, steps).arrivals == s.arrivals
    ensures Run(s, steps).reading <==> s.reading && !BeginsToClose(steps, Reader)
    decreases |steps|
  {
    if steps == [] {
    } else {
      StoppedStep(s, steps[0]);
      StoppedReaderReadsNothing(Next(s, steps[0]), steps[1..]);
      assert steps == [steps[0]] + steps[1..];
    }
  }

  lemma {:induction false} StoppedStep(s: State, step: Step)
    requires Owned(s.table) && Enabled(s, step)
    ensures Next(s, step).reading == (s.reading && !(step.CloseBegin? && step.c == Reader))
    ensures !s.reading ==> Next(s, step).replies == s.replies && Next(s, step).arrivals == s.arrivals
  {
    if MovesOneRequest(step) {
      RequestReadsNothing(s, step);
    } else if step.OwnClose? || step.CloseBegin? || step.Cancel? || step.Drain? {
      CloserReadsNothing(s, step);
    }
  }

  lemma {:induction false} RequestReadsNothing(s: State, step: Step)
    requires Owned(s.table) && Enabled(s, step) && MovesOneRequest(step)
    ensures var t := Next(s, step); t.reading == s.reading && t.replies == s.replies && t.arrivals == s.arrivals
  {
  }

  lemma {:induction false} CloserReadsNothing(s: State, step: Step)
    requires Owned(s.table) && Enabled(s, step) && (step.OwnClose? || step.CloseBegin? || step.Cancel? || step.Drain?)
    ensures var t := Next(s, step); t.replies == s.replies && t.arrivals == s.arrivals
    ensures Next(s, step).reading == (s.reading && !(step.CloseBegin? && step.c == Reader))
  {
  }

  // ---------- tokens ----------

  lemma {:induction false} TokenOfNumber(n: int)
    ensures TokenOf(NumberId(n)) != ""
    ensures TokenOf(NumberId(n))[0] == '-' <==> n < 0
    ensures n >= 0 ==> ParseDigits(TokenOf(NumberId(n))) == Some(n)
    ensures n < 0 ==> ParseDigits(TokenOf(NumberId(n))[1..]) == Some(-n)
  {
    ParseDecimal(if n < 0 then -n else n);
  }

  /** Two ids have one token exactly when they are the same, or one is the other
      in print: a reply under the number `n` and one under its numeral are for
      the same request. */
  lemma {:induction false} TokenIff(a: RequestId, b: RequestId)
    ensures TokenOf(a) == TokenOf(b) <==>
            match (a, b)
            case (StringId(s), StringId(t)) => s == t
            case (NumberId(m), NumberId(n)) => m == n
            case (StringId(s), NumberId(n)) => Prints(s, n)
            case (NumberId(m), StringId(t)) => Prints(t, m)
  {
    if a.NumberId? && b.NumberId? {
      TokenOfNumber(a.n);
      TokenOfNumber(b.n);
    } else if a.NumberId? {
      TokenPrints(a.n, b.s);
    } else if b.NumberId? {
      TokenPrints(b.n, a.s);
    }
  }

  /** The string is the number's numeral: no sign but a minus, no leading zero. */
  predicate Prints(s: string, n: int) {
    if n < 0 then s != "" && s[0] == '-' && Numeral(s[1..], -n) else Numeral(s, n)
  }

  predicate Numeral(s: string, n: nat) { ParseDigits(s) == Some(n) && (|s| == 1 || s[0] != '0') }

  lemma {:induction false} TokenPrints(n: int, s: string)
    ensures TokenOf(NumberId(n)) == s <==> Prints(s, n)
  {
    if n < 0 {
      if s != "" {
        NumeralIff(s[1..], -n);
        assert s == [s[0]] + s[1..];
      }
    } else {
      NumeralIff(s, n);
    }
  }

  lemma {:induction false} NumeralIff(s: string, n: nat)
    ensures Numeral(s, n) <==> s == Decimal(n)
  {
    ParseDecimal(n);
    if Numeral(s, n) {
      DecimalParse(s);
    }
  }

  // ---------- what may happen, and the reason given ----------

  /** A request that waits may always be answered late, timed out or abandoned;
      one that writes may always succeed, break or be abandoned; the reader takes
      whatever arrives once its last reply is sent; and anyone may close. */
  lemma {:induction false} NothingIsForbidden(s: State, r: Request, reply: Reply, id: RequestId, message: string,
                                              n: nat)
    ensures In(s, r, Waiting) ==> Enabled(s, Timeout(r)) && Enabled(s, Abort(r))
    ensures In(s, r, Writing) ==>
              Enabled(s, WriteOk(r)) && Enabled(s, WriteBroken(r, message)) && Enabled(s, Abort(r))
              && (s.closed ==> Enabled(s, WriteCancelled(r)))
    ensures Enabled(s, Start) && Enabled(s, OwnClose(message)) && Enabled(s, Respond(message))
    ensures s.reading && s.hand.None? ==> Enabled(s, ServerRequest(id)) && (s.lock.None? ==> Enabled(s, Take(reply)))
    ensures s.hand.None? && Reader !in s.closers ==> Enabled(s, CloseBegin(Reader, Some(message)))
    ensures Keepalive !in s.closers ==> Enabled(s, CloseBegin(Keepalive, Some(message)))
    ensures Sender(n) !in s.closers ==> Enabled(s, CloseBegin(Sender(n), Some(message)))
  {
  }

  /** The reason given to callers is the first that was recorded. */
  lemma {:induction false} FirstReasonStays(s: State, c: Closer, r: Request, message: string)
    requires Owned(s.table)
    ensures var reason := if s.reason.Some? then s.reason else Some(message);
            && Next(s, OwnClose(message)).reason == reason
            && (Enabled(s, WriteBroken(r, message)) ==> Next(s, WriteBroken(r, message)).reason == reason)
            && (Enabled(s, CloseBegin(c, Some(message))) ==> Next(s, CloseBegin(c, Some(message))).reason == reason)
            && (Enabled(s, CloseBegin(c, None)) ==> Next(s, CloseBegin(c, None)).reason == s.reason)
  {
  }
}
