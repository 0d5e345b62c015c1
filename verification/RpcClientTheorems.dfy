/**
 Safety of the JSON-RPC client over every run: no request outlives a drained
 connection, and a result only ever answers the request it was sent for.
 */
module RpcClientTheorems {
  import opened Text
  import opened RpcClient

  // ---------- runs ----------

  ghost predicate CanRun(s: State, steps: seq<Step>)
    decreases |steps|
  {
    steps == []
    || (Enabled(s, steps[0]) && Owned(s.table) && CanRun(Next(s, steps[0]), steps[1..]))
  }

  ghost function Run(s: State, steps: seq<Step>): State
    requires CanRun(s, steps)
    decreases |steps|
  {
    if steps == [] then s else Run(Next(s, steps[0]), steps[1..])
  }

  // ---------- the invariant ----------

  /** Between registration and the drop of its guard. */
  predicate Registered(phase: Phase) {
    phase.Writing? || phase.Waiting? || phase.Failing? || phase.Finishing?
  }

  predicate HasOutcome(phase: Phase) { phase.Finishing? || phase.Done? }

  /** The reader is about to send on this request's channel. */
  predicate InHand(hand: Option<Hand>, r: Request) { hand.Some? && hand.value.owner == r }

  /** Pending entries are exactly the registered requests neither resolved nor
      in the reader's hand. */
  ghost predicate TableInv(t: Table, phases: seq<Phase>, hand: Option<Hand>) {
    && |t.channels| == |phases|
    && (forall k :: k in t.pending ==>
                      var r := t.pending[k];
                      r < |phases| && Key(r) == k && t.channels[r] == Empty && Registered(phases[r]))
    && (forall r :: 0 <= r < |phases| && Registered(phases[r]) && t.channels[r] == Empty ==>
                      InHand(hand, r) || (Key(r) in t.pending && t.pending[Key(r)] == r))
    && (forall r :: 0 <= r < |phases| && (phases[r].Allocated? || phases[r].Checked?) ==>
                      t.channels[r] == Empty)
  }

  ghost predicate LockInv(s: State) {
    && (forall r :: 0 <= r < |s.phases| ==> (s.phases[r].Checked? <==> s.lock == Some(r)))
    && (s.lock.Some? ==> s.lock.value < |s.phases|)
  }

  ghost predicate CloseInv(s: State) {
    && (s.drained ==> s.closed && s.lock.None? && s.table.pending == map[])
    && (forall c :: c in s.closers && s.closers[c] == Cancelled ==> s.closed)
    && (s.closed ==> s.drained || SomeCancelled(s.closers))
    && (s.closed || s.closers != map[] ==> s.reason.Some?)
  }

  ghost predicate SomeCancelled(closers: map<Closer, Closing>) {
    exists c :: c in closers && closers[c] == Cancelled
  }

  /** A request closes the connection only while its write has failed. */
  ghost predicate WriterInv(s: State) {
    forall r :: Writer(r) in s.closers ==> In(s, r, Failing)
  }

  /** A delivered reply carries the request's own key, and serves it alone. */
  ghost predicate ReplyInv(channels: seq<Channel>, phases: seq<Phase>, replies: seq<Reply>) {
    && |channels| == |phases|
    && (forall r :: 0 <= r < |channels| && channels[r].Delivered? ==>
                      channels[r].reply < |replies| && replies[channels[r].reply].key == Key(r))
    && (forall r, q :: 0 <= r < q < |channels| && channels[r].Delivered? ==> channels[r] != channels[q])
    && (forall r :: 0 <= r < |phases| && HasOutcome(phases[r]) && phases[r].o.Answered? ==>
                      channels[r] == Delivered(phases[r].o.reply))
  }

  /** A taken sender is unused, is in no entry, and its reply is for its owner
      and delivered to no one. */
  ghost predicate HandInv(t: Table, phases: seq<Phase>, hand: Option<Hand>, replies: seq<Reply>) {
    hand.Some? ==>
      var r, i := hand.value.owner, hand.value.reply;
      && r < |phases| && r < |t.channels| && t.channels[r] == Empty
      && (forall k :: k in t.pending ==> t.pending[k] != r)
      && !phases[r].Allocated? && !phases[r].Checked?
      && i < |replies| && replies[i].key == Key(r)
      && (forall q :: 0 <= q < |t.channels| ==> t.channels[q] != Delivered(i))
  }

  ghost predicate ServerInv(s: State) {
    && (forall t :: t in s.serverReqs ==>
                      s.serverReqs[t] < |s.arrivals| && TokenOf(s.arrivals[s.serverReqs[t]]) == t
                      && s.serverReqs[t] !in s.answers)
    && (forall i, j :: 0 <= i < j < |s.answers| ==> s.answers[i] != s.answers[j])
    && (forall i :: 0 <= i < |s.answers| ==> s.answers[i] < |s.arrivals|)
  }

  ghost predicate Inv(s: State) {
    && TableInv(s.table, s.phases, s.hand) && ReplyInv(s.table.channels, s.phases, s.replies)
    && HandInv(s.table, s.phases, s.hand, s.replies)
    && LockInv(s) && CloseInv(s) && WriterInv(s) && ServerInv(s)
  }

  // ---------- every step keeps it ----------

  ghost predicate Tables(t: Table, phases: seq<Phase>, hand: Option<Hand>, replies: seq<Reply>) {
    && TableInv(t, phases, hand) && ReplyInv(t.channels, phases, replies) && HandInv(t, phases, hand, replies)
  }

  /** Refusing some channels that are in no reader's hand delivers nothing new. */
  lemma {:induction false} RefusalsKeep(a: seq<Channel>, b: seq<Channel>, phases: seq<Phase>, replies: seq<Reply>)
    requires ReplyInv(a, phases, replies) && |b| == |a|
    requires forall q :: 0 <= q < |a| ==> b[q] == a[q] || b[q] == Refuse(a[q])
    ensures ReplyInv(b, phases, replies)
  {
    forall r, q | 0 <= r < q < |b| && b[r].Delivered? ensures b[r] != b[q] {
      assert a[r] == b[r];
    }
    forall r | 0 <= r < |phases| && HasOutcome(phases[r]) && phases[r].o.Answered?
      ensures b[r] == Delivered(phases[r].o.reply)
    {
      assert a[r] == Delivered(phases[r].o.reply);
    }
  }

  lemma {:induction false} DropKeyKeepsTable(t: Table, phases: seq<Phase>, hand: Option<Hand>, key: string)
    requires TableInv(t, phases, hand)
    ensures Owned(t) && TableInv(DropKey(t, key), phases, hand)
  {
    var t' := DropKey(t, key);
    if key in t.pending {
      var owner := t.pending[key];
      assert t'.channels == t.channels[owner := Refused];
      forall r | 0 <= r < |phases| && Registered(phases[r]) && t'.channels[r] == Empty
        ensures InHand(hand, r) || (Key(r) in t'.pending && t'.pending[Key(r)] == r)
      {
        assert r != owner && t.channels[r] == Empty;
      }
    }
  }

  lemma {:induction false} DropKeyKeeps(t: Table, phases: seq<Phase>, hand: Option<Hand>, replies: seq<Reply>,
                                        key: string)
    requires Tables(t, phases, hand, replies)
    ensures Owned(t) && Tables(DropKey(t, key), phases, hand, replies)
  {
    DropKeyKeepsTable(t, phases, hand, key);
    RefusalsKeep(t.channels, DropKey(t, key).channels, phases, replies);
  }

  lemma {:induction false} StartKeeps(t: Table, phases: seq<Phase>, hand: Option<Hand>, replies: seq<Reply>)
    requires Tables(t, phases, hand, replies)
    ensures Tables(Table(t.pending, t.channels + [Empty]), phases + [Allocated], hand, replies)
  {
  }

  lemma {:induction false} InsertKeeps(t: Table, phases: seq<Phase>, hand: Option<Hand>, replies: seq<Reply>,
                                       r: Request)
    requires Tables(t, phases, hand, replies) && r < |phases| && phases[r] == Checked
    ensures Owned(t) && Tables(InsertKey(t, Key(r), r), phases[r := Writing], hand, replies)
  {
    DropKeyKeeps(t, phases, hand, replies, Key(r));
    InsertFreshKeeps(DropKey(t, Key(r)), phases, hand, replies, r);
  }

  lemma {:induction false} InsertFreshKeeps(d: Table, phases: seq<Phase>, hand: Option<Hand>, replies: seq<Reply>,
                                            r: Request)
    requires Tables(d, phases, hand, replies) && r < |phases| && phases[r] == Checked && Key(r) !in d.pending
    ensures Tables(Table(d.pending[Key(r) := r], d.channels), phases[r := Writing], hand, replies)
  {
    InsertKeepsTable(d, phases, hand, r);
    assert ReplyInv(d.channels, phases[r := Writing], replies);
  }

  lemma {:induction false} InsertKeepsTable(d: Table, phases: seq<Phase>, hand: Option<Hand>, r: Request)
    requires TableInv(d, phases, hand) && r < |phases| && phases[r] == Checked && Key(r) !in d.pending
    ensures TableInv(Table(d.pending[Key(r) := r], d.channels), phases[r := Writing], hand)
  {
    var t', phases' := Table(d.pending[Key(r) := r], d.channels), phases[r := Writing];
    forall q | 0 <= q < |phases'| && Registered(phases'[q]) && t'.channels[q] == Empty
      ensures InHand(hand, q) || (Key(q) in t'.pending && t'.pending[Key(q)] == q)
    {
      if q != r && !InHand(hand, q) {
        assert Registered(phases[q]) && d.pending[Key(q)] == q;
      }
    }
  }

  /** A step of one request that touches neither table nor replies. */
  lemma {:induction false} PhaseKeeps(t: Table, phases: seq<Phase>, hand: Option<Hand>, replies: seq<Reply>, r: Request,
                                      phase: Phase)
    requires Tables(t, phases, hand, replies) && r < |phases|
    requires Registered(phase) <==> Registered(phases[r])
    requires phase.Allocated? || phase.Checked? ==> t.channels[r] == Empty && !InHand(hand, r)
    requires HasOutcome(phase) && phase.o.Answered? ==> t.channels[r] == Delivered(phase.o.reply)
    ensures Tables(t, phases[r := phase], hand, replies)
  {
  }

  lemma {:induction false} DropGuardKeeps(t: Table, phases: seq<Phase>, hand: Option<Hand>, replies: seq<Reply>,
                                          r: Request)
    requires Tables(t, phases, hand, replies) && r < |phases| && phases[r].Finishing?
    ensures Owned(t) && Tables(DropKey(t, Key(r)), phases[r := Done(phases[r].o)], hand, replies)
  {
    DropKeyKeeps(t, phases, hand, replies, Key(r));
    DoneKeeps(DropKey(t, Key(r)), phases, hand, replies, r);
  }

  /** A request without an entry may be done. */
  lemma {:induction false} DoneKeeps(t: Table, phases: seq<Phase>, hand: Option<Hand>, replies: seq<Reply>, r: Request)
    requires Tables(t, phases, hand, replies) && r < |phases| && phases[r].Finishing?
    requires Key(r) !in t.pending
    ensures Tables(t, phases[r := Done(phases[r].o)], hand, replies)
  {
  }

  lemma {:induction false} TakeKeeps(t: Table, phases: seq<Phase>, replies: seq<Reply>, reply: Reply)
    requires Tables(t, phases, None, replies) && reply.key in t.pending
    ensures Tables(Taken(t, reply.key), phases, Some(Hand(t.pending[reply.key], |replies|)), replies + [reply])
  {
    var t', owner := Taken(t, reply.key), t.pending[reply.key];
    forall k | k in t'.pending ensures t'.pending[k] != owner {
      assert Key(t.pending[k]) == k && Key(owner) == reply.key;
    }
    forall q | 0 <= q < |phases| && Registered(phases[q]) && t'.channels[q] == Empty && q != owner
      ensures Key(q) in t'.pending && t'.pending[Key(q)] == q
    {
      assert t.pending[Key(q)] == q;
    }
  }

  /** A reply that meets no entry is only recorded. */
  lemma {:induction false} DiscardKeeps(t: Table, phases: seq<Phase>, replies: seq<Reply>, reply: Reply)
    requires Tables(t, phases, None, replies)
    ensures Tables(t, phases, None, replies + [reply])
  {
  }

  lemma {:induction false} SendKeeps(t: Table, phases: seq<Phase>, hand: Hand, replies: seq<Reply>)
    requires Tables(t, phases, Some(hand), replies) && hand.owner < |t.channels|
    ensures Tables(Sent(t, hand.owner, hand.reply), phases, None, replies)
  {
    var t' := Sent(t, hand.owner, hand.reply);
    assert t'.channels == t.channels[hand.owner := Delivered(hand.reply)];
    assert ReplyInv(t'.channels, phases, replies);
    forall q | 0 <= q < |phases| && Registered(phases[q]) && t'.channels[q] == Empty
      ensures Key(q) in t'.pending && t'.pending[Key(q)] == q
    {
      assert q != hand.owner && !InHand(Some(hand), q);
    }
  }

  lemma {:induction false} DrainKeeps(t: Table, phases: seq<Phase>, hand: Option<Hand>, replies: seq<Reply>)
    requires Tables(t, phases, hand, replies)
    ensures Tables(DrainAll(t), phases, hand, replies)
    ensures forall q :: 0 <= q < |phases| && Registered(phases[q]) ==>
                          DrainAll(t).channels[q] != Empty || InHand(hand, q)
  {
    var t' := DrainAll(t);
    forall q | 0 <= q < |phases| && Registered(phases[q]) && !InHand(hand, q) ensures t'.channels[q] != Empty {
      if t.channels[q] == Empty {
        assert t.pending[Key(q)] == q;
      }
    }
    forall q | 0 <= q < |phases| && (phases[q].Allocated? || phases[q].Checked?)
      ensures t'.channels[q] == Empty
    {
      assert q !in t.pending.Values;
    }
    RefusalsKeep(t.channels, t'.channels, phases, replies);
    if hand.Some? {
      assert hand.value.owner !in t.pending.Values;
    }
  }

  predicate MovesOneRequest(step: Step) {
    step.Check? || step.WriteOk? || step.WriteCancelled? || step.WriteBroken? || step.BrokenDone?
    || step.Receive? || step.Timeout? || step.Abort?
  }

  /** A step of one request leaves every other request's phase. */
  lemma {:induction false} RequestMoves(s: State, step: Step)
    requires Owned(s.table) && Enabled(s, step) && MovesOneRequest(step)
    ensures var t := Next(s, step);
            && step.r < |s.phases| && t.phases == s.phases[step.r := t.phases[step.r]]
            && (step.Check? || (t.lock == s.lock && !t.phases[step.r].Checked? && !s.phases[step.r].Checked?))
  {
  }

  lemma {:induction false} RequestKeepsTable(s: State, step: Step)
    requires Owned(s.table) && Enabled(s, step) && MovesOneRequest(step)
    ensures var t := Next(s, step); t.table == s.table && t.hand == s.hand && t.replies == s.replies
    ensures var t := Next(s, step); t.closed == s.closed && t.drained == s.drained
  {
    if !step.Check? && !step.WriteBroken? {
      RequestOnlyMoves(s, step);
    }
  }

  lemma {:induction false} RequestOnlyMoves(s: State, step: Step)
    requires Owned(s.table) && Enabled(s, step) && MovesOneRequest(step) && !step.Check? && !step.WriteBroken?
    ensures Next(s, step) == s.(phases := Next(s, step).phases)
  {
  }

  /** The phases a request may move to agree with its channel. */
  lemma {:induction false} RequestPhase(s: State, step: Step)
    requires Owned(s.table) && |s.table.channels| == |s.phases|
    requires Enabled(s, step) && MovesOneRequest(step)
    requires s.phases[step.r].Allocated? ==> s.table.channels[step.r] == Empty && !InHand(s.hand, step.r)
    ensures var r, phase := step.r, Next(s, step).phases[step.r];
            && (Registered(phase) <==> Registered(s.phases[r]))
            && (phase.Allocated? || phase.Checked? ==> s.table.channels[r] == Empty && !InHand(s.hand, r))
            && (HasOutcome(phase) && phase.o.Answered? ==> s.table.channels[r] == Delivered(phase.o.reply))
  {
    if !step.Receive? {
      UnansweredPhase(s, step);
    }
  }

  lemma {:induction false} UnansweredPhase(s: State, step: Step)
    requires Owned(s.table) && Enabled(s, step) && MovesOneRequest(step) && !step.Receive?
    ensures var r, phase := step.r, Next(s, step).phases[step.r];
            && (Registered(phase) <==> Registered(s.phases[r]))
            && (HasOutcome(phase) ==> !phase.o.Answered?)
            && (phase.Allocated? || phase.Checked? ==> s.phases[r].Allocated?)
  {
  }

  lemma {:induction false} RequestStep(s: State, step: Step)
    requires Tables(s.table, s.phases, s.hand, s.replies) && Enabled(s, step) && MovesOneRequest(step)
    ensures var t := Next(s, step); Tables(t.table, t.phases, t.hand, t.replies)
  {
    RequestMoves(s, step);
    RequestKeepsTable(s, step);
    RequestPhase(s, step);
    PhaseKeeps(s.table, s.phases, s.hand, s.replies, step.r, Next(s, step).phases[step.r]);
  }

  lemma {:induction false} ReaderStep(s: State, step: Step)
    requires Tables(s.table, s.phases, s.hand, s.replies) && Enabled(s, step) && (step.Take? || step.Send?)
    ensures var t := Next(s, step); Tables(t.table, t.phases, t.hand, t.replies)
  {
    if step.Send? {
      SendKeeps(s.table, s.phases, s.hand.value, s.replies);
    } else if step.reply.key in s.table.pending {
      TakeKeeps(s.table, s.phases, s.replies, step.reply);
    } else {
      DiscardKeeps(s.table, s.phases, s.replies, step.reply);
    }
  }

  lemma {:induction false} TablesStep(s: State, step: Step)
    requires Tables(s.table, s.phases, s.hand, s.replies) && Enabled(s, step)
    ensures Owned(s.table)
    ensures var t := Next(s, step); Tables(t.table, t.phases, t.hand, t.replies)
  {
    if MovesOneRequest(step) {
      RequestStep(s, step);
    } else if step.Take? || step.Send? {
      ReaderStep(s, step);
    } else {
      match step {
        case Start => StartKeeps(s.table, s.phases, s.hand, s.replies);
        case Insert(r) => InsertKeeps(s.table, s.phases, s.hand, s.replies, r);
        case DropGuard(r) => DropGuardKeeps(s.table, s.phases, s.hand, s.replies, r);
        case Drain(c) => DrainKeeps(s.table, s.phases, s.hand, s.replies);
        case _ =>
      }
    }
  }

  /** Steps that touch neither the lock nor any phase. */
  predicate KeepsPhases(step: Step) {
    step.Take? || step.Send? || step.ServerRequest? || step.Respond? || step.OwnClose? || step.CloseBegin?
    || step.Cancel? || step.Drain?
  }

  lemma {:induction false} PhasesKept(s: State, step: Step)
    requires Owned(s.table) && Enabled(s, step) && KeepsPhases(step)
    ensures Next(s, step).phases == s.phases && Next(s, step).lock == s.lock
  {
  }

  lemma {:induction false} LockStep(s: State, step: Step)
    requires LockInv(s) && Owned(s.table) && Enabled(s, step)
    ensures LockInv(Next(s, step))
  {
    if MovesOneRequest(step) {
      RequestMoves(s, step);
    } else if KeepsPhases(step) {
      PhasesKept(s, step);
    }
  }

  lemma {:induction false} CancelledSurvives(closers: map<Closer, Closing>, c: Closer, closing: Closing)
    requires SomeCancelled(closers) && (c in closers ==> closing == Cancelled)
    ensures SomeCancelled(closers[c := closing])
  {
    var other :| other in closers && closers[other] == Cancelled;
    assert closers[c := closing][other] == Cancelled;
  }

  lemma {:induction false} BrokenKeepsClosing(s: State, r: Request, message: string)
    requires CloseInv(s) && WriterInv(s) && Owned(s.table) && Enabled(s, WriteBroken(r, message))
    ensures CloseInv(Next(s, WriteBroken(r, message)))
  {
    if SomeCancelled(s.closers) {
      CancelledSurvives(s.closers, Writer(r), Recorded);
    }
  }

  lemma {:induction false} BegunKeepsClosing(s: State, c: Closer, cause: Option<string>)
    requires CloseInv(s) && Owned(s.table) && Enabled(s, CloseBegin(c, cause))
    ensures CloseInv(Next(s, CloseBegin(c, cause)))
  {
    if SomeCancelled(s.closers) {
      CancelledSurvives(s.closers, c, Recorded);
    }
  }

  lemma {:induction false} CancelledKeepsClosing(s: State, c: Closer)
    requires CloseInv(s) && Owned(s.table) && Enabled(s, Cancel(c))
    ensures CloseInv(Next(s, Cancel(c)))
  {
    assert s.closers[c := Cancelled][c] == Cancelled;
  }

  lemma {:induction false} DrainedKeepsClosing(s: State, c: Closer)
    requires CloseInv(s) && Owned(s.table) && Enabled(s, Drain(c))
    ensures CloseInv(Next(s, Drain(c)))
  {
  }

  predicate MovesClosing(step: Step) {
    step.WriteBroken? || step.CloseBegin? || step.Cancel? || step.Drain?
  }

  /** No other step moves a closer, and none registers on a drained connection. */
  lemma {:induction false} ClosingKept(s: State, step: Step)
    requires Owned(s.table) && LockInv(s) && Enabled(s, step) && !MovesClosing(step)
    requires s.drained ==> s.closed && s.lock.None? && s.table.pending == map[]
    ensures var t := Next(s, step);
            && t.closed == s.closed && t.closers == s.closers && t.drained == s.drained
            && (s.reason.Some? ==> t.reason == s.reason)
            && (s.drained ==> t.lock.None? && t.table.pending == map[])
  {
    if MovesOneRequest(step) {
      RequestMoves(s, step);
    }
  }

  lemma {:induction false} CloseStep(s: State, step: Step)
    requires CloseInv(s) && LockInv(s) && WriterInv(s) && Owned(s.table) && Enabled(s, step)
    ensures CloseInv(Next(s, step))
  {
    if step.WriteBroken? {
      BrokenKeepsClosing(s, step.r, step.message);
    } else if step.CloseBegin? {
      BegunKeepsClosing(s, step.c, step.cause);
    } else if step.Cancel? {
      CancelledKeepsClosing(s, step.c);
    } else if step.Drain? {
      DrainedKeepsClosing(s, step.c);
    } else {
      ClosingKept(s, step);
    }
  }

  lemma {:induction false} WriterStep(s: State, step: Step)
    requires WriterInv(s) && Owned(s.table) && Enabled(s, step)
    ensures WriterInv(Next(s, step))
  {
    if KeepsPhases(step) {
      PhasesKept(s, step);
    } else if MovesOneRequest(step) {
      RequestKeepsWriters(s, step);
    }
  }

  lemma {:induction false} RequestKeepsWriters(s: State, step: Step)
    requires WriterInv(s) && Owned(s.table) && Enabled(s, step) && MovesOneRequest(step)
    ensures WriterInv(Next(s, step))
  {
    RequestMoves(s, step);
  }

  predicate SameServerTables(s: State, t: State) {
    t.arrivals == s.arrivals && t.serverReqs == s.serverReqs && t.answers == s.answers
  }

  lemma {:induction false} RequestKeepsServerTables(s: State, step: Step)
    requires Owned(s.table) && Enabled(s, step) && MovesOneRequest(step)
    ensures SameServerTables(s, Next(s, step))
  {
  }

  lemma {:induction false} TableKeepsServerTables(s: State, step: Step)
    requires Owned(s.table) && Enabled(s, step)
    requires step.Start? || step.Insert? || step.DropGuard? || step.Take? || step.Send? || step.Drain?
    ensures SameServerTables(s, Next(s, step))
  {
  }

  lemma {:induction false} CloserKeepsServerTables(s: State, step: Step)
    requires Owned(s.table) && Enabled(s, step) && (step.OwnClose? || step.CloseBegin? || step.Cancel?)
    ensures SameServerTables(s, Next(s, step))
  {
  }

  /** Only the arrival and the answer of a server request touch its tables. */
  lemma {:induction false} ServerTablesKept(s: State, step: Step)
    requires Owned(s.table) && Enabled(s, step) && !step.ServerRequest? && !step.Respond?
    ensures SameServerTables(s, Next(s, step))
  {
    if MovesOneRequest(step) {
      RequestKeepsServerTables(s, step);
    } else if step.OwnClose? || step.CloseBegin? || step.Cancel? {
      CloserKeepsServerTables(s, step);
    } else {
      TableKeepsServerTables(s, step);
    }
  }

  lemma {:induction false} ArrivalKeeps(s: State, id: RequestId)
    requires ServerInv(s) && Owned(s.table) && Enabled(s, ServerRequest(id))
    ensures ServerInv(Next(s, ServerRequest(id)))
  {
  }

  lemma {:induction false} AnswerKeeps(s: State, token: string)
    requires ServerInv(s) && Owned(s.table)
    ensures ServerInv(Next(s, Respond(token)))
  {
    if token in s.serverReqs {
      var i := s.serverReqs[token];
      forall other | other in s.serverReqs && other != token ensures s.serverReqs[other] != i {
        assert TokenOf(s.arrivals[s.serverReqs[other]]) == other;
      }
    }
  }

  lemma {:induction false} ServerStep(s: State, step: Step)
    requires ServerInv(s) && Owned(s.table) && Enabled(s, step)
    ensures ServerInv(Next(s, step))
  {
    if step.ServerRequest? {
      ArrivalKeeps(s, step.id);
    } else if step.Respond? {
      AnswerKeeps(s, step.token);
    } else {
      ServerTablesKept(s, step);
    }
  }

  lemma {:induction false} InvStep(s: State, step: Step)
    requires Inv(s) && Enabled(s, step)
    ensures Owned(s.table) && Inv(Next(s, step))
  {
    TablesStep(s, step);
    LockStep(s, step);
    CloseStep(s, step);
    WriterStep(s, step);
    ServerStep(s, step);
  }

  lemma {:induction false} InvRun(s: State, steps: seq<Step>)
    requires Inv(s) && CanRun(s, steps)
    ensures Inv(Run(s, steps))
    decreases |steps|
  {
    if steps == [] {
    } else {
      InvStep(s, steps[0]);
      InvRun(Next(s, steps[0]), steps[1..]);
    }
  }

  /** The initial state satisfies it, so every reachable state does. */
  lemma {:induction false} Reachable(steps: seq<Step>)
    requires CanRun(INIT, steps)
    ensures Inv(Run(INIT, steps))
  {
    InvRun(INIT, steps);
  }

  lemma {:induction false} RunSplit(s: State, before: seq<Step>, after: seq<Step>)
    requires CanRun(s, before + after)
    ensures CanRun(s, before) && CanRun(Run(s, before), after)
    ensures Run(s, before + after) == Run(Run(s, before), after)
    decreases |before|
  {
    if before == [] {
      assert before + after == after;
    } else {
      assert (before + after)[1..] == before[1..] + after;
      RunSplit(Next(s, before[0]), before[1..], after);
    }
  }

  // ---------- nothing outlives a drained connection ----------

  /** What stays true: closure, the drain, the first reason, outcomes, replies. */
  ghost predicate Extends(s: State, t: State) {
    && (s.closed ==> t.closed)
    && (s.drained ==> t.drained)
    && (s.reason.Some? ==> t.reason == s.reason)
    && |s.phases| <= |t.phases|
    && (forall r :: 0 <= r < |s.phases| && s.phases[r].Done? ==> t.phases[r] == s.phases[r])
    && s.replies <= t.replies
  }

  /** The flags, the reason and the replies only ever grow. */
  lemma {:induction false} FlagsExtend(s: State, step: Step)
    requires Owned(s.table) && Enabled(s, step)
    ensures var t := Next(s, step);
            && (s.closed ==> t.closed) && (s.drained ==> t.drained)
            && (s.reason.Some? ==> t.reason == s.reason) && s.replies <= t.replies
  {
    if MovesOneRequest(step) {
      RequestKeepsTable(s, step);
    } else if KeepsPhases(step) {
      SharedExtend(s, step);
    }
  }

  lemma {:induction false} SharedExtend(s: State, step: Step)
    requires Owned(s.table) && Enabled(s, step) && KeepsPhases(step)
    ensures var t := Next(s, step);
            && (s.closed ==> t.closed) && (s.drained ==> t.drained)
            && (s.reason.Some? ==> t.reason == s.reason) && s.replies <= t.replies
  {
  }

  /** A request that is done stays so. */
  lemma {:induction false} OutcomesStay(s: State, step: Step)
    requires Owned(s.table) && Enabled(s, step)
    ensures |s.phases| <= |Next(s, step).phases|
    ensures forall r :: 0 <= r < |s.phases| && s.phases[r].Done? ==> Next(s, step).phases[r] == s.phases[r]
  {
    if MovesOneRequest(step) {
      RequestMoves(s, step);
    } else if KeepsPhases(step) {
      PhasesKept(s, step);
    }
  }

  lemma {:induction false} StepExtends(s: State, step: Step)
    requires Owned(s.table) && Enabled(s, step)
    ensures Extends(s, Next(s, step))
  {
    FlagsExtend(s, step);
    OutcomesStay(s, step);
  }

  lemma {:induction false} RunExtends(s: State, steps: seq<Step>)
    requires CanRun(s, steps)
    ensures Extends(s, Run(s, steps))
    decreases |steps|
  {
    if steps == [] {
    } else {
      StepExtends(s, steps[0]);
      RunExtends(Next(s, steps[0]), steps[1..]);
    }
  }

  /** In every interleaving, from the moment any closer has cancelled and
      drained, the pending map is empty for good, and every registered request
      has its answer or its refusal waiting, or its answer in the reader's hand. */
  lemma {:induction false} DrainedForever(before: seq<Step>, after: seq<Step>)
    requires CanRun(INIT, before + after)
    requires CanRun(INIT, before) && Run(INIT, before).drained
    ensures var t := Run(INIT, before + after);
            && t.closed && t.table.pending == map[]
            && |t.table.channels| == |t.phases|
            && (forall r :: 0 <= r < |t.phases| && Registered(t.phases[r]) ==>
                              t.table.channels[r] != Empty || InHand(t.hand, r))
            && (t.hand.Some? ==> Enabled(t, Send) && t.hand.value.reply < |t.replies|)
  {
    RunSplit(INIT, before, after);
    Reachable(before);
    RunExtends(Run(INIT, before), after);
    Reachable(before + after);
  }

  lemma {:induction false} RunCons(s: State, step: Step, rest: seq<Step>)
    requires Enabled(s, step) && Owned(s.table) && CanRun(Next(s, step), rest)
    ensures CanRun(s, [step] + rest) && Run(s, [step] + rest) == Run(Next(s, step), rest)
  {
    assert ([step] + rest)[1..] == rest;
  }

  /** That hand is no formality: the watchdog can cancel and drain between the
      reader's take and its send, and the request still waits unresolved. */
  lemma {:induction false} DrainedStillInHand() returns (steps: seq<Step>)
    ensures CanRun(INIT, steps)
    ensures var t := Run(INIT, steps);
            t.drained && t.phases == [Waiting] && t.table.channels == [Empty] && InHand(t.hand, 0)
  {
    var started := Next(INIT, Start);
    assert started.phases == [Allocated] && started.table == Table(map[], [Empty]);
    steps := RegisteredThenDrained(started);
    RunCons(INIT, Start, steps);
    steps := [Start] + steps;
  }

  lemma {:induction false} RegisteredThenDrained(s: State) returns (steps: seq<Step>)
    requires s == INIT.(phases := [Allocated], table := Table(map[], [Empty]))
    ensures CanRun(s, steps)
    ensures var t := Run(s, steps);
            t.drained && t.phases == [Waiting] && t.table.channels == [Empty] && InHand(t.hand, 0)
  {
    var checked := Next(s, Check(0));
    assert checked.phases == [Checked];
    var writing := Next(checked, Insert(0));
    assert writing.phases == [Writing] && writing.table == Table(map[Key(0) := 0], [Empty]);
    var waiting := Next(writing, WriteOk(0));
    assert waiting.phases == [Waiting];
    steps := TakenThenDrained(waiting);
    RunCons(writing, WriteOk(0), steps);
    steps := [WriteOk(0)] + steps;
    RunCons(checked, Insert(0), steps);
    steps := [Insert(0)] + steps;
    RunCons(s, Check(0), steps);
    steps := [Check(0)] + steps;
  }

  lemma {:induction false} TakenThenDrained(s: State) returns (steps: seq<Step>)
    requires s.closers == map[] && s.lock.None? && s.hand.None? && s.reading
    requires s.phases == [Waiting] && s.table == Table(map[Key(0) := 0], [Empty]) && s.replies == []
    ensures CanRun(s, steps)
    ensures var t := Run(s, steps);
            t.drained && t.phases == [Waiting] && t.table.channels == [Empty] && InHand(t.hand, 0)
  {
    var reply := Reply(Key(0), Value("done"));
    var taken := Next(s, Take(reply));
    assert taken.table.pending == map[];
    steps := ClosedInHand(taken);
    RunCons(s, Take(reply), steps);
    steps := [Take(reply)] + steps;
  }

  lemma {:induction false} ClosedInHand(s: State) returns (steps: seq<Step>)
    requires s.closers == map[] && s.hand == Some(Hand(0, 0)) && s.table == Table(map[], [Empty]) && s.lock.None?
    ensures CanRun(s, steps)
    ensures var t := Run(s, steps);
            t.drained && t.phases == s.phases && t.table.channels == [Empty] && t.hand == s.hand
  {
    var begun := Next(s, CloseBegin(Keepalive, Some("timed out")));
    var cancelled := Next(begun, Cancel(Keepalive));
    RunCons(cancelled, Drain(Keepalive), []);
    RunCons(begun, Cancel(Keepalive), [Drain(Keepalive)]);
    steps := [Cancel(Keepalive)] + [Drain(Keepalive)];
    RunCons(s, CloseBegin(Keepalive, Some("timed out")), steps);
    steps := [CloseBegin(Keepalive, Some("timed out"))] + steps;
  }

  /** The reader takes nothing more from a drained connection: a sender in its
      hand was taken before the drain. */
  lemma {:induction false} NothingTakenAfterDrain(s: State, step: Step)
    requires Inv(s) && s.drained && Enabled(s, step)
    ensures Next(s, step).hand == s.hand || (step == Send && Next(s, step).hand == None)
  {
    if MovesOneRequest(step) {
      RequestKeepsTable(s, step);
    }
  }

  /** Once drained, no new registration appears. */
  lemma {:induction false} NoRegistrationAfterDrain(s: State, step: Step, r: Request)
    requires Inv(s) && s.drained && Enabled(s, step)
    requires r < |Next(s, step).phases| && Registered(Next(s, step).phases[r])
    ensures r < |s.phases| && Registered(s.phases[r])
  {
    if MovesOneRequest(step) {
      RequestMoves(s, step);
    } else if KeepsPhases(step) {
      PhasesKept(s, step);
    }
  }

  /** Distance of a request from completion once the connection is drained. */
  function Remaining(s: State, r: Request): nat
    requires r < |s.phases|
  {
    match s.phases[r]
    case Allocated => 8
    case Checked => 7
    case Writing => 6
    case Failing => if Writer(r) !in s.closers then 3 else if s.closers[Writer(r)] == Cancelled then 4 else 5
    case Waiting => 2
    case Finishing(_) => 1
    case Done(_) => 0
  }

  /** The step a request itself takes next, never a timeout or an abort. */
  function OwnStep(s: State, r: Request): Step
    requires r < |s.phases| && !s.phases[r].Done? && !s.phases[r].Checked?
  {
    match s.phases[r]
    case Allocated => Check(r)
    case Writing => WriteCancelled(r)
    case Failing =>
      if Writer(r) !in s.closers then BrokenDone(r)
      else if s.closers[Writer(r)] == Cancelled then Drain(Writer(r)) else Cancel(Writer(r))
    case Waiting => Receive(r)
    case _ => DropGuard(r)
  }

  lemma {:induction false} OwnStepAdvances(s: State, r: Request)
    requires LockInv(s) && CloseInv(s) && Owned(s.table) && s.drained
    requires r < |s.phases| && !s.phases[r].Done?
    requires |s.table.channels| == |s.phases| && (s.phases[r].Waiting? ==> s.table.channels[r] != Empty)
    ensures !s.phases[r].Checked? && Enabled(s, OwnStep(s, r))
    ensures Remaining(Next(s, OwnStep(s, r)), r) < Remaining(s, r)
    ensures Next(s, OwnStep(s, r)).hand == s.hand
  {
  }

  /** A step the request takes itself, or the closing its own write began. */
  predicate Own(step: Step, r: Request) {
    match step
    case Check(q) => q == r
    case WriteCancelled(q) => q == r
    case BrokenDone(q) => q == r
    case Receive(q) => q == r
    case DropGuard(q) => q == r
    case Cancel(c) => c == Writer(r)
    case Drain(c) => c == Writer(r)
    case _ => false
  }

  /** The request completes by these steps: its own, and the reader's send if
      its answer is in hand, at most once. */
  ghost predicate CompletesBy(s: State, steps: seq<Step>, r: Request)
    requires r < |s.phases|
  {
    && CanRun(s, steps)
    && |steps| <= Remaining(s, r) + (if InHand(s.hand, r) then 1 else 0)
    && (forall i :: 0 <= i < |steps| ==> Own(steps[i], r) || (steps[i] == Send && InHand(s.hand, r)))
    && (forall i, j :: 0 <= i < j < |steps| ==> !(steps[i] == Send && steps[j] == Send))
    && r < |Run(s, steps).phases| && Run(s, steps).phases[r].Done?
  }

  lemma {:induction false} OwnStepFirst(s: State, t: State, step: Step, rest: seq<Step>, r: Request)
    requires Enabled(s, step) && Owned(s.table) && t == Next(s, step) && Own(step, r)
    requires r < |s.phases| && r < |t.phases| && t.hand == s.hand && Remaining(t, r) < Remaining(s, r)
    requires CompletesBy(t, rest, r)
    ensures CompletesBy(s, [step] + rest, r)
  {
    assert ([step] + rest)[1..] == rest;
  }

  lemma {:induction false} SendFirst(s: State, t: State, rest: seq<Step>, r: Request)
    requires Enabled(s, Send) && Owned(s.table) && t == Next(s, Send) && InHand(s.hand, r)
    requires r < |s.phases| && t.phases == s.phases && t.closers == s.closers && t.hand == None
    requires CompletesBy(t, rest, r)
    ensures CompletesBy(s, [Send] + rest, r)
  {
    assert ([Send] + rest)[1..] == rest;
    assert Remaining(t, r) == Remaining(s, r);
  }

  /** A request still waiting for its answer is the one the reader holds it for. */
  lemma {:induction false} SendReady(s: State, r: Request)
    requires Inv(s) && s.drained && In(s, r, Waiting) && s.table.channels[r] == Empty
    ensures Owned(s.table) && InHand(s.hand, r) && Enabled(s, Send)
    ensures var t := Next(s, Send);
            Inv(t) && t.drained && t.hand == None && t.phases == s.phases && t.closers == s.closers
  {
    InvStep(s, Send);
  }

  lemma {:induction false} OwnStepIsOwn(s: State, r: Request)
    requires r < |s.phases| && !s.phases[r].Done? && !s.phases[r].Checked?
    ensures Own(OwnStep(s, r), r)
  {
  }

  lemma {:induction false} OwnStepReady(s: State, r: Request)
    requires Inv(s) && s.drained && r < |s.phases| && !s.phases[r].Done?
    requires s.phases[r].Waiting? ==> s.table.channels[r] != Empty
    ensures Owned(s.table) && !s.phases[r].Checked? && Enabled(s, OwnStep(s, r)) && Own(OwnStep(s, r), r)
    ensures var t := Next(s, OwnStep(s, r));
            Inv(t) && t.drained && t.hand == s.hand && r < |t.phases| && Remaining(t, r) < Remaining(s, r)
  {
    OwnStepAdvances(s, r);
    OwnStepIsOwn(s, r);
    StillDrained(s, OwnStep(s, r));
  }

  lemma {:induction false} StillDrained(s: State, step: Step)
    requires Inv(s) && s.drained && Enabled(s, step)
    ensures Inv(Next(s, step)) && Next(s, step).drained && |s.phases| <= |Next(s, step).phases|
  {
    InvStep(s, step);
    StepExtends(s, step);
  }

  /** No hang: on a drained connection every unfinished request completes by at
      most eight steps of its own, without a timeout, and by at most one step of
      anyone else: the send the reader already holds for it. */
  lemma {:induction false} DrainedRequestCompletes(s: State, r: Request) returns (steps: seq<Step>)
    requires Inv(s) && s.drained && r < |s.phases|
    ensures CompletesBy(s, steps, r) && Remaining(s, r) <= 8
    decreases Remaining(s, r), if s.hand.Some? then 1 else 0
  {
    if s.phases[r].Done? {
      steps := [];
    } else if s.phases[r].Waiting? && s.table.channels[r] == Empty {
      SendReady(s, r);
      var rest := DrainedRequestCompletes(Next(s, Send), r);
      SendFirst(s, Next(s, Send), rest, r);
      steps := [Send] + rest;
    } else {
      OwnStepReady(s, r);
      var step := OwnStep(s, r);
      var rest := DrainedRequestCompletes(Next(s, step), r);
      OwnStepFirst(s, Next(s, step), step, rest, r);
      steps := [step] + rest;
    }
  }

  /** ... and once closed, no step of anything else takes it further away. */
  lemma {:induction false} ClosedNoSetback(s: State, step: Step, r: Request)
    requires s.closed && Owned(s.table) && Enabled(s, step) && r < |s.phases|
    ensures Remaining(Next(s, step), r) <= Remaining(s, r)
  {
    if MovesOneRequest(step) {
      MoveNoSetback(s, step, r);
    } else if step.CloseBegin? || step.Cancel? || step.Drain? {
      CloserNoSetback(s, step, r);
    }
  }

  lemma {:induction false} MoveNoSetback(s: State, step: Step, r: Request)
    requires s.closed && Owned(s.table) && Enabled(s, step) && r < |s.phases| && MovesOneRequest(step)
    ensures Remaining(Next(s, step), r) <= Remaining(s, r)
  {
    RequestMoves(s, step);
  }

  lemma {:induction false} CloserNoSetback(s: State, step: Step, r: Request)
    requires Owned(s.table) && Enabled(s, step) && r < |s.phases|
    requires step.CloseBegin? || step.Cancel? || step.Drain?
    ensures Remaining(Next(s, step), r) <= Remaining(s, r)
  {
  }

  /** A closed connection is drained, or a closer is about to drain it as soon
      as the lock is free; the lock holder can always let go. */
  lemma {:induction false} ClosedDrains(s: State)
    requires Inv(s) && s.closed && !s.drained
    ensures s.lock.None? ==> exists c :: c in s.closers && Enabled(s, Drain(c))
    ensures s.lock.Some? ==> Enabled(s, Insert(s.lock.value))
    ensures s.reason.Some?
  {
    var c :| c in s.closers && s.closers[c] == Cancelled;
    assert s.lock.None? ==> Enabled(s, Drain(c));
  }

  // ---------- answers reach the request they were sent for ----------

  /** In every run a request completes with a result only from a reply under
      its own key, and no reply completes two requests. */
  lemma {:induction false} AnsweredByOwnReply(steps: seq<Step>, r: Request)
    requires CanRun(INIT, steps)
    requires r < |Run(INIT, steps).phases| && Run(INIT, steps).phases[r].Done?
             && Run(INIT, steps).phases[r].o.Answered?
    ensures var s := Run(INIT, steps);
            var i := s.phases[r].o.reply;
            && i < |s.replies| && s.replies[i].key == Key(r)
            && forall q :: 0 <= q < |s.phases| && q != r && HasOutcome(s.phases[q]) ==>
                             s.phases[q].o != Answered(i)
  {
    Reachable(steps);
    var s := Run(INIT, steps);
    forall q | 0 <= q < |s.phases| && q != r && HasOutcome(s.phases[q]) ensures s.phases[q].o != s.phases[r].o {
      assert s.table.channels[q] != s.table.channels[r];
    }
  }

  /** Two requests share a key exactly when the counter has wrapped between them. */
  lemma {:induction false} KeysEqualIff(r: Request, q: Request)
    ensures Key(r) == Key(q) <==> (1 + r) % U64 == (1 + q) % U64
  {
    ParseDecimal((1 + r) % U64);
    ParseDecimal((1 + q) % U64);
  }

  /** ... so below 2^64 requests every key is its request's alone. */
  lemma {:induction false} KeysDiffer(r: Request, q: Request)
    requires r < 0x1_0000_0000_0000_0000 && q < 0x1_0000_0000_0000_0000 && Key(r) == Key(q)
    ensures r == q
  {
    KeysEqualIff(r, q);
    Wrapped(r);
    Wrapped(q);
  }

  lemma {:induction false} Wrapped(r: Request)
    requires r < U64
    ensures (1 + r) % U64 == if 1 + r == U64 then 0 else 1 + r
  {
  }

  /** A reply whose request is gone, or that names no request, changes nothing
      but the record of what arrived. */
  lemma {:induction false} LateReplyDiscarded(s: State, reply: Reply)
    requires Inv(s) && Enabled(s, Take(reply))
    requires forall r :: 0 <= r < |s.phases| && Key(r) == reply.key ==>
                           !Registered(s.phases[r]) || s.table.channels[r] != Empty
    ensures Next(s, Take(reply)) == s.(replies := s.replies + [reply])
  {
    assert reply.key !in s.table.pending;
  }

  lemma {:induction false} OwnKeyOnly(s: State, r: Request)
    requires Inv(s) && |s.phases| <= U64 && r < |s.phases|
    ensures Key(r) in s.table.pending ==> s.table.pending[Key(r)] == r
  {
    if Key(r) in s.table.pending {
      KeysDiffer(r, s.table.pending[Key(r)]);
    }
  }

  /** A request timed out, its registration dropped or not yet. */
  predicate IsTimedOut(s: State, r: Request) {
    r < |s.phases| && (s.phases[r] == Finishing(TimedOut) || s.phases[r] == Done(TimedOut))
  }

  lemma {:induction false} TimedOutStep(s: State, step: Step, r: Request)
    requires Owned(s.table) && Enabled(s, step) && IsTimedOut(s, r)
    ensures IsTimedOut(Next(s, step), r)
  {
    if MovesOneRequest(step) {
      RequestMoves(s, step);
    } else if KeepsPhases(step) {
      PhasesKept(s, step);
    }
  }

  lemma {:induction false} TimedOutRun(s: State, steps: seq<Step>, r: Request)
    requires CanRun(s, steps) && IsTimedOut(s, r)
    ensures IsTimedOut(Run(s, steps), r)
    decreases |steps|
  {
    if steps == [] {
    } else {
      TimedOutStep(s, steps[0], r);
      TimedOutRun(Next(s, steps[0]), steps[1..], r);
    }
  }

  /** Dropping a request's guard removes its own entry and no other. */
  lemma {:induction false} DropGuardRemovesOwn(s: State, r: Request)
    requires Inv(s) && |s.phases| <= U64 && Enabled(s, DropGuard(r))
    ensures Owned(s.table)
    ensures var t := Next(s, DropGuard(r));
            && t == s.(phases := s.phases[r := Done(s.phases[r].o)], table := t.table)
            && t.table.pending == s.table.pending - {Key(r)}
            && (forall k :: k in s.table.pending && s.table.pending[k] != r ==> k in t.table.pending)
            && |t.table.channels| == |s.table.channels|
            && forall q :: 0 <= q < |s.table.channels| && q != r ==> t.table.channels[q] == s.table.channels[q]
  {
    OwnKeyOnly(s, r);
    assert Next(s, DropGuard(r)).table == DropKey(s.table, Key(r));
  }

  /** A timeout after the frame was written costs only that request, in every
      interleaving: the timeout moves its phase and nothing else, whoever holds
      the lock; whatever runs in between, the outcome stays; and dropping the
      guard, whenever that is, leaves every other request and registration. */
  lemma {:induction false} TimeoutTouchesNothingElse(before: seq<Step>, r: Request, between: seq<Step>)
    requires CanRun(INIT, before) && Enabled(Run(INIT, before), Timeout(r))
    ensures Owned(Run(INIT, before).table)
    ensures var s := Run(INIT, before);
            Next(s, Timeout(r)) == s.(phases := s.phases[r := Finishing(TimedOut)])
    ensures var s := Next(Run(INIT, before), Timeout(r));
            CanRun(s, between) ==>
              var u := Run(s, between);
              && Inv(u) && Owned(u.table) && IsTimedOut(u, r)
              && (Enabled(u, DropGuard(r)) && |u.phases| <= U64 ==>
                    var t := Next(u, DropGuard(r));
                    && t == u.(phases := u.phases[r := Done(TimedOut)], table := t.table)
                    && t.table.pending == u.table.pending - {Key(r)}
                    && (forall k :: k in u.table.pending && u.table.pending[k] != r ==> k in t.table.pending)
                    && |t.table.channels| == |u.table.channels|
                    && forall q :: 0 <= q < |u.table.channels| && q != r ==> t.table.channels[q] == u.table.channels[q])
  {
    Reachable(before);
    var timedOut := Next(Run(INIT, before), Timeout(r));
    InvStep(Run(INIT, before), Timeout(r));
    if CanRun(timedOut, between) {
      InvRun(timedOut, between);
      TimedOutRun(timedOut, between, r);
      var u := Run(timedOut, between);
      if Enabled(u, DropGuard(r)) && |u.phases| <= U64 {
        DropGuardRemovesOwn(u, r);
      }
    }
  }

  /** Every server request is answered at most once, under the id it came with. */
  lemma {:induction false} ServerRequestsAnsweredOnce(steps: seq<Step>, i: nat, j: nat)
    requires CanRun(INIT, steps) && i < j < |Run(INIT, steps).answers|
    ensures var s := Run(INIT, steps);
            s.answers[i] < |s.arrivals| && s.answers[j] < |s.arrivals| && s.answers[i] != s.answers[j]
  {
    Reachable(steps);
  }
}
