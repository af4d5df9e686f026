/** One request from its checks to its record, over every run: exactly which requests are accepted,
    that the call budget holds, what is stored for every kind of answer, and that a recovery record
    carries the parameters of the request that was interrupted. */
module GatewayRequests {
  import opened Bytes
  import opened Utf8
  import opened Normalise
  import opened Numbers
  import opened JsonScan
  import opened Canonical
  import opened Frames
  import opened DurableLedger
  import opened Wal
  import opened RequestBody
  import opened Gateway
  import opened GatewayInv
  import opened GatewayEvents
  import opened GatewayHistory
  import opened GatewayTheorems
  import opened GatewayProgress
  import opened GatewayRestart
  import opened GatewaySteps
  import ObsRules
  import JsonReader
  import WrittenTexts

  // ---- which requests are accepted -----------------------------------------------------------------

  /** What a caller must send, and what becomes of it. */
  ghost predicate Accepted(
    g: Config, calls: nat, prompt: bytes, maxTokens: int, temperature: int, topP: int, req: Req)
  {
    && 1 <= |prompt| <= g.maxPrompt && ObsRules.GoodText(prompt)
    && 1 <= maxTokens <= 200_000 && 0 <= temperature <= 131_072 && topP <= 65_536
    && calls < g.callBudget
    && req.prompt == Lines(prompt)
    && req.params.maxTokens == maxTokens && req.params.seed == -1 && req.params.temperature == temperature
    && req.params.topP == if topP < 0 then -0x8000_0000 else topP
  }

  /** A request is accepted, and as what, if and only if this holds: the prompt buffer never decides. */
  lemma AcceptExact(g: Config, s: State, prompt: bytes, maxTokens: int, temperature: int, topP: int, req: Req)
    ensures CheckRequest(g, s, prompt, maxTokens, temperature, topP) == Some(req)
      <==> Accepted(g, s.calls, prompt, maxTokens, temperature, topP, req)
  {
    ObsRules.CleanTextExact(prompt);
    hide ObsRules.GoodText, CleanText, Lines, ValidUtf8;
  }

  // ---- the budget ------------------------------------------------------------------------------------

  /** The calls of the process that is up are within the budget, and a pending one still fits. */
  predicate WithinBudget(g: Config, s: State) {
    && (!s.phase.Down? ==> s.calls == 0 || s.calls <= g.callBudget)
    && (s.phase.IntentOpen? ==> s.calls < g.callBudget)
  }

  lemma CommitStepCalls(g: Config, s: State, req: Req, reply: Reply, io1: Io, io2: Io)
    ensures var t := CommitStep(g, s, req, reply, io1, io2);
      t.calls == s.calls && (t.phase.Closing? || t.phase.Serving?)
  {
    hide CommitObs, OutcomeOf;
    var o := OutcomeOf(reply);
    CommitKeeps(g, s, o.state, o.failure, req.prompt, o.output, req.params, io1);
    var t := CommitObs(g, s, o.state, o.failure, req.prompt, o.output, req.params, io1).0;
    CommitKeeps(g, t, ERROR, INVALID_OUTPUT, req.prompt, [], req.params, io2);
  }

  lemma RecoverStepCalls(g: Config, s: State, io: Io)
    ensures var t := RecoverStep(g, s, io);
      t.calls == s.calls && !t.phase.IntentOpen?
  {
    hide CommitObs, ReadIntent, Probe, Synth;
    if s.wal.Some? && ReadIntent(s.wal).Some? {
      var i := ReadIntent(s.wal).value;
      CommitKeeps(g, s, ERROR, TRANSPORT_ERROR, Synth(i.hash), [], RecoveryParams(i), io);
    }
  }

  lemma RequestBudget(g: Config, s: State, e: Event)
    requires e.Request? && WithinBudget(g, s)
    ensures WithinBudget(g, Act(g, s, e))
  {
    hide WalText, HexText, Probe, Lines, ValidUtf8, NormaliseRc;
  }

  lemma ActBudget(g: Config, s: State, e: Event)
    requires WithinBudget(g, s)
    ensures WithinBudget(g, Act(g, s, e))
  {
    if e.Request? {
      hide *;
      RequestBudget(g, s, e);
    } else {
      hide CommitStep, RecoverStep, Append, Track, CheckRequest, Open, EnableExport, StateTag, StatePayload, ValidUtf8;
      match e
      case RecoverIntent(io) => RecoverStepCalls(g, s, io);
      case Commit(io1, io2) =>
        if s.phase.Answered? { CommitStepCalls(g, s, s.phase.req, s.phase.reply, io1, io2); }
      case _ =>
    }
  }

  lemma StepBudget(g: Config, s: State, e: Event)
    requires WithinBudget(g, s)
    ensures WithinBudget(g, Step(g, s, e))
  {
    hide Act, Life, ConfigOk, With;
    if !e.Other? {
      ActBudget(g, s, e);
    }
  }

  lemma {:induction false} RunBudget(g: Config, s: State, es: seq<Event>)
    requires WithinBudget(g, s)
    ensures WithinBudget(g, Run(g, s, es))
    decreases |es|
  {
    hide Step, WithinBudget;
    if es != [] {
      StepBudget(g, s, es[0]);
      RunBudget(g, Step(g, s, es[0]), es[1..]);
    }
  }

  /** The same for a process under any configuration, from its start on. */
  lemma {:induction false} LifeBudget(g: Config, s: State, es: seq<Event>)
    requires WithinBudget(g, s)
    ensures WithinBudget(g, Life(g, s, es))
    decreases |es|
  {
    hide Act, WithinBudget;
    if es != [] {
      ActBudget(g, s, es[0]);
      LifeBudget(g, Act(g, s, es[0]), es[1..]);
    }
  }

  /** In every reachable state the process that is up has made at most as many calls as its budget,
      and an event adds a call only if there is budget for it. */
  lemma BudgetKept(g: Config, es: seq<Event>, e: Event)
    ensures var s := Reach(g, es);
      && (!s.phase.Down? && g.callBudget >= 0 ==> s.calls <= g.callBudget)
      && (!s.phase.Down? && g.callBudget < 0 ==> s.calls == 0)
      && (Step(g, s, e).calls > s.calls && !e.Other? ==> s.calls < g.callBudget && Step(g, s, e).calls == s.calls + 1)
  {
    hide Run;
    RunBudget(g, Init(), es);
    if !e.Other? {
      CallsAdded(g, Reach(g, es), e);
    }
  }

  lemma CallsAdded(g: Config, s: State, e: Event)
    requires WithinBudget(g, s) && !e.Other?
    ensures var t := Step(g, s, e);
      t.calls > s.calls ==> s.calls < g.callBudget && t.calls == s.calls + 1
  {
    hide CommitStep, RecoverStep, Append, Track, CheckRequest, Open, EnableExport, StateTag, StatePayload, ValidUtf8;
    hide WalText, HexText, Probe;
    match e
    case RecoverIntent(io) => RecoverStepCalls(g, s, io);
    case Commit(io1, io2) =>
      if s.phase.Answered? { CommitStepCalls(g, s, s.phase.req, s.phase.reply, io1, io2); }
    case _ =>
  }

  // ---- what is stored for an answer ------------------------------------------------------------------

  /** The body has a content text and a stop_reason. */
  predicate Usable(body: bytes) {
    ContentText(body, 64512).Some? && TopString(body, Ascii("stop_reason"), 63).Some?
  }

  /** The outcome of a usable body. */
  function OwnOutcome(body: bytes): Outcome
    requires Usable(body)
  {
    var cut := CStr(TopString(body, Ascii("stop_reason"), 63).value) == Ascii("max_tokens");
    Outcome(if cut then TRUNCATED else COMPLETE, FAILURE_NULL, ContentText(body, 64512).value)
  }

  /** An answer that admission accepts as it is. */
  predicate TakenAsIs(g: Config, s: State, req: Req, reply: Reply) {
    reply.Body? && Usable(reply.body) && Admitted(g, s, req, OwnOutcome(reply.body))
  }

  /** What the stored record says of the answer: each failure type for exactly the answers it stands
      for, and the answer's own text and state only without one. */
  predicate AnswerTold(g: Config, s: State, req: Req, reply: Reply, r: Record) {
    && r.inputHash == g.c.sha256(req.prompt) && r.params == req.params
    && r.modelId == Some(g.modelId) && r.oracleId == Some(g.oracleId)
    && (r.failure == TIMEOUT <==> reply.TimedOut?)
    && (r.failure == TRANSPORT_ERROR <==> reply.HttpFail? || reply.TransportFail?)
    && (r.failure == INVALID_OUTPUT <==> reply.OverCap? || (reply.Body? && !TakenAsIs(g, s, req, reply)))
    && (r.failure == FAILURE_NULL <==> TakenAsIs(g, s, req, reply))
    && (r.failure != FAILURE_NULL ==> r.state == ERROR && r.output == Some([]) && r.outputSize == 0)
    && (TakenAsIs(g, s, req, reply) ==>
          var o := OwnOutcome(reply.body);
          r.state == o.state && r.output == Some(Lines(o.output)) && r.outputSize == |Lines(o.output)|)
  }

  lemma OutcomeIs(reply: Reply)
    requires !reply.AllocFail?
    ensures OutcomeOf(reply) ==
      match reply
      case Body(body) => if Usable(body) then OwnOutcome(body) else Outcome(ERROR, INVALID_OUTPUT, [])
      case TimedOut => Outcome(ERROR, TIMEOUT, [])
      case OverCap => Outcome(ERROR, INVALID_OUTPUT, [])
      case HttpFail => Outcome(ERROR, TRANSPORT_ERROR, [])
      case TransportFail => Outcome(ERROR, TRANSPORT_ERROR, [])
  {
    hide ContentText, TopString, Ascii, CStr;
  }

  /** An error that admission refuses leaves the ledger alone. */
  lemma RefusedError(g: Config, s: State, io1: Io, io2: Io)
    requires s.phase.Answered? && OutcomeOf(s.phase.reply).state == ERROR
    requires !Admitted(g, s, s.phase.req, OutcomeOf(s.phase.reply))
    ensures Step(g, s, Commit(io1, io2)).h == s.h
  {
    hide *;
    var req, o := s.phase.req, OutcomeOf(s.phase.reply);
    StateAfter(g, s, io1, io2);
    AnswerRefused(g, s, req, o, io1);
  }

  lemma ToldBy(g: Config, s: State, req: Req, reply: Reply, r: Record)
    requires !reply.AllocFail?
    requires var o := OutcomeOf(reply);
      && (o.state == ERROR ==> Admitted(g, s, req, o))
      && Tells(g, r, req.prompt, req.params, if Admitted(g, s, req, o) then o else FALLBACK)
    ensures AnswerTold(g, s, req, reply, r)
  {
    hide OutcomeOf, Usable, Admitted, Lines, OwnOutcome;
    OutcomeIs(reply);
    NoLines();
    if reply.Body? && Usable(reply.body) {
      OwnOutcomeShape(reply.body);
    }
  }

  lemma NoLines()
    ensures Lines([]) == []
  {
  }

  lemma OwnOutcomeShape(body: bytes)
    requires Usable(body)
    ensures OwnOutcome(body).failure == FAILURE_NULL && OwnOutcome(body).state != ERROR
  {
    hide ContentText, TopString, Ascii, CStr;
  }

  /** In every run, whatever frame the commit of an answer adds, whether or not the append then also
      succeeds, its record tells what the answer was; and a committed answer has added one. */
  lemma AnswerIsTold(g: Config, es: seq<Event>, io1: Io, io2: Io)
    requires ConfigOk(g) && Reach(g, es).phase.Answered?
    ensures var s := Reach(g, es);
      var t := Step(g, s, Commit(io1, io2));
      && (t.phase.Closing? ==> t.h.frames != s.h.frames)
      && (t.h.frames != s.h.frames ==>
            && |t.h.frames| == |s.h.frames| + 1 && s.h.frames <= t.h.frames
            && exists r :: Stores(g.c, t.h.frames[|s.h.frames|], r) && AnswerTold(g, s, s.phase.req, s.phase.reply, r))
  {
    hide *;
    var s := Reach(g, es);
    var t := Step(g, s, Commit(io1, io2));
    Reached(g, es);
    NoAllocFail(g, s);
    AnswerIsStored(g, es, io1, io2);
    var req, o := s.phase.req, OutcomeOf(s.phase.reply);
    var kept := if Admitted(g, s, req, o) then o else FALLBACK;
    if t.phase.Closing? || t.h.frames != s.h.frames {
      AddsFacts(g, s.h.frames, t.h.frames, req.prompt, req.params, kept);
      if o.state == ERROR && !Admitted(g, s, req, o) {
        RefusedError(g, s, io1, io2);
      } else {
        var r := AddedRecord(g, s.h.frames, t.h.frames, req.prompt, req.params, kept);
        ToldBy(g, s, req, s.phase.reply, r);
      }
    }
  }

  lemma AddsFacts(g: Config, fs: seq<Frame>, gs: seq<Frame>, prompt: bytes, params: Params, o: Outcome)
    requires Adds(g, fs, gs, prompt, params, o)
    ensures |gs| == |fs| + 1 && fs <= gs && gs != fs
  {
    hide StoresOutcome;
  }

  lemma AddedRecord(g: Config, fs: seq<Frame>, gs: seq<Frame>, prompt: bytes, params: Params, o: Outcome)
    returns (r: Record)
    requires Adds(g, fs, gs, prompt, params, o)
    ensures |gs| == |fs| + 1 && Stores(g.c, gs[|fs|], r) && Tells(g, r, prompt, params, o)
  {
    hide Stores, Tells;
    r :| Stores(g.c, gs[|gs| - 1], r) && Tells(g, r, prompt, params, o);
  }

  lemma NoAllocFail(g: Config, s: State)
    requires Inv(g, s) && s.phase.Answered?
    ensures !s.phase.reply.AllocFail?
  {
    hide FileInv, IntentsInv, OpenInv, ExportInv, Sync, Pending;
  }

  // ---- the request that was interrupted --------------------------------------------------------------

  /** As long as no later intent exists, the intent file is the one of `s` or gone. */
  predicate SameIntent(s: State, t: State) {
    && |t.h.intents| >= |s.h.intents|
    && (t.wal == s.wal || t.wal.None? || |t.h.intents| > |s.h.intents|)
  }

  /** An event of a process keeps the intent file, removes it, or creates one with a new intent. */
  lemma ActWal(g: Config, s: State, e: Event)
    ensures var t := Act(g, s, e);
      t.wal == s.wal || t.wal.None? || |t.h.intents| > |s.h.intents|
    ensures s.wal.None? && Act(g, s, e).wal.Some? ==> |Act(g, s, e).h.intents| > |s.h.intents|
  {
    hide CommitStep, RecoverStep, Append, Track, CheckRequest, Open, EnableExport, StateTag, StatePayload, ValidUtf8;
    hide WalText, HexText, Probe;
    match e
    case RecoverIntent(io) => RecoverStepWal(g, s, io);
    case Commit(io1, io2) =>
      if s.phase.Answered? { CommitStepWal(g, s, s.phase.req, s.phase.reply, io1, io2); }
    case _ =>
  }

  lemma CommitStepWal(g: Config, s: State, req: Req, reply: Reply, io1: Io, io2: Io)
    ensures CommitStep(g, s, req, reply, io1, io2).wal == s.wal
  {
    hide CommitObs, OutcomeOf;
    var o := OutcomeOf(reply);
    CommitKeeps(g, s, o.state, o.failure, req.prompt, o.output, req.params, io1);
    var t := CommitObs(g, s, o.state, o.failure, req.prompt, o.output, req.params, io1).0;
    CommitKeeps(g, t, ERROR, INVALID_OUTPUT, req.prompt, [], req.params, io2);
  }

  lemma RecoverStepWal(g: Config, s: State, io: Io)
    ensures RecoverStep(g, s, io).wal == s.wal
  {
    hide CommitObs, ReadIntent, Probe, Synth;
    if s.wal.Some? && ReadIntent(s.wal).Some? {
      var i := ReadIntent(s.wal).value;
      CommitKeeps(g, s, ERROR, TRANSPORT_ERROR, Synth(i.hash), [], RecoveryParams(i), io);
    }
  }

  lemma ActSame(g: Config, s: State, t: State, e: Event)
    requires SameIntent(s, t) && s.wal.Some?
    ensures SameIntent(s, Act(g, t, e))
  {
    hide Act;
    ActWal(g, t, e);
    ActGrows(g, t, e);
  }

  lemma {:induction false} LifeSame(g: Config, s: State, t: State, es: seq<Event>)
    requires SameIntent(s, t) && s.wal.Some?
    ensures SameIntent(s, Life(g, t, es))
    decreases |es|
  {
    hide Act, SameIntent;
    if es != [] {
      ActSame(g, s, t, es[0]);
      LifeSame(g, s, Act(g, t, es[0]), es[1..]);
    }
  }

  lemma StepSame(g: Config, s: State, t: State, e: Event)
    requires SameIntent(s, t) && s.wal.Some?
    ensures SameIntent(s, Step(g, t, e))
  {
    hide Act, Life, ConfigOk, With;
    if e.Other? {
      LifeSame(With(g, e.setup), s, t, e.es);
    } else {
      ActSame(g, s, t, e);
    }
  }

  lemma {:induction false} RunSame(g: Config, s: State, t: State, es: seq<Event>)
    requires SameIntent(s, t) && s.wal.Some?
    ensures SameIntent(s, Run(g, t, es))
    decreases |es|
  {
    hide Step, SameIntent;
    if es != [] {
      StepSame(g, s, t, es[0]);
      RunSame(g, s, Step(g, t, es[0]), es[1..]);
    }
  }

  /** The record of a call that was never answered, field by field. */
  predicate Unanswered(g: Config, req: Req, r: Record) {
    && r.state == ERROR && r.failure == TRANSPORT_ERROR && r.output == Some([]) && r.outputSize == 0
    && r.inputHash == g.c.sha256(Ascii("unclosed-intent input_hash=") + HexText(g.c.sha256(req.prompt)))
    && r.modelId == Some(g.modelId) && r.oracleId == Some(g.oracleId)
    && r.params.maxTokens == req.params.maxTokens && r.params.seed == req.params.seed
    && r.params.temperature == req.params.temperature && r.params.topP == req.params.topP
  }

  /** A request is in flight. */
  predicate InFlight(s: State, req: Req) {
    s.phase == IntentOpen(req) || (s.phase.Answered? && s.phase.req == req)
  }

  lemma InFlightFacts(g: Config, s: State, req: Req)
    requires Inv(g, s) && InFlight(s, req)
    ensures s.wal.Some? && ReadIntent(s.wal).Some? && Describes(g, ReadIntent(s.wal).value, req)
    ensures req.params.seed == -1
  {
    hide FileInv, IntentsInv, OpenInv, ExportInv, Sync, ReadIntent, Describes, ValidUtf8, Sendable, ParamsRange;
  }

  lemma UnansweredBy(g: Config, i: Intent, req: Req, r: Record)
    requires Describes(g, i, req) && req.params.seed == -1
    requires Tells(g, r, Synth(i.hash), Params(i.maxTokens, -1, i.temperature, i.topP), UNCLOSED)
    ensures Unanswered(g, req, r)
  {
    NoLines();
    hide Lines, HexText, Ascii;
  }

  /** In every run: a process stops, for whatever reason and with whatever restarts and changes of
      configuration in between, while a request is in flight.  A frame that a later recovery of its
      intent adds is the record of that request: its hash, and its parameters one by one. */
  lemma RecoveryTellsRequest(g: Config, es: seq<Event>, req: Req, later: seq<Event>, io: Io)
    requires ConfigOk(g) && InFlight(Reach(g, es), req)
    requires var u := Run(g, Reach(g, es), later);
      u.phase.Recovering? && u.wal.Some? && |u.h.intents| == |Reach(g, es).h.intents|
    ensures var u := Run(g, Reach(g, es), later);
      var t := Step(g, u, RecoverIntent(io));
      && (t.phase == Clearing(true) ==> t.h.frames != u.h.frames)
      && (t.h.frames != u.h.frames ==>
            && |t.h.frames| == |u.h.frames| + 1 && u.h.frames <= t.h.frames
            && exists r :: Stores(g.c, t.h.frames[|u.h.frames|], r) && Unanswered(g, req, r))
  {
    hide *;
    var s := Reach(g, es);
    var u := Run(g, s, later);
    Reached(g, es);
    InFlightFacts(g, s, req);
    SameStart(s);
    RunSame(g, s, s, later);
    SameWal(s, u);
    ReachConcat(g, es, later);
    RecoveryIsStored(g, es + later, io);
    var i := ReadIntent(u.wal).value;
    var p := Params(i.maxTokens, -1, i.temperature, i.topP);
    var t := Step(g, u, RecoverIntent(io));
    if t.phase == Clearing(true) || t.h.frames != u.h.frames {
      AddsFacts(g, u.h.frames, t.h.frames, Synth(i.hash), p, UNCLOSED);
      var r := AddedRecord(g, u.h.frames, t.h.frames, Synth(i.hash), p, UNCLOSED);
      UnansweredBy(g, i, req, r);
    }
  }

  lemma SameStart(s: State)
    ensures SameIntent(s, s)
  {
  }

  lemma SameWal(s: State, u: State)
    requires SameIntent(s, u) && u.wal.Some? && |u.h.intents| == |s.h.intents|
    ensures u.wal == s.wal
  {
  }

  // ---- the start-up frame ------------------------------------------------------------------------------

  /** In every run, a start that goes through has added one frame: its tag is AX:STATE:v1, and a
      standard reader finds the hash of the configuration file in its payload. */
  lemma StartUpIsStored(g: Config, es: seq<Event>, io: Io)
    requires ConfigOk(g) && Reach(g, es).phase.Committing?
    ensures var s := Reach(g, es);
      var t := Step(g, s, CommitState(io));
      && (t.phase.Serving? ==> t.h.frames != s.h.frames)
      && (t.h.frames != s.h.frames ==>
            && |t.h.frames| == |s.h.frames| + 1 && s.h.frames <= t.h.frames
            && t.h.frames[|s.h.frames|].tag == Ascii("AX:STATE:v1")
            && JsonReader.Loads(t.h.frames[|s.h.frames|].payload) == Some(WrittenTexts.StartUpValue(g)))
  {
    hide *;
    var s := Reach(g, es);
    Reached(g, es);
    CommittingReady(g, s);
    TagsNoNul();
    AppendFacts(g, s, StateTag(), StatePayload(g), io);
    var (u, ok) := AppendStep(g, s, StateTag(), StatePayload(g), io);
    AppendedLast(g.c, s, u, ok, StateTag(), StatePayload(g));
    CommitStateIs(g, s, io);
    WrittenTexts.PayloadRead(g);
    TagIs();
  }

  lemma CommittingReady(g: Config, s: State)
    requires Inv(g, s) && s.phase.Committing?
    ensures Ready(g.c, s)
  {
    hide Inv;
    ReadyNow(g, s);
  }

  lemma CommitStateIs(g: Config, s: State, io: Io)
    requires s.phase.Committing?
    ensures var (u, ok) := AppendStep(g, s, StateTag(), StatePayload(g), io);
      Step(g, s, CommitState(io)) == u.(phase := if ok then Serving else Down)
  {
    hide AppendStep, StatePayload, StateTag;
  }

  lemma TagIs()
    ensures StateTag() == Ascii("AX:STATE:v1") && ObsTag() == Ascii("AX:OBS:v1")
  {
  }
}
