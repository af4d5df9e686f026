/** Every stage of a start and of a request, whatever the disk does: exactly when it goes on and
    when it stops, over every run; and that the calls of a process are counted. */
module GatewayStages {
  import opened Bytes
  import opened Numbers
  import opened Canonical
  import opened Obs
  import opened Frames
  import opened DurableLedger
  import opened Wal
  import opened Utf8
  import opened Gateway
  import opened GatewayInv
  import opened GatewayEvents
  import opened GatewayTheorems
  import opened GatewayProgress
  import opened GatewayRestart
  import opened GatewayRequests

  // ---- the stages of a start ------------------------------------------------------------------------

  /** An export that is configured is a whole, synced copy of the ledger, or the start stops. */
  lemma ExportStage(g: Config, s: State, made: bool, n: nat, synced: bool)
    requires s.phase.Opened?
    ensures var t := Step(g, s, EnableCopy(made, n, synced));
      && t.phase == (if g.exportOn && !(made && n >= |s.l.file| && synced) then Down else Recovering)
      && t.l.exportOn == (if g.exportOn then t.phase.Recovering? else s.l.exportOn)
      && (g.exportOn && t.phase.Recovering? ==> t.l.exported == s.l.file)
      && t.l.file == s.l.file && t.l.chain == s.l.chain && t.wal == s.wal && t.h == s.h
  {
  }

  /** The synthetic record of an intent that was left open. */
  function RecoverySeal(g: Config, s: State, i: Intent): Option<Record> {
    Seal(g.c, Draft(g.c, ObsInput(g, s, ERROR, TRANSPORT_ERROR, Synth(i.hash), [],
      Params(i.maxTokens, -1, i.temperature, i.topP))))
  }

  /** The world gets in the way of storing it. */
  predicate RecoveryFails(g: Config, s: State, i: Intent, io: Io) {
    var r := RecoverySeal(g, s, i);
    r.None? || AppendFaults(g.c, s.l.chain, ObsTag(), Canon(r.value, true), io)
  }

  /** Recovery goes on without an intent, stops at one that it cannot read, takes one whose hash is
      in the last payload for evidenced, and records any other unless the world gets in the way. */
  lemma RecoverStage(g: Config, s: State, io: Io)
    requires ConfigOk(g) && Inv(g, s) && RoomLeft(s) && s.phase.Recovering?
    ensures var i := ReadIntent(s.wal);
      Step(g, s, RecoverIntent(io)).phase
      == if s.wal.None? then Committing
         else if i.None? then Down
         else if Probe(LastPayload(s.h.frames), i.value.hash) then Clearing(false)
         else if RecoveryFails(g, s, i.value, io) then Down
         else Clearing(true)
  {
    hide *;
    RecoverPhase(g, s, io);
    if s.wal.Some? && ReadIntent(s.wal).Some? {
      RecoveringReady(g, s);
      RecoveringFacts(g, s);
      RecoveryDecided(g, s, ReadIntent(s.wal).value, io);
    }
  }

  lemma RecoverPhase(g: Config, s: State, io: Io)
    requires s.phase.Recovering?
    ensures var i := ReadIntent(s.wal);
      Step(g, s, RecoverIntent(io)).phase
      == if s.wal.None? then Committing
         else if i.None? then Down
         else if Probe(s.l.last, i.value.hash) then Clearing(false)
         else if RecoveryCommit(g, s, i.value, io).1 then Clearing(true)
         else Down
  {
    hide CommitObs, ReadIntent, Probe, Synth;
  }

  function RecoveryCommit(g: Config, s: State, i: Intent, io: Io): (State, bool) {
    CommitObs(g, s, ERROR, TRANSPORT_ERROR, Synth(i.hash), [], RecoveryParams(i), io)
  }

  lemma RecoveryDecided(g: Config, s: State, i: Intent, io: Io)
    requires ConfigOk(g) && AdmOk(s) && s.l.chain.seq_ == |s.h.frames| && RoomLeft(s) && ReadIntent(s.wal) == Some(i)
    ensures RecoveryCommit(g, s, i, io).1 <==> !RecoveryFails(g, s, i, io)
  {
    hide ConfigOk, AdmOk, RoomLeft, Recover, CommitObs, AdmitRc, Seal, Draft, Canon, AppendFaults, Synth, ParamsRange;
    RecoveredIntentRange(s.wal.value);
    UnclosedPair();
    ErrorAdmitted(g, s, TRANSPORT_ERROR, Synth(i.hash), RecoveryParams(i));
    if RecoverySeal(g, s, i).Some? {
      CommitExact(g, s, ERROR, TRANSPORT_ERROR, Synth(i.hash), [], RecoveryParams(i), io);
    } else {
      RefusedCommit(g, s, ERROR, TRANSPORT_ERROR, Synth(i.hash), [], RecoveryParams(i), io);
    }
  }

  lemma UnclosedPair()
    ensures PairPermitted(ERROR, TRANSPORT_ERROR)
  {
  }

  /** The intent is gone and its directory synced, or the start stops. */
  lemma ClearStage(g: Config, s: State, removed: bool, synced: bool)
    requires s.phase.Clearing?
    ensures var t := Step(g, s, Clear(removed, synced));
      && t.phase == (if removed && synced then Committing else Down)
      && t.wal == (if removed then None else s.wal) && t.l == s.l && t.h.frames == s.h.frames
  {
  }

  /** The start-up frame is stored, or the start stops. */
  lemma CommitStage(g: Config, s: State, io: Io)
    requires s.phase.Committing?
    ensures Step(g, s, CommitState(io)).phase
         == if AppendFaults(g.c, s.l.chain, StateTag(), StatePayload(g), io) then Down else Serving
  {
    hide Append, Track, AppendFaults, HexText;
    HexLength(g.c.sha256(g.raw));
    AppendExact(g, s, StateTag(), StatePayload(g), io);
  }

  /** The start of a process, whatever the disk does: it ends accepting if and only if the ledger
      opens, the export is made, no intent is left or it was evidenced or recorded and then removed,
      and the start-up frame is stored. */
  lemma StartExact(g: Config, es: seq<Event>, made: bool, n: nat, synced: bool, io1: Io, removed: bool, cleared: bool,
    io2: Io)
    requires ConfigOk(g) && Reach(g, es).phase.Down? && RoomLeft(Reach(g, es))
    ensures var s := Reach(g, es);
      var s1 := Step(g, s, Start);
      var s2 := Step(g, s1, EnableCopy(made, n, synced));
      var s4 := Step(g, Step(g, s2, RecoverIntent(io1)), Clear(removed, cleared));
      var t := Run(g, s,
        [Start, EnableCopy(made, n, synced), RecoverIntent(io1), Clear(removed, cleared), CommitState(io2)]);
      var i := ReadIntent(s.wal);
      t.phase.Serving? <==>
        && Chained(g.c, s.h.frames).Some? && (s.h.torn == [] || i.Some?)
        && (g.exportOn ==> made && n >= |EncodeFrames(s.h.frames, [])| && synced)
        && (s.wal.Some? ==>
              && i.Some? && removed && cleared
              && (Probe(LastPayload(s.h.frames), i.value.hash) || !RecoveryFails(g, s2, i.value, io1)))
        && !AppendFaults(g.c, s4.l.chain, StateTag(), StatePayload(g), io2)
  {
    hide *;
    var s := Reach(g, es);
    var s1 := Step(g, s, Start);
    var s2 := Step(g, s1, EnableCopy(made, n, synced));
    var s3 := Step(g, s2, RecoverIntent(io1));
    var s4 := Step(g, s3, Clear(removed, cleared));
    RunFive(g, s, Start, EnableCopy(made, n, synced), RecoverIntent(io1), Clear(removed, cleared), CommitState(io2));
    Reached(g, es);
    OpenStage(g, s);
    StepInv(g, s, Start);
    StepInv(g, s1, EnableCopy(made, n, synced));
    if s1.phase.Opened? {
      ExportStage(g, s1, made, n, synced);
      if s2.phase.Recovering? {
        RoomKept(s, s2);
        RecoverStage(g, s2, io1);
        if s3.phase.Clearing? {
          ClearStage(g, s3, removed, cleared);
        } else {
          NotClearing(g, s3, removed, cleared);
        }
      } else {
        DownFrom(g, s2, RecoverIntent(io1));
        DownFrom(g, s3, Clear(removed, cleared));
      }
    } else {
      DownFrom(g, s1, EnableCopy(made, n, synced));
      DownFrom(g, s2, RecoverIntent(io1));
      DownFrom(g, s3, Clear(removed, cleared));
    }
    if s4.phase.Committing? {
      CommitStage(g, s4, io2);
    } else {
      DownFrom(g, s4, CommitState(io2));
    }
  }

  lemma OpenStage(g: Config, s: State)
    requires Inv(g, s) && s.phase.Down?
    ensures var t := Step(g, s, Start);
      var opens := Chained(g.c, s.h.frames).Some? && (s.h.torn == [] || ReadIntent(s.wal).Some?);
      && t.phase == (if opens then Opened else Down)
      && t.wal == s.wal && t.h.frames == s.h.frames
      && (t.phase.Opened? ==> t.l.file == EncodeFrames(s.h.frames, []))
  {
    InvParts(g, s);
    hide FileInv, Inv, IntentsInv, ReadIntent, Open, Chained, EncodeFrames;
    FileIs(g.c, s);
    OpenFacts(g, s);
    EncodeFramesAppend(s.h.frames, s.h.torn);
  }

  /** A process that is down, or has nothing to clear, is left alone. */
  lemma DownFrom(g: Config, s: State, e: Event)
    requires s.phase.Down? && !e.Start? && !e.Other? && !e.Crash?
    ensures Step(g, s, e) == s
  {
    hide EnableStep, RecoverStep, CommitStateStep, CallStep, CommitStep, RequestStep, CheckRequest;
  }

  lemma NotClearing(g: Config, s: State, removed: bool, cleared: bool)
    requires s.phase.Down? || s.phase.Committing?
    ensures Step(g, s, Clear(removed, cleared)) == s
  {
  }

  // ---- the stages of a request ----------------------------------------------------------------------

  /** The intent of a request, field by field. */
  function IntentFor(g: Config, req: Req): Intent {
    var p := req.params;
    Intent(HexText(g.c.sha256(req.prompt)), g.modelId, p.maxTokens, -1, p.temperature, p.topP)
  }

  /** What of it gets to the disk. */
  function PartWritten(g: Config, req: Req, wio: WalIo): bytes {
    var text := WalText(IntentFor(g, req));
    text[..Min(wio.n, |text|)]
  }

  /** The whole intent is in a new file, and synced. */
  predicate WholeIntent(g: Config, s: State, req: Req, wio: WalIo) {
    s.wal.None? && wio.created && wio.n >= |WalText(IntentFor(g, req))| && wio.synced
  }

  /** A request goes on to its call if and only if it is accepted and its whole intent is in a file
      that did not exist before, and synced.  Otherwise the process goes on serving; whatever got to
      the disk is the beginning of that intent. */
  lemma RequestExact(g: Config, s: State, e: Event, req: Req)
    requires s.phase.Serving? && e.Request?
    ensures var t := Step(g, s, e);
      var accepted := Accepted(g, s.calls, e.prompt, e.maxTokens, e.temperature, e.topP, req);
      && (t.phase == IntentOpen(req) <==> accepted && WholeIntent(g, s, req, e.wio))
      && (t.phase.Serving? || t.phase.IntentOpen?) && t.l == s.l && t.calls == s.calls
      && (accepted ==> t.wal == if s.wal.None? && e.wio.created then Some(PartWritten(g, req, e.wio)) else s.wal)
  {
    hide *;
    RequestIs(g, s, e);
    AcceptExact(g, s, e.prompt, e.maxTokens, e.temperature, e.topP, req);
    var r := CheckRequest(g, s, e.prompt, e.maxTokens, e.temperature, e.topP);
    if r.Some? {
      AcceptExact(g, s, e.prompt, e.maxTokens, e.temperature, e.topP, r.value);
      IntentStage(g, s, r.value, e.wio);
    }
  }

  lemma RequestIs(g: Config, s: State, e: Event)
    requires s.phase.Serving? && e.Request?
    ensures var r := CheckRequest(g, s, e.prompt, e.maxTokens, e.temperature, e.topP);
      Step(g, s, e) == if r.Some? then RequestStep(g, s, r.value, e.wio) else s
  {
    hide CheckRequest, RequestStep;
  }

  lemma IntentStage(g: Config, s: State, req: Req, wio: WalIo)
    requires s.phase.Serving?
    ensures var t := RequestStep(g, s, req, wio);
      && t.phase == (if WholeIntent(g, s, req, wio) then IntentOpen(req) else Serving)
      && t.l == s.l && t.calls == s.calls
      && t.wal == if s.wal.None? && wio.created then Some(PartWritten(g, req, wio)) else s.wal
  {
    hide WalText, HexText, Probe;
  }

  // ---- the calls of a process -------------------------------------------------------------------------

  /** The oracle is called by this event. */
  predicate Calls(s: State, e: Event) {
    e.Call? && s.phase.IntentOpen?
  }

  /** The number of calls that the process which is up at the end has made, counted along the run. */
  function CallsOf(g: Config, s: State, es: seq<Event>, n: nat): nat
    decreases |es|
  {
    if es == [] then n
    else
      var t := Step(g, s, es[0]);
      CallsOf(g, t, es[1..], if t.phase.Down? then 0 else if Calls(s, es[0]) then n + 1 else n)
  }

  predicate Counted(s: State, n: nat) {
    if s.phase.Down? then n == 0 else s.calls == n
  }

  lemma StepCounted(g: Config, s: State, e: Event, n: nat)
    requires Counted(s, n) && Inv(g, s) && ConfigOk(g)
    ensures var t := Step(g, s, e);
      Counted(t, if t.phase.Down? then 0 else if Calls(s, e) then n + 1 else n)
  {
    if e.Call? && s.phase.IntentOpen? {
      hide *;
      CallCounted(g, s, e.reply);
    } else {
      hide CommitStep, RecoverStep, Append, Track, CheckRequest, Open, EnableExport, StateTag, StatePayload, ValidUtf8;
      hide WalText, HexText, Probe, Life, ConfigOk, Inv;
      match e
      case RecoverIntent(io) => RecoverStepCalls(g, s, io);
      case Commit(io1, io2) =>
        if s.phase.Answered? { CommitStepCalls(g, s, s.phase.req, s.phase.reply, io1, io2); }
      case _ =>
    }
  }

  lemma CallCounted(g: Config, s: State, reply: Reply)
    requires Inv(g, s) && ConfigOk(g) && s.phase.IntentOpen? && Counted(s, s.calls)
    ensures var t := Step(g, s, Call(reply));
      t.calls == s.calls + 1 && !t.phase.Down? && Counted(t, s.calls + 1)
  {
    hide Probe, HexText, FileInv, IntentsInv, ExportInv, ValidUtf8, ParamsRange, Sync;
  }

  lemma {:induction false} RunCounted(g: Config, s: State, es: seq<Event>, n: nat)
    requires Counted(s, n) && Inv(g, s) && ConfigOk(g)
    ensures Counted(Run(g, s, es), CallsOf(g, s, es, n))
    decreases |es|
  {
    hide Step, Inv, ConfigOk, Counted, Calls;
    if es != [] {
      var t := Step(g, s, es[0]);
      StepInv(g, s, es[0]);
      StepCounted(g, s, es[0], n);
      RunCounted(g, t, es[1..], if t.phase.Down? then 0 else if Calls(s, es[0]) then n + 1 else n);
    }
  }

  /** In every run the process that is up has made no more calls than its budget, counted by the
      calls themselves. */
  lemma CallsWithinBudget(g: Config, es: seq<Event>)
    requires ConfigOk(g) && !Reach(g, es).phase.Down?
    ensures var n := CallsOf(g, Init(), es, 0);
      n == Reach(g, es).calls && (n == 0 || n <= g.callBudget)
  {
    hide Run, Inv, ConfigOk, CallsOf;
    InitInv(g);
    RunCounted(g, Init(), es, 0);
    BudgetKept(g, es, Crash);
  }
}
