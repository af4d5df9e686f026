/** Restarts: exactly when one succeeds, and exactly when a crashed call stays without
    evidence after it. */
module GatewayRestart {
  import opened Bytes
  import opened Utf8
  import opened Normalise
  import opened Numbers
  import opened Canonical
  import opened Substrate
  import opened Obs
  import opened Frames
  import opened DurableLedger
  import opened Wal
  import opened RequestBody
  import opened Gateway
  import opened GatewayInv
  import opened GatewaySteps
  import opened GatewayEvents
  import opened GatewayHistory
  import opened GatewayTheorems
  import opened GatewayProgress

  // ---- one restart, stage by stage --------------------------------------------------------------------

  /** The ledger is replayed and the export copied. */
  lemma Reopened(g: Config, s: State, n: nat)
    requires FileInv(g.c, s) && s.phase.Down? && Chained(g.c, s.h.frames).Some? && n >= |s.l.file|
    requires s.h.torn == [] || ReadIntent(s.wal).Some?
    ensures var t := Step(g, Step(g, s, Start), EnableCopy(true, n, true));
      && t.phase.Recovering? && t.wal == s.wal && t.h == s.h.(torn := []) && t.calls == 0
      && t.l.last == LastPayload(s.h.frames) && t.l.chain.seq_ == |s.h.frames|
  {
    hide FileInv, ReadIntent, Open, Chained, EncodeFrames;
    FileIs(g.c, s);
    OpenFacts(g, s);
    ChainedFacts(g.c, s.h.frames);
    EncodeFramesAppend(s.h.frames, s.h.torn);
  }

  lemma FileIs(c: Crypto, s: State)
    requires FileInv(c, s)
    ensures s.l.file == EncodeFrames(s.h.frames, s.h.torn)
    ensures s.h.torn != [] ==> s.wal.None? || ReadIntent(s.wal).Some?
  {
    hide EncodeFrames, CutOf, FramesInv, ReadIntent;
  }

  lemma CommitKeeps(g: Config, s: State, state: int, failure: int, prompt: bytes, output: bytes, params: Params, io: Io)
    ensures var t := CommitObs(g, s, state, failure, prompt, output, params, io).0;
      t.wal == s.wal && t.calls == s.calls
  {
    hide AdmitRc, Seal, Draft, ValidateRc, Canon, Track, Append, ObsTag;
  }

  /** A readable intent is recovered when the disk and the substrate work. */
  lemma RecoverGood(g: Config, s: State, io: Io)
    requires Inv(g, s) && ConfigOk(g) && Total(g.c) && s.phase.Recovering? && GoodIo(io) && RoomLeft(s)
    requires ReadIntent(s.wal).Some?
    ensures var t := RecoverStep(g, s, io);
      t.phase.Clearing? && t.wal == s.wal && t.calls == s.calls
  {
    hide Inv, ConfigOk, Total, Probe, CommitObs, AdmitRc, GoodIo, Synth, Recover, AdmOk;
    var i := ReadIntent(s.wal).value;
    if !Probe(s.l.last, i.hash) {
      RecoveringFacts(g, s);
      RecoveredIntentRange(s.wal.value);
      SealTotal(g.c, Draft(g.c, ObsInput(g, s, ERROR, TRANSPORT_ERROR, Synth(i.hash), [], RecoveryParams(i))));
      ErrorAdmitted(g, s, TRANSPORT_ERROR, Synth(i.hash), RecoveryParams(i));
      CommitSucceeds(g, s, ERROR, TRANSPORT_ERROR, Synth(i.hash), [], RecoveryParams(i), io);
      CommitKeeps(g, s, ERROR, TRANSPORT_ERROR, Synth(i.hash), [], RecoveryParams(i), io);
    }
  }

  lemma RecoveringFacts(g: Config, s: State)
    requires Inv(g, s) && s.phase.Recovering?
    ensures AdmOk(s) && s.l.chain.seq_ == |s.h.frames|
  {
    ReadyNow(g, s);
    hide FileInv, IntentsInv, OpenInv, ExportInv, Sync;
  }

  lemma StateCommitted(g: Config, s: State, io: Io)
    requires Total(g.c) && GoodIo(io) && s.phase.Committing?
    ensures var t := Step(g, s, CommitState(io));
      t.phase.Serving? && t.wal == s.wal && t.calls == s.calls
  {
    hide Total, GoodIo, Append, Track, AppendFaults;
    HexLength(g.c.sha256(g.raw));
    AppendExact(g, s, StateTag(), StatePayload(g), io);
    NoFaults(g.c, s.l.chain, StateTag(), StatePayload(g), io);
  }

  /** A start attempt with a working disk. */
  function Attempt(n: nat, io1: Io, io2: Io): seq<Event> {
    [Start, EnableCopy(true, n, true), RecoverIntent(io1), Clear(true, true), CommitState(io2)]
  }

  lemma RunFive(g: Config, s: State, a: Event, b: Event, c: Event, d: Event, e: Event)
    ensures Run(g, s, [a, b, c, d, e]) == Step(g, Step(g, Step(g, Step(g, Step(g, s, a), b), c), d), e)
  {
    hide Step, Run;
    var s1 := Step(g, s, a);
    var s2 := Step(g, s1, b);
    var s3 := Step(g, s2, c);
    assert [a, b, c, d, e] == [a] + [b, c, d, e] && [b, c, d, e] == [b] + [c, d, e];
    assert [c, d, e] == [c] + [d, e] && [d, e] == [d] + [e] && [e] == [e] + [];
    RunCons(g, s, a, [b, c, d, e]);
    RunCons(g, s1, b, [c, d, e]);
    RunCons(g, s2, c, [d, e]);
    RunCons(g, s3, d, [e]);
    RunCons(g, Step(g, s3, d), e, []);
    RunNil(g, Step(g, Step(g, s3, d), e));
  }

  lemma RunCons(g: Config, s: State, e: Event, es: seq<Event>)
    ensures Run(g, s, [e] + es) == Run(g, Step(g, s, e), es)
  {
    hide Step;
    assert ([e] + es)[1..] == es;
  }

  lemma RunNil(g: Config, s: State)
    ensures Run(g, s, []) == s
  {
  }

  lemma ReopenedInv(g: Config, s: State, n: nat)
    requires Inv(g, s) && ConfigOk(g)
    ensures Inv(g, Step(g, Step(g, s, Start), EnableCopy(true, n, true)))
  {
    hide *;
    StepInv(g, s, Start);
    StepInv(g, Step(g, s, Start), EnableCopy(true, n, true));
  }

  /** The stages after the replay. */
  lemma Finish(g: Config, t: State, io1: Io, io2: Io)
    requires Inv(g, t) && ConfigOk(g) && Total(g.c) && t.phase.Recovering? && GoodIo(io1) && GoodIo(io2) && RoomLeft(t)
    ensures var u := Step(g, Step(g, Step(g, t, RecoverIntent(io1)), Clear(true, true)), CommitState(io2));
      if t.wal.None? || ReadIntent(t.wal).Some?
      then u.phase.Serving? && u.wal.None? && u.calls == t.calls
      else u.phase.Down?
  {
    hide Inv, ConfigOk, Total, GoodIo, ReadIntent, Probe, CommitObs, CommitStateStep, RoomLeft;
    var v := Step(g, t, RecoverIntent(io1));
    if t.wal.Some? && ReadIntent(t.wal).Some? {
      RecoverGood(g, t, io1);
    }
    var w := Step(g, v, Clear(true, true));
    if w.phase.Committing? {
      hide RecoverStep;
      StateCommitted(g, w, io2);
    }
  }

  /** With a working disk and substrate a start succeeds exactly when the intent file is absent
      and the ledger is whole, or the intent can be read: a ledger torn in an observation never
      blocks it.  It ends accepting, with no open intent. */
  lemma RestartServes(g: Config, es: seq<Event>, n: nat, io1: Io, io2: Io)
    requires ConfigOk(g) && Total(g.c) && Reach(g, es).phase.Down? && RoomLeft(Reach(g, es))
    requires n >= |Reach(g, es).l.file| && GoodIo(io1) && GoodIo(io2)
    ensures var s := Reach(g, es);
      var t := Run(g, s, Attempt(n, io1, io2));
      if (s.wal.None? && s.h.torn == []) || ReadIntent(s.wal).Some?
      then t.phase.Serving? && t.wal.None? && t.calls == 0
      else t.phase.Down?
  {
    hide *;
    var s := Reach(g, es);
    Reached(g, es);
    InvParts(g, s);
    FileIs(g.c, s);
    Linked(g, s);
    AttemptSteps(g, s, n, io1, io2);
    if s.h.torn == [] || ReadIntent(s.wal).Some? {
      Reopened(g, s, n);
      RoomKept(s, Step(g, Step(g, s, Start), EnableCopy(true, n, true)));
      ReopenedInv(g, s, n);
      Finish(g, Step(g, Step(g, s, Start), EnableCopy(true, n, true)), io1, io2);
    } else {
      RestartExact(g, es);
      DownStays(g, s, n, io1, io2);
    }
    NoIntent(s.wal);
  }

  lemma NoIntent(wal: Option<bytes>)
    ensures ReadIntent(wal).Some? ==> wal.Some?
  {
  }

  lemma RoomKept(s: State, t: State)
    requires RoomLeft(s) && t.h.frames == s.h.frames
    ensures RoomLeft(t)
  {
  }

  lemma AttemptSteps(g: Config, s: State, n: nat, io1: Io, io2: Io)
    ensures Run(g, s, Attempt(n, io1, io2))
         == Step(g, Step(g, Step(g, Step(g, Step(g, s, Start), EnableCopy(true, n, true)), RecoverIntent(io1)),
           Clear(true, true)), CommitState(io2))
  {
    hide Run, Step;
    RunFive(g, s, Start, EnableCopy(true, n, true), RecoverIntent(io1), Clear(true, true), CommitState(io2));
  }

  /** A process that did not start does nothing. */
  lemma DownStays(g: Config, s: State, n: nat, io1: Io, io2: Io)
    requires Step(g, s, Start).phase.Down?
    ensures Step(g, Step(g, Step(g, Step(g, Step(g, s, Start), EnableCopy(true, n, true)), RecoverIntent(io1)),
      Clear(true, true)), CommitState(io2)).phase.Down?
  {
    var t := Step(g, s, Start);
    hide StartStep, EnableStep, RecoverStep, CommitStateStep;
    assert Step(g, t, EnableCopy(true, n, true)) == t;
  }

  lemma InvParts(g: Config, s: State)
    requires Inv(g, s)
    ensures FileInv(g.c, s) && IntentsInv(g.c, s)
  {
  }

  lemma Linked(g: Config, s: State)
    requires Total(g.c)
    ensures Chained(g.c, s.h.frames).Some? && LinkTotal(g.c)
  {
    ChainTotal(g.c, Genesis(g.c), s.h.frames);
  }

  // ---- the call that stays without evidence ------------------------------------------------------------------

  /** The oracle was called under intent `i`, the intent is closed, and no frame evidences it. */
  ghost predicate Lost(c: Crypto, s: State, i: nat) {
    && i < |s.h.intents| && Ordered(s.h) && Closed(s, i) && s.h.intents[i].called
    && !HasEvidence(c, FramesOf(s.h, i), s.h.intents[i].hash)
  }

  lemma NotLost(g: Config, s: State, i: nat)
    requires Inv(g, s) && i < |s.h.intents| && s.h.intents[i].unseen
    ensures !Lost(g.c, s, i)
  {
    hide HasEvidence, ObsCount, FileInv, OpenInv, PhaseInv, ExportInv;
    assert IntentKept(g.c, s, i);
  }

  /** The state in which an accepted request has its intent on disk. */
  ghost predicate Intending(g: Config, s0: State, e: Event) {
    Inv(g, s0) && ConfigOk(g) && s0.phase.Serving? && e.Request? && Step(g, s0, e).phase.IntentOpen?
  }

  lemma IntendingFacts(g: Config, s0: State, e: Event, reply: Reply)
    requires Intending(g, s0, e)
    ensures var t := Step(g, Step(g, s0, e), Call(reply));
      var i := |s0.h.intents|;
      && |t.h.intents| == i + 1 && t.h.frames == s0.h.frames && t.h.torn == [] && t.l == s0.l
      && t.wal.Some? && ReadIntent(t.wal).Some? && ReadIntent(t.wal).value.hash == HexText(t.h.intents[i].hash)
      && t.h.intents[i].called && t.h.intents[i].base == |s0.h.frames|
      && t.h.intents[i].unseen == !Probe(s0.l.last, HexText(t.h.intents[i].hash))
      && s0.l.last == LastPayload(s0.h.frames) && Chained(g.c, s0.h.frames).Some?
      && !t.phase.Clearing?
  {
    hide *;
    IntentWritten(g, s0, e);
    var s1 := Step(g, s0, e);
    IntendingInv(g, s0, e);
    OpenFactsOf(g, s1);
    CallMade(g, s1, reply);
  }

  lemma IntendingInv(g: Config, s0: State, e: Event)
    requires Intending(g, s0, e)
    ensures Inv(g, Step(g, s0, e)) && ConfigOk(g) && Step(g, s0, e).phase.IntentOpen?
  {
    hide Inv, ConfigOk, Step;
    StepInv(g, s0, e);
  }

  lemma IntentWritten(g: Config, s0: State, e: Event)
    requires Intending(g, s0, e)
    ensures var s1 := Step(g, s0, e);
      && s1.h.frames == s0.h.frames && s1.h.torn == [] && s1.l == s0.l && s1.wal.Some?
      && s0.l.last == LastPayload(s0.h.frames) && Chained(g.c, s0.h.frames).Some?
      && exists hash: Digest ::
           s1.h.intents == s0.h.intents + [IntentRec(hash, |s0.h.frames|, !Probe(s0.l.last, HexText(hash)), false, 0)]
  {
    hide Inv, Probe, HexText, WalText, CheckRequest, Chained, LastPayload, ConfigOk;
    assert s0.wal.None?;
    ServingFacts(g, s0);
    var req := Step(g, s0, e).phase.req;
    var hash := g.c.sha256(req.prompt);
    assert Step(g, s0, e).h.intents
      == s0.h.intents + [IntentRec(hash, |s0.h.frames|, !Probe(s0.l.last, HexText(hash)), false, 0)];
  }

  lemma ServingFacts(g: Config, s: State)
    requires Inv(g, s) && s.phase.Serving? && s.wal.None?
    ensures s.h.torn == [] && s.l.last == LastPayload(s.h.frames) && Chained(g.c, s.h.frames).Some?
  {
    ReadyNow(g, s);
    hide FileInv, IntentsInv, OpenInv, ExportInv, Chained, Ready, LastPayload;
  }

  lemma CallMade(g: Config, s: State, reply: Reply)
    requires s.phase.IntentOpen? && ReqOk(g, s.phase.req) && ConfigOk(g) && s.h.intents != []
    ensures var t := Step(g, s, Call(reply));
      var i := |s.h.intents| - 1;
      && t == s.(h := t.h, calls := s.calls + 1, phase := t.phase) && (t.phase.Serving? || t.phase.Answered?)
      && t.h == s.h.(intents := s.h.intents[i := s.h.intents[i].(called := true)])
      && (!reply.AllocFail? ==> t.phase == Answered(s.phase.req, reply))
  {
    hide ValidUtf8, Sendable, ParamsRange, IdBytesOk;
  }

  lemma OpenFactsOf(g: Config, s: State)
    requires Inv(g, s) && s.phase.IntentOpen?
    ensures s.h.intents != [] && ReadIntent(s.wal).Some? && ReqOk(g, s.phase.req)
    ensures ReadIntent(s.wal).value.hash == HexText(s.h.intents[|s.h.intents| - 1].hash)
  {
    hide FileInv, IntentsInv, ExportInv, Sync, ReadIntent, HexText, ReqOk, Probe, Evidence;
  }

  /** Crash after the call, restart with a working disk: the probe takes the intent for
      evidenced and closes it without a frame. */
  function CrashAndRestart(n: nat, io: Io): seq<Event> {
    [Crash, Start, EnableCopy(true, n, true), RecoverIntent(io), Clear(true, true)]
  }

  lemma ProbedIntentClosed(g: Config, t: State, n: nat, io: Io, i: nat)
    requires Inv(g, t) && ConfigOk(g) && t.h.torn == [] && Chained(g.c, t.h.frames).Some? && ReadIntent(t.wal).Some?
      && !t.phase.Clearing?
    requires n >= |t.l.file| && Probe(LastPayload(t.h.frames), ReadIntent(t.wal).value.hash)
    requires i + 1 == |t.h.intents| && t.h.intents[i].called && t.h.intents[i].base == |t.h.frames|
    ensures Lost(g.c, Run(g, t, CrashAndRestart(n, io)), i)
  {
    hide *;
    var u := Step(g, t, Crash);
    CrashIs(g, t);
    StepInv(g, t, Crash);
    InvParts(g, u);
    FileIs(g.c, u);
    Reopened(g, u, n);
    ProbedClears(g, Step(g, Step(g, u, Start), EnableCopy(true, n, true)), io);
    RunFive(g, t, Crash, Start, EnableCopy(true, n, true), RecoverIntent(io), Clear(true, true));
    AttemptIs(n, io);
    NoFrameLost(g, t, Run(g, t, CrashAndRestart(n, io)), i);
  }

  lemma AttemptIs(n: nat, io: Io)
    ensures CrashAndRestart(n, io) == [Crash, Start, EnableCopy(true, n, true), RecoverIntent(io), Clear(true, true)]
  {
  }

  lemma CrashIs(g: Config, t: State)
    requires !t.phase.Clearing?
    ensures Step(g, t, Crash) == t.(phase := Down)
  {
  }

  /** An intent that the probe takes for evidenced is cleared without a frame. */
  lemma ProbedClears(g: Config, s: State, io: Io)
    requires s.phase.Recovering? && ReadIntent(s.wal).Some? && Probe(s.l.last, ReadIntent(s.wal).value.hash)
    ensures Step(g, Step(g, s, RecoverIntent(io)), Clear(true, true)) == s.(wal := None, phase := Committing)
  {
    hide Recover, Probe, CommitObs;
  }

  lemma NoFrameLost(g: Config, t: State, v: State, i: nat)
    requires Inv(g, t) && i + 1 == |t.h.intents| && t.h.intents[i].called && t.h.intents[i].base == |t.h.frames|
    requires v.wal.None? && v.h == t.h
    ensures Lost(g.c, v, i)
  {
    InvParts(g, t);
    hide Inv, Evidence, IntentKept;
    assert FramesOf(v.h, i) == [];
  }

  /** The crashed call can end without evidence if and only if its input hash occurs in the
      chain's last payload at the moment the intent is written. */
  lemma LossExact(g: Config, es: seq<Event>, e: Event, reply: Reply)
    requires ConfigOk(g) && Reach(g, es).phase.Serving? && e.Request? && Step(g, Reach(g, es), e).phase.IntentOpen?
    ensures var s0 := Reach(g, es);
      var t := Step(g, Step(g, s0, e), Call(reply));
      var i := |s0.h.intents|;
      && |t.h.intents| == i + 1
      && ((exists later :: Lost(g.c, Run(g, t, later), i)) <==> Probe(s0.l.last, HexText(t.h.intents[i].hash)))
  {
    Reached(g, es);
    var s0 := Reach(g, es);
    assert Intending(g, s0, e);
    hide *;
    var t := Step(g, Step(g, s0, e), Call(reply));
    var i := |s0.h.intents|;
    IntendingFacts(g, s0, e, reply);
    StepInv(g, s0, e);
    StepInv(g, Step(g, s0, e), Call(reply));
    if Probe(s0.l.last, HexText(t.h.intents[i].hash)) {
      ProbedIntentClosed(g, t, |t.l.file|, Io(0, false, 0), i);
    } else {
      forall later
        ensures !Lost(g.c, Run(g, t, later), i)
      {
        NeverLost(g, t, later, i);
      }
    }
  }

  lemma NeverLost(g: Config, t: State, later: seq<Event>, i: nat)
    requires Inv(g, t) && ConfigOk(g) && i < |t.h.intents| && t.h.intents[i].unseen
    ensures !Lost(g.c, Run(g, t, later), i)
  {
    hide Inv, ConfigOk, Run, Lost;
    RunInv(g, t, later);
    RunGrows(g, t, later);
    assert Later(t.h.intents[i], Run(g, t, later).h.intents[i]);
    NotLost(g, Run(g, t, later), i);
  }

  /** Right after a committed call the last payload names its input hash: the same prompt,
      sent next, is one that a crash can leave without evidence. */
  lemma RepeatIsExposed(g: Config, es: seq<Event>, synced: bool)
    requires ConfigOk(g) && Reach(g, es).phase.Closing? && Reach(g, es).h.intents != []
    requires Reach(g, es).h.intents[|Reach(g, es).h.intents| - 1].called
    ensures var s := Reach(g, es);
      var t := Step(g, s, Clear(true, synced));
      && t.phase.Serving? && t.wal.None? && t.calls == s.calls
      && Probe(t.l.last, HexText(s.h.intents[|s.h.intents| - 1].hash))
  {
    hide *;
    Reached(g, es);
    var s := Reach(g, es);
    ClosingFacts(g, s);
    ClosingClears(g, s, synced);
  }

  lemma ClosingClears(g: Config, s: State, synced: bool)
    requires s.phase.Closing?
    ensures Step(g, s, Clear(true, synced)) == s.(wal := None, phase := Serving)
  {
  }

  lemma ClosingFacts(g: Config, s: State)
    requires Inv(g, s) && s.phase.Closing?
    ensures s.h.intents != []
    ensures var r := s.h.intents[|s.h.intents| - 1];
      r.called ==> Probe(s.l.last, HexText(r.hash))
  {
    ReadyNow(g, s);
    hide FileInv, IntentsInv, ExportInv, Sync, ReadIntent, HexText, Probe, Evidence, LastPayload, Ready;
    if Latest(s.h).called {
      assert |s.h.frames[Latest(s.h).base..]| == 1;
    }
  }

  // ---- a run that loses a call ------------------------------------------------------------------------------

  /** A prompt that passes the checks of `handle_request`. */
  predicate Acceptable(g: Config, prompt: bytes) {
    prompt != [] && |prompt| <= g.maxPrompt && NormaliseRc(prompt, g.maxPrompt + 1) >= 0
  }

  function Asked(prompt: bytes): Req {
    Req(Lines(prompt), Params(1, NULL_INT64, 0, NULL_Q16))
  }

  /** The request for it, whose intent gets to the disk. */
  function Ask(g: Config, prompt: bytes): Event {
    Request(prompt, 1, 0, -1, WalIo(true, |WalText(IntentOf(g, Asked(prompt)))|, true))
  }

  lemma AskAccepted(g: Config, s: State, prompt: bytes)
    requires s.phase.Serving? && s.wal.None? && s.calls < g.callBudget && Acceptable(g, prompt)
    ensures var t := Step(g, s, Ask(g, prompt));
      && t.phase == IntentOpen(Asked(prompt)) && t.calls == s.calls && |t.h.intents| == |s.h.intents| + 1
      && t.h.intents[|s.h.intents|].hash == g.c.sha256(Lines(prompt))
  {
    hide NormaliseRc, Lines, WalText, Probe, HexText, ValidUtf8;
  }

  lemma ReachSnoc(g: Config, es: seq<Event>, e: Event)
    ensures Reach(g, es + [e]) == Step(g, Reach(g, es), e)
  {
    hide Step;
    RunConcat(g, Init(), es, [e]);
    RunCons(g, Reach(g, es), e, []);
    assert [e] + [] == [e];
  }

  predicate Own(es: seq<Event>) {
    forall i :: 0 <= i < |es| ==> !es[i].Other?
  }

  lemma {:induction false} RunAdds(g: Config, s: State, es: seq<Event>)
    requires Own(es)
    ensures |Run(g, s, es).h.frames| <= |s.h.frames| + 2 * |es|
    decreases |es|
  {
    hide Step;
    if es != [] {
      StepGrows(g, s, es[0]);
      RunAdds(g, Step(g, s, es[0]), es[1..]);
    }
  }

  const GOOD := Io(44 + TAG_MAX + PAYLOAD_MAX, true, 0)

  /** A first start from empty disks. */
  lemma FirstStart(g: Config)
    requires ConfigOk(g) && Total(g.c)
    ensures var s := Reach(g, Attempt(0, GOOD, GOOD));
      s.phase.Serving? && s.wal.None? && s.calls == 0
  {
    assert Reach(g, []) == Init() && GoodIo(GOOD);
    hide ConfigOk, Total, Run;
    RestartServes(g, [], 0, GOOD, GOOD);
  }

  /** An answered request, committed and cleared: the last payload names the prompt's hash. */
  lemma AskedAndServed(g: Config, es: seq<Event>, prompt: bytes) returns (es2: seq<Event>)
    requires ConfigOk(g) && Total(g.c) && Acceptable(g, prompt) && |es| < 0x1000 && Own(es)
    requires Reach(g, es).phase.Serving? && Reach(g, es).wal.None? && Reach(g, es).calls < g.callBudget
    ensures var s := Reach(g, es2);
      && s.phase.Serving? && s.wal.None? && s.calls == Reach(g, es).calls + 1
      && Probe(s.l.last, HexText(g.c.sha256(Lines(prompt))))
  {
    hide *;
    var e1 := es + [Ask(g, prompt)];
    ReachSnoc(g, es, Ask(g, prompt));
    AskAccepted(g, Reach(g, es), prompt);
    CallHasItsIntent(g, e1, HttpFail);
    Reached(g, e1);
    OpenFactsOf(g, Reach(g, e1));
    CallMade(g, Reach(g, e1), HttpFail);
    var e2 := e1 + [Call(HttpFail)];
    ReachSnoc(g, e1, Call(HttpFail));
    AskIsRequest(g, prompt);
    OwnSnoc(es, Ask(g, prompt));
    OwnSnoc(e1, Call(HttpFail));
    SmallRun(g, e2);
    GoodIsGood();
    AnswerIsCommitted(g, e2, GOOD, GOOD);
    CommitAnswer(g, Reach(g, e2));
    var e3 := e2 + [Commit(GOOD, GOOD)];
    ReachSnoc(g, e2, Commit(GOOD, GOOD));
    RepeatIsExposed(g, e3, true);
    es2 := e3 + [Clear(true, true)];
    ReachSnoc(g, e3, Clear(true, true));
  }

  lemma GoodIsGood()
    ensures GoodIo(GOOD)
  {
  }

  lemma OwnSnoc(es: seq<Event>, e: Event)
    requires Own(es) && !e.Other?
    ensures Own(es + [e])
  {
  }

  lemma SmallRun(g: Config, es: seq<Event>)
    requires |es| < 0x2000 && Own(es)
    ensures RoomLeft(Reach(g, es))
  {
    RunAdds(g, Init(), es);
  }

  lemma CommitAnswer(g: Config, s: State)
    requires s.phase.Answered?
    ensures var t := Step(g, s, Commit(GOOD, GOOD));
      t.h.intents == s.h.intents && t.calls == s.calls
  {
    hide CommitObs, OutcomeOf;
    var req, o := s.phase.req, OutcomeOf(s.phase.reply);
    CommitStepGrows(g, s, req, s.phase.reply, GOOD, GOOD);
    CommitKeeps(g, s, o.state, o.failure, req.prompt, o.output, req.params, GOOD);
    var t := CommitObs(g, s, o.state, o.failure, req.prompt, o.output, req.params, GOOD).0;
    CommitKeeps(g, t, ERROR, INVALID_OUTPUT, req.prompt, [], req.params, GOOD);
  }

  /** For every configuration with two calls to spend and every acceptable prompt there is a run
      in which an oracle call ends without evidence: the prompt is sent twice and the process
      crashes after the second call. */
  lemma RepeatedPromptLost(g: Config, prompt: bytes) returns (es: seq<Event>, i: nat)
    requires ConfigOk(g) && Total(g.c) && Acceptable(g, prompt) && g.callBudget >= 2
    ensures Lost(g.c, Reach(g, es), i)
  {
    hide *;
    FirstStart(g);
    AttemptLength();
    var e1 := AskedAndServed(g, Attempt(0, GOOD, GOOD), prompt);
    var s0 := Reach(g, e1);
    var e := Ask(g, prompt);
    AskAccepted(g, s0, prompt);
    AskIsRequest(g, prompt);
    LossExact(g, e1, e, HttpFail);
    var s1 := Step(g, s0, e);
    var t := Step(g, s1, Call(HttpFail));
    ReachSnoc(g, e1, e);
    ReachSnoc(g, e1 + [e], Call(HttpFail));
    Reached(g, e1 + [e]);
    OpenFactsOf(g, s1);
    CallMade(g, s1, HttpFail);
    i := |s0.h.intents|;
    assert t.h.intents[i].hash == g.c.sha256(Lines(prompt));
    var later :| Lost(g.c, Run(g, t, later), i);
    es := e1 + [e] + [Call(HttpFail)] + later;
    ReachConcat(g, e1 + [e] + [Call(HttpFail)], later);
  }

  lemma ReachConcat(g: Config, a: seq<Event>, b: seq<Event>)
    ensures Reach(g, a + b) == Run(g, Reach(g, a), b)
  {
    hide Run;
    RunConcat(g, Init(), a, b);
  }

  lemma AttemptLength()
    ensures |Attempt(0, GOOD, GOOD)| == 5 && Own(Attempt(0, GOOD, GOOD))
  {
  }

  lemma AskIsRequest(g: Config, prompt: bytes)
    ensures Ask(g, prompt).Request?
  {
  }

  // ---- an intent cut short -----------------------------------------------------------------------------------

  /** The intent file exists and cannot be read, and the process is not past it. */
  predicate Stuck(s: State) {
    s.wal.Some? && ReadIntent(s.wal).None? && (s.phase.Down? || s.phase.Opened? || s.phase.Recovering?)
  }

  /** Nothing was cleared and nothing recorded. */
  predicate Untouched(s: State, t: State) {
    t.wal == s.wal && t.h.frames == s.h.frames
  }

  lemma StuckAct(g: Config, s: State, e: Event)
    requires Stuck(s)
    ensures Stuck(Act(g, s, e)) && Untouched(s, Act(g, s, e))
  {
    hide Recover, Open, EnableExport, CommitObs, CommitStateStep, CommitStep, CheckRequest, CallStep;
  }

  lemma {:induction false} StuckLife(g: Config, s: State, es: seq<Event>)
    requires Stuck(s)
    ensures Stuck(Life(g, s, es)) && Untouched(s, Life(g, s, es))
    decreases |es|
  {
    hide Act, Stuck;
    if es != [] {
      StuckAct(g, s, es[0]);
      StuckLife(g, Act(g, s, es[0]), es[1..]);
    }
  }

  lemma StuckStep(g: Config, s: State, e: Event)
    requires Stuck(s)
    ensures Stuck(Step(g, s, e)) && Untouched(s, Step(g, s, e))
  {
    hide Act, Life, ConfigOk, With, Recover;
    if e.Other? {
      StuckLife(With(g, e.setup), s, e.es);
    } else {
      StuckAct(g, s, e);
    }
  }

  /** An unreadable intent keeps every later start from serving: it is neither cleared nor
      recorded, whatever happens. */
  lemma {:induction false} StuckForever(g: Config, s: State, later: seq<Event>)
    requires Stuck(s)
    ensures Stuck(Run(g, s, later)) && Untouched(s, Run(g, s, later))
    decreases |later|
  {
    hide Step, Stuck;
    if later != [] {
      StuckStep(g, s, later[0]);
      StuckForever(g, Step(g, s, later[0]), later[1..]);
    }
  }

  // ---- a torn start-up frame ------------------------------------------------------------------------------------

  /** The start-up frame is torn, there is no intent, and no process is up. */
  ghost predicate TornDown(c: Crypto, s: State) {
    FileInv(c, s) && s.h.torn != [] && s.wal.None? && s.phase.Down?
  }

  lemma TornDownAct(g: Config, s: State, e: Event)
    requires TornDown(g.c, s)
    ensures Act(g, s, e) == s
  {
    hide FileInv, Open, Recover, Chained, EncodeFrames;
    hide EnableStep, RecoverStep, CommitStateStep, CheckRequest, CallStep, CommitStep;
    OpenFacts(g, s);
  }

  lemma {:induction false} TornDownLife(g: Config, s: State, es: seq<Event>)
    requires TornDown(g.c, s)
    ensures Life(g, s, es) == s
    decreases |es|
  {
    hide Act, TornDown;
    if es != [] {
      TornDownAct(g, s, es[0]);
      TornDownLife(g, s, es[1..]);
    }
  }

  /** Replay refuses such a ledger at every start, under every configuration: nothing changes any
      more. */
  lemma {:induction false} TornDownForever(g: Config, s: State, later: seq<Event>)
    requires TornDown(g.c, s)
    ensures Run(g, s, later) == s
    decreases |later|
  {
    if later != [] {
      hide Step, TornDown;
      TornDownStep(g, s, later[0]);
      TornDownForever(g, s, later[1..]);
    }
  }

  lemma TornDownStep(g: Config, s: State, e: Event)
    requires TornDown(g.c, s)
    ensures Step(g, s, e) == s
  {
    hide Act, Life, ConfigOk, FileInv;
    if e.Other? {
      TornDownLife(With(g, e.setup), s, e.es);
    } else {
      TornDownAct(g, s, e);
    }
  }

  /** For every reachable state without a process: with a working substrate some continuation,
      changes of configuration included, serves again if and only if there is no intent and the
      ledger is whole, or the intent can be read. */
  lemma ServesAgainExact(g: Config, es: seq<Event>)
    requires ConfigOk(g) && Total(g.c) && Reach(g, es).phase.Down? && RoomLeft(Reach(g, es))
    ensures var s := Reach(g, es);
      (exists later :: Run(g, s, later).phase.Serving?)
      <==> (s.wal.None? && s.h.torn == []) || ReadIntent(s.wal).Some?
  {
    hide *;
    var s := Reach(g, es);
    Reached(g, es);
    InvParts(g, s);
    NoIntent(s.wal);
    if (s.wal.None? && s.h.torn == []) || ReadIntent(s.wal).Some? {
      GoodIsGood();
      RestartServes(g, es, |s.l.file|, GOOD, GOOD);
    } else {
      forall later
        ensures !Run(g, s, later).phase.Serving?
      {
        if s.wal.Some? {
          StuckIs(s);
          StuckForever(g, s, later);
          StuckNotServing(Run(g, s, later));
        } else {
          TornDownIs(g.c, s);
          TornDownForever(g, s, later);
        }
      }
    }
  }

  lemma TornDownIs(c: Crypto, s: State)
    requires FileInv(c, s) && s.h.torn != [] && s.wal.None? && s.phase.Down?
    ensures TornDown(c, s)
  {
    hide FileInv;
  }

  // ---- a crash while an intent is written ---------------------------------------------------------------------

  /** A crash while the intent of an accepted request is written, after `wio.n` bytes. */
  ghost predicate CrashedWriting(g: Config, s: State, e: Event) {
    && ConfigOk(g) && s.phase.Serving? && s.wal.None? && e.Request? && e.wio.created
    && CheckRequest(g, s, e.prompt, e.maxTokens, e.temperature, e.topP).Some?
  }

  lemma CutWritten(g: Config, s: State, e: Event)
    requires CrashedWriting(g, s, e)
    ensures var t := Step(g, Step(g, s, e), Crash);
      && t.phase.Down? && t.wal.Some? && t.h.frames == s.h.frames
      && (ReadIntent(t.wal).Some? <==> e.wio.n >= 86)
  {
    hide *;
    WritingIs(g, s, e);
    var req := CheckRequest(g, s, e.prompt, e.maxTokens, e.temperature, e.topP).value;
    WrittenIntent(g, req, e.wio.n);
    CutState(g, s, req, e.wio);
  }

  lemma WritingIs(g: Config, s: State, e: Event)
    requires CrashedWriting(g, s, e)
    ensures ConfigOk(g) && s.phase.Serving? && s.wal.None? && e.Request? && e.wio.created
    ensures var r := CheckRequest(g, s, e.prompt, e.maxTokens, e.temperature, e.topP);
      r.Some? && Sendable(r.value.params) && Step(g, s, e) == RequestStep(g, s, r.value, e.wio)
  {
    hide ConfigOk, CheckRequest, RequestStep, Sendable;
  }

  lemma CutState(g: Config, s: State, req: Req, wio: WalIo)
    requires s.phase.Serving? && s.wal.None? && wio.created
    ensures var text := WalText(IntentOf(g, req));
      var t := Step(g, RequestStep(g, s, req, wio), Crash);
      t.phase.Down? && t.wal == Some(text[..Min(wio.n, |text|)]) && t.h.frames == s.h.frames
  {
    hide WalText, HexText, Probe, IntentOf;
  }

  /** After a crash in the middle of writing an intent, some continuation serves again if and only
      if 86 bytes of the intent had reached the disk. */
  lemma CutIntentDecides(g: Config, es: seq<Event>, e: Event)
    requires CrashedWriting(g, Reach(g, es), e) && Total(g.c) && RoomLeft(Reach(g, es))
    ensures var t := Step(g, Step(g, Reach(g, es), e), Crash);
      (exists later :: Run(g, t, later).phase.Serving?) <==> e.wio.n >= 86
  {
    hide *;
    var s := Reach(g, es);
    WritingIs(g, s, e);
    CutWritten(g, s, e);
    ReachSnoc(g, es, e);
    ReachSnoc(g, es + [e], Crash);
    RoomKept(s, Step(g, Step(g, s, e), Crash));
    ServesAgainExact(g, es + [e] + [Crash]);
  }

  lemma StuckIs(t: State)
    requires t.phase.Down? && t.wal.Some? && ReadIntent(t.wal).None?
    ensures Stuck(t)
  {
    hide ReadIntent;
  }

  lemma StuckNotServing(t: State)
    requires Stuck(t)
    ensures !t.phase.Serving?
  {
    hide ReadIntent;
  }

  /** The request whose intent is cut after `n` bytes. */
  function AskCut(prompt: bytes, n: nat): Event {
    Request(prompt, 1, 0, -1, WalIo(true, n, false))
  }

  /** For every configuration with a call to spend and every acceptable prompt there is a run after
      which the gateway never serves again: the process crashes before byte 86 of an intent. */
  lemma CutIntentRun(g: Config, prompt: bytes, n: nat) returns (es: seq<Event>)
    requires ConfigOk(g) && Total(g.c) && Acceptable(g, prompt) && g.callBudget >= 1 && n < 86
    ensures Stuck(Reach(g, es)) && forall later :: !Run(g, Reach(g, es), later).phase.Serving?
  {
    hide *;
    FirstStart(g);
    var e1 := Attempt(0, GOOD, GOOD);
    var s := Reach(g, e1);
    CutAccepted(g, s, prompt, n);
    CutWritten(g, s, AskCut(prompt, n));
    es := e1 + [AskCut(prompt, n)] + [Crash];
    ReachSnoc(g, e1, AskCut(prompt, n));
    ReachSnoc(g, e1 + [AskCut(prompt, n)], Crash);
    StuckIs(Reach(g, es));
    forall later
      ensures !Run(g, Reach(g, es), later).phase.Serving?
    {
      StuckForever(g, Reach(g, es), later);
      StuckNotServing(Run(g, Reach(g, es), later));
    }
  }

  lemma CutAccepted(g: Config, s: State, prompt: bytes, n: nat)
    requires ConfigOk(g) && s.phase.Serving? && s.wal.None? && s.calls < g.callBudget && Acceptable(g, prompt)
    ensures CrashedWriting(g, s, AskCut(prompt, n)) && AskCut(prompt, n).wio.n == n
  {
    hide ConfigOk, NormaliseRc, Lines, ValidUtf8;
  }
}
