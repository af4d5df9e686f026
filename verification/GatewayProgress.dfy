/** What the gateway gets done: exactly when an answer is committed, what is then stored, and
    what an answer means. */
module GatewayProgress {
  import opened Bytes
  import opened Faults
  import opened Utf8
  import opened Normalise
  import opened Numbers
  import opened Canonical
  import opened Substrate
  import opened Obs
  import opened Frames
  import opened DurableLedger
  import opened Wal
  import opened RequestBody
  import opened Gateway
  import opened GatewayInv
  import opened GatewaySteps
  import opened GatewayEvents
  import opened GatewayTheorems
  import JsonScan
  import JsonDoc
  import Messages

  /** No function of the substrate raises a fault. */
  ghost predicate Total(c: Crypto) {
    && LinkTotal(c)
    && (forall t, p :: c.evidence(t, p).Some?)
    && (forall t, p :: c.commit(t, p).Some?)
  }

  /** The primary takes any frame and is synced; the export may do as it likes. */
  predicate GoodIo(io: Io) {
    io.n >= 44 + TAG_MAX + PAYLOAD_MAX && io.synced
  }

  // ---- appends ---------------------------------------------------------------------------------------

  /** Why an append can fail: the evidence faults, the frame does not get to the primary, the
      sync fails, or the chain link faults. */
  predicate AppendFaults(c: Crypto, chain: Chain, tag: bytes, payload: bytes, io: Io) {
    var d := c.evidence(tag, payload);
    d.None? || io.n < 44 + |tag| + |payload| || !io.synced || c.link(chain.head, d.value).None?
  }

  /** An append of an admissible frame fails exactly for one of these reasons. */
  lemma AppendExact(g: Config, s: State, tag: bytes, payload: bytes, io: Io)
    requires 1 <= |tag| <= TAG_MAX && 1 <= |payload| <= PAYLOAD_MAX
    ensures AppendStep(g, s, tag, payload, io).1 <==> !AppendFaults(g.c, s.l.chain, tag, payload, io)
  {
    hide EncodeFrame;
  }

  lemma NoFaults(c: Crypto, chain: Chain, tag: bytes, payload: bytes, io: Io)
    requires Total(c) && GoodIo(io) && |tag| <= TAG_MAX && |payload| <= PAYLOAD_MAX
    ensures !AppendFaults(c, chain, tag, payload, io)
  {
    assert c.evidence(tag, payload).Some?;
    assert c.link(chain.head, c.evidence(tag, payload).value).Some?;
  }

  /** The sequence number of the next frame fits the 64 bits of the record. */
  predicate RoomLeft(s: State) {
    |s.h.frames| + 1 < 0x1_0000_0000_0000_0000
  }

  /** An error record with an empty output is admitted in every live state, unless its commitment
      faults. */
  lemma ErrorAdmitted(g: Config, s: State, failure: int, prompt: bytes, params: Params)
    requires ConfigOk(g) && AdmOk(s) && s.l.chain.seq_ == |s.h.frames| && RoomLeft(s)
    requires PairPermitted(ERROR, failure) && ParamsRange(params)
    ensures var x := ObsInput(g, s, ERROR, failure, prompt, [], params);
      AdmitRc(g.c, x, s.adm, MAX_OUTPUT_BYTES) == AX_OK <==> Seal(g.c, Draft(g.c, x)).Some?
  {
    var x := ObsInput(g, s, ERROR, failure, prompt, [], params);
    hide AdmitRc, Draft, Canon, ValidUtf8;
    if Seal(g.c, Draft(g.c, x)).Some? {
      FallbackAdmitted(g.c, x, s.adm, MAX_OUTPUT_BYTES);
    }
    if AdmitRc(g.c, x, s.adm, MAX_OUTPUT_BYTES) == AX_OK {
      AdmittedIsWellRecorded(g.c, x, s.adm, MAX_OUTPUT_BYTES);
    }
  }

  lemma SealTotal(c: Crypto, r: Record)
    requires Total(c)
    ensures Seal(c, r).Some?
  {
    hide Canon;
    assert c.commit(Schema(), Canon(r, false)).Some?;
  }

  lemma RecordSize(c: Crypto, r: Record)
    requires WellRecorded(c, r)
    ensures 1 <= |Canon(r, true)| <= PAYLOAD_MAX
  {
    NamesHash(r);
    hide IdOk, ValidUtf8, NfcScan, HexText, Schema;
    if Canon(r, true) == [] {
      HexLength(r.inputHash);
    }
  }

  lemma HexLength(d: Digest)
    ensures |HexText(d)| == 64
  {
    HexTextIsHex(d);
  }

  /** An admitted observation is committed exactly when the append of its text does not fail. */
  lemma CommitExact(g: Config, s: State, state: int, failure: int, prompt: bytes, output: bytes, params: Params, io: Io)
    requires ParamsRange(params)
    requires AdmitRc(g.c, ObsInput(g, s, state, failure, prompt, output, params), s.adm, MAX_OUTPUT_BYTES) == AX_OK
    ensures var r := Seal(g.c, Draft(g.c, ObsInput(g, s, state, failure, prompt, output, params)));
      && r.Some? && |Canon(r.value, true)| <= PAYLOAD_MAX
      && (CommitObs(g, s, state, failure, prompt, output, params, io).1
          <==> !AppendFaults(g.c, s.l.chain, ObsTag(), Canon(r.value, true), io))
  {
    hide AdmitRc, Seal, Draft, Canon, AppendStep, WellRecorded, CommitObs, AppendFaults;
    var x := ObsInput(g, s, state, failure, prompt, output, params);
    CommitUnfold(g, s, state, failure, prompt, output, params, io);
    AdmittedIsWellRecorded(g.c, x, s.adm, MAX_OUTPUT_BYTES);
    var r := Seal(g.c, Draft(g.c, x)).value;
    RecordSize(g.c, r);
    AppendExact(g, s.(adm := Ctx(true, s.l.chain.seq_ + 1)), ObsTag(), Canon(r, true), io);
  }

  lemma CommitSucceeds(g: Config, s: State, state: int, failure: int, prompt: bytes, output: bytes, params: Params,
    io: Io)
    requires ParamsRange(params) && Total(g.c) && GoodIo(io)
    requires AdmitRc(g.c, ObsInput(g, s, state, failure, prompt, output, params), s.adm, MAX_OUTPUT_BYTES) == AX_OK
    ensures CommitObs(g, s, state, failure, prompt, output, params, io).1
  {
    hide AdmitRc, Seal, Draft, Canon, CommitObs, Total, AppendFaults, GoodIo;
    CommitExact(g, s, state, failure, prompt, output, params, io);
    var r := Seal(g.c, Draft(g.c, ObsInput(g, s, state, failure, prompt, output, params))).value;
    NoFaults(g.c, s.l.chain, ObsTag(), Canon(r, true), io);
  }

  // ---- the wrapper does not disagree with itself ------------------------------------------------------

  lemma OutcomeShape(reply: Reply)
    ensures var o := OutcomeOf(reply);
      o.state == ERROR ==> o.output == [] && PairPermitted(ERROR, o.failure)
  {
    hide JsonScan.ContentText, JsonScan.TopString;
  }

  lemma AnsweredFacts(g: Config, s: State)
    requires Inv(g, s) && s.phase.Answered?
    ensures Ready(g.c, s) && s.l.chain.seq_ == |s.h.frames| && AdmOk(s) && ReqOk(g, s.phase.req)
  {
    ReadyNow(g, s);
    hide FileInv, IntentsInv, OpenInv, ExportInv, Sync, Ready, ReqOk;
  }

  lemma RefusedCommit(g: Config, s: State, state: int, failure: int, prompt: bytes, output: bytes, params: Params,
    io: Io)
    requires AdmitRc(g.c, ObsInput(g, s, state, failure, prompt, output, params), s.adm, MAX_OUTPUT_BYTES) != AX_OK
    ensures CommitObs(g, s, state, failure, prompt, output, params, io) == (s, false)
  {
    hide AdmitRc, Seal, Draft, Canon, AppendStep;
  }

  /** Admission accepts an observation of this request. */
  predicate Admitted(g: Config, s: State, req: Req, o: Outcome) {
    AdmitRc(g.c, ObsInput(g, s, o.state, o.failure, req.prompt, o.output, req.params), s.adm, MAX_OUTPUT_BYTES) == AX_OK
  }

  function CommitOf(g: Config, s: State, req: Req, o: Outcome, io: Io): (State, bool) {
    CommitObs(g, s, o.state, o.failure, req.prompt, o.output, req.params, io)
  }

  const FALLBACK := Outcome(ERROR, INVALID_OUTPUT, [])

  lemma PhaseAfter(g: Config, s: State, io1: Io, io2: Io)
    requires s.phase.Answered?
    ensures var req, o := s.phase.req, OutcomeOf(s.phase.reply);
      var (t, ok) := CommitOf(g, s, req, o, io1);
      Step(g, s, Commit(io1, io2)).phase
      == if ok || (o.state != ERROR && CommitOf(g, t, req, FALLBACK, io2).1) then Closing else Serving
  {
    hide CommitObs, OutcomeOf;
  }

  /** The record of this outcome, sealed; None if its commitment faults. */
  function SealedFor(g: Config, s: State, req: Req, o: Outcome): Option<Record> {
    Seal(g.c, Draft(g.c, ObsInput(g, s, o.state, o.failure, req.prompt, o.output, req.params)))
  }

  /** The world gets in the way of storing this outcome: its commitment faults, or the append of
      its canonical text fails. */
  predicate StoringFails(g: Config, s: State, req: Req, o: Outcome, io: Io) {
    var r := SealedFor(g, s, req, o);
    r.None? || AppendFaults(g.c, s.l.chain, ObsTag(), Canon(r.value, true), io)
  }

  predicate ErrorOutcome(o: Outcome) {
    o.state == ERROR && o.output == [] && PairPermitted(ERROR, o.failure)
  }

  lemma AnswerOutcome(reply: Reply)
    ensures OutcomeOf(reply).state == ERROR ==> ErrorOutcome(OutcomeOf(reply))
    ensures ErrorOutcome(FALLBACK)
  {
    hide OutcomeOf;
    OutcomeShape(reply);
  }

  lemma AnswerAdmitted(g: Config, s: State, req: Req, o: Outcome)
    requires ConfigOk(g) && AdmOk(s) && s.l.chain.seq_ == |s.h.frames| && RoomLeft(s) && ReqOk(g, req)
    requires ErrorOutcome(o)
    ensures Admitted(g, s, req, o) <==> SealedFor(g, s, req, o).Some?
  {
    hide AdmitRc, ConfigOk, ValidUtf8, Seal, Draft;
    ErrorAdmitted(g, s, o.failure, req.prompt, req.params);
  }

  lemma AnswerRefused(g: Config, s: State, req: Req, o: Outcome, io: Io)
    requires !Admitted(g, s, req, o)
    ensures CommitOf(g, s, req, o, io) == (s, false)
  {
    hide AdmitRc, CommitObs;
    RefusedCommit(g, s, o.state, o.failure, req.prompt, o.output, req.params, io);
  }

  lemma AnswerExact(g: Config, s: State, req: Req, o: Outcome, io: Io)
    requires Admitted(g, s, req, o) && ParamsRange(req.params)
    ensures CommitOf(g, s, req, o, io).1 <==> !StoringFails(g, s, req, o, io)
    ensures Total(g.c) && GoodIo(io) ==> CommitOf(g, s, req, o, io).1
  {
    hide AdmitRc, CommitObs, ParamsRange, Total, GoodIo, Seal, Draft, AppendFaults, Canon;
    CommitExact(g, s, o.state, o.failure, req.prompt, o.output, req.params, io);
    if Total(g.c) && GoodIo(io) {
      CommitSucceeds(g, s, o.state, o.failure, req.prompt, o.output, req.params, io);
    }
  }

  lemma ReqRange(g: Config, req: Req)
    requires ReqOk(g, req)
    ensures ParamsRange(req.params)
  {
    hide ValidUtf8, ParamsRange;
  }

  /** Which record decides: the answer's own if it is admitted or already an error, else the
      fallback. */
  predicate OwnRecord(g: Config, s: State, req: Req, o: Outcome) {
    Admitted(g, s, req, o) || o.state == ERROR
  }

  lemma CommitDecided(g: Config, s: State, io1: Io, io2: Io)
    requires ConfigOk(g) && Inv(g, s) && s.phase.Answered? && RoomLeft(s)
    ensures var req, o := s.phase.req, OutcomeOf(s.phase.reply);
      Step(g, s, Commit(io1, io2)).phase
      == if OwnRecord(g, s, req, o) && StoringFails(g, s, req, o, io1) then Serving
         else if !OwnRecord(g, s, req, o) && StoringFails(g, s, req, FALLBACK, io2) then Serving
         else Closing
  {
    hide *;
    var req, o := s.phase.req, OutcomeOf(s.phase.reply);
    AnsweredFacts(g, s);
    ReqRange(g, req);
    AnswerOutcome(s.phase.reply);
    AnswerAdmitted(g, s, req, FALLBACK);
    PhaseAfter(g, s, io1, io2);
    OwnRecordIs(g, s, req, o);
    if Admitted(g, s, req, o) {
      AnswerExact(g, s, req, o, io1);
      if !CommitOf(g, s, req, o, io1).1 {
        AdmittedMoves(g, s, req, o, io1);
        FallbackRefused(g, CommitOf(g, s, req, o, io1).0, req, io2);
      }
    } else {
      AnswerRefused(g, s, req, o, io1);
      if o.state == ERROR {
        AnswerAdmitted(g, s, req, o);
        Unsealed(g, s, req, o, io1);
      } else {
        FallbackDecides(g, s, req, io2);
      }
    }
  }

  lemma OwnRecordIs(g: Config, s: State, req: Req, o: Outcome)
    ensures OwnRecord(g, s, req, o) <==> Admitted(g, s, req, o) || o.state == ERROR
  {
    hide Admitted;
  }

  lemma Unsealed(g: Config, s: State, req: Req, o: Outcome, io: Io)
    requires SealedFor(g, s, req, o).None?
    ensures StoringFails(g, s, req, o, io)
  {
    hide SealedFor;
  }

  lemma FallbackDecides(g: Config, s: State, req: Req, io: Io)
    requires Admitted(g, s, req, FALLBACK) <==> SealedFor(g, s, req, FALLBACK).Some?
    requires ParamsRange(req.params)
    ensures CommitOf(g, s, req, FALLBACK, io).1 <==> !StoringFails(g, s, req, FALLBACK, io)
  {
    hide *;
    if Admitted(g, s, req, FALLBACK) {
      AnswerExact(g, s, req, FALLBACK, io);
    } else {
      AnswerRefused(g, s, req, FALLBACK, io);
      Unsealed(g, s, req, FALLBACK, io);
    }
  }

  /** Whatever the oracle answered, the branch "wrapper disagrees with itself" is reached if and
      only if the world gets in the way: a fault of the substrate, or an append that fails on the
      very text that is to be stored.  That text is the answer's own record if admission accepts
      it, and the ERROR / INVALID_OUTPUT record otherwise: validation never is the reason. */
  lemma DisagreementIsAppendFailure(g: Config, es: seq<Event>, io1: Io, io2: Io)
    requires ConfigOk(g) && Reach(g, es).phase.Answered? && RoomLeft(Reach(g, es))
    ensures var s := Reach(g, es);
      var p := Step(g, s, Commit(io1, io2)).phase;
      var req, o := s.phase.req, OutcomeOf(s.phase.reply);
      && (p == Closing || p == Serving)
      && (p == Serving <==> if OwnRecord(g, s, req, o) then StoringFails(g, s, req, o, io1)
                            else StoringFails(g, s, req, FALLBACK, io2))
  {
    hide *;
    Reached(g, es);
    CommitDecided(g, Reach(g, es), io1, io2);
  }

  /** With a working disk and substrate every answer is committed at once. */
  lemma AnswerIsCommitted(g: Config, es: seq<Event>, io1: Io, io2: Io)
    requires ConfigOk(g) && Reach(g, es).phase.Answered? && RoomLeft(Reach(g, es))
    requires Total(g.c) && GoodIo(io1) && GoodIo(io2)
    ensures Step(g, Reach(g, es), Commit(io1, io2)).phase == Closing
  {
    hide *;
    var s := Reach(g, es);
    Reached(g, es);
    AnsweredFacts(g, s);
    var req, o := s.phase.req, OutcomeOf(s.phase.reply);
    ReqRange(g, req);
    PhaseAfter(g, s, io1, io2);
    AnswerOutcome(s.phase.reply);
    if Admitted(g, s, req, o) {
      AnswerExact(g, s, req, o, io1);
    } else {
      AnswerRefused(g, s, req, o, io1);
      if o.state == ERROR {
        AnswerAdmitted(g, s, req, o);
        SealedTotal(g, s, req, o);
      } else {
        AnswerAdmitted(g, s, req, FALLBACK);
        SealedTotal(g, s, req, FALLBACK);
        AnswerExact(g, s, req, FALLBACK, io2);
      }
    }
  }

  lemma SealedTotal(g: Config, s: State, req: Req, o: Outcome)
    requires Total(g.c)
    ensures SealedFor(g, s, req, o).Some?
  {
    hide Total, Draft, Seal;
    SealTotal(g.c, Draft(g.c, ObsInput(g, s, o.state, o.failure, req.prompt, o.output, req.params)));
  }

  // ---- what is stored --------------------------------------------------------------------------------------

  /** The last frame stores the observation of this request with this outcome. */
  ghost predicate StoresOutcome(g: Config, fs: seq<Frame>, prompt: bytes, params: Params, o: Outcome) {
    && fs != []
    && exists r :: Stores(g.c, fs[|fs| - 1], r) && Tells(g, r, prompt, params, o)
  }

  /** One frame more, and it is the observation of this request with this outcome. */
  ghost predicate Adds(g: Config, fs: seq<Frame>, gs: seq<Frame>, prompt: bytes, params: Params, o: Outcome) {
    |gs| == |fs| + 1 && fs <= gs && StoresOutcome(g, gs, prompt, params, o)
  }

  predicate Tells(g: Config, r: Record, prompt: bytes, params: Params, o: Outcome) {
    && r.inputHash == g.c.sha256(prompt) && r.params == params
    && r.modelId == Some(g.modelId) && r.oracleId == Some(g.oracleId)
    && r.state == o.state && r.failure == o.failure
    && r.output == Some(Lines(o.output)) && r.outputSize == |Lines(o.output)|
  }

  lemma DraftTells(g: Config, s: State, prompt: bytes, params: Params, o: Outcome)
    requires prompt != [] && |o.output| <= MAX_OUTPUT_BYTES
    ensures var x := ObsInput(g, s, o.state, o.failure, prompt, o.output, params);
      Seal(g.c, Draft(g.c, x)).Some? ==> Tells(g, Seal(g.c, Draft(g.c, x)).value, prompt, params, o)
  {
    hide Canon, Lines;
  }

  lemma StoredBy(g: Config, fs: seq<Frame>, r: Record, prompt: bytes, params: Params, o: Outcome)
    requires fs != [] && fs[|fs| - 1].tag == ObsTag() && fs[|fs| - 1].payload == Canon(r, true) && WellRecorded(g.c, r)
    requires Tells(g, r, prompt, params, o)
    ensures StoresOutcome(g, fs, prompt, params, o)
  {
    hide Canon, WellRecorded, Tells, ObsTag;
    assert Stores(g.c, fs[|fs| - 1], r);
  }

  /** A commit adds no frame or exactly the record of what it was given; if it succeeds, that. */
  lemma CommitStores(g: Config, s: State, prompt: bytes, params: Params, o: Outcome, io: Io)
    requires Ready(g.c, s) && ParamsRange(params) && prompt != [] && |o.output| <= MAX_OUTPUT_BYTES
    ensures var (t, ok) := CommitObs(g, s, o.state, o.failure, prompt, o.output, params, io);
      && (t.h.frames == s.h.frames || Adds(g, s.h.frames, t.h.frames, prompt, params, o))
      && (ok ==> Adds(g, s.h.frames, t.h.frames, prompt, params, o))
  {
    hide *;
    var x := ObsInput(g, s, o.state, o.failure, prompt, o.output, params);
    InputIs(g, s, prompt, params, o);
    CommitUnfold(g, s, o.state, o.failure, prompt, o.output, params, io);
    if AdmitRc(g.c, x, s.adm, MAX_OUTPUT_BYTES) == AX_OK && Seal(g.c, Draft(g.c, x)).Some? {
      var rec := Seal(g.c, Draft(g.c, x)).value;
      var s1 := s.(adm := Ctx(true, s.l.chain.seq_ + 1));
      AdmittedIsWellRecorded(g.c, x, s.adm, MAX_OUTPUT_BYTES);
      DraftTells(g, s, prompt, params, o);
      TagsNoNul();
      ReadyKept(g.c, s, s1);
      AppendFacts(g, s1, ObsTag(), Canon(rec, true), io);
      var (t, ok) := AppendStep(g, s1, ObsTag(), Canon(rec, true), io);
      AppendedLast(g.c, s1, t, ok, ObsTag(), Canon(rec, true));
      if t.h.frames != s.h.frames {
        StoredBy(g, t.h.frames, rec, prompt, params, o);
        AddsIs(g, s.h.frames, t.h.frames, prompt, params, o);
      }
    }
  }

  lemma AddsIs(g: Config, fs: seq<Frame>, gs: seq<Frame>, prompt: bytes, params: Params, o: Outcome)
    requires |gs| == |fs| + 1 && fs <= gs && StoresOutcome(g, gs, prompt, params, o)
    ensures Adds(g, fs, gs, prompt, params, o)
  {
    hide StoresOutcome;
  }

  lemma InputIs(g: Config, s: State, prompt: bytes, params: Params, o: Outcome)
    ensures var x := ObsInput(g, s, o.state, o.failure, prompt, o.output, params);
      InputShape(x) && x.params == params
  {
  }

  lemma AppendedLast(c: Crypto, s: State, t: State, ok: bool, tag: bytes, payload: bytes)
    requires Appended(c, s, t, ok, tag, payload)
    ensures ok ==> t.h.frames != s.h.frames
    ensures t.h.frames != s.h.frames ==>
      && |t.h.frames| == |s.h.frames| + 1 && s.h.frames <= t.h.frames
      && t.h.frames[|s.h.frames|].tag == tag && t.h.frames[|s.h.frames|].payload == payload
    ensures !ok ==> t.adm == s.adm && t.l.chain == s.l.chain
  {
    hide EncodeFrames, CutOf, FrameOk, Chained;
  }

  /** A frame that the commit of an answer adds, whether or not the append then also succeeds,
      stores the prompt's hash, the parameters, the configured identifiers and the outcome: the
      answer's own if admission accepts it, ERROR / INVALID_OUTPUT with an empty output if not.
      An answer that is committed has added it. */
  lemma AnswerIsStored(g: Config, es: seq<Event>, io1: Io, io2: Io)
    requires ConfigOk(g) && Reach(g, es).phase.Answered?
    ensures var s := Reach(g, es);
      var t := Step(g, s, Commit(io1, io2));
      var req, o := s.phase.req, OutcomeOf(s.phase.reply);
      var kept := if Admitted(g, s, req, o) then o else FALLBACK;
      && (t.h.frames == s.h.frames || Adds(g, s.h.frames, t.h.frames, req.prompt, req.params, kept))
      && (t.phase.Closing? ==> Adds(g, s.h.frames, t.h.frames, req.prompt, req.params, kept))
  {
    hide *;
    Reached(g, es);
    var s := Reach(g, es);
    AnsweredFacts(g, s);
    AnswerStored(g, s, io1, io2);
  }

  lemma AnswerStored(g: Config, s: State, io1: Io, io2: Io)
    requires s.phase.Answered? && Ready(g.c, s) && ReqOk(g, s.phase.req)
    ensures var t := Step(g, s, Commit(io1, io2));
      var req, o := s.phase.req, OutcomeOf(s.phase.reply);
      var kept := if Admitted(g, s, req, o) then o else FALLBACK;
      && (t.h.frames == s.h.frames || Adds(g, s.h.frames, t.h.frames, req.prompt, req.params, kept))
      && (t.phase.Closing? ==> Adds(g, s.h.frames, t.h.frames, req.prompt, req.params, kept))
  {
    hide *;
    var req, o := s.phase.req, OutcomeOf(s.phase.reply);
    StateAfter(g, s, io1, io2);
    var (t, ok) := CommitOf(g, s, req, o, io1);
    OutputFits(s.phase.reply);
    AttemptStores(g, s, req, o, io1);
    if !Admitted(g, s, req, o) {
      AnswerRefused(g, s, req, o, io1);
      FallbackShort();
      AttemptStores(g, s, req, FALLBACK, io2);
    } else if !ok {
      AdmittedMoves(g, s, req, o, io1);
      FallbackRefused(g, t, req, io2);
    }
  }

  lemma StateAfter(g: Config, s: State, io1: Io, io2: Io)
    requires s.phase.Answered?
    ensures var req, o := s.phase.req, OutcomeOf(s.phase.reply);
      var (t, ok) := CommitOf(g, s, req, o, io1);
      var (u, ok2) := CommitOf(g, t, req, FALLBACK, io2);
      Step(g, s, Commit(io1, io2))
      == if ok then t.(phase := Closing)
         else if o.state == ERROR then t.(phase := Serving)
         else u.(phase := if ok2 then Closing else Serving)
  {
    hide CommitObs, OutcomeOf;
  }

  lemma FallbackShort()
    ensures |FALLBACK.output| <= MAX_OUTPUT_BYTES
  {
  }

  lemma FallbackRefused(g: Config, t: State, req: Req, io: Io)
    requires t.adm == Ctx(true, t.l.chain.seq_ + 1)
    ensures CommitOf(g, t, req, FALLBACK, io) == (t, false)
  {
    hide CommitObs;
    SecondRefused(g, t, ERROR, INVALID_OUTPUT, req.prompt, [], req.params, io);
  }

  lemma AttemptStores(g: Config, s: State, req: Req, o: Outcome, io: Io)
    requires Ready(g.c, s) && ReqOk(g, req) && |o.output| <= MAX_OUTPUT_BYTES
    ensures ParamsRange(req.params)
    ensures var (t, ok) := CommitOf(g, s, req, o, io);
      && (t.h.frames == s.h.frames || Adds(g, s.h.frames, t.h.frames, req.prompt, req.params, o))
      && (ok ==> Adds(g, s.h.frames, t.h.frames, req.prompt, req.params, o))
  {
    hide CommitObs, Adds, Ready, ValidUtf8, Sendable, ParamsRange;
    CommitStores(g, s, req.prompt, req.params, o, io);
  }

  /** An admitted attempt marks its sequence number as used even if the append fails. */
  lemma AdmittedMoves(g: Config, s: State, req: Req, o: Outcome, io: Io)
    requires Admitted(g, s, req, o) && ParamsRange(req.params) && !CommitOf(g, s, req, o, io).1
    ensures CommitOf(g, s, req, o, io).0.adm == Ctx(true, s.l.chain.seq_ + 1)
    ensures CommitOf(g, s, req, o, io).0.l.chain == s.l.chain
  {
    hide AdmitRc, Seal, Draft, Canon, CommitObs, ObsTag, EncodeFrame, Track, ParamsRange, WellRecorded;
    CommitUnfold(g, s, o.state, o.failure, req.prompt, o.output, req.params, io);
    AdmittedIsWellRecorded(g.c, ObsInput(g, s, o.state, o.failure, req.prompt, o.output, req.params), s.adm,
      MAX_OUTPUT_BYTES);
  }

  lemma OutputFits(reply: Reply)
    ensures |OutcomeOf(reply).output| <= MAX_OUTPUT_BYTES
  {
    hide JsonScan.ContentText, JsonScan.TopString;
    if reply.Body? && JsonScan.ContentText(reply.body, MAX_OUTPUT_BYTES).Some? {
      JsonScan.ContentFits(reply.body, MAX_OUTPUT_BYTES);
    }
  }

  /** Recovery takes a readable intent for evidenced, and then changes nothing but the phase, exactly
      when the probe finds its hash in the last payload; a frame that it adds, whether or not the
      append then also succeeds, is the TRANSPORT_ERROR record that names the hash, with the
      parameters of the intent. */
  lemma RecoveryIsStored(g: Config, es: seq<Event>, io: Io)
    requires ConfigOk(g) && Reach(g, es).phase.Recovering? && ReadIntent(Reach(g, es).wal).Some?
    ensures var s := Reach(g, es);
      var t := Step(g, s, RecoverIntent(io));
      var i := ReadIntent(s.wal).value;
      var p := Params(i.maxTokens, -1, i.temperature, i.topP);
      && (t.phase == Clearing(false) <==> Probe(LastPayload(s.h.frames), i.hash))
      && (t.phase == Clearing(false) ==> t == s.(phase := Clearing(false)))
      && (t.h.frames == s.h.frames || Adds(g, s.h.frames, t.h.frames, Synth(i.hash), p, UNCLOSED))
      && (t.phase == Clearing(true) ==> Adds(g, s.h.frames, t.h.frames, Synth(i.hash), p, UNCLOSED))
  {
    hide *;
    Reached(g, es);
    var s := Reach(g, es);
    RecoveringReady(g, s);
    RecoveryStored(g, s, io);
  }

  const UNCLOSED := Outcome(ERROR, TRANSPORT_ERROR, [])

  lemma RecoveringReady(g: Config, s: State)
    requires Inv(g, s) && s.phase.Recovering?
    ensures Ready(g.c, s) && s.l.last == LastPayload(s.h.frames)
  {
    hide Inv;
    ReadyNow(g, s);
  }

  lemma RecoveryStored(g: Config, s: State, io: Io)
    requires s.phase.Recovering? && ReadIntent(s.wal).Some? && Ready(g.c, s)
    ensures var t := Step(g, s, RecoverIntent(io));
      var i := ReadIntent(s.wal).value;
      var p := Params(i.maxTokens, -1, i.temperature, i.topP);
      && (t.phase == Clearing(false) <==> Probe(s.l.last, i.hash))
      && (t.phase == Clearing(false) ==> t == s.(phase := Clearing(false)))
      && (t.h.frames == s.h.frames || Adds(g, s.h.frames, t.h.frames, Synth(i.hash), p, UNCLOSED))
      && (t.phase == Clearing(true) ==> Adds(g, s.h.frames, t.h.frames, Synth(i.hash), p, UNCLOSED))
  {
    hide CommitObs, Recover, Probe, Adds, Ready, ParamsRange;
    var i := ReadIntent(s.wal).value;
    SynthSome(i.hash);
    hide Synth;
    RecoveredIntentRange(s.wal.value);
    CommitStores(g, s, Synth(i.hash), RecoveryParams(i), UNCLOSED, io);
  }

  // ---- what an answer means ---------------------------------------------------------------------------------

  /** The outcome that a written Messages response has: the concatenated text of its text blocks,
      TRUNCATED exactly when stop_reason is max_tokens, and INVALID_OUTPUT when there is no
      content, no stop_reason string, or one of them does not fit. */
  function MessageOutcome(m: JsonDoc.Items): Outcome
    requires JsonDoc.ItemsOk(m) && Messages.MessageOk(m)
  {
    var stop := Messages.Lookup(m, Ascii("stop_reason"));
    if !Messages.HasContent(m) || |Messages.MessageText(m)| > MAX_OUTPUT_BYTES || stop.None? || |stop.value| > 63
    then Outcome(ERROR, INVALID_OUTPUT, [])
    else
      var state := if CStr(stop.value) == Ascii("max_tokens") then TRUNCATED else COMPLETE;
      Outcome(state, FAILURE_NULL, Messages.MessageText(m))
  }

  lemma OutcomeWritten(ws: bytes, inner: bytes, m: JsonDoc.Items, k: bytes)
    requires JsonDoc.AllWs(ws) && JsonDoc.AllWs(inner) && JsonDoc.ItemsOk(m) && Messages.MessageOk(m)
    requires Messages.LookupOk(m, Ascii("stop_reason"))
    ensures OutcomeOf(Body(ws + JsonDoc.EmitValue(JsonDoc.Obj(inner, m), k))) == MessageOutcome(m)
  {
    hide JsonDoc.EmitValue, JsonScan.ContentText, JsonScan.TopString, Messages.MessageText, Messages.HasContent;
    hide Messages.Lookup;
    hide Messages.MessageOk, Messages.LookupOk, Ascii;
    Messages.ContentTextWritten(ws, inner, m, k, MAX_OUTPUT_BYTES);
    Messages.TopStringWritten(ws, inner, m, Ascii("stop_reason"), k, 63);
  }
}
