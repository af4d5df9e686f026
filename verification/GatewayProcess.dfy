/** One process of gateway/src/gw_main.c: `commit_observation`, `recover_wal`, `handle_request`
    and the start-up order of `main`, on the ledger, the intent file and the buffers they change
    in place.  Each is proved to take exactly the steps of the state machine. */
module GatewayProcess {
  import opened Bytes
  import opened Faults
  import opened Utf8
  import opened Normalise
  import opened Numbers
  import opened JsonScan
  import opened JsonLoops
  import opened Canonical
  import opened Writer
  import opened Substrate
  import opened Obs
  import opened Admission
  import opened Frames
  import opened DurableLedger
  import opened Wal
  import opened RequestBody
  import opened Gateway
  import opened GatewayRestart
  import GatewayInv
  import GatewaySteps
  import GatewayEvents

  class Process {
    const g: Config
    const ledger: LedgerUnit
    const adm: AdmissionCtx
    const outputBuf: array<byte>   // g_output_buf
    const canonBuf: array<byte>    // g_canon_buf
    const textBuf: array<byte>     // g_text_buf
    const norm: array<byte>        // st.norm
    const reqjson: array<byte>     // st.reqjson
    var wal: Option<bytes>
    var calls: nat
    ghost var phase: Phase
    ghost var h: History

    ghost predicate Valid() {
      && outputBuf.Length == MAX_OUTPUT_BYTES && canonBuf.Length == CANONICAL_BUFFER
      && textBuf.Length == MAX_OUTPUT_BYTES
      && norm.Length == g.maxPrompt + 1 && reqjson.Length == ReqJsonCap(g.maxPrompt)
    }

    ghost function Value(): State
      reads this, ledger, adm
    {
      State(wal, ledger.Value(), adm.Value(), calls, phase, h)
    }

    /** A new process over what is on the disk. */
    constructor (g: Config, wal: Option<bytes>, file: bytes, exported: bytes, ghost h: History)
      ensures Valid() && this.g == g && fresh(ledger) && fresh(adm)
      ensures fresh(outputBuf) && fresh(canonBuf) && fresh(textBuf) && fresh(norm) && fresh(reqjson)
      ensures Value()
           == State(wal, Ledger(file, Chain(ZeroDigest(), 0), [], false, exported), Ctx(false, 0), 0, Down, h)
    {
      this.g, this.wal, this.calls, this.phase, this.h := g, wal, 0, Down, h;
      ledger := new LedgerUnit(file, exported);
      adm := new AdmissionCtx();
      outputBuf := new byte[MAX_OUTPUT_BYTES];
      canonBuf := new byte[CANONICAL_BUFFER];
      textBuf := new byte[MAX_OUTPUT_BYTES];
      norm := new byte[g.maxPrompt + 1];
      reqjson := new byte[ReqJsonCap(g.maxPrompt)];
    }

    /** `gwl_append`, with the history of what reached the file. */
    method Append(tag: bytes, payload: bytes, io: Io) returns (ok: bool)
      requires ledger.isOpen && NoNul(tag)
      modifies this`h, ledger
      ensures ledger.isOpen && (Value(), ok) == AppendStep(g, old(Value()), tag, payload, io)
    {
      hide DurableLedger.Append, Track;
      ok := ledger.GwlAppend(g.c, tag, payload, io);
      h := Track(g.c, h, tag, payload, io);
    }

    /** `commit_observation`. */
    method CommitObservation(state: int, failure: int, prompt: bytes, output: bytes, params: Params, io: Io)
      returns (ok: bool)
      requires Valid() && ledger.isOpen && ParamsRange(params)
      requires ledger.chain.seq_ + 1 < 0x1_0000_0000_0000_0000 && |output| < 0x1_0000_0000_0000_0000
      modifies this`h, ledger, adm, outputBuf, canonBuf
      ensures ledger.isOpen
      ensures (Value(), ok) == CommitObs(g, old(Value()), state, failure, prompt, output, params, io)
    {
      hide AdmitRc, Seal, Draft, ValidateRc, Canon, AppendStep, ObsTag, RecordRange;
      var x := Input(state, failure, Some(prompt), |prompt|, ledger.chain.seq_ + 1, Some(g.modelId), Some(g.oracleId),
                     Some(output), |output|, params);
      assert x == ObsInput(g, Value(), state, failure, prompt, output, params);
      var faults := new FaultFlags();
      var rc, rec := Admit(g.c, x, outputBuf, adm, faults);
      if rc != AX_OK {
        return false;
      }
      SealedRange(g.c, x);
      faults := new FaultFlags();
      rc := ObsValidate(g.c, rec, faults);
      if rc != AX_OK {
        return false;
      }
      var clen := ObsCanonicalise(canonBuf, rec, true);
      if clen <= 0 {
        NeverEmpty(rec);
        return false;
      }
      GatewaySteps.TagsNoNul();
      ok := Append(ObsTag(), canonBuf[..clen], io);
    }

    // ---- the intent file ---------------------------------------------------------------------------

    /** `gw_wal_write`: exclusive creation, the text in a 768-byte buffer, one write. */
    method WalWrite(i: Intent, wio: WalIo) returns (ok: bool)
      requires IntentOk(i)
      modifies this`wal
      ensures ok == (old(wal).None? && wio.created && wio.n >= |WalText(i)| && wio.synced)
      ensures wal == if old(wal).Some? || !wio.created then old(wal) else Some(WalText(i)[..Min(wio.n, |WalText(i)|)])
    {
      WalTextFits(i);
      hide WalText, IntentOk;
      if wal.Some? || !wio.created {
        return false;
      }
      wal := Some([]);
      var text := WalText(i);
      if |text| >= 768 {
        return false;
      }
      wal := Some(text[..Min(wio.n, |text|)]);
      return wio.n >= |text| && wio.synced;
    }

    /** `gw_wal_clear`. */
    method WalClear(removed: bool, synced: bool) returns (ok: bool)
      requires phase.Clearing? || phase.Closing?
      modifies this`wal, this`phase, this`h
      ensures Value() == Step(g, old(Value()), Clear(removed, synced))
      ensures ok == (removed && synced)
    {
      ghost var t := ClearStep(Value(), removed, synced);
      phase, h := t.phase, t.h;
      if !removed {
        return false;
      }
      wal := None;
      return synced;
    }

    // ---- start ---------------------------------------------------------------------------------------

    /** `recover_wal`. */
    method RecoverWal(io: Io, removed: bool, synced: bool) returns (ok: bool)
      requires Valid() && ledger.isOpen && phase.Recovering? && ledger.chain.seq_ + 1 < 0x1_0000_0000_0000_0000
      modifies this`wal, this`phase, this`h, ledger, adm, outputBuf, canonBuf
      ensures ledger.isOpen && ok == phase.Committing? && (ok || phase.Down?)
      ensures Value() == Step(g, Step(g, old(Value()), RecoverIntent(io)), Clear(removed, synced))
    {
      hide CommitObs, Recover, Probe, Synth, CountStop;
      ghost var s := Value();
      if wal.None? {
        phase := Committing;
        return true;
      }
      var r := WalRecover(wal.value);
      if r.None? {
        phase := Down;
        return false;
      }
      var i := r.value;
      var found := ledger.GwlLastPayloadContains(i.hash);
      if found {
        phase := Clearing(false);
        assert Value() == Step(g, s, RecoverIntent(io));
        ok := WalClear(removed, synced);
        return;
      }
      ok := RecordUnclosed(i, io);
      if !ok {
        return;
      }
      ok := WalClear(removed, synced);
    }

    /** The recovery observation for an intent that no frame names. */
    method RecordUnclosed(i: Intent, io: Io) returns (ok: bool)
      requires Valid() && ledger.isOpen && phase.Recovering? && ledger.chain.seq_ + 1 < 0x1_0000_0000_0000_0000
      requires wal.Some? && Recover(wal.value) == Some(i) && !Probe(ledger.last, i.hash)
      modifies this`phase, this`h, ledger, adm, outputBuf, canonBuf
      ensures ledger.isOpen && phase == if ok then Clearing(true) else Down
      ensures Value() == Step(g, old(Value()), RecoverIntent(io))
    {
      hide CommitObs, Recover, Probe, Synth, CountStop;
      ghost var s := Value();
      var params := NULL_PARAMS.(maxTokens := i.maxTokens);
      if i.temperature != NULL_Q16 {
        params := params.(temperature := i.temperature);
      }
      if i.topP != NULL_Q16 {
        params := params.(topP := i.topP);
      }
      assert params == RecoveryParams(i);
      GatewayEvents.RecoveredIntentRange(wal.value);
      ok := CommitObservation(ERROR, TRANSPORT_ERROR, Synth(i.hash), [], params, io);
      if !ok && |h.frames| > |s.h.frames| {
        h := CountStop(h);
      }
      phase := if ok then Clearing(true) else Down;
    }

    /** The torn-tail probe, the replay and the export copy. */
    method OpenLedger(made: bool, n: nat, copied: bool) returns (ok: bool)
      requires phase.Down? && !ledger.exportOn && adm.Value() == Ctx(false, 0) && calls == 0
      modifies this`phase, this`h, ledger
      ensures ok == phase.Recovering? && (ok || phase.Down?)
        && (ok ==> ledger.isOpen && ledger.chain.seq_ <= |old(ledger.file)|)
      ensures var t := Step(g, Step(g, old(Value()), Start), EnableCopy(made, n, copied));
        SameDisk(Value(), t) && (ok ==> Value() == t)
    {
      hide Open, Recover;
      ghost var s := Value();
      var probe := wal.Some?;
      if wal.Some? {
        var r := WalRecover(wal.value);
        probe := r.Some?;
      }
      var truncated;
      ok, truncated := ledger.GwlOpen(g.c, probe);
      if !ok {
        return;
      }
      OpenBound(g.c, s.l, probe);
      phase, h := Opened, h.(torn := []);
      assert Value() == Step(g, s, Start);
      if g.exportOn {
        ok := ledger.GwlExportEnable(made, n, copied);
        if !ok {
          phase := Down;
          return;
        }
      }
      phase := Recovering;
    }

    /** The start-up order of `main`: the ledger under the torn-tail rule, the export, the
        intent, the AX:STATE:v1 frame.  A process that gives up leaves the disk as the state
        machine says; one that serves is in exactly its state. */
    method StartUp(made: bool, n: nat, copied: bool, io1: Io, removed: bool, synced: bool, io2: Io) returns (ok: bool)
      requires Valid() && phase.Down? && !ledger.exportOn && adm.Value() == Ctx(false, 0) && calls == 0
      requires |ledger.file| + 1 < 0x1_0000_0000_0000_0000
      modifies this`wal, this`phase, this`h, ledger, adm, outputBuf, canonBuf
      ensures ok == phase.Serving? && (ok || phase.Down?) && (ok ==> ledger.isOpen)
      ensures var t := Run(g, old(Value()),
        [Start, EnableCopy(made, n, copied), RecoverIntent(io1), Clear(removed, synced), CommitState(io2)]);
        SameDisk(Value(), t) && (ok ==> Value() == t)
    {
      hide Run, AppendStep, StatePayload, StateTag, StartStep, EnableStep, RecoverStep, ClearStep;
      ghost var s := Value();
      RunFive(g, s, Start, EnableCopy(made, n, copied), RecoverIntent(io1), Clear(removed, synced), CommitState(io2));
      ok := OpenLedger(made, n, copied);
      if !ok {
        StaysDown(g, Step(g, Step(g, s, Start), EnableCopy(made, n, copied)), io1, removed, synced, io2);
        return;
      }
      ok := RecoverWal(io1, removed, synced);
      if !ok {
        return;
      }
      GatewaySteps.TagsNoNul();
      ok := Append(StateTag(), StatePayload(g), io2);
      phase := if ok then Serving else Down;
    }

    // ---- one request ------------------------------------------------------------------------------------

    /** Steps 1 to 3 of `handle_request`: range checks, normalisation into `norm`, budget. */
    method Accept(prompt: bytes, maxTokens: int, temperature: int, topP: int) returns (r: Option<Req>)
      requires Valid()
      modifies norm
      ensures r == CheckRequest(g, Value(), prompt, maxTokens, temperature, topP)
    {
      hide NormaliseRc, Lines, ValidUtf8;
      if prompt == [] || |prompt| > g.maxPrompt {
        return None;
      }
      var params := CheckParams(maxTokens, temperature, topP);
      if params.None? {
        return None;
      }
      var faults := new FaultFlags();
      var n := ValidateAndNormalise(norm, prompt, faults);
      if n < 0 || calls >= g.callBudget {
        return None;
      }
      return Some(Req(norm[..n], params.value));
    }

    /** Step 4: the durable intent, before any network traffic. */
    method WriteIntent(req: Req, wio: WalIo) returns (ok: bool)
      requires phase.Serving? && IntentOk(IntentOf(g, req))
      modifies this`wal, this`phase, this`h
      ensures Value() == RequestStep(g, old(Value()), req, wio)
      ensures phase == if ok then IntentOpen(req) else Serving
    {
      hide WalText, HexText, Probe, IntentOk;
      ghost var t := RequestStep(g, Value(), req, wio);
      ok := WalWrite(IntentOf(g, req), wio);
      phase, h := t.phase, t.h;
    }

    /** Steps 1 to 4: the request step of the state machine. */
    method Intend(prompt: bytes, maxTokens: int, temperature: int, topP: int, wio: WalIo) returns (r: Option<Req>)
      requires Valid() && phase.Serving? && ConfigOk(g)
      modifies this`wal, this`phase, this`h, norm
      ensures Value() == Step(g, old(Value()), Request(prompt, maxTokens, temperature, topP, wio))
      ensures r.Some? ==> phase == IntentOpen(r.value) && GatewayInv.ReqOk(g, r.value) && |g.modelId| < GW_ID_MAX
      ensures r.None? ==> phase.Serving?
    {
      assert |g.modelId| < GW_ID_MAX;
      hide ConfigOk, ValidUtf8, CheckRequest, IntentOk, ParamsRange, Sendable, RequestStep, IntentOf;
      var accepted := Accept(prompt, maxTokens, temperature, topP);
      if accepted.None? {
        return None;
      }
      GatewayEvents.IntentFits(g, accepted.value);
      var ok := WriteIntent(accepted.value, wio);
      return if ok then accepted else None;
    }

    /** The request body and step 5, the call. */
    method CallOracle(req: Req, reply: Reply) returns (built: bool, answered: bool)
      requires Valid() && phase == IntentOpen(req)
      requires Sendable(req.params) && |g.modelId| < GW_ID_MAX && |req.prompt| <= g.maxPrompt
      modifies this`phase, this`h, this`calls, reqjson
      ensures Value() == Step(g, old(Value()), Call(reply))
      ensures answered ==> built && phase == Answered(req, reply)
      ensures !answered ==> phase == if built then Serving else Closing
    {
      hide ValidUtf8, IsUtf8, BodyText, Sendable, ParamsRange, ReqJsonCap, IdBytesOk;
      var ok, n := BuildBody(reqjson, g.modelId, req.params, req.prompt, g.maxPrompt);
      ValidUtf8Exact(g.modelId);
      ValidUtf8Exact(req.prompt);
      if !ok {
        phase := Closing;
        return false, false;
      }
      calls, h := calls + 1, MarkCalled(h);
      if reply.AllocFail? {
        phase := Serving;
        return true, false;
      }
      phase := Answered(req, reply);
      return true, true;
    }

    /** The switch over the outcome of the call. */
    method Judge(reply: Reply) returns (o: Outcome)
      requires Valid()
      modifies textBuf
      ensures o == OutcomeOf(reply) && |o.output| <= MAX_OUTPUT_BYTES
    {
      hide ContentText, TopString, Ascii, CStr;
      match reply {
        case Body(body) =>
          var stop := new byte[64];
          var ok, len := GwjContentText(body, textBuf);
          if !ok {
            return Outcome(ERROR, INVALID_OUTPUT, []);
          }
          ghost var text := textBuf[..len];
          ok := GwjTopString(body, Ascii("stop_reason"), stop);
          if !ok {
            return Outcome(ERROR, INVALID_OUTPUT, []);
          }
          ghost var v := TopString(body, Ascii("stop_reason"), 63).value;
          StrcmpSees(stop[..], v);
          assert textBuf[..len] == text;
          var state := if CStr(stop[..]) == Ascii("max_tokens") then TRUNCATED else COMPLETE;
          return Outcome(state, FAILURE_NULL, textBuf[..len]);
        case TimedOut => return Outcome(ERROR, TIMEOUT, []);
        case OverCap => return Outcome(ERROR, INVALID_OUTPUT, []);
        case _ => return Outcome(ERROR, TRANSPORT_ERROR, []);
      }
    }

    /** Steps 6 to 10: the observation, with the INVALID_OUTPUT fallback. */
    method CommitOutcome(req: Req, reply: Reply, io1: Io, io2: Io) returns (ok: bool)
      requires Valid() && ledger.isOpen && phase == Answered(req, reply) && ParamsRange(req.params)
      requires ledger.chain.seq_ + 1 < 0x1_0000_0000_0000_0000
      modifies this`phase, this`h, ledger, adm, textBuf, outputBuf, canonBuf
      ensures ledger.isOpen && Value() == Step(g, old(Value()), Commit(io1, io2))
      ensures phase == if ok then Closing else Serving
    {
      hide CommitObs, OutcomeOf;
      ghost var s := Value();
      var o := Judge(reply);
      ok := CommitObservation(o.state, o.failure, req.prompt, o.output, req.params, io1);
      if !ok && o.state != ERROR {
        FailedKeepsSeq(g, s, o.state, o.failure, req.prompt, o.output, req.params, io1);
        ok := CommitObservation(ERROR, INVALID_OUTPUT, req.prompt, [], req.params, io2);
      }
      phase := if ok then Closing else Serving;
    }

    /** `handle_request`: exactly the run of one request, whatever the world does at each step. */
    method HandleRequest(prompt: bytes, maxTokens: int, temperature: int, topP: int, wio: WalIo,
                         reply: Reply, io1: Io, io2: Io, removed: bool, synced: bool)
      requires Valid() && ledger.isOpen && phase.Serving? && ConfigOk(g)
        && ledger.chain.seq_ + 1 < 0x1_0000_0000_0000_0000
      modifies this, ledger, adm, norm, reqjson, textBuf, outputBuf, canonBuf
      ensures Valid() && ledger.isOpen && phase.Serving?
      ensures Value() == Run(g, old(Value()),
        [Request(prompt, maxTokens, temperature, topP, wio), Call(reply), Commit(io1, io2), Clear(removed, synced)])
    {
      hide Run, RequestStep, CheckRequest, CallStep, CommitStep, ConfigOk, ParamsRange, Sendable, ValidUtf8;
      ghost var s := Value();
      RunFour(g, s, Request(prompt, maxTokens, temperature, topP, wio), Call(reply), Commit(io1, io2),
        Clear(removed, synced));
      var r := Intend(prompt, maxTokens, temperature, topP, wio);
      if r.None? {
        return;
      }
      var req := r.value;
      var built, answered := CallOracle(req, reply);
      var closing := !built;
      if answered {
        closing := CommitOutcome(req, reply, io1, io2);
      }
      if closing {
        var cleared := WalClear(removed, synced);
      }
    }
  }

  /** The two states agree on the disk and on whether the process is up. */
  predicate SameDisk(a: State, b: State) {
    && a.wal == b.wal && a.l.file == b.l.file && a.l.exported == b.l.exported && a.h == b.h && a.phase == b.phase
  }

  lemma OpenBound(c: Crypto, l: Ledger, tornOk: bool)
    requires Open(c, l, tornOk).Some?
    ensures Open(c, l, tornOk).value.0.chain.seq_ <= |l.file|
  {
    hide ReplayFrom;
    var fs, p := ReplayFromSound(c, l.file, tornOk, Genesis(c));
    AdvanceAllFacts(c, Genesis(c), fs);
    FramesLength(fs, p);
  }

  lemma {:induction false} FramesLength(fs: seq<Frame>, p: bytes)
    ensures |EncodeFrames(fs, p)| >= |fs|
  {
    if fs != [] {
      hide EncodeFrame;
      FramesLength(fs[1..], p);
    }
  }

  lemma StaysDown(g: Config, t: State, io1: Io, removed: bool, synced: bool, io2: Io)
    requires t.phase.Down?
    ensures Step(g, Step(g, Step(g, t, RecoverIntent(io1)), Clear(removed, synced)), CommitState(io2)) == t
  {
    hide RecoverStep, CommitStateStep;
  }

  lemma RunFour(g: Config, s: State, a: Event, b: Event, c: Event, d: Event)
    ensures Run(g, s, [a, b, c, d]) == Step(g, Step(g, Step(g, Step(g, s, a), b), c), d)
  {
    hide Step, Run;
    var s1 := Step(g, s, a);
    var s2 := Step(g, s1, b);
    assert [a, b, c, d] == [a] + [b, c, d] && [b, c, d] == [b] + [c, d] && [c, d] == [c] + [d] && [d] == [d] + [];
    RunCons(g, s, a, [b, c, d]);
    RunCons(g, s1, b, [c, d]);
    RunCons(g, s2, c, [d]);
    RunCons(g, Step(g, s2, c), d, []);
    RunNil(g, Step(g, Step(g, s2, c), d));
  }

  /** A failed commit leaves the chain where it was. */
  lemma FailedKeepsSeq(g: Config, s: State, state: int, failure: int, prompt: bytes, output: bytes, params: Params,
    io: Io)
    requires !CommitObs(g, s, state, failure, prompt, output, params, io).1
    ensures CommitObs(g, s, state, failure, prompt, output, params, io).0.l.chain == s.l.chain
  {
    hide AdmitRc, Seal, Draft, ValidateRc, Canon, ObsTag, EncodeFrame, Track;
  }

  /** What `strcmp` sees of a buffer that holds `v` and its terminator. */
  lemma {:induction false} StrcmpSees(buf: bytes, v: bytes)
    requires |v| < |buf| && buf[..|v|] == v && buf[|v|] == 0
    ensures CStr(buf) == CStr(v)
  {
    if v != [] {
      assert buf[0] == buf[..|v|][0] == v[0];
      assert buf[1..][..|v| - 1] == buf[..|v|][1..] == v[1..];
      StrcmpSees(buf[1..], v[1..]);
    }
  }

  lemma SealedRange(c: Crypto, x: Input)
    requires InputOk(x) && Seal(c, Draft(c, x)).Some?
    ensures RecordRange(Seal(c, Draft(c, x)).value)
  {
    hide RecordRange, Draft;
    DraftRange(c, x, 1);
    SealRange(c, Draft(c, x));
  }

  lemma NeverEmpty(r: Record)
    ensures |Canon(r, true)| > 0
  {
    HeadLength(r, StringsText(r, r.obsHash, TailText(r, [])));
  }
}
