/** The gateway as a state machine (gateway/src/gw_main.c over gw_wal.c and gw_ledger.c): start
    attempts, requests, oracle outcomes, failed writes, crashes.  An event says what the
    outside world does; `Step` says what the gateway makes of it.  A crash in the middle of a
    write is a failed write followed by a crash. */
module Gateway {
  import opened Bytes
  import opened Faults
  import opened Utf8
  import opened Normalise
  import opened Numbers
  import opened JsonScan
  import opened Canonical
  import opened Substrate
  import opened Obs
  import opened Frames
  import opened DurableLedger
  import opened Wal
  import opened RequestBody

  /** The accepted configuration. */
  datatype Config = Config(c: Crypto, modelId: bytes, oracleId: bytes, raw: bytes, exportOn: bool, callBudget: int,
    maxPrompt: nat)

  /** What a configuration file can change between two starts. */
  datatype Setup = Setup(modelId: bytes, oracleId: bytes, raw: bytes, exportOn: bool, callBudget: int, maxPrompt: nat)

  function With(g: Config, u: Setup): Config {
    Config(g.c, u.modelId, u.oracleId, u.raw, u.exportOn, u.callBudget, u.maxPrompt)
  }

  /** What `gw_config_load` guarantees: identifiers that admission accepts, below 256 bytes. */
  predicate ConfigOk(g: Config) {
    && IdOk(Some(g.modelId)) && |g.modelId| < GW_ID_MAX
    && IdOk(Some(g.oracleId)) && |g.oracleId| < GW_ID_MAX
    && g.maxPrompt >= 1
  }

  /** Frames carry the schema name as their tag. */
  function ObsTag(): bytes { Schema() }
  function StateTag(): bytes { Ascii("AX:STATE:v1") }

  /** A request past its checks: the normalised prompt and the parameters. */
  datatype Req = Req(prompt: bytes, params: Params)

  /** The outcome of `gwc_call`. */
  datatype Reply = Body(body: bytes) | HttpFail | TimedOut | TransportFail | OverCap | AllocFail

  /** Where the process is. */
  datatype Phase =
    | Down
    | Opened                             // ledger replayed
    | Recovering                         // export enabled, intent not yet looked at
    | Clearing(own: bool)                // recovery done; `own`: by a new frame
    | Committing                         // about to append AX:STATE:v1
    | Serving
    | IntentOpen(req: Req)
    | Answered(req: Req, reply: Reply)
    | Closing                            // observation durable, intent to be cleared

  /** History of one intent: the input hash, the number of frames when it was written, whether
      the last payload then lacked the hash, whether the oracle was called, and how many start
      attempts stopped after their recovery frame and before the intent was cleared. */
  datatype IntentRec = IntentRec(hash: Digest, base: nat, unseen: bool, called: bool, stops: nat)

  /** History variables: the whole frames in the file, what follows them, the intents.  No
      step of the gateway reads them. */
  datatype History = History(frames: seq<Frame>, torn: bytes, intents: seq<IntentRec>)

  datatype State = State(wal: Option<bytes>, l: Ledger, adm: Ctx, calls: nat, phase: Phase, h: History)

  /** Creation of the intent file and the write of its text. */
  datatype WalIo = WalIo(created: bool, n: nat, synced: bool)

  datatype Event =
    | Start
    | EnableCopy(made: bool, n: nat, synced: bool)
    | RecoverIntent(io: Io)
    | Clear(removed: bool, synced: bool)
    | CommitState(io: Io)
    | Request(prompt: bytes, maxTokens: int, temperature: int, topP: int, wio: WalIo)
    | Call(reply: Reply)
    | Commit(io1: Io, io2: Io)
    | Crash
    | Other(setup: Setup, es: seq<Event>)  // a process under another configuration, from start to end

  function Init(): State {
    State(None, Ledger([], Chain(ZeroDigest(), 0), [], false, []), Ctx(false, 0), 0, Down, History([], [], []))
  }

  // ---- appending --------------------------------------------------------------------------------

  /** History of an append: the frame is whole, or part of it is left. */
  function Track(c: Crypto, h: History, tag: bytes, payload: bytes, io: Io): History {
    if |tag| == 0 || |tag| > TAG_MAX || |payload| == 0 || |payload| > PAYLOAD_MAX then h
    else
      match c.evidence(tag, payload)
      case None => h
      case Some(d) =>
        var f := Frame(tag, payload, d);
        var e := EncodeFrame(f, []);
        if io.n >= |e| then h.(frames := h.frames + [f]) else h.(torn := h.torn + e[..io.n])
  }

  function AppendStep(g: Config, s: State, tag: bytes, payload: bytes, io: Io): (r: (State, bool)) {
    var (l, ok) := Append(g.c, s.l, tag, payload, io);
    (s.(l := l, h := Track(g.c, s.h, tag, payload, io)), ok)
  }

  function ObsInput(g: Config, s: State, state: int, failure: int, prompt: bytes, output: bytes, params: Params):
    (x: Input)
    ensures InputShape(x)
  {
    Input(state, failure, Some(prompt), |prompt|, s.l.chain.seq_ + 1, Some(g.modelId), Some(g.oracleId),
          Some(output), |output|, params)
  }

  /** `commit_observation`: admit, validate, canonicalise, append. */
  function CommitObs(g: Config, s: State, state: int, failure: int, prompt: bytes, output: bytes, params: Params,
    io: Io): (r: (State, bool)) {
    var x := ObsInput(g, s, state, failure, prompt, output, params);
    if AdmitRc(g.c, x, s.adm, MAX_OUTPUT_BYTES) != AX_OK then (s, false)
    else
      match Seal(g.c, Draft(g.c, x))
      case None => (s, false)
      case Some(rec) =>
        var t := s.(adm := Ctx(true, x.ledgerSeq));
        if ValidateRc(g.c, rec) != AX_OK || |Canon(rec, true)| > CANONICAL_BUFFER - 1 then (t, false)
        else AppendStep(g, t, ObsTag(), Canon(rec, true), io)
  }

  // ---- start -------------------------------------------------------------------------------------

  /** Is there an intent that `gw_wal_recover` can read? */
  function ReadIntent(wal: Option<bytes>): Option<Intent> {
    if wal.None? then None else Recover(wal.value)
  }

  /** Probe the intent, open and replay the ledger under the torn-tail rule. */
  function StartStep(g: Config, s: State): State {
    match Open(g.c, s.l.(exportOn := false), ReadIntent(s.wal).Some?)
    case None => s
    case Some((l, _)) =>
      s.(l := l, adm := Ctx(false, 0), calls := 0, phase := Opened, h := s.h.(torn := []))
  }

  function EnableStep(g: Config, s: State, made: bool, n: nat, synced: bool): State {
    if !g.exportOn then s.(phase := Recovering)
    else
      var (l, ok) := EnableExport(s.l, made, n, synced);
      s.(l := l, phase := if ok then Recovering else Down)
  }

  /** The synthetic input of a recovery record. */
  function Synth(hashHex: bytes): bytes {
    Ascii("unclosed-intent input_hash=") + hashHex
  }

  function RecoveryParams(i: Intent): Params {
    Params(i.maxTokens, NULL_INT64, i.temperature, i.topP)
  }

  /** One more start attempt that stopped with its recovery frame in the file. */
  function CountStop(h: History): History {
    if h.intents == [] then h
    else
      var i := |h.intents| - 1;
      h.(intents := h.intents[i := h.intents[i].(stops := h.intents[i].stops + 1)])
  }

  /** `recover_wal` up to the clearing of the intent. */
  function RecoverStep(g: Config, s: State, io: Io): State {
    if s.wal.None? then s.(phase := Committing)
    else
      match ReadIntent(s.wal)
      case None => s.(phase := Down)
      case Some(i) =>
        if Probe(s.l.last, i.hash) then s.(phase := Clearing(false))
        else
          var (t, ok) := CommitObs(g, s, ERROR, TRANSPORT_ERROR, Synth(i.hash), [], RecoveryParams(i), io);
          if ok then t.(phase := Clearing(true))
          else t.(phase := Down, h := if |t.h.frames| > |s.h.frames| then CountStop(t.h) else t.h)
  }

  /** `gw_wal_clear` at the end of recovery or of a request. */
  function ClearStep(s: State, removed: bool, synced: bool): State {
    var wal := if removed then None else s.wal;
    match s.phase
    case Clearing(own) =>
      if removed && synced then s.(wal := wal, phase := Committing)
      else s.(wal := wal, phase := Down, h := if own && !removed then CountStop(s.h) else s.h)
    case Closing => s.(wal := wal, phase := Serving)
    case _ => s
  }

  function StatePayload(g: Config): bytes {
    Ascii("{\"component\":\"axioma-gateway\",\"config_sha256\":\"") + HexText(g.c.sha256(g.raw)) +
    Ascii("\",\"evidence_type\":\"AX:STATE:v1\"}")
  }

  function CommitStateStep(g: Config, s: State, io: Io): State {
    var (t, ok) := AppendStep(g, s, StateTag(), StatePayload(g), io);
    t.(phase := if ok then Serving else Down)
  }

  // ---- one request ---------------------------------------------------------------------------------

  /** The parameters after the range checks of `handle_request`; None is a refusal. */
  function CheckParams(maxTokens: int, temperature: int, topP: int): (r: Option<Params>)
    ensures r.Some? ==> Sendable(r.value) && ParamsRange(r.value) && r.value.seed == NULL_INT64
  {
    if maxTokens <= 0 || maxTokens > 200_000 || temperature < 0 || temperature > 131_072 || topP > 65_536 then None
    else Some(Params(maxTokens, NULL_INT64, temperature, if topP >= 0 then topP else NULL_Q16))
  }

  /** Checks and normalisation before anything is spent. */
  function CheckRequest(g: Config, s: State, prompt: bytes, maxTokens: int, temperature: int, topP: int):
    (r: Option<Req>)
    ensures r.Some? ==> r.value.prompt != [] && Sendable(r.value.params) && ParamsRange(r.value.params)
    ensures r.Some? ==> r.value.params.seed == NULL_INT64
    ensures r.Some? ==> ValidUtf8(r.value.prompt) && |r.value.prompt| <= g.maxPrompt
  {
    if prompt == [] || |prompt| > g.maxPrompt then None
    else
      var params :- CheckParams(maxTokens, temperature, topP);
      if NormaliseRc(prompt, g.maxPrompt + 1) < 0 || s.calls >= g.callBudget then None
      else
        CleanHasNoNul(prompt);
        Some(Req(Lines(prompt), params))
  }

  function IntentOf(g: Config, req: Req): Intent {
    Intent(HexText(g.c.sha256(req.prompt)), g.modelId, req.params.maxTokens, NULL_INT64, req.params.temperature,
      req.params.topP)
  }

  /** `gw_wal_write`: exclusive creation, then the text, of which `n` bytes get there. */
  function RequestStep(g: Config, s: State, req: Req, wio: WalIo): State {
    if s.wal.Some? || !wio.created then s
    else
      var text := WalText(IntentOf(g, req));
      var hash := g.c.sha256(req.prompt);
      var rec := IntentRec(hash, |s.h.frames|, !Probe(s.l.last, HexText(hash)), false, 0);
      var t := s.(wal := Some(text[..Min(wio.n, |text|)]), h := s.h.(intents := s.h.intents + [rec]));
      if wio.n >= |text| && wio.synced then t.(phase := IntentOpen(req)) else t
  }

  function MarkCalled(h: History): History {
    if h.intents == [] then h
    else
      var i := |h.intents| - 1;
      h.(intents := h.intents[i := h.intents[i].(called := true)])
  }

  /** Build the body and call the oracle. */
  function CallStep(g: Config, s: State, req: Req, reply: Reply): State {
    if !(ValidUtf8(g.modelId) && ValidUtf8(req.prompt)) then s.(phase := Closing)
    else
      var phase := if reply.AllocFail? then Serving else Answered(req, reply);
      s.(calls := s.calls + 1, h := MarkCalled(s.h), phase := phase)
  }

  /** State, failure type and output that a reply leads to. */
  datatype Outcome = Outcome(state: int, failure: int, output: bytes)

  function OutcomeOf(reply: Reply): Outcome {
    match reply
    case Body(body) =>
      var text := ContentText(body, MAX_OUTPUT_BYTES);
      var stop := TopString(body, Ascii("stop_reason"), 63);
      if text.None? || stop.None? then Outcome(ERROR, INVALID_OUTPUT, [])
      else Outcome(if CStr(stop.value) == Ascii("max_tokens") then TRUNCATED else COMPLETE, FAILURE_NULL, text.value)
    case TimedOut => Outcome(ERROR, TIMEOUT, [])
    case OverCap => Outcome(ERROR, INVALID_OUTPUT, [])
    case _ => Outcome(ERROR, TRANSPORT_ERROR, [])
  }

  /** Commit the observation; an output that admission refuses is recorded as INVALID_OUTPUT. */
  function CommitStep(g: Config, s: State, req: Req, reply: Reply, io1: Io, io2: Io): State {
    var o := OutcomeOf(reply);
    var (t, ok) := CommitObs(g, s, o.state, o.failure, req.prompt, o.output, req.params, io1);
    if ok then t.(phase := Closing)
    else if o.state == ERROR then t.(phase := Serving)
    else
      var (u, ok2) := CommitObs(g, t, ERROR, INVALID_OUTPUT, req.prompt, [], req.params, io2);
      u.(phase := if ok2 then Closing else Serving)
  }

  function CrashStep(s: State): State {
    s.(phase := Down, h := if s.phase == Clearing(true) then CountStop(s.h) else s.h)
  }

  /** One event of a process.  An event that does not fit the phase changes nothing. */
  function Act(g: Config, s: State, e: Event): State {
    match e
    case Other(_, _) => s
    case Crash => CrashStep(s)
    case Start => if s.phase.Down? then StartStep(g, s) else s
    case EnableCopy(made, n, synced) => if s.phase.Opened? then EnableStep(g, s, made, n, synced) else s
    case RecoverIntent(io) => if s.phase.Recovering? then RecoverStep(g, s, io) else s
    case Clear(removed, synced) => ClearStep(s, removed, synced)
    case CommitState(io) => if s.phase.Committing? then CommitStateStep(g, s, io) else s
    case Request(prompt, maxTokens, temperature, topP, wio) =>
      if !s.phase.Serving? then s
      else
        (match CheckRequest(g, s, prompt, maxTokens, temperature, topP)
         case None => s
         case Some(req) => RequestStep(g, s, req, wio))
    case Call(reply) => if s.phase.IntentOpen? then CallStep(g, s, s.phase.req, reply) else s
    case Commit(io1, io2) => if s.phase.Answered? then CommitStep(g, s, s.phase.req, s.phase.reply, io1, io2) else s
  }

  /** Events under one configuration. */
  function Life(g: Config, s: State, es: seq<Event>): State
    decreases |es|
  {
    if es == [] then s else Life(g, Act(g, s, es[0]), es[1..])
  }

  /** One event.  While no process is up, one under another accepted configuration may go through
      any events of its own; its end is a crash unless it is already down. */
  function Step(g: Config, s: State, e: Event): State {
    match e
    case Other(u, es) => if s.phase.Down? && ConfigOk(With(g, u)) then CrashStep(Life(With(g, u), s, es)) else s
    case _ => Act(g, s, e)
  }

  function Run(g: Config, s: State, es: seq<Event>): State
    decreases |es|
  {
    if es == [] then s else Run(g, Step(g, s, es[0]), es[1..])
  }
}
