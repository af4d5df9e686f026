/** `ax_obs_compute_hash`, `ax_obs_admit` and `ax_obs_validate` step by step: the record,
    the admission context, the output buffer and the fault flags change in the order of
    the source. */
module Admission {
  import opened Bytes
  import opened Faults
  import opened Utf8
  import opened Normalise
  import opened Numbers
  import opened Canonical
  import opened Writer
  import opened Substrate
  import opened Obs

  /** `ax_admission_ctx_t`. */
  class AdmissionCtx {
    var lastLedgerSeq: nat
    var initialized: bool

    function Value(): Ctx
      reads this
    {
      Ctx(initialized, lastLedgerSeq)
    }

    /** `ax_admission_ctx_init`. */
    constructor ()
      ensures Value() == Ctx(false, 0)
    {
      lastLedgerSeq, initialized := 0, false;
    }
  }

  /** `ax_obs_compute_hash` (src/hash.c). */
  method ComputeHash(c: Crypto, obs0: Record) returns (rc: int, obs: Record)
    requires RecordRange(obs0)
    ensures rc == if |Canon(obs0, false)| > CANONICAL_BUFFER - 1 then AX_ERR_BUFFER
                  else if Seal(c, obs0).None? then AX_ERR_HASH else AX_OK
    ensures obs == if rc == AX_OK then Seal(c, obs0).value else obs0.(obsHash := [])
  {
    hide TextWith, RecordRange;
    obs := obs0.(obsHash := []);
    RangeOf(obs0, obs);
    SameText(obs0, obs);
    var buf := new byte[CANONICAL_BUFFER];
    var len := ObsCanonicalise(buf, obs, false);
    if len < 0 {
      return AX_ERR_BUFFER, obs;
    }
    match c.commit(Schema(), buf[..len]) {
      case None => return AX_ERR_HASH, obs;
      case Some(d) =>
        var hex := new byte[65];
        var n := FormatHashHex(hex, d);
        HexPlain(d);
        BufferHolds(hex[..], HexText(d));
        obs := obs.(obsHash := CStr(hex[..]));
        return AX_OK, obs;
    }
  }

  /** The text with a blank hash does not depend on the stored hash. */
  lemma SameText(a: Record, b: Record)
    requires b == a.(obsHash := b.obsHash)
    ensures Canon(a, false) == Canon(b, false)
  {
    assert TextWith(a, []) == TextWith(b, []);
  }

  lemma RangeOf(a: Record, b: Record)
    requires b == a.(obsHash := b.obsHash) && RecordRange(a)
    ensures RecordRange(b)
  {
  }

  /** `ax_obs_init`. */
  const BLANK := Record(COMPLETE, FAILURE_NULL, ZeroDigest(), 0, None, [], None, None, 0, NULL_PARAMS, Some(Schema()))

  /** The output part: validated, normalised into the caller's buffer, and put in the
      record together with its size. */
  method TakeOutput(x: Input, out0: Record, outputBuf: array<byte>, faults: FaultFlags)
    returns (rc: int, out: Record)
    requires InputOk(x) && SchemaValid(x) && (outputBuf.Length >= 1 || x.outputLen == 0)
    requires out0.failure == FAILURE_NULL
    requires out0.state == if x.outputLen > MAX_OUTPUT_BYTES then TRUNCATED else COMPLETE
    requires x.outputLen > MAX_OUTPUT_BYTES ==> out0.outputSize == x.outputLen
    modifies outputBuf, faults`encoding, faults`size
    ensures rc < 0 <==> OutputRc(x, outputBuf.Length) < 0
    ensures rc < 0 ==> rc == OutputRc(x, outputBuf.Length)
    ensures rc >= 0 ==> out == out0.(output := Some(Lines(OutputTaken(x))),
      outputSize := if x.outputLen > MAX_OUTPUT_BYTES then x.outputLen else |Lines(OutputTaken(x))|)
    ensures rc < 0 ==> out == out0.(state := ERROR, failure := INVALID_OUTPUT)
    ensures faults.encoding == (old(faults.encoding) || rc == AX_ERR_ENCODING)
    ensures faults.size == (old(faults.size) || rc == AX_ERR_BUFFER)
  {
    hide NormaliseRc, IdOk, CleanText;
    out := out0;
    if x.output.Some? && x.outputLen > 0 {
      var taken := if x.outputLen > MAX_OUTPUT_BYTES then x.output.value[..MAX_OUTPUT_BYTES] else x.output.value;
      rc := ValidateAndNormalise(outputBuf, taken, faults);
      if rc < 0 {
        out := out.(state := ERROR, failure := INVALID_OUTPUT);
        return;
      }
      CleanHasNoNul(taken);
      BufferHolds(outputBuf[..], Lines(taken));
      out := out.(output := Some(CStr(outputBuf[..])));
      if out.state != TRUNCATED {
        out := out.(outputSize := rc);
      }
    } else {
      EmptyTaken(x);
      rc := 0;
      out := out.(output := Some([]), outputSize := 0);
    }
  }

  lemma EmptyTaken(x: Input)
    requires InputOk(x) && !(x.output.Some? && x.outputLen > 0)
    ensures OutputTaken(x) == [] && Lines([]) == []
  {
  }

  /** The commitment and the limit on the complete record. */
  method SealAndMeasure(c: Crypto, draft: Record, faults: FaultFlags) returns (rc: int, out: Record)
    requires RecordRange(draft)
    modifies faults`protocol, faults`size
    ensures rc == if |Canon(draft, false)| > CANONICAL_BUFFER - 1 then AX_ERR_BUFFER
                  else if Seal(c, draft).None? then AX_ERR_HASH
                  else if |Canon(Seal(c, draft).value, true)| > MAX_OBS_BYTES then AX_ERR_SIZE
                  else AX_OK
    ensures rc == AX_OK ==> Some(out) == Seal(c, draft)
    ensures rc != AX_OK ==> out.obsHash == []
    ensures faults.size == (old(faults.size) || rc == AX_ERR_SIZE)
    ensures faults.protocol == (old(faults.protocol) || rc == AX_ERR_BUFFER || rc == AX_ERR_HASH)
  {
    hide Canon, RecordRange, Seal;
    rc, out := ComputeHash(c, draft);
    if rc != AX_OK {
      faults.protocol := true;
      return;
    }
    SealRange(c, draft);
    var recordBuf := new byte[MAX_OBS_BYTES + 1];
    var n := ObsCanonicalise(recordBuf, out, true);
    if n < 0 {
      faults.size := true;
      out := out.(state := ERROR, failure := INVALID_OUTPUT, obsHash := []);
      return AX_ERR_SIZE, out;
    }
  }

  lemma SealRange(c: Crypto, r: Record)
    requires RecordRange(r) && Seal(c, r).Some?
    ensures RecordRange(Seal(c, r).value)
  {
  }

  /** The fields that are copied from the input. */
  method CopyFields(c: Crypto, x: Input, out0: Record) returns (out: Record)
    requires InputOk(x) && SchemaValid(x) && out0.failure == FAILURE_NULL && out0.obsHash == []
    requires out0.state == if x.outputLen > MAX_OUTPUT_BYTES then TRUNCATED else COMPLETE
    requires out0.output == Some(Lines(OutputTaken(x)))
    requires out0.outputSize == if x.outputLen > MAX_OUTPUT_BYTES then x.outputLen else |Lines(OutputTaken(x))|
    ensures out == Draft(c, x)
  {
    hide Lines, Schema, IdOk, OutputTaken;
    out := out0;
    if out.state == COMPLETE {
      out := out.(state := x.state);
    }
    if out.failure == FAILURE_NULL {
      out := out.(failure := x.failure);
    }
    var hash: Digest := if x.input.Some? && x.inputLen > 0 then c.sha256(x.input.value) else ZeroDigest();
    out := out.(inputHash := hash, ledgerSeq := x.ledgerSeq, modelId := x.modelId, oracleId := x.oracleId,
                params := x.params, schemaVersion := Some(Schema()));
  }

  /** `ax_obs_admit`. */
  method Admit(c: Crypto, x: Input, outputBuf: array<byte>, ctx: AdmissionCtx, faults: FaultFlags)
    returns (rc: int, out: Record)
    requires InputOk(x) && (outputBuf.Length >= 1 || x.outputLen == 0)
    modifies outputBuf, ctx, faults
    ensures rc == AdmitRc(c, x, old(ctx.Value()), outputBuf.Length)
    ensures rc == AX_OK ==> Some(out) == Seal(c, Draft(c, x)) && ctx.Value() == Ctx(true, x.ledgerSeq)
    ensures rc != AX_OK ==> out.obsHash == [] && ctx.Value() == old(ctx.Value())
    ensures faults.ordering == (old(faults.ordering) || rc == AX_ERR_ORDERING)
    ensures faults.schema == (old(faults.schema) || rc == AX_ERR_SCHEMA)
    ensures faults.encoding == (old(faults.encoding) || rc == AX_ERR_ENCODING)
    ensures faults.protocol == (old(faults.protocol) || rc == AX_ERR_HASH
                                || (rc == AX_ERR_BUFFER && OutputRc(x, outputBuf.Length) >= 0))
    ensures faults.size == (old(faults.size) || rc == AX_ERR_SIZE
                            || (rc == AX_ERR_BUFFER && OutputRc(x, outputBuf.Length) < 0)
                            || (rc != AX_ERR_ORDERING && rc != AX_ERR_SCHEMA && x.outputLen > MAX_OUTPUT_BYTES))
  {
    hide NormaliseRc, Canon, Lines, Schema, IdOk, ParamsRange, CleanText;
    out := BLANK;
    if ctx.initialized && x.ledgerSeq <= ctx.lastLedgerSeq {
      faults.ordering := true;
      out := out.(state := ERROR, failure := INVALID_OUTPUT);
      return AX_ERR_ORDERING, out;
    }
    if IdTooLong(x.modelId) || IdTooLong(x.oracleId) {
      faults.size := true;
      out := out.(state := ERROR, failure := INVALID_OUTPUT);
      return AX_ERR_SIZE, out;
    }
    if !SchemaValid(x) {
      faults.schema := true;
      out := out.(state := ERROR, failure := INVALID_OUTPUT);
      return AX_ERR_SCHEMA, out;
    }
    if x.outputLen > MAX_OUTPUT_BYTES {
      faults.size := true;
      out := out.(state := TRUNCATED, outputSize := x.outputLen);
    }
    rc, out := TakeOutput(x, out, outputBuf, faults);
    if rc < 0 {
      return;
    }
    out := CopyFields(c, x, out);
    DraftRange(c, x, outputBuf.Length);
    hide Draft, OutputTaken, SchemaValid, Seal;
    rc, out := SealAndMeasure(c, out, faults);
    if rc != AX_OK {
      return;
    }
    ctx.lastLedgerSeq := x.ledgerSeq;
    ctx.initialized := true;
    return AX_OK, out;
  }

  lemma DraftRange(c: Crypto, x: Input, size: nat)
    requires InputOk(x)
    ensures RecordRange(Draft(c, x))
  {
  }

  /** `ax_obs_validate`. */
  method ObsValidate(c: Crypto, obs: Record, faults: FaultFlags) returns (rc: int)
    requires RecordRange(obs)
    modifies faults
    ensures rc == ValidateRc(c, obs)
    ensures faults.schema == (old(faults.schema) || rc == AX_ERR_SCHEMA)
    ensures faults.encoding == (old(faults.encoding) || rc == AX_ERR_ENCODING)
    ensures faults.protocol == (old(faults.protocol) || rc == AX_ERR_BUFFER || rc == AX_ERR_HASH)
    ensures faults.ordering == old(faults.ordering) && faults.size == old(faults.size)
  {
    hide Canon, RecordRange, Schema;
    if obs.schemaVersion != Some(Schema()) {
      faults.schema := true;
      return AX_ERR_SCHEMA;
    }
    if obs.output.Some? && obs.outputSize > 0 {
      ValidUtf8Exact(obs.output.value);
      rc := ValidateEncoding(obs.output.value);
      if rc != AX_OK {
        faults.encoding := true;
        return;
      }
    }
    if obs.output.Some? {
      var actual := |obs.output.value|;
      if (obs.state == TRUNCATED && obs.outputSize < actual) || (obs.state != TRUNCATED && actual != obs.outputSize) {
        faults.schema := true;
        return AX_ERR_SCHEMA;
      }
    }
    var temp := obs.(obsHash := []);
    SameText(obs, temp);
    RangeOf(obs, temp);
    var buf := new byte[CANONICAL_BUFFER];
    var len := ObsCanonicalise(buf, temp, false);
    if len < 0 {
      faults.protocol := true;
      return AX_ERR_BUFFER;
    }
    match c.commit(Schema(), buf[..len]) {
      case None =>
        faults.protocol := true;
        return AX_ERR_HASH;
      case Some(d) =>
        var hex := new byte[65];
        var n := FormatHashHex(hex, d);
        HexPlain(d);
        BufferHolds(hex[..], HexText(d));
        if CStr(hex[..]) != obs.obsHash {
          faults.protocol := true;
          return AX_ERR_HASH;
        }
        return AX_OK;
    }
  }
}
