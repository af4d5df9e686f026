/** Admission and validation of observation records (src/obs.c, src/hash.c). */
module Obs {
  import opened Bytes
  import opened Faults
  import opened Utf8
  import opened Normalise
  import opened Numbers
  import opened JsonString
  import opened Canonical
  import opened Writer
  import opened Substrate

  const MAX_OBS_BYTES := 65536
  const MAX_OUTPUT_BYTES := MAX_OBS_BYTES - 1024
  const MAX_ID_BYTES := 256
  const CANONICAL_BUFFER := MAX_OBS_BYTES * 2

  /** `ax_obs_input_t`.  A pointer with its length is the bytes it spans; the lengths are
      separate because C allows NULL with a positive length. */
  datatype Input = Input(
    state: int, failure: int, input: Option<bytes>, inputLen: nat, ledgerSeq: nat,
    modelId: Option<bytes>, oracleId: Option<bytes>, output: Option<bytes>, outputLen: nat, params: Params)

  /** What C demands of the caller: buffers as long as they say, */
  predicate InputShape(x: Input) {
    && (x.input.Some? ==> |x.input.value| == x.inputLen)
    && (x.output.Some? ==> |x.output.value| == x.outputLen)
  }

  /** and 64-bit numbers. */
  predicate InputOk(x: Input) {
    && InputShape(x)
    && x.ledgerSeq < 0x1_0000_0000_0000_0000 && x.outputLen < 0x1_0000_0000_0000_0000
    && ParamsRange(x.params)
  }

  /** `ax_admission_ctx_t` as a value. */
  datatype Ctx = Ctx(initialized: bool, last: nat)

  // ---- identifiers and schema ----------------------------------------------------------------

  predicate IdBytesOk(s: bytes) {
    forall i :: 0 <= i < |s| ==> s[i] >= 0x20 && s[i] != 0x7F
  }

  /** `id_is_well_formed`. */
  predicate IdOk(id: Option<bytes>) {
    id.Some? && id.value != [] && IdBytesOk(id.value) && ValidUtf8(id.value)
  }

  /** `id_too_long`. */
  predicate IdLonger(id: Option<bytes>, max: nat) {
    id.Some? && |id.value| > max
  }

  predicate IdTooLong(id: Option<bytes>) {
    IdLonger(id, MAX_ID_BYTES)
  }

  /** `ax_obs_identifier_check`, with the scan of `id_is_well_formed`. */
  method IdentifierCheck(id: Option<bytes>, maxBytes: nat) returns (rc: int)
    ensures rc == if IdLonger(id, maxBytes) then AX_ERR_SIZE else if IdOk(id) then AX_OK else AX_ERR_SCHEMA
  {
    if id.None? {
      return AX_ERR_SCHEMA;
    }
    var s := id.value;
    if |s| > maxBytes {
      return AX_ERR_SIZE;
    }
    if s == [] {
      return AX_ERR_SCHEMA;
    }
    for i := 0 to |s|
      invariant forall k :: 0 <= k < i ==> s[k] >= 0x20 && s[k] != 0x7F
    {
      if s[i] < 0x20 || s[i] == 0x7F {
        return AX_ERR_SCHEMA;
      }
    }
    ValidUtf8Exact(s);
    var ok := ValidateUtf8(s);
    return if ok then AX_OK else AX_ERR_SCHEMA;
  }

  /** `state_pair_is_permitted`. */
  predicate PairPermitted(state: int, failure: int) {
    if state == COMPLETE || state == TRUNCATED then failure == FAILURE_NULL
    else state == ERROR && (failure == TIMEOUT || failure == INVALID_OUTPUT || failure == TRANSPORT_ERROR)
  }

  /** `input_is_schema_valid`. */
  predicate SchemaValid(x: Input) {
    && IdOk(x.modelId) && IdOk(x.oracleId)
    && PairPermitted(x.state, x.failure)
    && !(x.state == ERROR && x.outputLen > MAX_OUTPUT_BYTES)
    && !(x.input.None? && x.inputLen > 0)
    && !(x.output.None? && x.outputLen > 0)
  }

  // ---- what admission records ------------------------------------------------------------------

  /** The part of the output that is looked at. */
  function OutputTaken(x: Input): (r: bytes)
    requires InputShape(x)
  {
    if x.output.None? then []
    else if x.outputLen > MAX_OUTPUT_BYTES then x.output.value[..MAX_OUTPUT_BYTES]
    else x.output.value
  }

  /** The return code of the output part: an empty output skips the normalisation. */
  function OutputRc(x: Input, bufSize: nat): (rc: int)
    requires InputShape(x)
    ensures rc >= 0 <==> CleanText(OutputTaken(x)) && (OutputTaken(x) == [] || |Lines(OutputTaken(x))| <= bufSize - 1)
    ensures rc < 0 ==> rc == AX_ERR_ENCODING || rc == AX_ERR_BUFFER
  {
    if OutputTaken(x) == [] then 0 else NormaliseRc(OutputTaken(x), bufSize)
  }

  function InputHash(c: Crypto, x: Input): Digest {
    if x.input.Some? && x.input.value != [] then c.sha256(x.input.value) else ZeroDigest()
  }

  /** The record before it is hashed. */
  function Draft(c: Crypto, x: Input): (r: Record)
    requires InputShape(x)
  {
    var over := x.outputLen > MAX_OUTPUT_BYTES;
    var text := Lines(OutputTaken(x));
    Record(if over then TRUNCATED else x.state, x.failure, InputHash(c, x), x.ledgerSeq,
           x.modelId, [], x.oracleId, Some(text), if over then x.outputLen else |text|,
           x.params, Some(Schema()))
  }

  /** `ax_obs_compute_hash`: the domain-separated commitment to the text with a blank hash. */
  function Seal(c: Crypto, r: Record): (s: Option<Record>) {
    var d :- c.commit(Schema(), Canon(r, false));
    Some(r.(obsHash := HexText(d)))
  }

  predicate InOrder(ctx: Ctx, seq_: nat) {
    ctx.initialized ==> seq_ > ctx.last
  }

  /** The return code of `ax_obs_admit`, check by check. */
  function AdmitRc(c: Crypto, x: Input, ctx: Ctx, bufSize: nat): (rc: int)
    requires InputShape(x)
  {
    if !InOrder(ctx, x.ledgerSeq) then AX_ERR_ORDERING
    else if IdTooLong(x.modelId) || IdTooLong(x.oracleId) then AX_ERR_SIZE
    else if !SchemaValid(x) then AX_ERR_SCHEMA
    else if OutputRc(x, bufSize) < 0 then OutputRc(x, bufSize)
    else if |Canon(Draft(c, x), false)| > CANONICAL_BUFFER - 1 then AX_ERR_BUFFER
    else
      match Seal(c, Draft(c, x))
      case None => AX_ERR_HASH
      case Some(r) => if |Canon(r, true)| > MAX_OBS_BYTES then AX_ERR_SIZE else AX_OK
  }

  // ---- lengths ------------------------------------------------------------------------------------

  lemma StrFieldLength(name: string, s: Option<bytes>, k: bytes)
    ensures |StrField(name, s, k)| == |name| + |Escaped(ForRecord, OrEmpty(s), [])| + 1 + |k|
  {
    EmitAppend(Pieces(ForRecord, OrEmpty(s)), [QUOTE] + k);
  }

  lemma FieldLength(name: string, value: bytes, k: bytes)
    ensures |Field(name, value, k)| == |name| + |value| + |k|
  {
  }

  /** The length of the text of `StringsText` in terms of its parts. */
  lemma StringsLength(r: Record, hash: bytes, k: bytes)
    ensures |StringsText(r, hash, k)|
         == 55 + |Escaped(ForRecord, OrEmpty(r.modelId), [])| + |hash|
            + |Escaped(ForRecord, OrEmpty(r.oracleId), [])| + |Escaped(ForRecord, OrEmpty(r.output), [])| + |k|
  {
    var t3 := StrField(",\"output\":\"", r.output, k);
    var t2 := StrField("\",\"oracle_id\":\"", r.oracleId, t3);
    hide StrField, Field, Escaped;
    StrFieldLength(",\"output\":\"", r.output, k);
    StrFieldLength("\",\"oracle_id\":\"", r.oracleId, t3);
    FieldLength(",\"obs_hash\":\"", hash, t2);
    StrFieldLength(",\"model_id\":\"", r.modelId, Field(",\"obs_hash\":\"", hash, t2));
  }

  lemma HeadLength(r: Record, k: bytes)
    ensures |HeadText(r, k)| == 66 + |StateText(r.state)| + |FailureText(r.failure)| + 64 + |Digits(r.ledgerSeq)| + |k|
  {
    hide Field, HexText, StateText, FailureText, Digits;
    var t3 := Field("\",\"ledger_seq\":", Digits(r.ledgerSeq), k);
    var t2 := Field(",\"input_hash\":\"", HexText(r.inputHash), t3);
    FieldLength("\",\"ledger_seq\":", Digits(r.ledgerSeq), k);
    FieldLength(",\"input_hash\":\"", HexText(r.inputHash), t3);
    FieldLength(",\"failure_type\":", FailureText(r.failure), t2);
    FieldLength("{\"completion_state\":", StateText(r.state), Field(",\"failure_type\":", FailureText(r.failure), t2));
  }

  /** Putting the hash in adds exactly its length. */
  lemma HashLength(r: Record, hash: bytes)
    ensures |TextWith(r, hash)| == |TextWith(r, [])| + |hash|
  {
    hide HeadText, StringsText, TailText;
    var tail := TailText(r, []);
    StringsLength(r, hash, tail);
    StringsLength(r, [], tail);
    HeadLength(r, StringsText(r, hash, tail));
    HeadLength(r, StringsText(r, [], tail));
  }

  lemma SealKeepsText(c: Crypto, r: Record)
    requires Seal(c, r).Some?
    ensures var s := Seal(c, r).value;
      Canon(s, false) == Canon(r, false) && |Canon(s, true)| == |Canon(r, false)| + 64
  {
    var s := Seal(c, r).value;
    assert TextWith(s, []) == TextWith(r, []);
    HashLength(s, s.obsHash);
  }

  /** `ax_obs_admit` accepts exactly when the ordering, identifier, schema, encoding and
      output-buffer conditions hold, the commitment raises no fault, and the complete
      record is at most 65,536 bytes: the 131,072-byte work buffer never decides. */
  lemma AdmitExact(c: Crypto, x: Input, ctx: Ctx, bufSize: nat)
    requires InputShape(x)
    ensures AdmitRc(c, x, ctx, bufSize) == AX_OK <==>
      && InOrder(ctx, x.ledgerSeq)
      && !IdTooLong(x.modelId) && !IdTooLong(x.oracleId) && SchemaValid(x)
      && CleanText(OutputTaken(x)) && (OutputTaken(x) == [] || |Lines(OutputTaken(x))| <= bufSize - 1)
      && Seal(c, Draft(c, x)).Some?
      && |Canon(Seal(c, Draft(c, x)).value, true)| <= MAX_OBS_BYTES
  {
    hide Draft, SchemaValid, CleanText, Canon, Lines, OutputTaken;
    if Seal(c, Draft(c, x)).Some? {
      SealKeepsText(c, Draft(c, x));
    }
  }

  // ---- admitted records -------------------------------------------------------------------------------

  /** What every admitted record is. */
  predicate WellRecorded(c: Crypto, r: Record) {
    && PairPermitted(r.state, r.failure)
    && IdOk(r.modelId) && IdOk(r.oracleId)
    && r.output.Some? && NoNul(r.output.value) && ValidUtf8(r.output.value) && NfcScan(r.output.value)
    && (r.state == TRUNCATED ==> r.outputSize >= |r.output.value|)
    && (r.state != TRUNCATED ==> r.outputSize == |r.output.value|)
    && (r.outputSize > 0 ==> r.output.value != [])
    && r.schemaVersion == Some(Schema())
    && c.commit(Schema(), Canon(r, false)).Some?
    && r.obsHash == HexText(c.commit(Schema(), Canon(r, false)).value)
    && |Canon(r, true)| <= MAX_OBS_BYTES
    && ParamsRange(r.params)
  }

  lemma AdmittedIsWellRecorded(c: Crypto, x: Input, ctx: Ctx, bufSize: nat)
    requires InputShape(x) && ParamsRange(x.params) && AdmitRc(c, x, ctx, bufSize) == AX_OK
    ensures Seal(c, Draft(c, x)).Some? && WellRecorded(c, Seal(c, Draft(c, x)).value)
  {
    hide Canon, HexText, ValidUtf8, NfcScan, IdOk, Lines;
    CleanHasNoNul(OutputTaken(x));
    SealKeepsText(c, Draft(c, x));
  }

  /** The recorded size is that of the output, or of the longer one that was cut. */
  predicate SizeFits(r: Record)
    requires r.output.Some?
  {
    if r.state == TRUNCATED then r.outputSize >= |r.output.value| else r.outputSize == |r.output.value|
  }

  /** The return code of `ax_obs_validate`. */
  function ValidateRc(c: Crypto, r: Record): (rc: int) {
    if r.schemaVersion != Some(Schema()) then AX_ERR_SCHEMA
    else if r.output.Some? && r.outputSize > 0
      && !(ValidUtf8(r.output.value) && NfcScan(r.output.value)) then AX_ERR_ENCODING
    else if r.output.Some? && !SizeFits(r) then AX_ERR_SCHEMA
    else if |Canon(r, false)| > CANONICAL_BUFFER - 1 then AX_ERR_BUFFER
    else
      match c.commit(Schema(), Canon(r, false))
      case None => AX_ERR_HASH
      case Some(d) => if HexText(d) == r.obsHash then AX_OK else AX_ERR_HASH
  }

  /** Every admitted record validates: the gateway cannot disagree with itself here. */
  lemma AdmittedValidates(c: Crypto, x: Input, ctx: Ctx, bufSize: nat)
    requires InputShape(x) && ParamsRange(x.params) && AdmitRc(c, x, ctx, bufSize) == AX_OK
    ensures Seal(c, Draft(c, x)).Some? && ValidateRc(c, Seal(c, Draft(c, x)).value) == AX_OK
  {
    hide Canon, Draft, AdmitRc;
    AdmittedIsWellRecorded(c, x, ctx, bufSize);
    SealKeepsText(c, Draft(c, x));
  }

  /** Every canonical record contains the hexadecimal form of its own input hash. */
  lemma ContainsInputHash(r: Record, hash: bytes)
    ensures Contains(TextWith(r, hash), HexText(r.inputHash))
  {
    hide StringsText, TailText, Ascii, HexText, StateText, FailureText, Field, Contains;
    var k := StringsText(r, hash, TailText(r, []));
    var t3 := Field("\",\"ledger_seq\":", Digits(r.ledgerSeq), k);
    var t2 := Field(",\"input_hash\":\"", HexText(r.inputHash), t3);
    InField(",\"input_hash\":\"", HexText(r.inputHash), t3);
    BehindField(",\"failure_type\":", FailureText(r.failure), t2, HexText(r.inputHash));
    var t1 := Field(",\"failure_type\":", FailureText(r.failure), t2);
    BehindField("{\"completion_state\":", StateText(r.state), t1, HexText(r.inputHash));
  }

  lemma InField(name: string, value: bytes, k: bytes)
    ensures Contains(Field(name, value, k), value)
  {
    assert Field(name, value, k)[|name|..] == value + k;
  }

  lemma BehindField(name: string, value: bytes, k: bytes, needle: bytes)
    requires Contains(k, needle)
    ensures Contains(Field(name, value, k), needle)
  {
    var i :| 0 <= i <= |k| && needle <= k[i..];
    var t := Field(name, value, k);
    assert t[|name| + |value| + i..] == k[i..];
  }

  // ---- the fallback record ---------------------------------------------------------------------------------

  /** The length of a record with an empty output stays far below the limit. */
  lemma EmptyRecordLength(r: Record)
    requires IdOk(r.modelId) && IdOk(r.oracleId) && !IdTooLong(r.modelId) && !IdTooLong(r.oracleId)
    requires r.output == Some([]) && r.schemaVersion == Some(Schema())
    requires RecordRange(r)
    ensures |TextWith(r, [])| < 2000
  {
    hide HeadText, StringsText, TailText, Escaped, Digits, StateText, FailureText, IdOk;
    var tail := TailText(r, []);
    TailLength(r);
    EnumLength(r.state, r.failure);
    EscapedNothing();
    IdLength(r.modelId);
    IdLength(r.oracleId);
    IntTextBound(r.ledgerSeq);
    HeadLength(r, StringsText(r, [], tail));
    StringsLength(r, [], tail);
  }

  lemma IdLength(id: Option<bytes>)
    requires IdOk(id) && !IdTooLong(id)
    ensures |Escaped(ForRecord, OrEmpty(id), [])| <= 512
  {
    hide ValidUtf8;
    EscapedLength(ForRecord, id.value);
  }

  lemma EnumLength(state: int, failure: int)
    ensures |StateText(state)| <= 11 && |FailureText(failure)| <= 17
  {
  }

  lemma EscapedNothing()
    ensures Escaped(ForRecord, [], []) == []
  {
  }

  lemma TailLength(r: Record)
    requires RecordRange(r) && r.schemaVersion == Some(Schema())
    ensures |TailText(r, [])| <= 230
  {
    hide Field, ParamsText;
    var e := Ascii("\"}") + [];
    var t2 := Field(",\"schema_version\":\"", Schema(), e);
    ParamsFacts(r.params, t2);
    IntTextBound(r.outputSize);
    FieldLength(",\"schema_version\":\"", Schema(), e);
    FieldLength(",\"output_size\":", Digits(r.outputSize), Ascii(",\"params\":") + ParamsText(r.params, t2));
  }

  /** Whatever a COMPLETE or TRUNCATED output contains, the ERROR / INVALID_OUTPUT record
      with an empty output is admitted, in order and unless the commitment faults: so after
      a refused output the fallback fails only on an append. */
  lemma FallbackAdmitted(c: Crypto, x: Input, ctx: Ctx, bufSize: nat)
    requires InputOk(x)
    requires IdOk(x.modelId) && IdOk(x.oracleId) && !IdTooLong(x.modelId) && !IdTooLong(x.oracleId)
    requires x.output == Some([]) && x.input.Some? && x.state == ERROR && PairPermitted(x.state, x.failure)
    requires InOrder(ctx, x.ledgerSeq)
    requires c.commit(Schema(), Canon(Draft(c, x), false)).Some?
    ensures AdmitRc(c, x, ctx, bufSize) == AX_OK
  {
    var r := Draft(c, x);
    assert OutputTaken(x) == [] && Lines([]) == [];
    assert CleanText([]);
    assert RecordRange(r) && SchemaValid(x) && Seal(c, r).Some?;
    assert r.output == Some([]) && r.schemaVersion == Some(Schema());
    assert r.modelId == x.modelId && r.oracleId == x.oracleId;
    EmptyTextLength(r);
    hide *;
    SealKeepsText(c, r);
    AdmitExact(c, x, ctx, bufSize);
  }

  lemma EmptyTextLength(r: Record)
    requires IdOk(r.modelId) && IdOk(r.oracleId) && !IdTooLong(r.modelId) && !IdTooLong(r.oracleId)
    requires r.output == Some([]) && r.schemaVersion == Some(Schema()) && RecordRange(r)
    ensures |Canon(r, false)| + 64 <= MAX_OBS_BYTES
  {
    hide TextWith, IdOk, RecordRange, Schema;
    EmptyRecordLength(r);
  }
}
