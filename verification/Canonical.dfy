/** The AX:OBS:v1 record and its canonical text (src/canonical.c).  Texts are functions of
    what follows them, so that concatenation nests to the right. */
module Canonical {
  import opened Bytes
  import opened Numbers
  import opened JsonString

  /** A SHA-256 digest or commitment. */
  type Digest = d: bytes | |d| == 32 witness ZEROS

  const ZEROS: bytes :=
    [0, 0, 0, 0, 0, 0, 0, 0, 0, 0, 0, 0, 0, 0, 0, 0, 0, 0, 0, 0, 0, 0, 0, 0, 0, 0, 0, 0, 0, 0, 0, 0]

  /** Thirty-two zero bytes. */
  function ZeroDigest(): Digest { ZEROS }

  const NULL_INT32 := -1
  const NULL_INT64 := -1
  const NULL_Q16 := -0x8000_0000

  /** `ax_oracle_params_t`, with its null sentinels. */
  datatype Params = Params(maxTokens: int, seed: int, temperature: int, topP: int)

  predicate Int64(v: int) {
    -0x8000_0000_0000_0000 <= v < 0x8000_0000_0000_0000
  }

  predicate ParamsRange(p: Params) {
    Int64(p.maxTokens) && Int64(p.seed) && Int64(p.temperature) && Int64(p.topP)
  }

  const NULL_PARAMS := Params(NULL_INT32, NULL_INT64, NULL_Q16, NULL_Q16)

  const COMPLETE := 0
  const TRUNCATED := 1
  const ERROR := 2

  const FAILURE_NULL := 0
  const TIMEOUT := 1
  const INVALID_OUTPUT := 2
  const TRANSPORT_ERROR := 3

  /** `ax_obs_record_t`.  The enums are integers because C stores any value in them; a NULL
      string is None. */
  datatype Record = Record(
    state: int, failure: int, inputHash: Digest, ledgerSeq: nat,
    modelId: Option<bytes>, obsHash: bytes, oracleId: Option<bytes>, output: Option<bytes>,
    outputSize: nat, params: Params, schemaVersion: Option<bytes>)

  function Schema(): bytes { Ascii("AX:OBS:v1") }

  function StateText(state: int): (r: bytes) {
    if state == COMPLETE then Ascii("\"COMPLETE\"")
    else if state == TRUNCATED then Ascii("\"TRUNCATED\"")
    else if state == ERROR then Ascii("\"ERROR\"")
    else Ascii("\"UNKNOWN\"")
  }

  function FailureText(failure: int): (r: bytes) {
    if failure == FAILURE_NULL then Ascii("null")
    else if failure == TIMEOUT then Ascii("\"TIMEOUT\"")
    else if failure == INVALID_OUTPUT then Ascii("\"INVALID_OUTPUT\"")
    else if failure == TRANSPORT_ERROR then Ascii("\"TRANSPORT_ERROR\"")
    else Ascii("\"UNKNOWN\"")
  }

  function NullOr(v: int, sentinel: int): (r: bytes) {
    if v == sentinel then Ascii("null") else IntText(v)
  }

  /** A member: its written name, its value, and what follows. */
  function Field(name: string, value: bytes, k: bytes): (r: bytes) {
    Ascii(name) + (value + k)
  }

  /** A string member whose closing quote is part of it. */
  function StrField(name: string, s: Option<bytes>, k: bytes): (r: bytes) {
    Ascii(name) + Escaped(ForRecord, OrEmpty(s), [QUOTE] + k)
  }

  /** A pointer to a C string, NULL written as nothing. */
  function OrEmpty(s: Option<bytes>): (r: bytes) {
    if s.Some? then s.value else []
  }

  /** `ax_params_canonicalise`. */
  function ParamsText(p: Params, k: bytes): (r: bytes) {
    Field("{\"max_tokens\":", NullOr(p.maxTokens, NULL_INT32),
    Field(",\"seed\":", NullOr(p.seed, NULL_INT64),
    Field(",\"temperature\":", NullOr(p.temperature, NULL_Q16),
    Field(",\"top_p\":", NullOr(p.topP, NULL_Q16), Ascii("}") + k))))
  }

  function HeadText(r: Record, k: bytes): (t: bytes) {
    Field("{\"completion_state\":", StateText(r.state),
    Field(",\"failure_type\":", FailureText(r.failure),
    Field(",\"input_hash\":\"", HexText(r.inputHash),
    Field("\",\"ledger_seq\":", Digits(r.ledgerSeq), k))))
  }

  function StringsText(r: Record, hash: bytes, k: bytes): (t: bytes) {
    StrField(",\"model_id\":\"", r.modelId,
    Field(",\"obs_hash\":\"", hash,
    StrField("\",\"oracle_id\":\"", r.oracleId,
    StrField(",\"output\":\"", r.output, k))))
  }

  function TailText(r: Record, k: bytes): (t: bytes) {
    Field(",\"output_size\":", Digits(r.outputSize),
    Ascii(",\"params\":") + ParamsText(r.params,
    Field(",\"schema_version\":\"", OrEmpty(r.schemaVersion), Ascii("\"}") + k)))
  }

  /** The canonical text, with the given `obs_hash` text. */
  function TextWith(r: Record, hash: bytes): (t: bytes) {
    HeadText(r, StringsText(r, hash, TailText(r, [])))
  }

  /** `ax_obs_canonicalise`, unbounded. */
  function Canon(r: Record, includeHash: bool): (t: bytes) {
    TextWith(r, if includeHash then r.obsHash else [])
  }

  // ---- plain text ----------------------------------------------------------------------

  /** Printable ASCII. */
  predicate Plain(s: bytes) {
    forall i :: 0 <= i < |s| ==> 0x20 <= s[i] < 0x80
  }

  lemma AsciiPlain(s: string)
    requires forall i :: 0 <= i < |s| ==> ' ' <= s[i] <= '~'
    ensures Plain(Ascii(s))
  {
  }

  lemma PlainConcat(a: bytes, b: bytes)
    requires Plain(a) && Plain(b)
    ensures Plain(a + b)
  {
  }

  lemma {:induction false} DigitsPlain(n: nat)
    ensures Plain(Digits(n))
  {
    assert AllDigits(Digits(n));
  }

  lemma NullOrPlain(v: int, sentinel: int)
    requires -0x8000_0000_0000_0000 <= v < 0x8000_0000_0000_0000
    ensures Plain(NullOr(v, sentinel)) && |NullOr(v, sentinel)| <= 20
  {
    IntTextBound(v);
    DigitsPlain(if v < 0 then -v else v);
  }

  lemma HexPlain(d: bytes)
    ensures Plain(HexText(d))
  {
    HexTextIsHex(d);
    assert forall i :: 0 <= i < |HexText(d)| ==> HexByte(HexText(d)[i]);
  }

  lemma FieldAppend(name: string, value: bytes, t: bytes, k: bytes)
    ensures Field(name, value, t + k) == Field(name, value, t) + k
    ensures |Field(name, value, t)| == |name| + |value| + |t|
  {
    Assoc(value, t, k);
    Assoc(Ascii(name), value + t, k);
  }

  lemma FieldPlain(name: string, value: bytes, t: bytes)
    requires forall i :: 0 <= i < |name| ==> ' ' <= name[i] <= '~'
    requires Plain(value) && Plain(t)
    ensures Plain(Field(name, value, t))
  {
    AsciiPlain(name);
    PlainConcat(value, t);
    PlainConcat(Ascii(name), value + t);
  }

  /** The parameters object: independent of what follows, printable, at most 127 bytes. */
  lemma ParamsFacts(p: Params, k: bytes)
    requires ParamsRange(p)
    ensures ParamsText(p, k) == ParamsText(p, []) + k
    ensures Plain(ParamsText(p, [])) && |ParamsText(p, [])| <= 127
  {
    hide Field, NullOr, Plain;
    NullOrPlain(p.maxTokens, NULL_INT32);
    NullOrPlain(p.seed, NULL_INT64);
    NullOrPlain(p.temperature, NULL_Q16);
    NullOrPlain(p.topP, NULL_Q16);
    AsciiPlain("}");
    var t4 := Ascii("}") + [];
    assert t4 == Ascii("}");
    FieldAppend(",\"top_p\":", NullOr(p.topP, NULL_Q16), t4, k);
    FieldPlain(",\"top_p\":", NullOr(p.topP, NULL_Q16), t4);
    var t3 := Field(",\"top_p\":", NullOr(p.topP, NULL_Q16), t4);
    FieldAppend(",\"temperature\":", NullOr(p.temperature, NULL_Q16), t3, k);
    FieldPlain(",\"temperature\":", NullOr(p.temperature, NULL_Q16), t3);
    var t2 := Field(",\"temperature\":", NullOr(p.temperature, NULL_Q16), t3);
    FieldAppend(",\"seed\":", NullOr(p.seed, NULL_INT64), t2, k);
    FieldPlain(",\"seed\":", NullOr(p.seed, NULL_INT64), t2);
    var t1 := Field(",\"seed\":", NullOr(p.seed, NULL_INT64), t2);
    FieldAppend("{\"max_tokens\":", NullOr(p.maxTokens, NULL_INT32), t1, k);
    FieldPlain("{\"max_tokens\":", NullOr(p.maxTokens, NULL_INT32), t1);
  }
}
