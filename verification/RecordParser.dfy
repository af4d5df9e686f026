/** A reader of canonical records.  It is not in the repository: it is the inverse that
    shows the canonical text of src/canonical.c to be injective. */
module RecordParser {
  import opened Bytes
  import opened Numbers
  import opened JsonString
  import opened Canonical

  function Expect(lit: string, s: bytes): (r: Option<bytes>) {
    if Ascii(lit) <= s then Some(s[|lit|..]) else None
  }

  lemma ExpectOf(lit: string, k: bytes)
    ensures Expect(lit, Ascii(lit) + k) == Some(k)
  {
  }

  predicate Sees(s: bytes, i: nat, c: char) {
    i < |s| && s[i] == c as int
  }

  function ReadState(s: bytes): (r: Option<(int, bytes)>) {
    if Sees(s, 1, 'C') then var t :- Expect("\"COMPLETE\"", s); Some((COMPLETE, t))
    else if Sees(s, 1, 'T') then var t :- Expect("\"TRUNCATED\"", s); Some((TRUNCATED, t))
    else var t :- Expect("\"ERROR\"", s); Some((ERROR, t))
  }

  function ReadFailure(s: bytes): (r: Option<(int, bytes)>) {
    if Sees(s, 0, 'n') then var t :- Expect("null", s); Some((FAILURE_NULL, t))
    else if Sees(s, 1, 'I') then var t :- Expect("\"INVALID_OUTPUT\"", s); Some((INVALID_OUTPUT, t))
    else if Sees(s, 2, 'I') then var t :- Expect("\"TIMEOUT\"", s); Some((TIMEOUT, t))
    else var t :- Expect("\"TRANSPORT_ERROR\"", s); Some((TRANSPORT_ERROR, t))
  }

  function ReadNullOr(s: bytes, sentinel: int): (r: Option<(int, bytes)>) {
    if Sees(s, 0, 'n') then var t :- Expect("null", s); Some((sentinel, t)) else TakeInt(s)
  }

  function ReadNat(s: bytes): (r: Option<(nat, bytes)>) {
    var (v, t) :- TakeInt(s);
    if v < 0 then None else Some((v, t))
  }

  function ReadParams(s: bytes): (r: Option<(Params, bytes)>) {
    var s1 :- Expect("{\"max_tokens\":", s);
    var (maxTokens, s2) :- ReadNullOr(s1, NULL_INT32);
    var s3 :- Expect(",\"seed\":", s2);
    var (seed, s4) :- ReadNullOr(s3, NULL_INT64);
    var s5 :- Expect(",\"temperature\":", s4);
    var (temperature, s6) :- ReadNullOr(s5, NULL_Q16);
    var s7 :- Expect(",\"top_p\":", s6);
    var (topP, s8) :- ReadNullOr(s7, NULL_Q16);
    var s9 :- Expect("}", s8);
    Some((Params(maxTokens, seed, temperature, topP), s9))
  }

  datatype Head = Head(state: int, failure: int, inputHash: Digest, ledgerSeq: nat)

  function ReadHead(s: bytes): (r: Option<(Head, bytes)>) {
    var s1 :- Expect("{\"completion_state\":", s);
    var (state, s2) :- ReadState(s1);
    var s3 :- Expect(",\"failure_type\":", s2);
    var (failure, s4) :- ReadFailure(s3);
    var s5 :- Expect(",\"input_hash\":\"", s4);
    var (hash, s6) :- TakeHex(s5, 32);
    var s7 :- Expect("\",\"ledger_seq\":", s6);
    var (seq_, s8) :- ReadNat(s7);
    Some((Head(state, failure, hash, seq_), s8))
  }

  /** A string body up to and including its closing quote. */
  function ReadStr(name: string, s: bytes): (r: Option<(bytes, bytes)>) {
    var t :- Expect(name, s);
    var (u, v) :- DecodeChars(t, |t|, []);
    Some((v, u))
  }

  datatype Strings = Strings(modelId: bytes, obsHash: bytes, oracleId: bytes, output: bytes)

  /** The strings, with a hash of `n` bytes. */
  function ReadStrings(s: bytes, n: nat): (r: Option<(Strings, bytes)>) {
    var (modelId, s1) :- ReadStr(",\"model_id\":\"", s);
    var s2 :- Expect(",\"obs_hash\":\"", s1);
    if |s2| < n then None
    else
      var (oracleId, s3) :- ReadStr("\",\"oracle_id\":\"", s2[n..]);
      var (output, s4) :- ReadStr(",\"output\":\"", s3);
      Some((Strings(modelId, s2[..n], oracleId, output), s4))
  }

  datatype Tail = Tail(outputSize: nat, params: Params)

  function ReadTail(s: bytes): (r: Option<(Tail, bytes)>) {
    var s1 :- Expect(",\"output_size\":", s);
    var (size, s2) :- ReadNat(s1);
    var s3 :- Expect(",\"params\":", s2);
    var (params, s4) :- ReadParams(s3);
    var s5 :- Expect(",\"schema_version\":\"", s4);
    var s6 :- Expect("AX:OBS:v1", s5);
    var s7 :- Expect("\"}", s6);
    Some((Tail(size, params), s7))
  }

  function ReadRecord(s: bytes, n: nat): (r: Option<Record>) {
    var (h, s1) :- ReadHead(s);
    var (t, s2) :- ReadStrings(s1, n);
    var (e, s3) :- ReadTail(s2);
    if s3 != [] then None
    else Some(Record(h.state, h.failure, h.inputHash, h.ledgerSeq, Some(t.modelId), t.obsHash,
                     Some(t.oracleId), Some(t.output), e.outputSize, e.params, Some(Schema())))
  }

  /** Enums in range, strings present, the schema name. */
  predicate Readable(r: Record) {
    && COMPLETE <= r.state <= ERROR && FAILURE_NULL <= r.failure <= TRANSPORT_ERROR
    && r.modelId.Some? && r.oracleId.Some? && r.output.Some? && r.schemaVersion == Some(Schema())
  }

  // ---- reading what was written -------------------------------------------------------------

  lemma ReadStateOf(state: int, k: bytes)
    requires COMPLETE <= state <= ERROR
    ensures ReadState(StateText(state) + k) == Some((state, k))
  {
    var s := StateText(state) + k;
    assert s[1] == StateText(state)[1];
    if state == COMPLETE { ExpectOf("\"COMPLETE\"", k); }
    else if state == TRUNCATED { ExpectOf("\"TRUNCATED\"", k); }
    else { ExpectOf("\"ERROR\"", k); }
  }

  lemma ReadFailureOf(failure: int, k: bytes)
    requires FAILURE_NULL <= failure <= TRANSPORT_ERROR
    ensures ReadFailure(FailureText(failure) + k) == Some((failure, k))
  {
    var f := FailureText(failure);
    var s := f + k;
    assert s[0] == f[0] && s[1] == f[1] && s[2] == f[2];
    if failure == FAILURE_NULL { ExpectOf("null", k); }
    else if failure == TIMEOUT { ExpectOf("\"TIMEOUT\"", k); }
    else if failure == INVALID_OUTPUT { ExpectOf("\"INVALID_OUTPUT\"", k); }
    else { ExpectOf("\"TRANSPORT_ERROR\"", k); }
  }

  lemma ReadNullOrOf(v: int, sentinel: int, k: bytes)
    requires NoDigitAhead(k)
    ensures ReadNullOr(NullOr(v, sentinel) + k, sentinel) == Some((v, k))
  {
    if v == sentinel {
      ExpectOf("null", k);
    } else {
      TakeIntOf(v, k);
      assert (IntText(v) + k)[0] == IntText(v)[0];
    }
  }

  lemma FieldStops(name: string, value: bytes, k: bytes)
    requires name != "" && !IsDigit(name[0] as int) && name[0] as int < 128
    ensures NoDigitAhead(Field(name, value, k))
  {
  }

  lemma ReadParamsOf(p: Params, k: bytes)
    ensures ReadParams(ParamsText(p, k)) == Some((p, k))
  {
    var e := Ascii("}") + k;
    var v1, v2, v3, v4 := NullOr(p.maxTokens, NULL_INT32), NullOr(p.seed, NULL_INT64),
      NullOr(p.temperature, NULL_Q16), NullOr(p.topP, NULL_Q16);
    var t4 := Field(",\"top_p\":", v4, e);
    var t3 := Field(",\"temperature\":", v3, t4);
    var t2 := Field(",\"seed\":", v2, t3);
    FieldStops(",\"top_p\":", v4, e);
    FieldStops(",\"temperature\":", v3, t4);
    FieldStops(",\"seed\":", v2, t3);
    assert NoDigitAhead(e);
    hide Expect, ReadNullOr, NullOr, Ascii, NoDigitAhead;
    ExpectOf("{\"max_tokens\":", v1 + t2);
    ReadNullOrOf(p.maxTokens, NULL_INT32, t2);
    ExpectOf(",\"seed\":", v2 + t3);
    ReadNullOrOf(p.seed, NULL_INT64, t3);
    ExpectOf(",\"temperature\":", v3 + t4);
    ReadNullOrOf(p.temperature, NULL_Q16, t4);
    ExpectOf(",\"top_p\":", v4 + e);
    ReadNullOrOf(p.topP, NULL_Q16, e);
    ExpectOf("}", k);
  }

  lemma ReadNatOf(v: nat, k: bytes)
    requires NoDigitAhead(k)
    ensures ReadNat(Digits(v) + k) == Some((v, k))
  {
    TakeIntOf(v, k);
  }

  lemma ReadHeadOf(r: Record, k: bytes)
    requires Readable(r) && NoDigitAhead(k)
    ensures ReadHead(HeadText(r, k)) == Some((Head(r.state, r.failure, r.inputHash, r.ledgerSeq), k))
  {
    hide Expect, ReadState, ReadFailure, StateText, FailureText, HexText, TakeHex, ReadNat, Digits, Ascii, NoDigitAhead;
    var t4 := Field("\",\"ledger_seq\":", Digits(r.ledgerSeq), k);
    var t3 := Field(",\"input_hash\":\"", HexText(r.inputHash), t4);
    var t2 := Field(",\"failure_type\":", FailureText(r.failure), t3);
    ExpectOf("{\"completion_state\":", StateText(r.state) + t2);
    ReadStateOf(r.state, t2);
    ExpectOf(",\"failure_type\":", FailureText(r.failure) + t3);
    ReadFailureOf(r.failure, t3);
    ExpectOf(",\"input_hash\":\"", HexText(r.inputHash) + t4);
    TakeHexOf(r.inputHash, t4);
    ExpectOf("\",\"ledger_seq\":", Digits(r.ledgerSeq) + k);
    ReadNatOf(r.ledgerSeq, k);
  }

  lemma ReadStrOf(name: string, s: bytes, k: bytes)
    ensures ReadStr(name, StrField(name, Some(s), k)) == Some((s, k))
  {
    var t := Escaped(ForRecord, s, [QUOTE] + k);
    hide Expect, DecodeChars, Ascii;
    ExpectOf(name, t);
    PiecesText(ForRecord, s);
    DecodeEmitted(Pieces(ForRecord, s), k, |t|, []);
    assert [] + s == s;
  }

  lemma ReadStringsOf(r: Record, hash: bytes, k: bytes)
    requires Readable(r)
    ensures ReadStrings(StringsText(r, hash, k), |hash|)
         == Some((Strings(r.modelId.value, hash, r.oracleId.value, r.output.value), k))
  {
    hide Expect, ReadStr, StrField, Ascii, Schema;
    var t4 := StrField(",\"output\":\"", r.output, k);
    var t3 := StrField("\",\"oracle_id\":\"", r.oracleId, t4);
    ReadStrOf(",\"model_id\":\"", r.modelId.value, Field(",\"obs_hash\":\"", hash, t3));
    ExpectOf(",\"obs_hash\":\"", hash + t3);
    ReadStrOf("\",\"oracle_id\":\"", r.oracleId.value, t4);
    ReadStrOf(",\"output\":\"", r.output.value, k);
  }

  lemma ReadTailOf(r: Record, k: bytes)
    requires Readable(r)
    ensures ReadTail(TailText(r, k)) == Some((Tail(r.outputSize, r.params), k))
  {
    var e := Ascii("\"}") + k;
    var t3 := Field(",\"schema_version\":\"", Schema(), e);
    var t2 := ParamsText(r.params, t3);
    assert NoDigitAhead(Ascii(",\"params\":") + t2);
    hide Expect, ReadParams, ParamsText, ReadNat, Digits, Ascii, NoDigitAhead;
    ExpectOf(",\"output_size\":", Digits(r.outputSize) + (Ascii(",\"params\":") + t2));
    ReadNatOf(r.outputSize, Ascii(",\"params\":") + t2);
    ExpectOf(",\"params\":", t2);
    ReadParamsOf(r.params, t3);
    ExpectOf(",\"schema_version\":\"", Schema() + e);
    ExpectOf("AX:OBS:v1", e);
    ExpectOf("\"}", k);
  }

  lemma StringsStop(r: Record, hash: bytes, k: bytes)
    ensures NoDigitAhead(StringsText(r, hash, k))
  {
  }

  /** The reader recovers every field of a record from its canonical text, with the hash or with a
      blank in its place. */
  lemma ReadCanon(r: Record, includeHash: bool)
    requires Readable(r)
    ensures var hash := if includeHash then r.obsHash else [];
      ReadRecord(Canon(r, includeHash), |hash|) == Some(r.(obsHash := hash))
  {
    hide ReadHead, ReadStrings, ReadTail, HeadText, StringsText, TailText;
    var tail := TailText(r, []);
    var hash := if includeHash then r.obsHash else [];
    var strings := StringsText(r, hash, tail);
    StringsStop(r, hash, tail);
    ReadHeadOf(r, strings);
    ReadStringsOf(r, hash, tail);
    ReadTailOf(r, []);
  }

  /** Canonicalisation is injective: equal bytes, equal records. */
  lemma CanonInjective(a: Record, b: Record)
    requires Readable(a) && Readable(b) && |a.obsHash| == |b.obsHash| && Canon(a, true) == Canon(b, true)
    ensures a == b
  {
    hide ReadRecord, Canon;
    ReadCanon(a, true);
    ReadCanon(b, true);
  }

  /** So is the text that is hashed, up to the hash itself. */
  lemma BlankInjective(a: Record, b: Record)
    requires Readable(a) && Readable(b) && Canon(a, false) == Canon(b, false)
    ensures a == b.(obsHash := a.obsHash)
  {
    hide ReadRecord, Canon;
    ReadCanon(a, false);
    ReadCanon(b, false);
  }
}
