/** The bounded writer of src/canonical.c and the canonicalisers that use it, proved to
    produce the unbounded text or refuse. */
module Writer {
  import opened Bytes
  import opened Faults
  import opened Numbers
  import opened JsonString
  import opened Canonical

  /** `write_ctx_t`.  `text` is everything the caller has asked to write. */
  class WriteCtx {
    const buf: array<byte>
    var pos: nat
    var overflow: bool
    ghost var text: bytes

    ghost predicate Valid()
      reads this, buf
    {
      && buf.Length >= 1
      && pos == (if |text| <= buf.Length - 1 then |text| else buf.Length - 1)
      && (overflow <==> |text| > buf.Length - 1)
      && buf[..pos] == text[..pos]
    }

    /** `write_init`. */
    constructor (dst: array<byte>)
      requires dst.Length >= 1
      ensures buf == dst && text == [] && Valid()
    {
      buf, pos, overflow, text := dst, 0, false, [];
    }

    /** `write_char`. */
    method WriteChar(c: byte)
      requires Valid()
      modifies this, buf
      ensures Valid() && text == old(text) + [c]
    {
      if pos < buf.Length - 1 {
        buf[pos] := c;
        pos := pos + 1;
      } else {
        overflow := true;
      }
      text := text + [c];
    }

    /** `write_str`; `k` is what the caller still has to write. */
    method WriteStr(s: bytes, ghost k: bytes)
      requires Valid()
      modifies this, buf
      ensures Valid() && text == old(text) + s
      ensures text + k == old(text) + (s + k)
    {
      ghost var before := text;
      for i := 0 to |s|
        invariant Valid() && text == before + s[..i]
      {
        WriteChar(s[i]);
        Assoc(before, s[..i], [s[i]]);
        assert s[..i + 1] == s[..i] + [s[i]];
      }
      assert s[..|s|] == s;
      Assoc(before, s, k);
    }

    /** `write_escaped`. */
    method WriteEscaped(src: bytes, ghost k: bytes)
      requires Valid()
      modifies this, buf
      ensures Valid() && text + k == old(text) + Escaped(ForRecord, src, k)
    {
      ghost var before := text;
      hide Escaped, EscapePiece;
      EscapedNil(src[0..], k);
      assert src[0..] == src;
      for i := 0 to |src|
        invariant Valid()
        invariant text + Escaped(ForRecord, src[i..], k) == before + Escaped(ForRecord, src, k)
      {
        ghost var rest := Escaped(ForRecord, src[i + 1..], k);
        EscapedCons(ForRecord, src[i..], k);
        assert src[i..][1..] == src[i + 1..];
        WriteStr(Print(EscapePiece(ForRecord, src[i])), rest);
      }
      EscapedNil(src[|src|..], k);
    }

    /** `write_finish`. */
    method Finish() returns (n: int)
      requires Valid()
      modifies buf
      ensures n == if |text| <= buf.Length - 1 then |text| else AX_ERR_BUFFER
      ensures n >= 0 ==> buf[..n] == text && buf[n] == 0
    {
      if overflow {
        return AX_ERR_BUFFER;
      }
      buf[pos] := 0;
      return pos;
    }
  }

  lemma EscapedNil(s: bytes, k: bytes)
    ensures s == [] ==> Escaped(ForRecord, s, k) == k
  {
  }

  // ---- numbers through the 24-byte buffer ------------------------------------------------

  lemma BufferHolds(num: bytes, text: bytes)
    requires NoNul(text) && |text| < |num| && num[..|text|] == text && num[|text|] == 0
    ensures CStr(num) == text
  {
    assert num == text + [0] + num[|text| + 1..];
    CStrOf(text, num[|text| + 1..]);
  }

  method WriteInt(w: WriteCtx, v: int, ghost k: bytes)
    requires w.Valid() && Int64(v)
    modifies w, w.buf
    ensures w.Valid() && w.text + k == old(w.text) + (IntText(v) + k)
  {
    hide w.Valid();
    var num := new byte[24];
    IntTextBound(v);
    IntTextNoNul(v);
    var rc := FormatInt64(num, v);
    BufferHolds(num[..], IntText(v));
    w.WriteStr(CStr(num[..]), k);
  }

  method WriteUint(w: WriteCtx, v: nat, ghost k: bytes)
    requires w.Valid() && v < 0x1_0000_0000_0000_0000
    modifies w, w.buf
    ensures w.Valid() && w.text + k == old(w.text) + (Digits(v) + k)
  {
    var num := new byte[24];
    IntTextBound(v);
    var rc := FormatUint64(num, v);
    BufferHolds(num[..], Digits(v));
    w.WriteStr(CStr(num[..]), k);
  }

  method WriteField(w: WriteCtx, name: string, value: bytes, ghost k: bytes)
    requires w.Valid()
    modifies w, w.buf
    ensures w.Valid() && w.text + k == old(w.text) + Field(name, value, k)
  {
    hide Ascii;
    w.WriteStr(Ascii(name), value + k);
    w.WriteStr(value, k);
  }

  method WriteStrField(w: WriteCtx, name: string, s: Option<bytes>, ghost k: bytes)
    requires w.Valid()
    modifies w, w.buf
    ensures w.Valid() && w.text + k == old(w.text) + StrField(name, s, k)
  {
    hide Ascii, Escaped;
    w.WriteStr(Ascii(name), Escaped(ForRecord, OrEmpty(s), [QUOTE] + k));
    w.WriteEscaped(OrEmpty(s), [QUOTE] + k);
    w.WriteStr([QUOTE], k);
  }

  method WriteUintField(w: WriteCtx, name: string, v: nat, ghost k: bytes)
    requires w.Valid() && v < 0x1_0000_0000_0000_0000
    modifies w, w.buf
    ensures w.Valid() && w.text + k == old(w.text) + Field(name, Digits(v), k)
  {
    hide Ascii, Digits;
    w.WriteStr(Ascii(name), Digits(v) + k);
    WriteUint(w, v, k);
  }

  /** One numeric or null parameter. */
  method WriteParam(w: WriteCtx, name: string, v: int, sentinel: int, ghost k: bytes)
    requires w.Valid() && Int64(v)
    modifies w, w.buf
    ensures w.Valid() && w.text + k == old(w.text) + Field(name, NullOr(v, sentinel), k)
  {
    hide Ascii, IntText;
    w.WriteStr(Ascii(name), NullOr(v, sentinel) + k);
    if v == sentinel {
      w.WriteStr(Ascii("null"), k);
    } else {
      WriteInt(w, v, k);
    }
  }

  /** `ax_params_canonicalise`. */
  method ParamsCanonicalise(dst: array<byte>, p: Params) returns (n: int)
    requires dst.Length >= 1 && ParamsRange(p)
    modifies dst
    ensures n == if |ParamsText(p, [])| <= dst.Length - 1 then |ParamsText(p, [])| else AX_ERR_BUFFER
    ensures n >= 0 ==> dst[..n] == ParamsText(p, []) && dst[n] == 0
  {
    hide Field, NullOr, Ascii;
    var w := new WriteCtx(dst);
    ghost var k4 := Ascii("}") + [];
    ghost var k3 := Field(",\"top_p\":", NullOr(p.topP, NULL_Q16), k4);
    ghost var k2 := Field(",\"temperature\":", NullOr(p.temperature, NULL_Q16), k3);
    ghost var k1 := Field(",\"seed\":", NullOr(p.seed, NULL_INT64), k2);
    WriteParam(w, "{\"max_tokens\":", p.maxTokens, NULL_INT32, k1);
    WriteParam(w, ",\"seed\":", p.seed, NULL_INT64, k2);
    WriteParam(w, ",\"temperature\":", p.temperature, NULL_Q16, k3);
    WriteParam(w, ",\"top_p\":", p.topP, NULL_Q16, k4);
    w.WriteStr(Ascii("}"), []);
    assert w.text + [] == w.text && [] + ParamsText(p, []) == ParamsText(p, []);
    n := w.Finish();
  }

  // ---- the record --------------------------------------------------------------------------

  /** What C can hand to the canonicaliser: 64-bit numbers. */
  predicate RecordRange(r: Record) {
    && ParamsRange(r.params)
    && r.ledgerSeq < 0x1_0000_0000_0000_0000 && r.outputSize < 0x1_0000_0000_0000_0000
  }

  method WriteHead(w: WriteCtx, r: Record, ghost k: bytes)
    requires w.Valid() && RecordRange(r)
    modifies w, w.buf
    ensures w.Valid() && w.text + k == old(w.text) + HeadText(r, k)
  {
    hide Field, Ascii, StateText, FailureText, HexText;
    ghost var k3 := Field("\",\"ledger_seq\":", Digits(r.ledgerSeq), k);
    ghost var k2 := Field(",\"input_hash\":\"", HexText(r.inputHash), k3);
    ghost var k1 := Field(",\"failure_type\":", FailureText(r.failure), k2);
    WriteField(w, "{\"completion_state\":", StateText(r.state), k1);
    WriteField(w, ",\"failure_type\":", FailureText(r.failure), k2);
    var hex := new byte[65];
    var rc := FormatHashHex(hex, r.inputHash);
    HexPlain(r.inputHash);
    BufferHolds(hex[..], HexText(r.inputHash));
    WriteField(w, ",\"input_hash\":\"", CStr(hex[..]), k3);
    WriteUintField(w, "\",\"ledger_seq\":", r.ledgerSeq, k);
  }

  method WriteStrings(w: WriteCtx, r: Record, hash: bytes, ghost k: bytes)
    requires w.Valid()
    modifies w, w.buf
    ensures w.Valid() && w.text + k == old(w.text) + StringsText(r, hash, k)
  {
    hide Field, StrField, Ascii;
    ghost var k3 := StrField(",\"output\":\"", r.output, k);
    ghost var k2 := StrField("\",\"oracle_id\":\"", r.oracleId, k3);
    WriteStrField(w, ",\"model_id\":\"", r.modelId, Field(",\"obs_hash\":\"", hash, k2));
    WriteField(w, ",\"obs_hash\":\"", hash, k2);
    WriteStrField(w, "\",\"oracle_id\":\"", r.oracleId, k3);
    WriteStrField(w, ",\"output\":\"", r.output, k);
  }

  method WriteTail(w: WriteCtx, r: Record, ghost k: bytes)
    requires w.Valid() && RecordRange(r)
    modifies w, w.buf
    ensures w.Valid() && w.text + k == old(w.text) + TailText(r, k)
  {
    hide Field, Ascii, ParamsText;
    ghost var e := Ascii("\"}") + k;
    ghost var k2 := Field(",\"schema_version\":\"", OrEmpty(r.schemaVersion), e);
    ghost var k1 := ParamsText(r.params, k2);
    WriteUintField(w, ",\"output_size\":", r.outputSize, Ascii(",\"params\":") + k1);
    w.WriteStr(Ascii(",\"params\":"), k1);
    var buf := new byte[256];
    ParamsFacts(r.params, k2);
    var rc := ParamsCanonicalise(buf, r.params);
    BufferHolds(buf[..], ParamsText(r.params, []));
    w.WriteStr(CStr(buf[..]), k2);
    WriteField(w, ",\"schema_version\":\"", OrEmpty(r.schemaVersion), e);
    w.WriteStr(Ascii("\"}"), k);
  }

  /** `ax_obs_canonicalise`: the whole text and its NUL, or AX_ERR_BUFFER. */
  method ObsCanonicalise(dst: array<byte>, r: Record, includeHash: bool) returns (n: int)
    requires dst.Length >= 1 && RecordRange(r)
    modifies dst
    ensures n == if |Canon(r, includeHash)| <= dst.Length - 1 then |Canon(r, includeHash)| else AX_ERR_BUFFER
    ensures n >= 0 ==> dst[..n] == Canon(r, includeHash) && dst[n] == 0
  {
    hide HeadText, StringsText, TailText;
    var w := new WriteCtx(dst);
    var hash := if includeHash then r.obsHash else [];
    ghost var tail := TailText(r, []);
    WriteHead(w, r, StringsText(r, hash, tail));
    WriteStrings(w, r, hash, tail);
    WriteTail(w, r, []);
    assert w.text + [] == w.text && [] + Canon(r, includeHash) == Canon(r, includeHash);
    n := w.Finish();
  }
}
