/** The canonical text is UTF-8, and what a standard reader finds in it. */
module RecordReading {
  import opened Bytes
  import opened Utf8
  import opened Numbers
  import opened JsonString
  import opened JsonDoc
  import opened Canonical
  import opened RequestBody
  import opened JsonValue
  import opened JsonReader
  import opened RecordDoc

  // ---- the text is UTF-8 -----------------------------------------------------------------------------------

  predicate Printable(s: string) {
    forall i :: 0 <= i < |s| ==> ' ' <= s[i] <= '~'
  }

  lemma PlainValid(s: bytes)
    requires Plain(s)
    ensures ValidUtf8(s)
  {
    hide ValidUtf8;
    AsciiValid(s);
  }

  lemma NameValid(name: string)
    requires Printable(name)
    ensures ValidUtf8(Ascii(name))
  {
    hide ValidUtf8;
    AsciiPlain(name);
    PlainValid(Ascii(name));
  }

  lemma FieldValid(name: string, value: bytes, k: bytes)
    requires Printable(name) && ValidUtf8(value) && ValidUtf8(k)
    ensures ValidUtf8(Field(name, value, k))
  {
    hide ValidUtf8;
    NameValid(name);
    ValidConcat(value, k);
    ValidConcat(Ascii(name), value + k);
  }

  lemma EscapedValid(style: Style, s: bytes)
    requires ValidUtf8(s)
    ensures ValidUtf8(Escaped(style, s, []))
  {
    hide ValidUtf8, Escaped;
    EncodeCodePoints(s);
    EscapedKeepsUtf8(style, CodePoints(s));
  }

  lemma QuoteValid()
    ensures ValidUtf8([QUOTE]) && ValidUtf8([])
  {
    hide ValidUtf8;
    PlainValid([QUOTE]);
    PlainValid([]);
  }

  lemma StrFieldValid(name: string, s: Option<bytes>, k: bytes)
    requires Printable(name) && ValidUtf8(OrEmpty(s)) && ValidUtf8(k)
    ensures ValidUtf8(StrField(name, s, k))
  {
    hide ValidUtf8, Pieces, Emit, Ascii;
    NameValid(name);
    EscapedValid(ForRecord, OrEmpty(s));
    EmitAppend(Pieces(ForRecord, OrEmpty(s)), [QUOTE] + k);
    QuoteValid();
    ValidConcat([QUOTE], k);
    ValidConcat(Escaped(ForRecord, OrEmpty(s), []), [QUOTE] + k);
    ValidConcat(Ascii(name), Escaped(ForRecord, OrEmpty(s), [QUOTE] + k));
  }

  lemma TailValid(r: Record)
    requires Sealed(r) && ParamsRange(r.params)
    ensures ValidUtf8(TailText(r, []))
  {
    hide *;
    SealedSchema(r);
    TailUnfold(r);
    TailPrintable();
    SchemaPlain();
    var e := Ascii("\"}") + [];
    assert e == Ascii("\"}");
    NameValid("\"}");
    NameValid(",\"params\":");
    FieldValid(",\"schema_version\":\"", Schema(), e);
    var k := Field(",\"schema_version\":\"", Schema(), e);
    ParamsFacts(r.params, k);
    PlainValid(ParamsText(r.params, []));
    ValidConcat(ParamsText(r.params, []), k);
    ValidConcat(Ascii(",\"params\":"), ParamsText(r.params, k));
    DigitsPlain(r.outputSize);
    PlainValid(Digits(r.outputSize));
    FieldValid(",\"output_size\":", Digits(r.outputSize), Ascii(",\"params\":") + ParamsText(r.params, k));
  }

  lemma SchemaPlain()
    ensures ValidUtf8(Schema())
  {
    hide ValidUtf8, Ascii;
    NameValid("AX:OBS:v1");
  }

  lemma TailPrintable()
    ensures Printable("\"}") && Printable(",\"params\":") && Printable(",\"schema_version\":\"")
      && Printable(",\"output_size\":")
  {
  }

  lemma StringsValid(r: Record, k: bytes)
    requires Sealed(r) && ValidUtf8(OrEmpty(r.modelId)) && ValidUtf8(OrEmpty(r.oracleId))
      && ValidUtf8(OrEmpty(r.output)) && ValidUtf8(k)
    ensures ValidUtf8(StringsText(r, r.obsHash, k))
  {
    hide *;
    StringsUnfold(r, r.obsHash, k);
    StringsPrintable();
    ObsHashValid(r);
    StrFieldValid(",\"output\":\"", r.output, k);
    var t3 := StrField(",\"output\":\"", r.output, k);
    StrFieldValid("\",\"oracle_id\":\"", r.oracleId, t3);
    var t2 := StrField("\",\"oracle_id\":\"", r.oracleId, t3);
    FieldValid(",\"obs_hash\":\"", r.obsHash, t2);
    StrFieldValid(",\"model_id\":\"", r.modelId, Field(",\"obs_hash\":\"", r.obsHash, t2));
  }

  lemma ObsHashValid(r: Record)
    requires Sealed(r)
    ensures ValidUtf8(r.obsHash)
  {
    hide ValidUtf8;
    assert forall i :: 0 <= i < |r.obsHash| ==> HexByte(r.obsHash[i]);
    PlainValid(r.obsHash);
  }

  lemma StringsPrintable()
    ensures Printable(",\"output\":\"") && Printable("\",\"oracle_id\":\"") && Printable(",\"obs_hash\":\"")
      && Printable(",\"model_id\":\"")
  {
  }

  lemma HeadPrintable()
    ensures Printable("{\"completion_state\":") && Printable(",\"failure_type\":")
    ensures Printable(",\"input_hash\":\"") && Printable("\",\"ledger_seq\":")
  {
  }

  lemma EnumValid(state: int, failure: int)
    ensures ValidUtf8(StateText(state)) && ValidUtf8(FailureText(failure))
  {
    hide ValidUtf8, Ascii;
    NameValid("\"COMPLETE\"");
    NameValid("\"TRUNCATED\"");
    NameValid("\"ERROR\"");
    NameValid("\"UNKNOWN\"");
    NameValid("null");
    NameValid("\"TIMEOUT\"");
    NameValid("\"INVALID_OUTPUT\"");
    NameValid("\"TRANSPORT_ERROR\"");
  }

  /** The canonical text of a record whose strings are UTF-8 is UTF-8. */
  lemma CanonUtf8(r: Record)
    requires Sealed(r) && ParamsRange(r.params)
    requires ValidUtf8(OrEmpty(r.modelId)) && ValidUtf8(OrEmpty(r.oracleId)) && ValidUtf8(OrEmpty(r.output))
    ensures ValidUtf8(Canon(r, true))
  {
    var k := StringsText(r, r.obsHash, TailText(r, []));
    assert Canon(r, true) == HeadText(r, k);
    hide *;
    TailValid(r);
    StringsValid(r, TailText(r, []));
    HeadUnfold(r, k);
    HeadPrintable();
    EnumValid(r.state, r.failure);
    DigitsPlain(r.ledgerSeq);
    PlainValid(Digits(r.ledgerSeq));
    HexPlain(r.inputHash);
    PlainValid(HexText(r.inputHash));
    FieldValid("\",\"ledger_seq\":", Digits(r.ledgerSeq), k);
    var t3 := Field("\",\"ledger_seq\":", Digits(r.ledgerSeq), k);
    FieldValid(",\"input_hash\":\"", HexText(r.inputHash), t3);
    var t2 := Field(",\"input_hash\":\"", HexText(r.inputHash), t3);
    FieldValid(",\"failure_type\":", FailureText(r.failure), t2);
    FieldValid("{\"completion_state\":", StateText(r.state), Field(",\"failure_type\":", FailureText(r.failure), t2));
  }

  // ---- what the document says -------------------------------------------------------------------------------

  function StateName(state: int): string {
    if state == COMPLETE then "COMPLETE"
    else if state == TRUNCATED then "TRUNCATED"
    else if state == ERROR then "ERROR"
    else "UNKNOWN"
  }

  /** None for the null failure. */
  function FailureValue(failure: int): Py {
    if failure == FAILURE_NULL then PyNone
    else if failure == TIMEOUT then PyStr(Ascii("TIMEOUT"))
    else if failure == INVALID_OUTPUT then PyStr(Ascii("INVALID_OUTPUT"))
    else if failure == TRANSPORT_ERROR then PyStr(Ascii("TRANSPORT_ERROR"))
    else PyStr(Ascii("UNKNOWN"))
  }

  lemma WordDenotes(w: string)
    ensures Denote(Str(Lit(w))) == PyStr(Ascii(w))
  {
    hide Pieces, Text, Ascii;
    PiecesText(ForBody, Ascii(w));
  }

  lemma StateDenotes(state: int)
    ensures Denote(StateDoc(state)) == PyStr(Ascii(StateName(state)))
  {
    hide Denote, Ascii, Lit;
    WordDenotes("COMPLETE");
    WordDenotes("TRUNCATED");
    WordDenotes("ERROR");
    WordDenotes("UNKNOWN");
  }

  lemma FailureDenotes(failure: int)
    ensures ValueOk(FailureDoc(failure)) && Denote(FailureDoc(failure)) == FailureValue(failure)
  {
    FailureDocOk(failure);
    NullDenotes();
    hide Denote, Ascii, Lit;
    WordDenotes("TIMEOUT");
    WordDenotes("INVALID_OUTPUT");
    WordDenotes("TRANSPORT_ERROR");
    WordDenotes("UNKNOWN");
  }

  lemma NullDenotes()
    ensures ValueOk(Tok(Ascii("null"))) && Denote(Tok(Ascii("null"))) == PyNone
  {
    NullTok();
  }

  lemma StringDenotes(s: bytes)
    ensures Denote(Plainly(s)) == PyStr(s)
  {
    hide Pieces, Text;
    PiecesText(ForRecord, s);
  }

  lemma DigitsDenote(n: nat)
    ensures ValueOk(Tok(Digits(n))) && Denote(Tok(Digits(n))) == PyInt(n)
  {
    DigitsOk(n);
    TakeIntOf(n, []);
    var d := Digits(n);
    assert d + [] == d && IntText(n) == d;
    assert IsDigit(d[0]);
    FirstLetters();
    hide Digits, Ascii, TakeInt;
  }

  lemma FirstLetters()
    ensures Ascii("null")[0] == 110 && Ascii("true")[0] == 116 && Ascii("false")[0] == 102
  {
  }

  /** What a reader finds in the record, key by key. */
  predicate Says(m: map<bytes, Py>, r: Record) {
    && Get(m, "completion_state") == Some(PyStr(Ascii(StateName(r.state))))
    && Get(m, "failure_type") == Some(FailureValue(r.failure))
    && Get(m, "model_id") == Some(PyStr(OrEmpty(r.modelId)))
    && Get(m, "oracle_id") == Some(PyStr(OrEmpty(r.oracleId)))
    && Get(m, "output") == Some(PyStr(OrEmpty(r.output)))
    && Get(m, "output_size") == Some(PyInt(r.outputSize))
    && Get(m, "schema_version") == Some(PyStr(OrEmpty(r.schemaVersion)))
  }

  lemma Reading(r: Record)
    ensures ValueOk(Document(r)) && Denote(Document(r)).PyDict? && Says(Denote(Document(r)).entries, r)
  {
    hide ValueOk, ItemsOk, RecordEntries, ItemsOf, StateDoc, FailureDoc, Digits, Plainly, ParamsDoc, HexText, Ascii;
    hide Get, DenoteItems, Document, Denote;
    DictIs(r);
    EntryIs(r);
    FailureDenotes(r.failure);
    DigitsDenote(r.outputSize);
    StateDenotes(r.state);
    StringDenotes(OrEmpty(r.modelId));
    StringDenotes(OrEmpty(r.oracleId));
    StringDenotes(OrEmpty(r.output));
    StringDenotes(OrEmpty(r.schemaVersion));
    Found(r, 0);
    Found(r, 1);
    Found(r, 4);
    Found(r, 6);
    Found(r, 7);
    Found(r, 8);
    Found(r, 10);
  }

  lemma DictIs(r: Record)
    ensures ValueOk(Document(r)) && ItemsOk(ItemsOf(RecordEntries(r)))
    ensures Denote(Document(r)) == PyDict(DenoteItems(ItemsOf(RecordEntries(r))))
  {
    DocumentOk(r);
    hide ItemsOf, RecordEntries, DenoteItems, ItemsOk;
  }

  /** `dict.get`. */
  function Get(m: map<bytes, Py>, key: string): Option<Py> {
    if Ascii(key) in m then Some(m[Ascii(key)]) else None
  }

  lemma Found(r: Record, i: nat)
    requires i < 11
    ensures ItemsOk(ItemsOf(RecordEntries(r))) && ValueOk(RecordEntries(r)[i].v)
    ensures Get(DenoteItems(ItemsOf(RecordEntries(r))), RecordEntries(r)[i].key) == Some(Denote(RecordEntries(r)[i].v))
  {
    EntriesFine(r);
    hide RecordEntries, ItemsOf, Denote, Ascii, ValueOk, Distinct;
    ItemsOfOk(RecordEntries(r));
    EntryFound(RecordEntries(r), i);
  }

  // ---- the reader on it --------------------------------------------------------------------------------------

  lemma {:induction false} PiecesStrict(style: Style, s: bytes)
    ensures StrictPieces(Pieces(style, s))
  {
    if s != [] {
      PiecesStrict(style, s[1..]);
      assert Pieces(style, s)[1..] == Pieces(style, s[1..]);
      assert Pieces(style, s)[0] == EscapePiece(style, s[0]);
    }
  }

  lemma {:induction false} NoLeadingZero(n: nat)
    requires n > 0
    ensures Digits(n)[0] != 48
  {
    if n >= 10 {
      NoLeadingZero(n / 10);
      assert Digits(n)[0] == Digits(n / 10)[0];
    }
  }

  lemma NumberText(v: int)
    ensures IsNumber(IntText(v))
  {
    var n: nat := if v < 0 then -v else v;
    var d := Digits(n);
    DigitSpanOf(d, []);
    assert d + [] == d && d[|d|..] == [];
    assert AllDigits(d) && IsDigit(d[0]);
    if v < 0 {
      assert IntText(v)[1..] == d;
    }
    if n > 0 {
      NoLeadingZero(n);
    } else {
      assert |Digits(0)| == 1;
    }
  }

  lemma NullOrStrict(v: int, sentinel: int)
    ensures StrictValue(Tok(NullOr(v, sentinel)))
  {
    hide IsNumber, IntText, Ascii;
    NumberText(v);
  }

  lemma PlainStrict(s: bytes)
    ensures StrictValue(Plainly(s))
  {
    hide Pieces, StrictPieces;
    PiecesStrict(ForRecord, s);
  }

  lemma LitStrict(s: string)
    ensures StrictPieces(Lit(s))
  {
    hide Pieces, StrictPieces;
    PiecesStrict(ForBody, Ascii(s));
  }

  lemma MemberStrict(key: string, v: Value, rest: Items)
    requires StrictValue(v) && StrictItems(rest)
    ensures StrictItems(Member(key, v, rest))
  {
    hide Lit, StrictPieces, StrictValue;
    LitStrict(key);
  }

  lemma ParamsStrict(p: Params)
    ensures StrictValue(ParamsDoc(p))
  {
    var v1, v2 := Tok(NullOr(p.maxTokens, NULL_INT32)), Tok(NullOr(p.seed, NULL_INT64));
    var v3, v4 := Tok(NullOr(p.temperature, NULL_Q16)), Tok(NullOr(p.topP, NULL_Q16));
    NullOrStrict(p.maxTokens, NULL_INT32);
    NullOrStrict(p.seed, NULL_INT64);
    NullOrStrict(p.temperature, NULL_Q16);
    NullOrStrict(p.topP, NULL_Q16);
    hide Member, TokenOk, NullOr;
    var m4 := Member("top_p", v4, Nil);
    var m3 := Member("temperature", v3, m4);
    var m2 := Member("seed", v2, m3);
    MemberStrict("top_p", v4, Nil);
    MemberStrict("temperature", v3, m4);
    MemberStrict("seed", v2, m3);
    MemberStrict("max_tokens", v1, m2);
  }

  lemma EnumsStrict(state: int, failure: int)
    ensures StrictValue(StateDoc(state)) && StrictValue(FailureDoc(failure))
  {
    hide Lit, StrictPieces, Ascii, IsNumber;
    LitStrict("COMPLETE");
    LitStrict("TRUNCATED");
    LitStrict("ERROR");
    LitStrict("UNKNOWN");
    LitStrict("TIMEOUT");
    LitStrict("INVALID_OUTPUT");
    LitStrict("TRANSPORT_ERROR");
  }

  lemma DigitsStrict(n: nat)
    ensures StrictValue(Tok(Digits(n)))
  {
    hide IsNumber, Digits, Ascii;
    NumberText(n);
  }

  lemma {:induction false} EntriesStrict(ms: seq<Entry>)
    requires forall i :: 0 <= i < |ms| ==> StrictValue(ms[i].v)
    ensures StrictItems(ItemsOf(ms))
  {
    if ms != [] {
      hide StrictValue, Member;
      EntriesStrict(ms[1..]);
      MemberStrict(ms[0].key, ms[0].v, ItemsOf(ms[1..]));
    }
  }

  lemma DocumentStrict(r: Record)
    ensures StrictValue(Document(r))
  {
    EnumsStrict(r.state, r.failure);
    PlainStrict(HexText(r.inputHash));
    DigitsStrict(r.ledgerSeq);
    PlainStrict(OrEmpty(r.modelId));
    PlainStrict(r.obsHash);
    PlainStrict(OrEmpty(r.oracleId));
    PlainStrict(OrEmpty(r.output));
    DigitsStrict(r.outputSize);
    ParamsStrict(r.params);
    PlainStrict(OrEmpty(r.schemaVersion));
    EntryIs(r);
    hide RecordEntries, StateDoc, FailureDoc, ParamsDoc, Plainly, Digits, HexText, OrEmpty, TokenOk, StrictPieces;
    assert forall i :: 0 <= i < 11 ==> StrictValue(RecordEntries(r)[i].v);
    EntriesStrict(RecordEntries(r));
  }

  /** The reader on the canonical bytes of a record returns the value of its document. */
  lemma LoadsCanon(r: Record)
    requires Sealed(r) && ParamsRange(r.params)
    requires ValidUtf8(OrEmpty(r.modelId)) && ValidUtf8(OrEmpty(r.oracleId)) && ValidUtf8(OrEmpty(r.output))
    ensures ValueOk(Document(r)) && Loads(Canon(r, true)) == Some(Denote(Document(r)))
  {
    hide *;
    CanonIsDocument(r);
    CanonUtf8(r);
    DocumentStrict(r);
    var s := EmitValue(Document(r), []);
    assert [] + s == s;
    NoWs();
    LoadsWritten([], Document(r), []);
  }

  lemma NoWs()
    ensures AllWs([])
  {
  }
}
