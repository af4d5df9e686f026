/** The canonical text of a record (src/canonical.c) is the text of a JSON document. */
module RecordDoc {
  import opened Bytes
  import opened Numbers
  import opened JsonString
  import opened JsonScan
  import opened JsonDoc
  import opened Canonical
  import opened RequestBody
  import opened JsonValue

  // ---- the record as a document ----------------------------------------------------------------------

  function Plainly(s: bytes): (v: Value)
    ensures ValueOk(v)
  {
    Str(Pieces(ForRecord, s))
  }

  function StateDoc(state: int): (v: Value)
    ensures ValueOk(v)
  {
    if state == COMPLETE then Str(Lit("COMPLETE"))
    else if state == TRUNCATED then Str(Lit("TRUNCATED"))
    else if state == ERROR then Str(Lit("ERROR"))
    else Str(Lit("UNKNOWN"))
  }

  function FailureDoc(failure: int): (v: Value) {
    if failure == FAILURE_NULL then Tok(Ascii("null"))
    else if failure == TIMEOUT then Str(Lit("TIMEOUT"))
    else if failure == INVALID_OUTPUT then Str(Lit("INVALID_OUTPUT"))
    else if failure == TRANSPORT_ERROR then Str(Lit("TRANSPORT_ERROR"))
    else Str(Lit("UNKNOWN"))
  }

  function ParamsDoc(p: Params): Value {
    Obj([], Member("max_tokens", Tok(NullOr(p.maxTokens, NULL_INT32)),
            Member("seed", Tok(NullOr(p.seed, NULL_INT64)),
            Member("temperature", Tok(NullOr(p.temperature, NULL_Q16)),
            Member("top_p", Tok(NullOr(p.topP, NULL_Q16)), Nil)))))
  }

  function RecordEntries(r: Record): (ms: seq<Entry>)
    ensures |ms| == 11
  {
    [Entry("completion_state", StateDoc(r.state)), Entry("failure_type", FailureDoc(r.failure)),
     Entry("input_hash", Plainly(HexText(r.inputHash))), Entry("ledger_seq", Tok(Digits(r.ledgerSeq))),
     Entry("model_id", Plainly(OrEmpty(r.modelId))), Entry("obs_hash", Plainly(r.obsHash)),
     Entry("oracle_id", Plainly(OrEmpty(r.oracleId))), Entry("output", Plainly(OrEmpty(r.output))),
     Entry("output_size", Tok(Digits(r.outputSize))), Entry("params", ParamsDoc(r.params)),
     Entry("schema_version", Plainly(OrEmpty(r.schemaVersion)))]
  }

  /** The document: eleven members in the order of section 3.2.3 of RFC 8785. */
  function Document(r: Record): Value {
    Obj([], ItemsOf(RecordEntries(r)))
  }

  /** Lexicographic order of keys, as section 3.2.3 of RFC 8785 sorts them. */
  predicate Before(a: string, b: string) {
    b != [] && (a == [] || a[0] < b[0] || (a[0] == b[0] && Before(a[1..], b[1..])))
  }

  /** Keys that start alike are ordered by what follows. */
  lemma {:induction false} BeforeAfter(p: string, a: string, b: string)
    requires Before(a, b)
    ensures Before(p + a, p + b)
  {
    if p == [] {
      assert p + a == a && p + b == b;
    } else {
      BeforeAfter(p[1..], a, b);
      assert (p + a)[1..] == p[1..] + a && (p + b)[1..] == p[1..] + b;
    }
  }

  lemma {:induction false} BeforeTransitive(a: string, b: string, c: string)
    requires Before(a, b) && Before(b, c)
    ensures Before(a, c)
  {
    if a != [] && a[0] == b[0] == c[0] {
      BeforeTransitive(a[1..], b[1..], c[1..]);
    }
  }

  /** The members are in the order of their keys, each key once. */
  lemma KeysSorted(r: Record, i: nat, j: nat)
    requires i < j < 11
    ensures Before(RecordEntries(r)[i].key, RecordEntries(r)[j].key)
    decreases j
  {
    NextKey(r, j - 1);
    if i < j - 1 {
      hide RecordEntries, Before;
      KeysSorted(r, i, j - 1);
      BeforeTransitive(RecordEntries(r)[i].key, RecordEntries(r)[j - 1].key, RecordEntries(r)[j].key);
    }
  }

  lemma NextKey(r: Record, i: nat)
    requires i < 10
    ensures Before(RecordEntries(r)[i].key, RecordEntries(r)[i + 1].key)
  {
    hide StateDoc, FailureDoc, ParamsDoc, Plainly, Digits, HexText, Before;
    OutputKeys();
    OtherKeys();
  }

  lemma OtherKeys()
    ensures Before("completion_state", "failure_type") && Before("failure_type", "input_hash")
    ensures Before("input_hash", "ledger_seq") && Before("ledger_seq", "model_id") && Before("model_id", "obs_hash")
    ensures Before("output_size", "params") && Before("params", "schema_version")
  {
  }

  lemma OutputKeys()
    ensures Before("obs_hash", "oracle_id") && Before("oracle_id", "output") && Before("output", "output_size")
  {
    assert Before("bs_hash", "racle_id") && Before("racle_id", "utput") && Before("", "_size");
    BeforeAfter("o", "bs_hash", "racle_id");
    BeforeAfter("o", "racle_id", "utput");
    BeforeAfter("output", "", "_size");
    assert "o" + "bs_hash" == "obs_hash" && "o" + "racle_id" == "oracle_id" && "o" + "utput" == "output";
    assert "output" + "" == "output" && "output" + "_size" == "output_size";
  }

  lemma NullTok()
    ensures AllTok(Ascii("null")) && Ascii("null") != []
  {
    assert Ascii("null") == [110, 117, 108, 108];
  }

  lemma NullOrTok(v: int, sentinel: int)
    ensures ValueOk(Tok(NullOr(v, sentinel)))
  {
    NullTok();
    var d := Digits(if v < 0 then -v else v);
    DigitsTok(d);
    hide Digits;
    assert IntText(v) == d || IntText(v) == [MINUS] + d;
  }

  lemma ParamsDocOk(p: Params)
    ensures ValueOk(ParamsDoc(p))
  {
    NullOrTok(p.maxTokens, NULL_INT32);
    NullOrTok(p.seed, NULL_INT64);
    NullOrTok(p.temperature, NULL_Q16);
    NullOrTok(p.topP, NULL_Q16);
    var m1 := Member("top_p", Tok(NullOr(p.topP, NULL_Q16)), Nil);
    var m2 := Member("temperature", Tok(NullOr(p.temperature, NULL_Q16)), m1);
    var m3 := Member("seed", Tok(NullOr(p.seed, NULL_INT64)), m2);
    hide NullOr, Lit, AllTok;
    MemberOk("top_p", Tok(NullOr(p.topP, NULL_Q16)), Nil);
    MemberOk("temperature", Tok(NullOr(p.temperature, NULL_Q16)), m1);
    MemberOk("seed", Tok(NullOr(p.seed, NULL_INT64)), m2);
    MemberOk("max_tokens", Tok(NullOr(p.maxTokens, NULL_INT32)), m3);
  }

  lemma FailureDocOk(failure: int)
    ensures ValueOk(FailureDoc(failure))
  {
    NullTok();
    hide Ascii;
  }

  lemma DigitsOk(n: nat)
    ensures ValueOk(Tok(Digits(n)))
  {
    DigitsTok(Digits(n));
  }

  lemma EntriesFine(r: Record)
    ensures EntriesOk(RecordEntries(r)) && Distinct(RecordEntries(r))
  {
    hide StateDoc, FailureDoc, ParamsDoc, Plainly, Digits, ValueOk, Distinct, HexText, Literal;
    FailureDocOk(r.failure);
    DigitsOk(r.ledgerSeq);
    DigitsOk(r.outputSize);
    ParamsDocOk(r.params);
    KeysDistinct(r);
    KeysLiteral(r);
  }

  lemma KeysLiteral(r: Record)
    ensures forall i :: 0 <= i < 11 ==> Literal(RecordEntries(r)[i].key)
  {
    FirstKeys();
    LastKeys();
    hide StateDoc, FailureDoc, ParamsDoc, Plainly, Digits, HexText, Literal;
  }

  lemma FirstKeys()
    ensures Literal("completion_state") && Literal("failure_type") && Literal("input_hash") && Literal("ledger_seq")
    ensures Literal("model_id") && Literal("obs_hash")
  {
  }

  lemma LastKeys()
    ensures Literal("oracle_id") && Literal("output") && Literal("output_size") && Literal("params")
    ensures Literal("schema_version")
  {
  }

  lemma KeysDistinct(r: Record)
    ensures Distinct(RecordEntries(r))
  {
    hide StateDoc, FailureDoc, ParamsDoc, Plainly, Digits, HexText;
    var ms := RecordEntries(r);
    assert |ms[0].key| == 16 && |ms[1].key| == 12 && |ms[2].key| == 10 && |ms[3].key| == 10 && |ms[4].key| == 8;
    assert |ms[5].key| == 8 && |ms[6].key| == 9 && |ms[7].key| == 6 && |ms[8].key| == 11 && |ms[9].key| == 6
      && |ms[10].key| == 14;
    assert ms[2].key[0] == 'i' && ms[3].key[0] == 'l' && ms[4].key[0] == 'm' && ms[5].key[0] == 'o'
      && ms[7].key[0] == 'o' && ms[9].key[0] == 'p';
    hide RecordEntries;
  }

  lemma DocumentOk(r: Record)
    ensures ValueOk(Document(r)) && ItemsOk(ItemsOf(RecordEntries(r)))
  {
    EntriesFine(r);
    hide RecordEntries, EntriesOk, ItemsOf;
    ItemsOfOk(RecordEntries(r));
  }

  // ---- the text is the document ---------------------------------------------------------------------------

  lemma OpenQuote(name: string, k: bytes)
    ensures Ascii(name + "\"") + k == Ascii(name) + ([QUOTE] + k)
  {
    AsciiConcat(name, "\"");
    assert Ascii("\"") == [QUOTE];
  }

  lemma CloseQuote(name: string, k: bytes)
    ensures Ascii("\"" + name) + k == [QUOTE] + (Ascii(name) + k)
  {
    AsciiConcat("\"", name);
    assert Ascii("\"") == [QUOTE];
  }

  lemma WordText(s: string, k: bytes)
    requires Literal(s)
    ensures EmitValue(Str(Lit(s)), k) == Ascii("\"" + s + "\"") + k
  {
    hide Ascii, Lit, Quoted;
    StrUnfold(Lit(s), k);
    QuotedLit(s, k);
    OpenQuote("\"" + s, k);
    CloseQuote(s, [QUOTE] + k);
  }

  lemma Word(s: string, q: string, k: bytes)
    requires Literal(s) && q == "\"" + s + "\""
    ensures EmitValue(Str(Lit(s)), k) == Ascii(q) + k
  {
    hide EmitValue, Ascii, Lit;
    WordText(s, k);
  }

  lemma StateIs(state: int, k: bytes)
    ensures EmitValue(StateDoc(state), k) == StateText(state) + k
  {
    hide EmitValue, Ascii, Lit;
    if state == COMPLETE {
      Word("COMPLETE", "\"COMPLETE\"", k);
    } else if state == TRUNCATED {
      Word("TRUNCATED", "\"TRUNCATED\"", k);
    } else if state == ERROR {
      Word("ERROR", "\"ERROR\"", k);
    } else {
      Word("UNKNOWN", "\"UNKNOWN\"", k);
    }
  }

  lemma FailureIs(failure: int, k: bytes)
    ensures EmitValue(FailureDoc(failure), k) == FailureText(failure) + k
  {
    hide EmitValue, Ascii, Lit;
    if failure == FAILURE_NULL {
      TokUnfold(Ascii("null"), k);
    } else if failure == TIMEOUT {
      Word("TIMEOUT", "\"TIMEOUT\"", k);
    } else if failure == INVALID_OUTPUT {
      Word("INVALID_OUTPUT", "\"INVALID_OUTPUT\"", k);
    } else if failure == TRANSPORT_ERROR {
      Word("TRANSPORT_ERROR", "\"TRANSPORT_ERROR\"", k);
    } else {
      Word("UNKNOWN", "\"UNKNOWN\"", k);
    }
  }

  lemma StringIs(s: bytes, k: bytes)
    ensures EmitValue(Plainly(s), k) == [QUOTE] + Escaped(ForRecord, s, [QUOTE] + k)
  {
    hide Pieces, Emit;
    StrUnfold(Pieces(ForRecord, s), k);
  }

  lemma HexNoEscape(h: bytes, k: bytes)
    requires forall i :: 0 <= i < |h| ==> HexByte(h[i])
    ensures EmitValue(Plainly(h), k) == [QUOTE] + (h + ([QUOTE] + k))
  {
    hide Escaped, Plainly;
    StringIs(h, k);
    assert forall i :: 0 <= i < |h| ==> HexByte(h[i]) ==> h[i] >= 0x20 && h[i] != QUOTE && h[i] != BACKSLASH;
    EscapedPlain(ForRecord, h, [QUOTE] + k);
  }

  /** How the name of a member that follows another is written. */
  predicate Named(key: string, name: string) {
    Literal(key) && name == ",\"" + key + "\":"
  }

  lemma ParamNames()
    ensures Named("top_p", ",\"top_p\":") && Named("temperature", ",\"temperature\":") && Named("seed", ",\"seed\":")
  {
  }

  lemma HeadNames()
    ensures Named("failure_type", ",\"failure_type\":") && Named("input_hash", ",\"input_hash\":")
      && Named("ledger_seq", ",\"ledger_seq\":")
  {
  }

  lemma StringNames()
    ensures Named("model_id", ",\"model_id\":") && Named("obs_hash", ",\"obs_hash\":")
    ensures Named("oracle_id", ",\"oracle_id\":") && Named("output", ",\"output\":")
  {
  }

  lemma TailNames()
    ensures Named("output_size", ",\"output_size\":") && Named("params", ",\"params\":")
      && Named("schema_version", ",\"schema_version\":")
  {
  }

  /** A member that follows another. */
  lemma Next(key: string, name: string, v: Value, ms: seq<Entry>, k: bytes)
    requires Named(key, name)
    ensures MemberTail(ItemsOf([Entry(key, v)] + ms), k) == Ascii(name) + EmitValue(v, MemberTail(ItemsOf(ms), k))
  {
    assert ([Entry(key, v)] + ms)[1..] == ms;
    hide EmitValue, Ascii, MemberTail;
    TailIs(key, name, v, ItemsOf(ms), k);
  }

  /** The text of the entries from one of them on. */
  function Rest(r: Record, i: nat): (t: bytes)
    requires i <= 11
  {
    MemberTail(ItemsOf(RecordEntries(r)[i..]), [])
  }

  lemma EntryText(r: Record, i: nat, key: string, name: string)
    requires i < 11 && RecordEntries(r)[i].key == key && Named(key, name)
    ensures Rest(r, i) == Ascii(name) + EmitValue(RecordEntries(r)[i].v, Rest(r, i + 1))
  {
    var ms := RecordEntries(r);
    hide RecordEntries, EmitValue, Ascii, MemberTail, ItemsOf;
    assert ms[i..] == [Entry(key, ms[i].v)] + ms[i + 1..];
    Next(key, name, ms[i].v, ms[i + 1..], []);
  }

  lemma EndText(r: Record)
    ensures Rest(r, 11) == Ascii("}")
  {
    hide RecordEntries;
    assert RecordEntries(r)[11..] == [];
    BraceText();
  }

  lemma BraceText()
    ensures Ascii("}") == [CLOSE_BRACE] == [CLOSE_BRACE] + []
  {
  }

  lemma TokMember(key: string, name: string, t: bytes, rest: Items, k: bytes)
    requires Named(key, name) && (rest.Cons? ==> rest.pre == [])
    ensures MemberTail(Member(key, Tok(t), rest), k) == Field(name, t, MemberTail(rest, k))
    ensures Member(key, Tok(t), rest).Cons? && Member(key, Tok(t), rest).pre == []
  {
    hide EmitValue, Ascii, MemberTail, Lit;
    TailIs(key, name, Tok(t), rest, k);
    TokUnfold(t, MemberTail(rest, k));
  }

  lemma ParamsIs(p: Params, k: bytes)
    ensures EmitValue(ParamsDoc(p), k) == ParamsText(p, k)
  {
    var v1, v2, v3, v4 := NullOr(p.maxTokens, NULL_INT32), NullOr(p.seed, NULL_INT64),
      NullOr(p.temperature, NULL_Q16), NullOr(p.topP, NULL_Q16);
    hide *;
    var m4 := Member("top_p", Tok(v4), Nil);
    var m3 := Member("temperature", Tok(v3), m4);
    var m2 := Member("seed", Tok(v2), m3);
    ParamsDocIs(p);
    ParamNames();
    TokMember("top_p", ",\"top_p\":", v4, Nil, k);
    TokMember("temperature", ",\"temperature\":", v3, m4, k);
    TokMember("seed", ",\"seed\":", v2, m3, k);
    FirstMember(v1, m2, k);
    ParamsUnfold(p, k);
    NilTail(k);
  }

  lemma ParamsDocIs(p: Params)
    ensures ParamsDoc(p) == Obj([], Member("max_tokens", Tok(NullOr(p.maxTokens, NULL_INT32)),
      Member("seed", Tok(NullOr(p.seed, NULL_INT64)), Member("temperature", Tok(NullOr(p.temperature, NULL_Q16)),
      Member("top_p", Tok(NullOr(p.topP, NULL_Q16)), Nil)))))
  {
    hide NullOr, Lit;
  }

  lemma NilTail(k: bytes)
    ensures MemberTail(Nil, k) == Ascii("}") + k
  {
    BraceText();
  }

  lemma ParamsUnfold(p: Params, k: bytes)
    ensures ParamsText(p, k)
         == Field("{\"max_tokens\":", NullOr(p.maxTokens, NULL_INT32),
            Field(",\"seed\":", NullOr(p.seed, NULL_INT64),
            Field(",\"temperature\":", NullOr(p.temperature, NULL_Q16),
            Field(",\"top_p\":", NullOr(p.topP, NULL_Q16), Ascii("}") + k))))
  {
    hide Field, NullOr, Ascii;
  }

  lemma FirstMember(t: bytes, rest: Items, k: bytes)
    requires rest.Cons? && rest.pre == []
    ensures EmitValue(Obj([], Member("max_tokens", Tok(t), rest)), k)
         == Field("{\"max_tokens\":", t, MemberTail(rest, k))
  {
    hide EmitValue, EmitItem, Ascii, MemberTail, Lit;
    ObjUnfold(Member("max_tokens", Tok(t), rest), k);
    EmitMember("max_tokens", Tok(t), rest, k);
    TokUnfold(t, MemberTail(rest, k));
    FirstKey("max_tokens", "{\"max_tokens\":", t + MemberTail(rest, k));
  }

  lemma FirstKey(key: string, name: string, k: bytes)
    requires name == "{\"" + key + "\":"
    ensures [OPEN_BRACE] + ([QUOTE] + (Ascii(key) + ([QUOTE] + ([COLON] + k)))) == Ascii(name) + k
  {
    AsciiConcat("{\"" + key, "\":");
    AsciiConcat("{\"", key);
    assert Ascii("{\"") == [OPEN_BRACE, QUOTE] && Ascii("\":") == [QUOTE, COLON];
    hide Ascii;
    var s := Ascii(key);
    assert [OPEN_BRACE] + ([QUOTE] + (s + ([QUOTE] + ([COLON] + k)))) == ([OPEN_BRACE, QUOTE] + s + [QUOTE, COLON]) + k;
  }

  lemma EntryIs(r: Record)
    ensures var ms := RecordEntries(r);
      && ms[0] == Entry("completion_state", StateDoc(r.state)) && ms[1] == Entry("failure_type", FailureDoc(r.failure))
      && ms[2] == Entry("input_hash", Plainly(HexText(r.inputHash)))
        && ms[3] == Entry("ledger_seq", Tok(Digits(r.ledgerSeq)))
      && ms[4] == Entry("model_id", Plainly(OrEmpty(r.modelId))) && ms[5] == Entry("obs_hash", Plainly(r.obsHash))
      && ms[6] == Entry("oracle_id", Plainly(OrEmpty(r.oracleId)))
        && ms[7] == Entry("output", Plainly(OrEmpty(r.output)))
      && ms[8] == Entry("output_size", Tok(Digits(r.outputSize))) && ms[9] == Entry("params", ParamsDoc(r.params))
      && ms[10] == Entry("schema_version", Plainly(OrEmpty(r.schemaVersion)))
  {
    hide StateDoc, FailureDoc, Plainly, ParamsDoc, HexText, Digits;
  }

  /** What `ax_obs_canonicalise` writes for a hashed record is hexadecimal and the schema name. */
  predicate Sealed(r: Record) {
    r.schemaVersion == Some(Schema()) && forall i :: 0 <= i < |r.obsHash| ==> HexByte(r.obsHash[i])
  }

  lemma TokEntry(r: Record, i: nat, key: string, name: string, t: bytes)
    requires i < 11 && RecordEntries(r)[i] == Entry(key, Tok(t)) && Named(key, name)
    ensures Rest(r, i) == Field(name, t, Rest(r, i + 1))
  {
    hide RecordEntries, Rest, EmitValue, Ascii;
    EntryText(r, i, key, name);
    TokUnfold(t, Rest(r, i + 1));
  }

  lemma SchemaEntry(r: Record)
    requires r.schemaVersion == Some(Schema())
    ensures Rest(r, 10) == Field(",\"schema_version\":\"", Schema(), Ascii("\"}") + [])
  {
    hide *;
    EntryIs(r);
    EndText(r);
    TailNames();
    SchemaNames();
    SchemaPart(r);
    EntryText(r, 10, "schema_version", ",\"schema_version\":");
    SchemaValue(r.schemaVersion.value, Rest(r, 11));
    OpenQuote(",\"schema_version\":", Schema() + ([QUOTE] + Rest(r, 11)));
    CloseQuote("}", []);
    assert Ascii("}") + [] == Ascii("}");
    FieldIs(",\"schema_version\":\"", Schema(), [QUOTE] + Ascii("}"));
  }

  lemma SchemaNames()
    ensures ",\"schema_version\":" + "\"" == ",\"schema_version\":\"" && "\"" + "}" == "\"}"
  {
  }

  lemma SchemaPart(r: Record)
    requires r.schemaVersion == Some(Schema())
    ensures OrEmpty(r.schemaVersion) == Schema()
  {
  }

  lemma ParamsEntry(r: Record)
    ensures Rest(r, 9) == Ascii(",\"params\":") + ParamsText(r.params, Rest(r, 10))
  {
    hide RecordEntries, Rest, EmitValue, Ascii, ParamsDoc, ParamsText;
    EntryIs(r);
    TailNames();
    EntryText(r, 9, "params", ",\"params\":");
    ParamsIs(r.params, Rest(r, 10));
  }

  lemma TailUnfold(r: Record)
    requires r.schemaVersion == Some(Schema())
    ensures TailText(r, []) == Field(",\"output_size\":", Digits(r.outputSize),
      Ascii(",\"params\":") + ParamsText(r.params, Field(",\"schema_version\":\"", Schema(), Ascii("\"}") + [])))
  {
    hide Field, Digits, Ascii, ParamsText, Schema;
  }

  lemma TailIsText(r: Record)
    requires Sealed(r)
    ensures Rest(r, 8) == TailText(r, [])
  {
    hide *;
    SealedSchema(r);
    EntryIs(r);
    TailNames();
    SchemaEntry(r);
    ParamsEntry(r);
    TailUnfold(r);
    TokEntry(r, 8, "output_size", ",\"output_size\":", Digits(r.outputSize));
  }

  lemma SealedSchema(r: Record)
    requires Sealed(r)
    ensures r.schemaVersion == Some(Schema())
  {
  }

  lemma SchemaText()
    ensures forall i :: 0 <= i < |Schema()| ==> Schema()[i] >= 0x20 && Schema()[i] != QUOTE && Schema()[i] != BACKSLASH
  {
    assert Schema() == [65, 88, 58, 79, 66, 83, 58, 118, 49];
  }

  lemma SchemaValue(s: bytes, k: bytes)
    requires s == Schema()
    ensures EmitValue(Plainly(s), k) == [QUOTE] + (Schema() + ([QUOTE] + k))
  {
    SchemaText();
    hide Schema, Plainly, Escaped;
    StringIs(s, k);
    EscapedPlain(ForRecord, s, [QUOTE] + k);
  }

  /** A string entry. */
  lemma StringEntry(r: Record, i: nat, key: string, name: string, s: Option<bytes>)
    requires i < 11 && RecordEntries(r)[i] == Entry(key, Plainly(OrEmpty(s))) && Named(key, name)
    ensures Rest(r, i) == StrField(name + "\"", s, Rest(r, i + 1))
  {
    hide RecordEntries, Rest, EmitValue, Ascii, Plainly, Escaped;
    EntryText(r, i, key, name);
    StringIs(OrEmpty(s), Rest(r, i + 1));
    OpenQuote(name, Escaped(ForRecord, OrEmpty(s), [QUOTE] + Rest(r, i + 1)));
  }

  lemma HexEntry(r: Record, i: nat, key: string, name: string, h: bytes)
    requires i < 11 && RecordEntries(r)[i] == Entry(key, Plainly(h)) && Named(key, name)
    requires forall j :: 0 <= j < |h| ==> HexByte(h[j])
    ensures Rest(r, i) == Ascii(name + "\"") + (h + ([QUOTE] + Rest(r, i + 1)))
  {
    hide RecordEntries, Rest, EmitValue, Ascii, Plainly, HexByte;
    EntryText(r, i, key, name);
    HexNoEscape(h, Rest(r, i + 1));
    OpenQuote(name, h + ([QUOTE] + Rest(r, i + 1)));
  }

  lemma StringsUnfold(r: Record, hash: bytes, k: bytes)
    ensures StringsText(r, hash, k)
         == StrField(",\"model_id\":\"", r.modelId,
            Field(",\"obs_hash\":\"", hash,
            StrField("\",\"oracle_id\":\"", r.oracleId,
            StrField(",\"output\":\"", r.output, k))))
  {
    hide Field, StrField;
  }

  lemma Names()
    ensures ",\"output\":" + "\"" == ",\"output\":\"" && ",\"oracle_id\":" + "\"" == ",\"oracle_id\":\""
    ensures ",\"obs_hash\":" + "\"" == ",\"obs_hash\":\"" && ",\"model_id\":" + "\"" == ",\"model_id\":\""
    ensures "\"" + ",\"oracle_id\":\"" == "\",\"oracle_id\":\""
    ensures "\"" + ",\"ledger_seq\":" == "\",\"ledger_seq\":" && ",\"input_hash\":" + "\"" == ",\"input_hash\":\""
  {
  }

  lemma FieldIs(name: string, value: bytes, k: bytes)
    ensures Field(name, value, k) == Ascii(name) + (value + k)
  {
  }

  lemma SealedHex(r: Record)
    requires Sealed(r)
    ensures forall i :: 0 <= i < |r.obsHash| ==> HexByte(r.obsHash[i])
  {
  }

  lemma StringsIsText(r: Record)
    requires Sealed(r)
    ensures Rest(r, 4) == StringsText(r, r.obsHash, Rest(r, 8))
  {
    hide *;
    EntryIs(r);
    SealedHex(r);
    Names();
    StringNames();
    StringEntry(r, 7, "output", ",\"output\":", r.output);
    StringEntry(r, 6, "oracle_id", ",\"oracle_id\":", r.oracleId);
    HexEntry(r, 5, "obs_hash", ",\"obs_hash\":", r.obsHash);
    StringEntry(r, 4, "model_id", ",\"model_id\":", r.modelId);
    QuoteMoves(",\"oracle_id\":\"", r.oracleId, Rest(r, 7));
    FieldIs(",\"obs_hash\":\"", r.obsHash, [QUOTE] + Rest(r, 6));
    FieldIs(",\"obs_hash\":\"", r.obsHash, StrField("\",\"oracle_id\":\"", r.oracleId, Rest(r, 7)));
    StringsUnfold(r, r.obsHash, Rest(r, 8));
  }

  /** The closing quote of one member is written with the name of the next. */
  lemma QuoteMoves(name: string, s: Option<bytes>, k: bytes)
    ensures [QUOTE] + StrField(name, s, k) == StrField("\"" + name, s, k)
  {
    hide Ascii, Escaped;
    CloseQuote(name, Escaped(ForRecord, OrEmpty(s), [QUOTE] + k));
  }

  lemma HeadUnfold(r: Record, k: bytes)
    ensures HeadText(r, k)
         == Field("{\"completion_state\":", StateText(r.state),
            Field(",\"failure_type\":", FailureText(r.failure),
            Field(",\"input_hash\":\"", HexText(r.inputHash),
            Field("\",\"ledger_seq\":", Digits(r.ledgerSeq), k))))
  {
    hide Field, StateText, FailureText, HexText, Digits;
  }

  lemma LedgerSeqText(r: Record)
    ensures Rest(r, 2) == Field(",\"input_hash\":\"", HexText(r.inputHash),
      Field("\",\"ledger_seq\":", Digits(r.ledgerSeq), Rest(r, 4)))
  {
    hide *;
    EntryIs(r);
    HexTextIsHex(r.inputHash);
    Names();
    HeadNames();
    TokEntry(r, 3, "ledger_seq", ",\"ledger_seq\":", Digits(r.ledgerSeq));
    HexEntry(r, 2, "input_hash", ",\"input_hash\":", HexText(r.inputHash));
    CloseQuote(",\"ledger_seq\":", Digits(r.ledgerSeq) + Rest(r, 4));
    FieldIs(",\"ledger_seq\":", Digits(r.ledgerSeq), Rest(r, 4));
    FieldIs("\",\"ledger_seq\":", Digits(r.ledgerSeq), Rest(r, 4));
    FieldIs(",\"input_hash\":\"", HexText(r.inputHash), [QUOTE] + Rest(r, 3));
  }

  lemma HeadIsText(r: Record)
    ensures EmitValue(Document(r), []) == HeadText(r, Rest(r, 4))
  {
    hide *;
    EntryIs(r);
    HeadNames();
    LedgerSeqText(r);
    EntryText(r, 1, "failure_type", ",\"failure_type\":");
    FailureIs(r.failure, Rest(r, 2));
    FieldIs(",\"failure_type\":", FailureText(r.failure), Rest(r, 2));
    ItemsFirst(r);
    StateIs(r.state, Rest(r, 1));
    FieldIs("{\"completion_state\":", StateText(r.state), Rest(r, 1));
    HeadUnfold(r, Rest(r, 4));
  }

  lemma ItemsFirst(r: Record)
    ensures EmitValue(Document(r), []) == Ascii("{\"completion_state\":") + EmitValue(StateDoc(r.state), Rest(r, 1))
  {
    var ms := RecordEntries(r);
    EntryIs(r);
    hide RecordEntries, StateDoc, Ascii, EmitItem, EmitValue, Lit;
    var items := ItemsOf(ms);
    assert items == Member("completion_state", StateDoc(r.state), ItemsOf(ms[1..]));
    ObjUnfold(items, []);
    EmitMember("completion_state", StateDoc(r.state), ItemsOf(ms[1..]), []);
    FirstKey("completion_state", "{\"completion_state\":", EmitValue(StateDoc(r.state), Rest(r, 1)));
  }

  /** The canonical text is exactly the document, whatever the strings contain. */
  lemma CanonIsDocument(r: Record)
    requires Sealed(r)
    ensures Canon(r, true) == EmitValue(Document(r), []) && ValueOk(Document(r))
  {
    hide Sealed, Rest, HeadText, StringsText, TailText, EmitValue, Document;
    HeadIsText(r);
    StringsIsText(r);
    TailIsText(r);
    DocumentOk(r);
  }
}
