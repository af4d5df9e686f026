/** What a standard JSON reader finds in the two texts that the gateway formats itself: the request
    body that goes to the oracle, and the payload of the start-up frame. */
module WrittenTexts {
  import opened Bytes
  import opened Utf8
  import opened Numbers
  import opened JsonString
  import opened JsonDoc
  import opened Canonical
  import opened RequestBody
  import opened JsonValue
  import opened JsonReader
  import opened RecordDoc
  import opened RecordReading
  import opened Gateway

  /** A member in front of others. */
  function Put(key: string, v: Py, m: map<bytes, Py>): map<bytes, Py> {
    map[Ascii(key) := v] + m
  }

  // ---- the request body ----------------------------------------------------------------------------

  /** A decimal with six places; `RequestBody.ReadQ16Of` reads the Q16.16 value back from it. */
  function Decimal(q: nat): Py {
    PyFloat(Q16Text(q))
  }

  function SentMessages(prompt: bytes): Py {
    PyList([PyDict(Put("role", PyStr(Ascii("user")), Put("content", PyStr(prompt), map[])))])
  }

  function SentTopP(p: Params, prompt: bytes): map<bytes, Py>
    requires Sendable(p)
  {
    var m := Put("messages", SentMessages(prompt), map[]);
    if p.topP == NULL_Q16 then m else Put("top_p", Decimal(p.topP), m)
  }

  function SentTemperature(p: Params, prompt: bytes): map<bytes, Py>
    requires Sendable(p)
  {
    if p.temperature == NULL_Q16 then SentTopP(p, prompt)
    else Put("temperature", Decimal(p.temperature), SentTopP(p, prompt))
  }

  /** The request: model, max_tokens, temperature and top_p unless null, one user message. */
  function Sent(model: bytes, p: Params, prompt: bytes): Py
    requires Sendable(p)
  {
    PyDict(Put("model", PyStr(model), Put("max_tokens", PyInt(p.maxTokens), SentTemperature(p, prompt))))
  }

  lemma MemberValue(key: string, v: Value, rest: Items)
    requires ValueOk(v) && ItemsOk(rest) && StrictValue(v) && StrictItems(rest)
    ensures ItemsOk(Member(key, v, rest)) && StrictItems(Member(key, v, rest))
    ensures DenoteItems(Member(key, v, rest)) == Put(key, Denote(v), DenoteItems(rest))
  {
    hide ValueOk, ItemsOk, StrictValue, StrictItems, Member, Denote, DenoteItems, Ascii;
    KeyIs(key, v, rest);
    MemberStrict(key, v, rest);
  }

  lemma TextValue(style: Style, s: bytes)
    ensures var v := Str(Pieces(style, s));
      ValueOk(v) && StrictValue(v) && Denote(v) == PyStr(s)
  {
    hide Pieces, Text, StrictPieces;
    PiecesText(style, s);
    PiecesStrict(style, s);
  }

  lemma IntValue(n: nat)
    ensures var v := Tok(IntText(n));
      ValueOk(v) && StrictValue(v) && Denote(v) == PyInt(n)
  {
    hide Digits, TokenOk, DenoteToken;
    assert IntText(n) == Digits(n);
    DigitsDenote(n);
    DigitsStrict(n);
  }

  lemma DecimalValue(q: nat)
    ensures var v := Tok(Q16Text(q));
      ValueOk(v) && StrictValue(v) && Denote(v) == Decimal(q)
  {
    NumberTok(q);
    DecimalToken(q);
    hide Q16Text, IsNumber, DenoteToken, AllTok, Ascii;
  }

  lemma DecimalToken(q: nat)
    ensures IsNumber(Q16Text(q)) && DenoteToken(Q16Text(q)) == PyFloat(Q16Text(q))
  {
    var d, f := Digits(q / 65536), Pad6(Fraction(q));
    var t := Q16Text(q);
    assert IsDigit(d[0]) && t[0] == d[0];
    DecimalParts(d, f);
    if q / 65536 > 0 {
      NoLeadingZero(q / 65536);
    } else {
      assert |Digits(0)| == 1;
    }
    FirstLetters();
    hide Digits, Pad6, Fraction, Ascii;
    assert t == d + ([46] + f);
  }

  lemma DecimalParts(d: bytes, f: bytes)
    requires AllDigits(d) && d != [] && AllDigits(f) && f != []
    ensures var t := d + ([46] + f);
      && DigitSpan(t) == |d| && t[|d|..] == [46] + f && IsFraction([46] + f)
      && t[0] == d[0] && TakeInt(t) == Some((NatOf(d), [46] + f))
  {
    var t := d + ([46] + f);
    DigitSpanOf(d, [46] + f);
    assert t[|d|..] == [46] + f && t[..|d|] == d;
    assert ([46] + f)[1..] == f;
    DigitSpanOf(f, []);
    assert f + [] == f && ([46] + f)[1 + |f|..] == [];
    assert IsDigit(d[0]);
    hide NatOf;
  }

  lemma MessagesRead(prompt: bytes)
    ensures var v := MessagesValue(prompt);
      ValueOk(v) && StrictValue(v) && Denote(v) == SentMessages(prompt)
  {
    var content := Member("content", Str(Pieces(ForBody, prompt)), Nil);
    var role := Member("role", Str(Lit("user")), content);
    TextValue(ForBody, prompt);
    TextValue(ForBody, Ascii("user"));
    NilRead();
    hide Pieces, Member, Ascii, Text, StrictPieces;
    MemberValue("content", Str(Pieces(ForBody, prompt)), Nil);
    MemberValue("role", Str(Lit("user")), content);
    ElementRead(Obj([], role));
  }

  lemma NilRead()
    ensures ItemsOk(Nil) && StrictItems(Nil) && DenoteItems(Nil) == map[] && AllWs([])
  {
  }

  lemma ElementRead(v: Value)
    requires ValueOk(v) && StrictValue(v)
    ensures var items := Cons([], [], [], [], v, [], Nil);
      ItemsOk(items) && StrictItems(items) && DenoteList(items) == [Denote(v)]
  {
    ElementOk(v);
    var items := Cons([], [], [], [], v, [], Nil);
    assert StrictPieces([]) && StrictItems(Nil);
    assert DenoteList(Nil) == [] && [Denote(v)] + [] == [Denote(v)];
    hide LooseValue, Decodable, StrictValue, Denote;
  }

  lemma TopPRead(p: Params, prompt: bytes)
    requires Sendable(p)
    ensures var m := TopPMembers(p, prompt);
      ItemsOk(m) && StrictItems(m) && DenoteItems(m) == SentTopP(p, prompt)
  {
    MessagesRead(prompt);
    NilRead();
    hide MessagesValue, SentMessages, Member, Q16Text, Put, Ascii, ValueOk, StrictValue, Denote, ItemsOk, StrictItems;
    var m := Member("messages", MessagesValue(prompt), Nil);
    MemberValue("messages", MessagesValue(prompt), Nil);
    if p.topP != NULL_Q16 {
      DecimalValue(p.topP);
      MemberValue("top_p", Tok(Q16Text(p.topP)), m);
    }
  }

  lemma TemperatureRead(p: Params, prompt: bytes)
    requires Sendable(p)
    ensures var m := TemperatureMembers(p, prompt);
      ItemsOk(m) && StrictItems(m) && DenoteItems(m) == SentTemperature(p, prompt)
  {
    hide Member, Q16Text, Put, Ascii, ValueOk, StrictValue, Denote, ItemsOk, StrictItems, SentTopP, TopPMembers;
    TopPRead(p, prompt);
    if p.temperature != NULL_Q16 {
      DecimalValue(p.temperature);
      MemberValue("temperature", Tok(Q16Text(p.temperature)), TopPMembers(p, prompt));
    }
  }

  lemma BodyItemsRead(model: bytes, p: Params, prompt: bytes)
    requires Sendable(p)
    ensures var m := BodyItems(model, p, prompt);
      ItemsOk(m) && StrictItems(m) && PyDict(DenoteItems(m)) == Sent(model, p, prompt)
  {
    hide Member, IntText, Put, Ascii, ValueOk, StrictValue, Denote, ItemsOk, StrictItems, SentTemperature;
    hide TemperatureMembers, Pieces;
    TemperatureRead(p, prompt);
    IntValue(p.maxTokens);
    TextValue(ForBody, model);
    var tokens := Member("max_tokens", Tok(IntText(p.maxTokens)), TemperatureMembers(p, prompt));
    MemberValue("max_tokens", Tok(IntText(p.maxTokens)), TemperatureMembers(p, prompt));
    MemberValue("model", Str(Pieces(ForBody, model)), tokens);
  }

  lemma BodyDocRead(model: bytes, p: Params, prompt: bytes)
    requires Sendable(p)
    ensures var v := BodyDoc(model, p, prompt);
      ValueOk(v) && StrictValue(v) && Denote(v) == Sent(model, p, prompt)
  {
    hide *;
    BodyItemsRead(model, p, prompt);
    ObjRead(BodyItems(model, p, prompt));
    DocIs(model, p, prompt);
  }

  lemma ObjRead(items: Items)
    requires ItemsOk(items) && StrictItems(items)
    ensures var v := Obj([], items);
      ValueOk(v) && StrictValue(v) && Denote(v) == PyDict(DenoteItems(items))
  {
    hide DenoteItems, LooseItems, DecodableItems, StrictItems;
    NilRead();
  }

  // ---- the body is UTF-8 --------------------------------------------------------------------------------

  lemma QuotedPartValid(name: string, s: bytes, k: bytes)
    requires Printable(name) && ValidUtf8(s) && ValidUtf8(k)
    ensures ValidUtf8(Ascii(name) + (Escaped(ForBody, s, []) + ([QUOTE] + k)))
  {
    hide ValidUtf8, Escaped, Ascii;
    NameValid(name);
    EscapedValid(ForBody, s);
    QuoteValid();
    ValidConcat([QUOTE], k);
    ValidConcat(Escaped(ForBody, s, []), [QUOTE] + k);
    ValidConcat(Ascii(name), Escaped(ForBody, s, []) + ([QUOTE] + k));
  }

  lemma NumberValid(n: nat)
    ensures ValidUtf8(IntText(n)) && ValidUtf8(Q16Text(n))
  {
    DigitsPlain(n);
    DigitsPlain(n / 65536);
    assert forall i :: 0 <= i < |Pad6(Fraction(n))| ==> IsDigit(Pad6(Fraction(n))[i]);
    hide ValidUtf8, Digits, Pad6, Fraction;
    PlainValid(IntText(n));
    PlainValid(Q16Text(n));
  }

  lemma PromptValid(prompt: bytes)
    requires ValidUtf8(prompt)
    ensures ValidUtf8(PromptText(prompt))
  {
    hide ValidUtf8, Ascii, Escaped, Printable;
    PromptNames();
    NameValid("}]}");
    QuotedPartValid(",\"messages\":[{\"role\":\"user\",\"content\":\"", prompt, Ascii("}]}"));
  }

  lemma PromptNames()
    ensures Printable("}]}") && Printable(",\"messages\":[{\"role\":\"user\",\"content\":\"")
  {
  }

  lemma BodyTailValid(p: Params, prompt: bytes)
    requires Sendable(p) && ValidUtf8(prompt)
    ensures ValidUtf8(TemperatureText(p, TopPText(p, PromptText(prompt))))
  {
    hide ValidUtf8, Ascii, Escaped, Q16Text, Field;
    PromptValid(prompt);
    hide PromptText;
    if p.topP != NULL_Q16 {
      NumberValid(p.topP);
      FieldValid(",\"top_p\":", Q16Text(p.topP), PromptText(prompt));
    }
    if p.temperature != NULL_Q16 {
      NumberValid(p.temperature);
      FieldValid(",\"temperature\":", Q16Text(p.temperature), TopPText(p, PromptText(prompt)));
    }
  }

  lemma BodyValid(model: bytes, p: Params, prompt: bytes)
    requires Sendable(p) && ValidUtf8(model) && ValidUtf8(prompt)
    ensures ValidUtf8(BodyText(model, p, prompt))
  {
    hide ValidUtf8, Ascii, Escaped, IntText, Field, TemperatureText, TopPText, PromptText;
    var t := TemperatureText(p, TopPText(p, PromptText(prompt)));
    BodyTailValid(p, prompt);
    NumberValid(p.maxTokens);
    FieldValid(",\"max_tokens\":", IntText(p.maxTokens), t);
    QuotedPartValid("{\"model\":\"", model, Field(",\"max_tokens\":", IntText(p.maxTokens), t));
  }

  /** Whatever the identifier and the prompt contain, a standard reader finds in the request body
      exactly the request: the model, the tokens, each parameter under its own name or not at all if
      it is null, and the prompt as the one user message. */
  lemma BodyRead(model: bytes, p: Params, prompt: bytes)
    requires Sendable(p) && ValidUtf8(model) && ValidUtf8(prompt)
    ensures Loads(BodyText(model, p, prompt)) == Some(Sent(model, p, prompt))
  {
    hide *;
    BodyDocRead(model, p, prompt);
    BodyIsDocument(model, p, prompt);
    BodyValid(model, p, prompt);
    NilRead();
    var s := EmitValue(BodyDoc(model, p, prompt), []);
    assert [] + s == s;
    LoadsWritten([], BodyDoc(model, p, prompt), []);
  }

  // ---- the start-up frame ---------------------------------------------------------------------------------

  /** Component, hash of the configuration file, type. */
  function StartUpValue(g: Config): Py {
    PyDict(Put("component", PyStr(Ascii("axioma-gateway")),
           Put("config_sha256", PyStr(HexText(g.c.sha256(g.raw))),
           Put("evidence_type", PyStr(Ascii("AX:STATE:v1")), map[]))))
  }

  function StartUpItems(hex: bytes): Items {
    Member("component", Str(Lit("axioma-gateway")),
    Member("config_sha256", Plainly(hex),
    Member("evidence_type", Str(Lit("AX:STATE:v1")), Nil)))
  }

  lemma StartUpIs(g: Config)
    ensures StartUpValue(g)
         == PyDict(Put("component", PyStr(Ascii("axioma-gateway")),
              Put("config_sha256", PyStr(HexText(g.c.sha256(g.raw))),
              Put("evidence_type", PyStr(Ascii("AX:STATE:v1")), map[]))))
  {
    hide Put, Ascii, HexText;
  }

  lemma StartUpRead(hex: bytes)
    ensures var m := StartUpItems(hex);
      && ItemsOk(m) && StrictItems(m)
      && DenoteItems(m) == Put("component", PyStr(Ascii("axioma-gateway")), Put("config_sha256", PyStr(hex),
           Put("evidence_type", PyStr(Ascii("AX:STATE:v1")), map[])))
  {
    TextValue(ForBody, Ascii("axioma-gateway"));
    TextValue(ForBody, Ascii("AX:STATE:v1"));
    TextValue(ForRecord, hex);
    NilRead();
    hide Member, Pieces, Put, Ascii, ValueOk, StrictValue, Denote, ItemsOk, StrictItems;
    var m3 := Member("evidence_type", Str(Lit("AX:STATE:v1")), Nil);
    var m2 := Member("config_sha256", Plainly(hex), m3);
    MemberValue("evidence_type", Str(Lit("AX:STATE:v1")), Nil);
    MemberValue("config_sha256", Plainly(hex), m3);
    MemberValue("component", Str(Lit("axioma-gateway")), m2);
  }

  lemma AsciiJoin(a: string, b: string, k: bytes)
    ensures Ascii(a) + (Ascii(b) + k) == Ascii(a + b) + k
  {
    AsciiConcat(a, b);
    hide Ascii;
    Assoc(Ascii(a), Ascii(b), k);
  }

  /** The payload, cut at its words. */
  function StartUpJoined(hex: bytes): bytes {
    Ascii("{\"component\":") + (Ascii("\"axioma-gateway\"")
    + (Ascii(",\"config_sha256\":") + ([QUOTE] + (hex + ([QUOTE]
    + (Ascii(",\"evidence_type\":") + (Ascii("\"AX:STATE:v1\"") + Ascii("}"))))))))
  }

  lemma StartUpText(hex: bytes)
    requires forall i :: 0 <= i < |hex| ==> HexByte(hex[i])
    ensures EmitValue(Obj([], StartUpItems(hex)), []) == StartUpJoined(hex)
  {
    hide Ascii, Member, Lit, Plainly, EmitItem, EmitValue, HexByte, MemberTail;
    var m3 := Member("evidence_type", Str(Lit("AX:STATE:v1")), Nil);
    var m2 := Member("config_sha256", Plainly(hex), m3);
    MemberShape("evidence_type", Str(Lit("AX:STATE:v1")), Nil);
    MemberShape("config_sha256", Plainly(hex), m3);
    MemberShape("component", Str(Lit("axioma-gateway")), m2);
    ObjUnfold(Member("component", Str(Lit("axioma-gateway")), m2), []);
    EmitMember("component", Str(Lit("axioma-gateway")), m2, []);
    Word("axioma-gateway", "\"axioma-gateway\"", MemberTail(m2, []));
    FirstKey("component", "{\"component\":", Ascii("\"axioma-gateway\"") + MemberTail(m2, []));
    TailIs("config_sha256", ",\"config_sha256\":", Plainly(hex), m3, []);
    HexNoEscape(hex, MemberTail(m3, []));
    TypeText();
  }

  lemma TypeText()
    ensures MemberTail(Member("evidence_type", Str(Lit("AX:STATE:v1")), Nil), [])
         == Ascii(",\"evidence_type\":") + (Ascii("\"AX:STATE:v1\"") + Ascii("}"))
  {
    hide Ascii, Member, Lit, EmitItem, EmitValue, MemberTail;
    TailIs("evidence_type", ",\"evidence_type\":", Str(Lit("AX:STATE:v1")), Nil, []);
    Word("AX:STATE:v1", "\"AX:STATE:v1\"", MemberTail(Nil, []));
    NilTail([]);
    assert Ascii("}") + [] == Ascii("}");
  }

  lemma MemberShape(key: string, v: Value, rest: Items)
    ensures Member(key, v, rest).Cons? && Member(key, v, rest).pre == []
  {
    hide Lit;
  }

  lemma PayloadText(g: Config, hex: bytes)
    requires hex == HexText(g.c.sha256(g.raw))
    ensures StatePayload(g) == StartUpJoined(hex)
  {
    var a, b, d := "{\"component\":", "\"axioma-gateway\"", ",\"config_sha256\":";
    var e, f := ",\"evidence_type\":", "\"AX:STATE:v1\"";
    PayloadNames();
    TypeName();
    hide Ascii, HexText;
    var t := Ascii(e) + (Ascii(f) + Ascii("}"));
    AsciiConcat(f, "}");
    AsciiConcat(e, f + "}");
    CloseQuote(e + (f + "}"), []);
    assert t + [] == t && Ascii("\"" + (e + (f + "}"))) + [] == Ascii("\"" + (e + (f + "}")));
    assert Ascii("\"" + (e + (f + "}"))) == [QUOTE] + t;
    OpenQuote(d, hex + ([QUOTE] + t));
    AsciiJoin(b, d + "\"", hex + ([QUOTE] + t));
    AsciiJoin(a, b + (d + "\""), hex + ([QUOTE] + t));
    Assoc(Ascii(a + (b + (d + "\""))), hex, [QUOTE] + t);
  }

  lemma PayloadNames()
    ensures "{\"component\":" + ("\"axioma-gateway\"" + (",\"config_sha256\":" + "\""))
         == "{\"component\":\"axioma-gateway\",\"config_sha256\":\""
  {
  }

  lemma TypeName()
    ensures "\"" + (",\"evidence_type\":" + ("\"AX:STATE:v1\"" + "}")) == "\",\"evidence_type\":\"AX:STATE:v1\"}"
  {
  }

  lemma PayloadPlain(g: Config)
    ensures ValidUtf8(StatePayload(g))
  {
    hide ValidUtf8, HexText, Ascii, Printable;
    var a, b := "{\"component\":\"axioma-gateway\",\"config_sha256\":\"", "\",\"evidence_type\":\"AX:STATE:v1\"}";
    var hex := HexText(g.c.sha256(g.raw));
    PayloadPrintable();
    NameValid(a);
    NameValid(b);
    HexPlain(g.c.sha256(g.raw));
    PlainValid(hex);
    ValidConcat(Ascii(a), hex);
    ValidConcat(Ascii(a) + hex, Ascii(b));
  }

  lemma PayloadPrintable()
    ensures Printable("{\"component\":\"axioma-gateway\",\"config_sha256\":\"")
    ensures Printable("\",\"evidence_type\":\"AX:STATE:v1\"}")
  {
    hide Printable;
    FirstPrintable();
    LastPrintable();
    PrintableConcat("{\"component\":\"axioma", "-gateway\",\"config_sha256\":\"");
    FirstParts();
  }

  lemma FirstParts()
    ensures "{\"component\":\"axioma-gateway\",\"config_sha256\":\""
         == "{\"component\":\"axioma" + "-gateway\",\"config_sha256\":\""
  {
  }

  lemma FirstPrintable()
    ensures Printable("{\"component\":\"axioma") && Printable("-gateway\",\"config_sha256\":\"")
  {
  }

  lemma LastPrintable()
    ensures Printable("\",\"evidence_type\":\"AX:STATE:v1\"}")
  {
  }

  lemma PrintableConcat(a: string, b: string)
    requires Printable(a) && Printable(b)
    ensures Printable(a + b)
  {
  }

  /** A standard reader finds in the payload of the start-up frame the hash of the configuration file
      under its own key, and nothing else but component and type. */
  lemma PayloadRead(g: Config)
    ensures Loads(StatePayload(g)) == Some(StartUpValue(g))
  {
    hide *;
    var hex := HexText(g.c.sha256(g.raw));
    StartUpRead(hex);
    StartUpIs(g);
    HexTextIsHex(g.c.sha256(g.raw));
    StartUpText(hex);
    PayloadText(g, hex);
    PayloadPlain(g);
    ObjRead(StartUpItems(hex));
    NilRead();
    var s := EmitValue(Obj([], StartUpItems(hex)), []);
    assert [] + s == s;
    LoadsWritten([], Obj([], StartUpItems(hex)), []);
  }
}
