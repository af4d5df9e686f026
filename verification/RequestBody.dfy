/** The upstream request body of gateway/src/gw_main.c: Q16.16 decimals, the bounded
    formatting, and the document that is sent. */
module RequestBody {
  import opened Bytes
  import opened Utf8
  import opened Numbers
  import opened JsonString
  import opened JsonScan
  import opened JsonDoc
  import opened Messages
  import opened Canonical

  // ---- Q16.16 decimals ---------------------------------------------------------------------

  const MILLION := 1_000_000

  /** The six decimals that `q16_to_dec` prints, as a number. */
  function Fraction(q: nat): (f: nat)
    ensures f < MILLION
  {
    q % 65536 * MILLION / 65536
  }

  /** The printed value in millionths. */
  function Micro(q: nat): nat {
    q / 65536 * MILLION + Fraction(q)
  }

  /** Zero-padded decimal of `w` digits. */
  function Padded(n: nat, w: nat): (r: bytes)
    ensures |r| == w && AllDigits(r)
  {
    if w == 0 then [] else Padded(n / 10, w - 1) + [48 + n % 10]
  }

  /** "%06u". */
  function Pad6(n: nat): (r: bytes)
    ensures |r| == 6 && AllDigits(r)
  {
    Padded(n, 6)
  }

  /** `q16_to_dec` of a non-negative value. */
  function Q16Text(q: nat): (r: bytes) {
    Digits(q / 65536) + ([46] + Pad6(Fraction(q)))
  }

  /** The printed value is the exact one rounded down to a millionth. */
  lemma MicroExact(q: nat)
    ensures Micro(q) == q * MILLION / 65536
    ensures 0 <= q * MILLION - Micro(q) * 65536 < 65536
  {
    var h, l := q / 65536, q % 65536;
    assert q * MILLION == h * MILLION * 65536 + l * MILLION;
  }

  lemma MicroStrict(q: nat, q': nat)
    requires q < q'
    ensures Micro(q) < Micro(q')
  {
    MicroExact(q);
    MicroExact(q');
  }

  /** The least Q16.16 value not below `m` millionths. */
  function FromMicro(m: nat): nat {
    (m * 65536 + MILLION - 1) / MILLION
  }

  lemma FromMicroOf(q: nat)
    ensures FromMicro(Micro(q)) == q
  {
    MicroExact(q);
  }

  /** Read a decimal with six places back into Q16.16. */
  function ReadQ16(s: bytes): (r: Option<(nat, bytes)>) {
    var n := DigitSpan(s);
    if n == 0 || |s| < n + 7 || s[n] != 46 || !AllDigits(s[n + 1..n + 7]) then None
    else Some((FromMicro(NatOf(s[..n]) * MILLION + NatOf(s[n + 1..n + 7])), s[n + 7..]))
  }

  lemma {:induction false} NatOfPadded(n: nat, w: nat)
    requires n < Pow10(w)
    ensures NatOf(Padded(n, w)) == n
  {
    if w > 0 {
      NatOfPadded(n / 10, w - 1);
      assert Padded(n, w)[..w - 1] == Padded(n / 10, w - 1);
    }
  }

  /** The decimal sent upstream determines the recorded parameter. */
  lemma ReadQ16Of(q: nat, k: bytes)
    ensures ReadQ16(Q16Text(q) + k) == Some((q, k))
  {
    hide Padded, Fraction, FromMicro;
    var d, f := Digits(q / 65536), Pad6(Fraction(q));
    var s := Q16Text(q) + k;
    assert s == d + ([46] + (f + k));
    DigitSpanOf(d, [46] + (f + k));
    NatOfDigits(q / 65536);
    assert Pow10(3) == 1000 && Pow10(6) == MILLION;
    NatOfPadded(Fraction(q), 6);
    assert s[..|d|] == d && s[|d| + 1..|d| + 7] == f && s[|d| + 7..] == k;
    FromMicroOf(q);
  }

  // ---- the document --------------------------------------------------------------------------

  /** A literal key or value, written as it is. */
  function Lit(s: string): (ps: seq<Piece>)
    ensures PiecesOk(ps) && LoosePieces(ps)
  {
    Pieces(ForBody, Ascii(s))
  }

  function Member(key: string, v: Value, rest: Items): Items {
    Cons([], Lit(key), [], [], v, [], rest)
  }

  function MessagesValue(prompt: bytes): Value {
    Arr([], Cons([], [], [], [],
      Obj([], Member("role", Str(Lit("user")), Member("content", Str(Pieces(ForBody, prompt)), Nil))), [], Nil))
  }

  /** top_p, when it is not null, and the messages. */
  function TopPMembers(p: Params, prompt: bytes): Items
    requires p.topP >= 0 || p.topP == NULL_Q16
  {
    var m := Member("messages", MessagesValue(prompt), Nil);
    if p.topP == NULL_Q16 then m else Member("top_p", Tok(Q16Text(p.topP)), m)
  }

  function TemperatureMembers(p: Params, prompt: bytes): Items
    requires Sendable(p)
  {
    var m := TopPMembers(p, prompt);
    if p.temperature == NULL_Q16 then m else Member("temperature", Tok(Q16Text(p.temperature)), m)
  }

  /** What `handle_request` has checked about the parameters. */
  predicate Sendable(p: Params) {
    && 0 < p.maxTokens <= 200_000
    && (p.temperature == NULL_Q16 || 0 <= p.temperature <= 131_072)
    && (p.topP == NULL_Q16 || 0 <= p.topP <= 65_536)
  }

  function BodyItems(model: bytes, p: Params, prompt: bytes): Items
    requires Sendable(p)
  {
    Member("model", Str(Pieces(ForBody, model)),
    Member("max_tokens", Tok(IntText(p.maxTokens)), TemperatureMembers(p, prompt)))
  }

  /** The request as a document: exactly these members, whatever the strings contain. */
  function BodyDoc(model: bytes, p: Params, prompt: bytes): Value
    requires Sendable(p)
  {
    Obj([], BodyItems(model, p, prompt))
  }

  // ---- the text that is formatted --------------------------------------------------------------

  function TopPText(p: Params, k: bytes): (r: bytes)
    requires p.topP >= 0 || p.topP == NULL_Q16
  {
    if p.topP == NULL_Q16 then k else Field(",\"top_p\":", Q16Text(p.topP), k)
  }

  function TemperatureText(p: Params, k: bytes): (r: bytes)
    requires Sendable(p)
  {
    if p.temperature == NULL_Q16 then k else Field(",\"temperature\":", Q16Text(p.temperature), k)
  }

  function PromptText(prompt: bytes): (r: bytes) {
    Ascii(",\"messages\":[{\"role\":\"user\",\"content\":\"") +
    (Escaped(ForBody, prompt, []) + ([QUOTE] + Ascii("}]}")))
  }

  /** What the `req_put` calls write. */
  function BodyText(model: bytes, p: Params, prompt: bytes): (r: bytes)
    requires Sendable(p)
  {
    Ascii("{\"model\":\"") + (Escaped(ForBody, model, []) + ([QUOTE] +
    Field(",\"max_tokens\":", IntText(p.maxTokens),
    TemperatureText(p, TopPText(p, PromptText(prompt))))))
  }

  predicate Literal(s: string) {
    forall i :: 0 <= i < |s| ==> ' ' <= s[i] <= '~' && s[i] != '"' && s[i] != '\\'
  }

  lemma QuotedLit(s: string, k: bytes)
    requires Literal(s)
    ensures Quoted(Lit(s), k) == [QUOTE] + (Ascii(s) + ([QUOTE] + k))
  {
    EscapedPlain(ForBody, Ascii(s), [QUOTE] + k);
  }

  lemma QuotedEscaped(s: bytes, k: bytes)
    ensures Quoted(Pieces(ForBody, s), k) == [QUOTE] + (Escaped(ForBody, s, []) + ([QUOTE] + k))
  {
    EmitAppend(Pieces(ForBody, s), [QUOTE] + k);
  }

  /** What follows a member: the comma and the rest, or the closing brace. */
  function MemberTail(rest: Items, k: bytes): (r: bytes) {
    if rest.Nil? then [CLOSE_BRACE] + k else [COMMA] + EmitItem(rest, true, k)
  }

  /** A member written without white space. */
  lemma EmitMember(key: string, v: Value, rest: Items, k: bytes)
    requires Literal(key) && (rest.Cons? ==> rest.pre == [])
    ensures EmitItem(Member(key, v, rest), true, k)
         == [QUOTE] + (Ascii(key) + ([QUOTE] + ([COLON] + EmitValue(v, MemberTail(rest, k)))))
  {
    var tail := if rest.Nil? then [CLOSE_BRACE] + k else [COMMA] + EmitItems(rest, true, k);
    if rest.Cons? {
      assert [] + EmitItem(rest, true, k) == EmitItem(rest, true, k);
    }
    assert tail == MemberTail(rest, k) && [] + tail == tail;
    var t := [COLON] + EmitValue(v, tail);
    assert [] + EmitValue(v, tail) == EmitValue(v, tail) && [] + t == t;
    hide EmitValue, EmitItem, Ascii, Quoted, Lit;
    QuotedLit(key, t);
    MemberUnfold(key, v, rest, k, tail);
  }

  lemma MemberUnfold(key: string, v: Value, rest: Items, k: bytes, tail: bytes)
    requires tail == if rest.Nil? then [CLOSE_BRACE] + k else [COMMA] + EmitItems(rest, true, k)
    requires [] + tail == tail
    ensures EmitItem(Member(key, v, rest), true, k) == Quoted(Lit(key), [COLON] + EmitValue(v, tail))
  {
    hide EmitValue, Quoted, Lit;
    var e := EmitValue(v, tail);
    assert [] + e == e && [] + ([COLON] + e) == [COLON] + e;
  }

  lemma AsciiConcat(a: string, b: string)
    ensures Ascii(a + b) == Ascii(a) + Ascii(b)
  {
  }

  /** The written name of a member that follows another. */
  lemma NamedKey(key: string, name: string, k: bytes)
    requires name == ",\"" + key + "\":"
    ensures [COMMA] + ([QUOTE] + (Ascii(key) + ([QUOTE] + ([COLON] + k)))) == Ascii(name) + k
  {
    AsciiConcat(",\"" + key, "\":");
    AsciiConcat(",\"", key);
    var a, b := Ascii(",\""), Ascii("\":");
    assert a == [COMMA, QUOTE] && b == [QUOTE, COLON];
    hide Ascii;
    var s := Ascii(key);
    assert [COMMA] + ([QUOTE] + (s + ([QUOTE] + ([COLON] + k)))) == ([COMMA, QUOTE] + s + [QUOTE, COLON]) + k;
  }

  lemma TailIs(key: string, name: string, v: Value, rest: Items, k: bytes)
    requires Literal(key) && (rest.Cons? ==> rest.pre == []) && name == ",\"" + key + "\":"
    ensures MemberTail(Member(key, v, rest), k) == Ascii(name) + EmitValue(v, MemberTail(rest, k))
  {
    hide EmitItem, EmitValue, Ascii;
    EmitMember(key, v, rest, k);
    NamedKey(key, name, EmitValue(v, MemberTail(rest, k)));
  }

  lemma RoleText(k: bytes)
    ensures [OPEN_BRACKET]
      + ([OPEN_BRACE] + ([QUOTE]
        + (Ascii("role") + ([QUOTE]
          + ([COLON] + ([QUOTE] + (Ascii("user") + ([QUOTE] + (Ascii(",\"content\":") + ([QUOTE] + k))))))))))
         == Ascii("[{\"role\":\"user\",\"content\":\"") + k
  {
    var s := "[{\"role\":\"user\",\"content\":\"";
    assert s == "[{\"" + "role" + "\":\"" + "user" + "\"" + ",\"content\":" + "\"";
    AsciiConcat("[{\"", "role");
    AsciiConcat("[{\"" + "role", "\":\"");
    AsciiConcat("[{\"" + "role" + "\":\"", "user");
    AsciiConcat("[{\"" + "role" + "\":\"" + "user", "\"");
    AsciiConcat("[{\"" + "role" + "\":\"" + "user" + "\"", ",\"content\":");
    AsciiConcat("[{\"" + "role" + "\":\"" + "user" + "\"" + ",\"content\":", "\"");
    assert Ascii("[{\"") == [OPEN_BRACKET, OPEN_BRACE, QUOTE] && Ascii("\":\"") == [QUOTE, COLON, QUOTE]
      && Ascii("\"") == [QUOTE];
    var r, u, c := Ascii("role"), Ascii("user"), Ascii(",\"content\":");
    hide Ascii;
    assert Ascii(s) == [OPEN_BRACKET, OPEN_BRACE, QUOTE] + r + [QUOTE, COLON, QUOTE] + u + [QUOTE] + c + [QUOTE];
    RoleBytes(r, u, c, k);
  }

  lemma RoleBytes(r: bytes, u: bytes, c: bytes, k: bytes)
    ensures [OPEN_BRACKET]
      + ([OPEN_BRACE] + ([QUOTE] + (r + ([QUOTE] + ([COLON] + ([QUOTE] + (u + ([QUOTE] + (c + ([QUOTE] + k))))))))))
         == ([OPEN_BRACKET, OPEN_BRACE, QUOTE] + r + [QUOTE, COLON, QUOTE] + u + [QUOTE] + c + [QUOTE]) + k
  {
    var t := [QUOTE] + k;
    assert [QUOTE] + c + [QUOTE] + k == [QUOTE] + (c + t);
    var t1 := [QUOTE] + (c + t);
    assert [QUOTE, COLON, QUOTE] + (u + t1) == [QUOTE] + ([COLON] + ([QUOTE] + (u + t1)));
    var t2 := [QUOTE, COLON, QUOTE] + (u + t1);
    assert [OPEN_BRACKET, OPEN_BRACE, QUOTE] + (r + t2) == [OPEN_BRACKET] + ([OPEN_BRACE] + ([QUOTE] + (r + t2)));
    Join(([OPEN_BRACKET, OPEN_BRACE, QUOTE] + r + [QUOTE, COLON, QUOTE] + u), [QUOTE], c, [QUOTE], k);
    Assoc([OPEN_BRACKET, OPEN_BRACE, QUOTE] + r + [QUOTE, COLON, QUOTE], u, t1);
    Assoc([OPEN_BRACKET, OPEN_BRACE, QUOTE] + r, [QUOTE, COLON, QUOTE], u + t1);
    Assoc([OPEN_BRACKET, OPEN_BRACE, QUOTE], r, t2);
  }

  lemma Join(a: bytes, b: bytes, c: bytes, d: bytes, k: bytes)
    ensures (a + b + c + d) + k == a + (b + (c + (d + k)))
  {
    Assoc(a + b + c, d, k);
    Assoc(a + b, c, d + k);
    Assoc(a, b, c + (d + k));
  }

  lemma ContentTail(prompt: bytes, e: bytes)
    ensures MemberTail(Member("content", Str(Pieces(ForBody, prompt)), Nil), e)
         == Ascii(",\"content\":") + ([QUOTE] + (Escaped(ForBody, prompt, []) + ([QUOTE] + ([CLOSE_BRACE] + e))))
  {
    hide EmitValue, EmitItem, Ascii, Escaped, Quoted, Pieces;
    TailIs("content", ",\"content\":", Str(Pieces(ForBody, prompt)), Nil, e);
    StrUnfold(Pieces(ForBody, prompt), [CLOSE_BRACE] + e);
    QuotedEscaped(prompt, [CLOSE_BRACE] + e);
  }

  lemma RoleMember(rest: Items, e: bytes)
    requires rest.Cons? && rest.pre == []
    ensures EmitItem(Member("role", Str(Lit("user")), rest), true, e)
         == [QUOTE] + (Ascii("role")
           + ([QUOTE] + ([COLON] + ([QUOTE] + (Ascii("user") + ([QUOTE] + MemberTail(rest, e)))))))
  {
    hide EmitValue, EmitItem, Ascii, Quoted, Lit, MemberTail;
    EmitMember("role", Str(Lit("user")), rest, e);
    StrUnfold(Lit("user"), MemberTail(rest, e));
    QuotedLit("user", MemberTail(rest, e));
  }

  lemma MessagesText(prompt: bytes, k: bytes)
    ensures EmitValue(MessagesValue(prompt), k)
         == Ascii("[{\"role\":\"user\",\"content\":\"")
           + (Escaped(ForBody, prompt, []) + ([QUOTE] + ([CLOSE_BRACE] + ([CLOSE_BRACKET] + k))))
  {
    var e := [CLOSE_BRACKET] + k;
    var content := Member("content", Str(Pieces(ForBody, prompt)), Nil);
    MessagesUnfold(Member("role", Str(Lit("user")), content), k);
    assert content.Cons? && content.pre == [];
    assert MessagesValue(prompt)
      == Arr([], Cons([], [], [], [], Obj([], Member("role", Str(Lit("user")), content)), [], Nil));
    hide *;
    ContentTail(prompt, e);
    RoleMember(content, e);
    RoleText(Escaped(ForBody, prompt, []) + ([QUOTE] + ([CLOSE_BRACE] + e)));
  }

  lemma StrUnfold(ps: seq<Piece>, k: bytes)
    ensures EmitValue(Str(ps), k) == Quoted(ps, k)
  {
  }

  lemma MessagesUnfold(role: Items, k: bytes)
    requires role.Cons? && role.pre == []
    ensures EmitValue(Arr([], Cons([], [], [], [], Obj([], role), [], Nil)), k)
         == [OPEN_BRACKET] + ([OPEN_BRACE] + EmitItem(role, true, [CLOSE_BRACKET] + k))
  {
    hide Quoted;
    var e := [CLOSE_BRACKET] + k;
    var o := EmitValue(Obj([], role), e);
    ObjUnfold(role, e);
    var items := Cons([], [], [], [], Obj([], role), [], Nil);
    assert [] + e == e && [] + o == o;
    assert EmitItem(items, false, k) == o;
    assert EmitItems(items, false, k) == o;
  }

  lemma TopPTail(p: Params, prompt: bytes)
    requires p.topP >= 0 || p.topP == NULL_Q16
    ensures MemberTail(TopPMembers(p, prompt), []) == TopPText(p, PromptText(prompt))
  {
    var m := Member("messages", MessagesValue(prompt), Nil);
    hide EmitValue, EmitItem, Ascii, Escaped, Q16Text, Lit;
    TailIs("messages", ",\"messages\":", MessagesValue(prompt), Nil, []);
    MessagesText(prompt, [CLOSE_BRACE] + []);
    ClosingText();
    var x := Escaped(ForBody, prompt, []) + ([QUOTE] + Ascii("}]}"));
    OpeningText(x);
    assert MemberTail(m, []) == PromptText(prompt);
    if p.topP != NULL_Q16 {
      TailIs("top_p", ",\"top_p\":", Tok(Q16Text(p.topP)), m, []);
      TokUnfold(Q16Text(p.topP), PromptText(prompt));
    }
  }

  lemma TokUnfold(t: bytes, k: bytes)
    ensures EmitValue(Tok(t), k) == t + k
  {
  }

  lemma ClosingText()
    ensures [CLOSE_BRACE] + ([CLOSE_BRACKET] + ([CLOSE_BRACE] + [])) == Ascii("}]}")
  {
  }

  lemma OpeningText(k: bytes)
    ensures Ascii(",\"messages\":") + (Ascii("[{\"role\":\"user\",\"content\":\"") + k)
         == Ascii(",\"messages\":[{\"role\":\"user\",\"content\":\"") + k
  {
    var a, b := ",\"messages\":", "[{\"role\":\"user\",\"content\":\"";
    assert a + b == ",\"messages\":[{\"role\":\"user\",\"content\":\"";
    AsciiConcat(a, b);
    hide Ascii;
    Assoc(Ascii(a), Ascii(b), k);
  }

  lemma TemperatureTail(p: Params, prompt: bytes)
    requires Sendable(p)
    ensures MemberTail(TemperatureMembers(p, prompt), []) == TemperatureText(p, TopPText(p, PromptText(prompt)))
  {
    hide EmitValue, EmitItem, Ascii, Q16Text, Lit, PromptText;
    TopPTail(p, prompt);
    if p.temperature != NULL_Q16 {
      TailIs("temperature", ",\"temperature\":", Tok(Q16Text(p.temperature)), TopPMembers(p, prompt), []);
      TokUnfold(Q16Text(p.temperature), TopPText(p, PromptText(prompt)));
    }
  }

  /** The formatted body is the document: no string ends early and no member is added,
      whatever the model identifier and the prompt contain. */
  lemma BodyIsDocument(model: bytes, p: Params, prompt: bytes)
    requires Sendable(p)
    ensures BodyText(model, p, prompt) == EmitValue(BodyDoc(model, p, prompt), [])
  {
    hide *;
    var rest := TemperatureMembers(p, prompt);
    var tokens := Member("max_tokens", Tok(IntText(p.maxTokens)), rest);
    var items := BodyItems(model, p, prompt);
    ItemsShape(model, p, prompt);
    RestPre(p, prompt);
    ObjUnfold(items, []);
    ModelMember(model, tokens);
    TokensTail(p, rest);
    TemperatureTail(p, prompt);
    ModelText(Escaped(ForBody, model, []) + ([QUOTE] + MemberTail(tokens, [])));
    BodyUnfold(model, p, prompt);
  }

  lemma ItemsShape(model: bytes, p: Params, prompt: bytes)
    requires Sendable(p)
    ensures var tokens := Member("max_tokens", Tok(IntText(p.maxTokens)), TemperatureMembers(p, prompt));
      && tokens.Cons? && tokens.pre == []
      && BodyItems(model, p, prompt).Cons? && BodyItems(model, p, prompt).pre == []
      && BodyItems(model, p, prompt) == Member("model", Str(Pieces(ForBody, model)), tokens)
  {
    hide Pieces, TemperatureMembers, IntText;
  }

  lemma BodyUnfold(model: bytes, p: Params, prompt: bytes)
    requires Sendable(p)
    ensures BodyText(model, p, prompt) == Ascii("{\"model\":\"") + (Escaped(ForBody, model, []) + ([QUOTE] +
      (Ascii(",\"max_tokens\":") + (IntText(p.maxTokens) + TemperatureText(p, TopPText(p, PromptText(prompt)))))))
    ensures BodyDoc(model, p, prompt) == Obj([], BodyItems(model, p, prompt))
  {
    hide Ascii, Escaped, IntText, TemperatureText;
  }

  lemma ModelMember(model: bytes, rest: Items)
    requires rest.Cons? && rest.pre == []
    ensures EmitItem(Member("model", Str(Pieces(ForBody, model)), rest), true, [])
         == [QUOTE] + (Ascii("model")
           + ([QUOTE] + ([COLON] + ([QUOTE] + (Escaped(ForBody, model, []) + ([QUOTE] + MemberTail(rest, [])))))))
  {
    hide EmitValue, EmitItem, Ascii, Escaped, Quoted, Pieces, MemberTail;
    EmitMember("model", Str(Pieces(ForBody, model)), rest, []);
    StrUnfold(Pieces(ForBody, model), MemberTail(rest, []));
    QuotedEscaped(model, MemberTail(rest, []));
  }

  lemma TokensTail(p: Params, rest: Items)
    requires rest.Cons? && rest.pre == []
    ensures MemberTail(Member("max_tokens", Tok(IntText(p.maxTokens)), rest), [])
         == Ascii(",\"max_tokens\":") + (IntText(p.maxTokens) + MemberTail(rest, []))
  {
    hide EmitValue, EmitItem, Ascii, IntText, MemberTail;
    TailIs("max_tokens", ",\"max_tokens\":", Tok(IntText(p.maxTokens)), rest, []);
    TokUnfold(IntText(p.maxTokens), MemberTail(rest, []));
  }

  lemma RestPre(p: Params, prompt: bytes)
    requires Sendable(p)
    ensures TemperatureMembers(p, prompt).Cons? && TemperatureMembers(p, prompt).pre == []
  {
  }

  lemma ModelText(k: bytes)
    ensures [OPEN_BRACE] + ([QUOTE] + (Ascii("model") + ([QUOTE] + ([COLON] + ([QUOTE] + k)))))
         == Ascii("{\"model\":\"") + k
  {
    AsciiConcat("{\"", "model");
    AsciiConcat("{\"" + "model", "\":\"");
    assert "{\"" + "model" + "\":\"" == "{\"model\":\"";
    assert Ascii("{\"") == [OPEN_BRACE, QUOTE] && Ascii("\":\"") == [QUOTE, COLON, QUOTE];
    var s := Ascii("model");
    hide Ascii;
    assert [OPEN_BRACE] + ([QUOTE] + (s + ([QUOTE] + ([COLON] + ([QUOTE] + k)))))
      == ([OPEN_BRACE, QUOTE] + s + [QUOTE, COLON, QUOTE]) + k;
  }

  lemma ObjUnfold(items: Items, k: bytes)
    requires items.Cons? && items.pre == []
    ensures EmitValue(Obj([], items), k) == [OPEN_BRACE] + EmitItem(items, true, k)
  {
    hide EmitItem;
    assert [] + EmitItem(items, true, k) == EmitItem(items, true, k);
    assert EmitItems(items, true, k) == EmitItem(items, true, k);
  }

  // ---- what an upstream parser sees ----------------------------------------------------------------

  lemma DigitsTok(s: bytes)
    requires AllDigits(s)
    ensures AllTok(s)
  {
    forall i | 0 <= i < |s|
      ensures IsTok(s[i])
    {
      assert IsDigit(s[i]);
    }
  }

  lemma NumberTok(n: nat)
    ensures Q16Text(n) != [] && AllTok(Q16Text(n)) && AllTok(IntText(n))
  {
    DigitsTok(Digits(n));
    DigitsTok(Digits(n / 65536));
    DigitsTok(Pad6(Fraction(n)));
  }

  lemma MemberOk(key: string, v: Value, rest: Items)
    requires ValueOk(v) && ItemsOk(rest)
    ensures ItemsOk(Member(key, v, rest))
    ensures ItemsHeight(Member(key, v, rest))
         == if 1 + Height(v) > ItemsHeight(rest) then 1 + Height(v) else ItemsHeight(rest)
  {
    hide Lit;
  }

  lemma MessagesOk(prompt: bytes)
    ensures ValueOk(MessagesValue(prompt)) && Height(MessagesValue(prompt)) <= 2
  {
    var content := Member("content", Str(Pieces(ForBody, prompt)), Nil);
    var role := Member("role", Str(Lit("user")), content);
    hide Lit, Pieces, Member;
    MemberOk("content", Str(Pieces(ForBody, prompt)), Nil);
    MemberOk("role", Str(Lit("user")), content);
    ElementOk(Obj([], role));
  }

  lemma ElementOk(v: Value)
    requires ValueOk(v)
    ensures var block := Cons([], [], [], [], v, [], Nil);
      ItemsOk(block) && ItemsHeight(block) == 1 + Height(v)
  {
    var block := Cons([], [], [], [], v, [], Nil);
    assert AllWs([]) && PiecesOk([]) && LoosePieces([]);
    assert LooseItems(Nil) && DecodableItems(Nil) && ItemsHeight(Nil) == 0;
    assert block.rest == Nil && block.v == v;
  }

  lemma RestOk(p: Params, prompt: bytes)
    requires Sendable(p)
    ensures ItemsOk(TemperatureMembers(p, prompt)) && ItemsHeight(TemperatureMembers(p, prompt)) <= 3
  {
    hide MessagesValue, Q16Text, Lit, AllTok;
    MessagesOk(prompt);
    var m := Member("messages", MessagesValue(prompt), Nil);
    MemberOk("messages", MessagesValue(prompt), Nil);
    assert ItemsHeight(m) <= 3;
    if p.topP != NULL_Q16 {
      NumberTok(p.topP);
      MemberOk("top_p", Tok(Q16Text(p.topP)), m);
    }
    if p.temperature != NULL_Q16 {
      NumberTok(p.temperature);
      MemberOk("temperature", Tok(Q16Text(p.temperature)), TopPMembers(p, prompt));
    }
  }

  lemma BodyOk(model: bytes, p: Params, prompt: bytes)
    requires Sendable(p)
    ensures ValueOk(BodyDoc(model, p, prompt)) && Height(BodyDoc(model, p, prompt)) <= 3
  {
    hide TemperatureMembers, Lit, Pieces, IntText, AllTok;
    RestOk(p, prompt);
    NumberTok(p.maxTokens);
    MemberOk("max_tokens", Tok(IntText(p.maxTokens)), TemperatureMembers(p, prompt));
    MemberOk("model", Str(Pieces(ForBody, model)),
      Member("max_tokens", Tok(IntText(p.maxTokens)), TemperatureMembers(p, prompt)));
  }

  /** For every identifier and prompt the body is one JSON value and nothing more, and
      looking up "model" in it returns the configured identifier. */
  lemma BodyModel(model: bytes, p: Params, prompt: bytes, cap: nat)
    requires Sendable(p) && |model| <= cap
    ensures SkipValue(BodyText(model, p, prompt), 0) == Some([])
    ensures TopString(BodyText(model, p, prompt), Ascii("model"), cap) == Some(model)
  {
    hide *;
    var doc, items := BodyDoc(model, p, prompt), BodyItems(model, p, prompt);
    BodyOk(model, p, prompt);
    BodyIsDocument(model, p, prompt);
    DocIs(model, p, prompt);
    ModelLookup(items, model, items.rest);
    SkipDoc(doc);
    TopDoc(items, Ascii("model"), cap);
  }

  lemma ModelLookup(items: Items, model: bytes, rest: Items)
    requires items == Member("model", Str(Pieces(ForBody, model)), rest) && ItemsOk(items)
    ensures LookupOk(items, Ascii("model")) && Lookup(items, Ascii("model")) == Some(model)
  {
    PiecesText(ForBody, model);
    PiecesText(ForBody, Ascii("model"));
    AsciiPlain("model");
    hide Pieces, Text;
    assert KeyOf(items) == Ascii("model");
  }

  lemma DocIs(model: bytes, p: Params, prompt: bytes)
    requires Sendable(p)
    ensures BodyDoc(model, p, prompt) == Obj([], BodyItems(model, p, prompt))
    ensures ValueOk(BodyDoc(model, p, prompt)) ==> ItemsOk(BodyItems(model, p, prompt))
    ensures var items := BodyItems(model, p, prompt);
      items.Cons? && items == Member("model", Str(Pieces(ForBody, model)), items.rest)
  {
    hide Pieces, TemperatureMembers, LooseItems, DecodableItems;
  }

  lemma SkipDoc(doc: Value)
    requires doc.Obj? && ValueOk(doc) && Height(doc) <= 3
    ensures SkipValue(EmitValue(doc, []), 0) == Some([])
  {
    hide SkipValue, EmitValue;
    SkipWritten(doc, [], 0);
  }

  lemma TopDoc(items: Items, key: bytes, cap: nat)
    requires ItemsOk(items) && LookupOk(items, key) && Lookup(items, key).Some? && |Lookup(items, key).value| <= cap
    ensures TopString(EmitValue(Obj([], items), []), key, cap) == Lookup(items, key)
  {
    hide TopString, EmitValue, Lookup, LookupOk;
    TopStringWritten([], [], items, key, [], cap);
    assert [] + EmitValue(Obj([], items), []) == EmitValue(Obj([], items), []);
  }

  // ---- building it -------------------------------------------------------------------------------------

  const GW_ID_MAX := 256

  /** `gw_reqjson_cap`. */
  function ReqJsonCap(maxPrompt: nat): nat {
    maxPrompt * 6 + GW_ID_MAX * 6 + 1024
  }

  lemma Q16TextLength(q: nat)
    requires q <= 131_072
    ensures |Q16Text(q)| == 8
  {
    assert |Digits(q / 65536)| == 1;
  }

  /** The body always fits its buffer. */
  lemma BodyFits(model: bytes, p: Params, prompt: bytes, maxPrompt: nat)
    requires Sendable(p) && |model| < GW_ID_MAX && |prompt| <= maxPrompt
    ensures |BodyText(model, p, prompt)| < ReqJsonCap(maxPrompt)
  {
    EscapedLength(ForBody, model);
    EscapedLength(ForBody, prompt);
    IntTextBound(p.maxTokens);
    if p.temperature != NULL_Q16 { Q16TextLength(p.temperature); }
    if p.topP != NULL_Q16 { Q16TextLength(p.topP); }
    hide Escaped, IntText, Q16Text;
    assert |PromptText(prompt)| == 43 + |Escaped(ForBody, prompt, [])|;
  }

  /** `req_put`: append formatted text, or leave the offset alone. */
  method ReqPut(buf: array<byte>, off0: nat, text: bytes) returns (ok: bool, off: nat)
    requires off0 <= buf.Length
    modifies buf
    ensures ok == (off0 + |text| < buf.Length)
    ensures off == if ok then off0 + |text| else off0
    ensures buf[..off] == old(buf[..off0]) + if ok then text else []
  {
    if off0 >= buf.Length {
      assert buf[..off0] == old(buf[..off0]) + [];
      return false, off0;
    }
    var room := buf.Length - off0 - 1;
    var w := if |text| <= room then |text| else room;
    forall i | 0 <= i < w {
      buf[off0 + i] := text[i];
    }
    buf[off0 + w] := 0;
    if |text| > room {
      assert buf[..off0] == old(buf[..off0]) + [];
      return false, off0;
    }
    assert buf[..off0 + w] == old(buf[..off0]) + text;
    return true, off0 + w;
  }

  /** An optional decimal member: `q16_to_dec` and `req_put`. */
  method PutQ16(buf: array<byte>, off0: nat, name: string, q: int, ghost k: bytes) returns (ok: bool, off: nat)
    requires off0 <= buf.Length && (q == NULL_Q16 || q >= 0)
    requires off0 + |if q == NULL_Q16 then k else Field(name, Q16Text(q), k)| < buf.Length
    modifies buf
    ensures ok && off <= buf.Length && off + |k| < buf.Length
    ensures buf[..off] + k == old(buf[..off0]) + if q == NULL_Q16 then k else Field(name, Q16Text(q), k)
  {
    if q == NULL_Q16 {
      return true, off0;
    }
    hide Ascii, Q16Text;
    ghost var before := buf[..off0];
    ok, off := ReqPut(buf, off0, Ascii(name) + Q16Text(q));
    Assoc(Ascii(name), Q16Text(q), k);
    Assoc(before, Ascii(name) + Q16Text(q), k);
  }

  /** The body-building block of `handle_request`: with a configured identifier and a
      normalised prompt it never fails. */
  method BuildBody(buf: array<byte>, model: bytes, p: Params, prompt: bytes, maxPrompt: nat) returns (ok: bool, n: nat)
    requires Sendable(p) && |model| < GW_ID_MAX && |prompt| <= maxPrompt
    requires buf.Length == ReqJsonCap(maxPrompt)
    modifies buf
    ensures n <= buf.Length
    ensures ok <==> IsUtf8(model) && IsUtf8(prompt)
    ensures ok ==> buf[..n] == BodyText(model, p, prompt)
  {
    var modelEsc, promptEsc := new byte[GW_ID_MAX * 6 + 1], new byte[maxPrompt * 6 + 1];
    EscapedLength(ForBody, model);
    EscapedLength(ForBody, prompt);
    BodyFits(model, p, prompt, maxPrompt);
    hide IsUtf8, Escaped, Ascii, PromptText, TopPText, TemperatureText, Q16Text, IntText;
    var mn := GwjEscapeUtf8(modelEsc, modelEsc.Length, model);
    var en := GwjEscapeUtf8(promptEsc, promptEsc.Length, prompt);
    if mn < 0 || en < 0 {
      return false, 0;
    }
    var m, e := modelEsc[..mn], promptEsc[..en];
    ghost var k3 := PromptText(prompt);
    ghost var k2 := TopPText(p, k3);
    ghost var k1 := TemperatureText(p, k2);
    var head := Ascii("{\"model\":\"") + (m + ([QUOTE] + (Ascii(",\"max_tokens\":") + IntText(p.maxTokens))));
    HeadSplit(model, p, prompt, head);
    assert buf[..0] == [] && [] + head == head;
    ok, n := ReqPut(buf, 0, head);
    TemperatureUnfold(p, k2);
    ok, n := PutQ16(buf, n, ",\"temperature\":", p.temperature, k2);
    TopPUnfold(p, k3);
    ok, n := PutQ16(buf, n, ",\"top_p\":", p.topP, k3);
    var last := Ascii(",\"messages\":[{\"role\":\"user\",\"content\":\"") + (e + ([QUOTE] + Ascii("}]}")));
    assert last == k3 by { PromptUnfold(prompt); }
    ok, n := ReqPut(buf, n, last);
  }

  lemma HeadSplit(model: bytes, p: Params, prompt: bytes, head: bytes)
    requires Sendable(p)
    requires head == Ascii("{\"model\":\"")
      + (Escaped(ForBody, model, []) + ([QUOTE] + (Ascii(",\"max_tokens\":") + IntText(p.maxTokens))))
    ensures BodyText(model, p, prompt) == head + TemperatureText(p, TopPText(p, PromptText(prompt)))
  {
    var k1 := TemperatureText(p, TopPText(p, PromptText(prompt)));
    var a, e, b, d := Ascii("{\"model\":\""), Escaped(ForBody, model, []), Ascii(",\"max_tokens\":"),
      IntText(p.maxTokens);
    hide Escaped, Ascii, IntText, TemperatureText, TopPText, PromptText;
    Assoc(b, d, k1);
    Assoc([QUOTE], b + d, k1);
    Assoc(e, [QUOTE] + (b + d), k1);
    Assoc(a, e + ([QUOTE] + (b + d)), k1);
  }

  lemma TemperatureUnfold(p: Params, k: bytes)
    requires Sendable(p)
    ensures TemperatureText(p, k) == if p.temperature
         == NULL_Q16 then k else Field(",\"temperature\":", Q16Text(p.temperature), k)
  {
  }

  lemma TopPUnfold(p: Params, k: bytes)
    requires Sendable(p)
    ensures TopPText(p, k) == if p.topP == NULL_Q16 then k else Field(",\"top_p\":", Q16Text(p.topP), k)
  {
  }

  lemma PromptUnfold(prompt: bytes)
    ensures PromptText(prompt)
         == Ascii(",\"messages\":[{\"role\":\"user\",\"content\":\"")
           + (Escaped(ForBody, prompt, []) + ([QUOTE] + Ascii("}]}")))
  {
  }
}
