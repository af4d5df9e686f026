/** A JSON reader that decides as Python's `json.loads` does on bytes that are first decoded as
    UTF-8: RFC 8259 with control bytes refused in strings, NaN and Infinity accepted, a surrogate
    without its partner kept, and of equal keys the last one counting. */
module JsonReader {
  import opened Bytes
  import opened Utf8
  import opened Numbers
  import opened JsonString
  import opened JsonScan
  import opened JsonDoc
  import opened JsonValue

  // ---- strings ----------------------------------------------------------------------------------

  /** One unit of a string at a byte that is not the closing quote: how much is consumed and
      which bytes it stands for. */
  function ReadOne(s: bytes): (r: Option<(nat, bytes)>)
    requires s != []
    ensures r.Some? ==> 1 <= r.value.0 <= |s|
  {
    if s[0] != BACKSLASH then (if s[0] < 0x20 then None else Some((1, [s[0]])))
    else if |s| < 2 then None
    else if ShortEscape(s[1]) then Some((2, [ShortByte(s[1])]))
    else if s[1] != U || U4(s[2..]) < 0 then None
    else
      var u1 := U4(s[2..]);
      if High(u1) && |s| >= 12 && s[6] == BACKSLASH && s[7] == U && Low(U4(s[8..]))
      then Some((12, Encode(PairValue(u1, U4(s[8..])))))
      else Some((6, Encode(u1)))
  }

  /** The rest of the text and the string, after the opening quote. */
  function ReadString(s: bytes, out: bytes): (r: Option<(bytes, bytes)>)
    ensures r.Some? ==> |r.value.0| < |s|
    decreases |s|
  {
    if s == [] then None
    else if s[0] == QUOTE then Some((s[1..], out))
    else
      match ReadOne(s)
      case None => None
      case Some((n, bs)) => ReadString(s[n..], out + bs)
  }

  // ---- numbers and literals -----------------------------------------------------------------------

  predicate IsExponent(s: bytes) {
    s == [] ||
    ((s[0] == 101 || s[0] == 69) &&
     var d := if |s| >= 2 && (s[1] == 43 || s[1] == 45) then s[2..] else s[1..];
     d != [] && AllDigits(d))
  }

  predicate IsFraction(s: bytes) {
    if s != [] && s[0] == 46 then
      var n := DigitSpan(s[1..]);
      n >= 1 && IsExponent(s[1 + n..])
    else IsExponent(s)
  }

  /** The number grammar of section 6 of RFC 8259. */
  predicate IsNumber(t: bytes) {
    var a := if t != [] && t[0] == MINUS then t[1..] else t;
    var n := DigitSpan(a);
    n >= 1 && (n == 1 || a[0] != 48) && IsFraction(a[n..])
  }

  predicate TokenOk(t: bytes) {
    t == Ascii("null") || t == Ascii("true") || t == Ascii("false") || IsNumber(t)
  }

  function TokenLen(s: bytes): (n: nat)
    ensures n <= |s|
  {
    if s != [] && IsTok(s[0]) then 1 + TokenLen(s[1..]) else 0
  }

  /** The constants that Python accepts beyond RFC 8259; 0 if none is ahead. */
  function ConstantLen(s: bytes): (n: nat)
    ensures n <= |s|
  {
    if Ascii("NaN") <= s then 3
    else if Ascii("Infinity") <= s then 8
    else if Ascii("-Infinity") <= s then 9
    else 0
  }

  function ReadToken(s: bytes): (r: Option<(Py, bytes)>)
    ensures r.Some? ==> |r.value.1| < |s|
  {
    var c, n := ConstantLen(s), TokenLen(s);
    if c > 0 then Some((PyFloat(s[..c]), s[c..]))
    else if n == 0 || !TokenOk(s[..n]) then None
    else Some((DenoteToken(s[..n]), s[n..]))
  }

  // ---- values ----------------------------------------------------------------------------------------

  function ReadValue(s: bytes): (r: Option<(Py, bytes)>)
    ensures r.Some? ==> |r.value.1| < |s|
    decreases |s|, 0
  {
    if At(s, QUOTE) then
      match ReadString(s[1..], [])
      case None => None
      case Some((rest, text)) => Some((PyStr(text), rest))
    else if At(s, OPEN_BRACE) then
      var t := SkipWs(s[1..]);
      if At(t, CLOSE_BRACE) then Some((PyDict(map[]), t[1..])) else ReadMembers(t, map[])
    else if At(s, OPEN_BRACKET) then
      var t := SkipWs(s[1..]);
      if At(t, CLOSE_BRACKET) then Some((PyList([]), t[1..])) else ReadElements(t, [])
    else ReadToken(s)
  }

  function ReadKey(s: bytes): (r: Option<(bytes, bytes)>)
    ensures r.Some? ==> |r.value.1| < |s|
  {
    if !At(s, QUOTE) then None
    else
      match ReadString(s[1..], [])
      case None => None
      case Some((rest, key)) =>
        var w := SkipWs(rest);
        if At(w, COLON) then Some((key, SkipWs(w[1..]))) else None
  }

  function ReadMembers(s: bytes, m: map<bytes, Py>): (r: Option<(Py, bytes)>)
    ensures r.Some? ==> |r.value.1| < |s|
    decreases |s|, 1
  {
    match ReadKey(s)
    case None => None
    case Some((key, t)) =>
      match ReadValue(t)
      case None => None
      case Some((v, u)) =>
        var w := SkipWs(u);
        if At(w, CLOSE_BRACE) then Some((PyDict(m[key := v]), w[1..]))
        else if At(w, COMMA) then ReadMembers(SkipWs(w[1..]), m[key := v])
        else None
  }

  function ReadElements(s: bytes, items: seq<Py>): (r: Option<(Py, bytes)>)
    ensures r.Some? ==> |r.value.1| < |s|
    decreases |s|, 1
  {
    match ReadValue(s)
    case None => None
    case Some((v, u)) =>
      var w := SkipWs(u);
      if At(w, CLOSE_BRACKET) then Some((PyList(items + [v]), w[1..]))
      else if At(w, COMMA) then ReadElements(SkipWs(w[1..]), items + [v])
      else None
  }

  /** `json.loads(payload.decode("utf-8"))`; None is the exception. */
  function Loads(payload: bytes): (r: Option<Py>) {
    if !ValidUtf8(payload) then None
    else
      match ReadValue(SkipWs(payload))
      case None => None
      case Some((v, rest)) => if SkipWs(rest) == [] then Some(v) else None
  }

  // ---- reading what was written -------------------------------------------------------------------------

  /** Documents of RFC 8259 proper: no control byte in a string, numbers and literals as its
      grammar has them. */
  predicate StrictPieces(ps: seq<Piece>) {
    forall i :: 0 <= i < |ps| ==> ps[i].Raw? ==> ps[i].b >= 0x20
  }

  predicate StrictValue(v: Value) {
    match v
    case Str(ps) => StrictPieces(ps)
    case Tok(t) => TokenOk(t)
    case Arr(_, items) => StrictItems(items)
    case Obj(_, items) => StrictItems(items)
  }

  predicate StrictItems(items: Items) {
    items.Nil? || (StrictPieces(items.key) && StrictValue(items.v) && StrictItems(items.rest))
  }

  /** The reader agrees with the gateway's decoder on everything that one accepts, control bytes
      apart. */
  lemma ReadOneAgrees(s: bytes)
    requires s != [] && DecodeOne(s).Some? && (s[0] == BACKSLASH || s[0] >= 0x20)
    ensures ReadOne(s) == DecodeOne(s)
  {
    hide U4, Encode, ShortEscape;
  }

  lemma {:induction false} ReadEmitted(ps: seq<Piece>, k: bytes, out: bytes)
    requires PiecesOk(ps) && StrictPieces(ps)
    ensures ReadString(Emit(ps, [QUOTE] + k), out) == Some((k, out + Text(ps)))
    decreases |ps|
  {
    var s := Emit(ps, [QUOTE] + k);
    if ps == [] {
      assert s[1..] == k && out + [] == out;
    } else {
      var p, t := Print(ps[0]), Emit(ps[1..], [QUOTE] + k);
      DecodeOnePrinted(ps[0], t);
      FirstByte(ps[0], t);
      assert s == p + t;
      ReadOneAgrees(s);
      hide DecodeOne, ReadOne, Print, Meaning, Emit;
      assert s[|p|..] == t;
      ReadEmitted(ps[1..], k, out + Meaning(ps[0]));
      Assoc(out, Meaning(ps[0]), Text(ps[1..]));
    }
  }

  lemma FirstByte(p: Piece, k: bytes)
    requires PieceOk(p) && (p.Raw? ==> p.b >= 0x20)
    ensures (Print(p) + k)[0] == BACKSLASH || (Print(p) + k)[0] >= 0x20
  {
  }

  lemma ReadQuoted(ps: seq<Piece>, k: bytes)
    requires PiecesOk(ps) && StrictPieces(ps)
    ensures At(Quoted(ps, k), QUOTE) && ReadString(Quoted(ps, k)[1..], []) == Some((k, Text(ps)))
  {
    hide Emit, ReadString;
    assert Quoted(ps, k)[1..] == Emit(ps, [QUOTE] + k);
    ReadEmitted(ps, k, []);
    assert [] + Text(ps) == Text(ps);
  }

  lemma {:induction false} TokenLenOf(t: bytes, k: bytes)
    requires AllTok(t) && Ends(k)
    ensures TokenLen(t + k) == |t|
  {
    if t == [] {
      assert t + k == k;
    } else {
      assert (t + k)[1..] == t[1..] + k;
      TokenLenOf(t[1..], k);
    }
  }

  lemma TokenStart(t: bytes)
    requires TokenOk(t)
    ensures t != [] && (t[0] == MINUS ==> |t| >= 2 && IsDigit(t[1]))
    ensures t[0] == MINUS || IsDigit(t[0]) || t[0] == 110 || t[0] == 116 || t[0] == 102
  {
    if IsNumber(t) {
      var a := if t != [] && t[0] == MINUS then t[1..] else t;
      var n := DigitSpan(a);
      assert a[..n][0] == a[0] && IsDigit(a[..n][0]);
    } else {
      assert Ascii("null")[0] == 110 && Ascii("true")[0] == 116 && Ascii("false")[0] == 102;
    }
  }

  lemma NoConstant(t: bytes, k: bytes)
    requires TokenOk(t)
    ensures ConstantLen(t + k) == 0
  {
    hide TokenOk;
    TokenStart(t);
    var s := t + k;
    assert s[0] == t[0];
    assert Ascii("NaN")[0] == 78 && Ascii("Infinity")[0] == 73 && Ascii("-Infinity")[0] == 45
      && Ascii("-Infinity")[1] == 73;
    if t[0] == MINUS {
      assert s[1] == t[1];
    }
  }

  lemma ReadTokenWritten(t: bytes, k: bytes)
    requires t != [] && AllTok(t) && TokenOk(t) && Ends(k)
    ensures ReadValue(t + k) == Some((DenoteToken(t), k))
  {
    NoConstant(t, k);
    TokenStart(t);
    TokenLenOf(t, k);
    var s := t + k;
    assert s[0] == t[0] && s[..|t|] == t && s[|t|..] == k;
    hide TokenOk, DenoteToken, ConstantLen, TokenLen;
  }

  // ---- the round trip -------------------------------------------------------------------------------------

  /** Reading the text of any RFC 8259 document returns the value it denotes and stops right
      behind it. */
  lemma {:induction false} ReadWritten(v: Value, k: bytes)
    requires ValueOk(v) && StrictValue(v) && (v.Tok? ==> Ends(k))
    ensures ReadValue(EmitValue(v, k)) == Some((Denote(v), k))
    decreases v, 0
  {
    match v
    case Str(ps) => ReadQuoted(ps, k);
    case Tok(t) => ReadTokenWritten(t, k);
    case Arr(ws, items) => ReadArray(ws, items, k);
    case Obj(ws, items) => ReadObject(ws, items, k);
  }

  lemma {:induction false} ReadArray(ws: bytes, items: Items, k: bytes)
    requires AllWs(ws) && ItemsOk(items) && StrictItems(items)
    ensures ReadValue(EmitValue(Arr(ws, items), k)) == Some((PyList(DenoteList(items)), k))
    decreases items, 2
  {
    var s := EmitValue(Arr(ws, items), k);
    assert s[0] == OPEN_BRACKET && s[1..] == EmitBody(ws, items, false, k);
    if items.Nil? {
      SkipWsOver(ws, [CLOSE_BRACKET] + k);
    } else {
      ItemStart(items, false, k);
      ReadElementsWritten(items, k, []);
      assert [] + DenoteList(items) == DenoteList(items);
      hide EmitItem, EmitItems, ReadElements, DenoteList, ItemsOk, StrictItems;
    }
  }

  lemma {:induction false} ReadObject(ws: bytes, items: Items, k: bytes)
    requires AllWs(ws) && ItemsOk(items) && StrictItems(items)
    ensures ReadValue(EmitValue(Obj(ws, items), k)) == Some((PyDict(DenoteItems(items)), k))
    decreases items, 2
  {
    hide EmitItem, EmitItems, ReadMembers, StrictItems, ReadString, ReadToken;
    var s := EmitValue(Obj(ws, items), k);
    assert s[0] == OPEN_BRACE && s[1..] == EmitBody(ws, items, true, k);
    if items.Nil? {
      SkipWsOver(ws, [CLOSE_BRACE] + k);
    } else {
      ItemStart(items, true, k);
      ReadMembersWritten(items, k, map[]);
      hide DenoteItems;
      assert map[] + DenoteItems(items) == DenoteItems(items);
    }
  }

  /** The key, the colon and the white space around it. */
  lemma ReadKeyWritten(items: Items, k: bytes)
    requires items.Cons? && ItemsOk(items) && StrictItems(items)
    ensures ReadKey(EmitItem(items, true, k)) == Some((Text(items.key), EmitValue(items.v, ItemTail(items, true, k))))
  {
    var v := EmitValue(items.v, ItemTail(items, true, k));
    ValueStarts(items.v, ItemTail(items, true, k));
    hide EmitValue, ValueOk, ItemTail, ReadString, Quoted;
    var t := items.mid + ([COLON] + (items.gap + v));
    ReadQuoted(items.key, t);
    SkipWsOver(items.mid, [COLON] + (items.gap + v));
    assert ([COLON] + (items.gap + v))[1..] == items.gap + v;
    SkipWsOver(items.gap, v);
  }

  lemma {:induction false} ReadElementsWritten(items: Items, k: bytes, done: seq<Py>)
    requires items.Cons? && ItemsOk(items) && StrictItems(items)
    ensures ReadElements(EmitItem(items, false, k), done) == Some((PyList(done + DenoteList(items)), k))
    decreases items, 1
  {
    var tail := ItemTail(items, false, k);
    AfterItem(items, false, k);
    AfterMember(items, false, k);
    ReadWritten(items.v, tail);
    assert EmitItem(items, false, k) == EmitValue(items.v, tail);
    var next := done + [Denote(items.v)];
    assert next + DenoteList(items.rest) == done + DenoteList(items);
    if items.rest.Cons? {
      ItemStart(items.rest, false, k);
      ReadElementsWritten(items.rest, k, next);
    } else {
      assert DenoteList(items.rest) == [] && next + [] == next;
    }
    hide EmitItem, EmitItems, EmitValue, ReadValue, ItemTail, Denote;
  }

  lemma {:induction false} ReadMembersWritten(items: Items, k: bytes, m: map<bytes, Py>)
    requires items.Cons? && ItemsOk(items) && StrictItems(items)
    ensures ReadMembers(EmitItem(items, true, k), m) == Some((PyDict(m + DenoteItems(items)), k))
    decreases items, 1
  {
    hide EmitItem, EmitItems, EmitValue, ReadValue, ReadKey, ItemTail, Denote, Text;
    var tail := ItemTail(items, true, k);
    AfterItem(items, true, k);
    AfterMember(items, true, k);
    ReadKeyWritten(items, k);
    ReadWritten(items.v, tail);
    var next := m[Text(items.key) := Denote(items.v)];
    MapStep(m, Text(items.key), Denote(items.v), DenoteItems(items.rest));
    if items.rest.Cons? {
      ItemStart(items.rest, true, k);
      ReadMembersWritten(items.rest, k, next);
    }
  }

  lemma MapStep(m: map<bytes, Py>, key: bytes, v: Py, rest: map<bytes, Py>)
    ensures m[key := v] + rest == m + (map[key := v] + rest)
    ensures m[key := v] == m + (map[key := v] + map[])
  {
  }

  /** `json.loads` on the text of any RFC 8259 document, with white space around it, returns the
      value that the document denotes. */
  lemma LoadsWritten(ws: bytes, v: Value, after: bytes)
    requires AllWs(ws) && AllWs(after) && ValueOk(v) && StrictValue(v) && ValidUtf8(ws + EmitValue(v, after))
    ensures Loads(ws + EmitValue(v, after)) == Some(Denote(v))
  {
    hide ValidUtf8, EmitValue, ReadValue, Denote, StrictValue;
    ValueStarts(v, after);
    SkipWsOver(ws, EmitValue(v, after));
    assert after == [] || !IsTok(after[0]);
    ReadWritten(v, after);
    SkipWsOver(after, []);
    assert after + [] == after;
  }

  // ---- the characters of a token ------------------------------------------------------------------

  lemma DigitsAreTok(s: bytes)
    requires AllDigits(s)
    ensures AllTok(s)
  {
  }

  lemma AllTokConcat(a: bytes, b: bytes)
    requires AllTok(a) && AllTok(b)
    ensures AllTok(a + b)
  {
    hide IsTok;
  }

  lemma {:induction false} SpanIsDigits(s: bytes)
    ensures AllDigits(s[..DigitSpan(s)])
  {
    if s != [] && IsDigit(s[0]) {
      SpanIsDigits(s[1..]);
      assert s[..DigitSpan(s)] == [s[0]] + s[1..][..DigitSpan(s[1..])];
    }
  }

  lemma ExponentTok(s: bytes)
    requires IsExponent(s)
    ensures AllTok(s)
  {
    if s != [] {
      var n := if |s| >= 2 && (s[1] == 43 || s[1] == 45) then 2 else 1;
      DigitsAreTok(s[n..]);
      assert AllTok(s[..n]);
      AllTokConcat(s[..n], s[n..]);
      assert s == s[..n] + s[n..];
    }
  }

  lemma FractionTok(s: bytes)
    requires IsFraction(s)
    ensures AllTok(s)
  {
    hide *;
    FractionParts(s);
    if s != [] && s[0] == 46 {
      var n := DigitSpan(s[1..]);
      SpanIsDigits(s[1..]);
      DigitsAreTok(s[1..][..n]);
      ExponentTok(s[1 + n..]);
      PointTok(s[0]);
      assert s[..1] == [s[0]];
      ThreeTok(s, 1, n);
    } else {
      ExponentTok(s);
    }
  }

  lemma FractionParts(s: bytes)
    requires IsFraction(s)
    ensures if s != [] && s[0] == 46 then IsExponent(s[1 + DigitSpan(s[1..])..]) else IsExponent(s)
  {
    hide IsExponent, DigitSpan;
  }

  lemma PointTok(b: byte)
    requires b == 46
    ensures AllTok([b])
  {
  }

  lemma ThreeTok(s: bytes, m: nat, n: nat)
    requires m + n <= |s| && AllTok(s[..m]) && AllTok(s[m..][..n]) && AllTok(s[m + n..])
    ensures AllTok(s)
  {
    hide AllTok;
    AllTokConcat(s[..m], s[m..][..n]);
    AllTokConcat(s[..m] + s[m..][..n], s[m + n..]);
    assert s == s[..m] + s[m..][..n] + s[m + n..];
  }

  lemma NumberIsTok(t: bytes)
    requires IsNumber(t)
    ensures AllTok(t)
  {
    var m := if t != [] && t[0] == MINUS then 1 else 0;
    var a := t[m..];
    var n := DigitSpan(a);
    SpanIsDigits(a);
    DigitsAreTok(a[..n]);
    FractionTok(a[n..]);
    assert AllTok(t[..m]) && a[n..] == t[m + n..];
    ThreeTok(t, m, n);
  }

  /** Every number and name of RFC 8259 is one token of the scanner. */
  lemma ScalarIsToken(t: bytes)
    requires TokenOk(t)
    ensures t != [] && AllTok(t)
  {
    NamesAre();
    hide IsNumber, Ascii;
    if IsNumber(t) {
      NumberIsTok(t);
      NumberNotEmpty(t);
    }
  }

  lemma NumberNotEmpty(t: bytes)
    requires IsNumber(t)
    ensures t != []
  {
  }

  lemma NamesAre()
    ensures Ascii("null") == [110, 117, 108, 108] && Ascii("true") == [116, 114, 117, 101]
    ensures Ascii("false") == [102, 97, 108, 115, 101]
  {
  }

  lemma SampleNumbers(b: byte)
    ensures IsDigit(b) ==> IsNumber([b])
    ensures IsNumber([45, 49]) && IsNumber([49, 46, 49])
    ensures IsNumber([49, 101, 43, 49]) && IsNumber([49, 69, 49])
  {
    hide *;
    if IsDigit(b) {
      OneDigit(b);
    }
    var one: bytes := [49];
    Negative(one);
    SampleParts(one, [46, 49]);
    SampleParts(one, [101, 43, 49]);
    SampleParts(one, [69, 49]);
    assert one + [46, 49] == [49, 46, 49] && one + [101, 43, 49] == [49, 101, 43, 49] && one + [69, 49] == [49, 69, 49];
  }

  lemma OneDigit(b: byte)
    requires IsDigit(b)
    ensures IsNumber([b])
  {
    DigitSpanOf([b], []);
    assert [b] + [] == [b] && [b][1..] == [];
  }

  lemma Negative(one: bytes)
    requires one == [49]
    ensures IsNumber([45, 49])
  {
    assert [45, 49][1..] == one && one + [] == one && one[1..] == [];
    DigitSpanOf(one, []);
  }

  lemma SampleParts(one: bytes, s: bytes)
    requires one == [49] && s in [[46, 49], [101, 43, 49], [69, 49]]
    ensures IsNumber(one + s)
  {
    DigitSpanOf(one, s);
    assert (one + s)[1..] == s;
    assert [46, 49][1..] == one && one + [] == one;
    DigitSpanOf(one, []);
    assert [101, 43, 49][2..] == one && [69, 49][1..] == one && [46, 49][2..] == [];
  }

  /** A number or name that the byte occurs in. */
  lemma TokenWith(b: byte) returns (t: bytes)
    requires IsTok(b) && b != 0
    ensures TokenOk(t) && b in t
  {
    NamesAre();
    SampleNumbers(b);
    hide IsNumber, Ascii;
    if IsDigit(b) {
      t := [b];
    } else if b < 47 {
      t := if b == 43 then [49, 101, 43, 49] else if b == 45 then [45, 49] else [49, 46, 49];
    } else if b == 69 {
      t := [49, 69, 49];
    } else {
      t := LetterWord(b);
    }
  }

  lemma LetterWord(b: byte) returns (t: bytes)
    requires b in [101, 116, 114, 117, 102, 97, 108, 115, 110]
    ensures t in [[110, 117, 108, 108], [116, 114, 117, 101], [102, 97, 108, 115, 101]] && b in t
  {
    t := if b in [110, 117, 108] then [110, 117, 108, 108]
         else if b in [116, 114, 101] then [116, 114, 117, 101] else [102, 97, 108, 115, 101];
  }

  /** The token characters are those of some number or name, and NUL. */
  lemma TokenBytesExact(b: byte)
    ensures IsTok(b) <==> b == 0 || exists t :: TokenOk(t) && b in t
  {
    hide TokenOk;
    if IsTok(b) && b != 0 {
      var t := TokenWith(b);
    }
    if t :| TokenOk(t) && b in t {
      ScalarIsToken(t);
    }
  }
}
