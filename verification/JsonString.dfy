/** JSON strings: how one is written (pieces), how the scanner of gateway/src/gw_json.c
    decodes and skips it, and the two escapers of the repository.  A scanner position
    is the suffix of the input that is still unread. */
module JsonString {
  import opened Bytes
  import opened Utf8
  import opened Numbers

  // ---- written form ----------------------------------------------------------

  /** One unit of string content as it stands in the text: a byte standing for itself,
      a two-character escape, a \u escape, or a surrogate pair of \u escapes. */
  datatype Piece = Raw(b: byte) | Short(e: byte) | Uni(h: bytes) | Pair(hi: bytes, lo: bytes)

  const U: byte := 117

  predicate ShortEscape(e: byte) {
    e in [34, 92, 47, 98, 102, 110, 114, 116]
  }

  function ShortByte(e: byte): byte {
    if e == 98 then 8 else if e == 102 then 12 else if e == 110 then 10
    else if e == 114 then 13 else if e == 116 then 9 else e
  }

  /** `s_read_u4`: the value of four hexadecimal digits, -1 if they are not there. */
  function U4(s: bytes): (v: int)
    ensures -1 <= v < 0x10000
  {
    if |s| < 4 || HexVal(s[0]) < 0 || HexVal(s[1]) < 0 || HexVal(s[2]) < 0 || HexVal(s[3]) < 0 then -1
    else ((HexVal(s[0]) * 16 + HexVal(s[1])) * 16 + HexVal(s[2])) * 16 + HexVal(s[3])
  }

  predicate High(u: int) { 0xD800 <= u <= 0xDBFF }
  predicate Low(u: int) { 0xDC00 <= u <= 0xDFFF }

  function PairValue(u1: int, u2: int): (cp: int)
    requires High(u1) && Low(u2)
    ensures 0x10000 <= cp <= 0x10FFFF
  {
    0x10000 + (u1 - 0xD800) * 0x400 + (u2 - 0xDC00)
  }

  predicate PieceOk(p: Piece) {
    match p
    case Raw(b) => b != QUOTE && b != BACKSLASH
    case Short(e) => ShortEscape(e)
    case Uni(h) => |h| == 4 && U4(h) >= 0 && !High(U4(h)) && !Low(U4(h))
    case Pair(hi, lo) => |hi| == 4 && |lo| == 4 && High(U4(hi)) && Low(U4(lo))
  }

  function Print(p: Piece): (r: bytes) {
    match p
    case Raw(b) => [b]
    case Short(e) => [BACKSLASH, e]
    case Uni(h) => [BACKSLASH, U] + h
    case Pair(hi, lo) => [BACKSLASH, U] + hi + [BACKSLASH, U] + lo
  }

  /** The UTF-8 bytes a piece stands for. */
  function Meaning(p: Piece): (r: bytes)
    requires PieceOk(p)
    ensures r != []
  {
    match p
    case Raw(b) => [b]
    case Short(e) => [ShortByte(e)]
    case Uni(h) => Encode(U4(h))
    case Pair(hi, lo) => Encode(PairValue(U4(hi), U4(lo)))
  }

  predicate PiecesOk(ps: seq<Piece>) {
    forall i :: 0 <= i < |ps| ==> PieceOk(ps[i])
  }

  /** The pieces followed by `k`. */
  function Emit(ps: seq<Piece>, k: bytes): (r: bytes)
    ensures |r| >= |ps| + |k|
  {
    if ps == [] then k else Print(ps[0]) + Emit(ps[1..], k)
  }

  function Text(ps: seq<Piece>): (r: bytes)
    requires PiecesOk(ps)
  {
    if ps == [] then [] else Meaning(ps[0]) + Text(ps[1..])
  }

  /** A complete string literal followed by `k`. */
  function Quoted(ps: seq<Piece>, k: bytes): (r: bytes) {
    [QUOTE] + Emit(ps, [QUOTE] + k)
  }

  lemma {:induction false} EmitAppend(ps: seq<Piece>, k: bytes)
    ensures Emit(ps, k) == Emit(ps, []) + k
  {
    if ps != [] {
      EmitAppend(ps[1..], k);
      Assoc(Print(ps[0]), Emit(ps[1..], []), k);
    }
  }

  // ---- the decoder -------------------------------------------------------------

  /** One turn of the loop of `s_decode_string` at a byte that is not the closing quote:
      how much is consumed and which bytes are produced. */
  function DecodeOne(s: bytes): (r: Option<(nat, bytes)>)
    requires s != []
    ensures r.Some? ==> 1 <= r.value.0 <= |s|
  {
    if s[0] != BACKSLASH then Some((1, [s[0]]))
    else if |s| < 2 then None
    else if ShortEscape(s[1]) then Some((2, [ShortByte(s[1])]))
    else if s[1] != U then None
    else
      var u1 := U4(s[2..]);
      if u1 < 0 || Low(u1) then None
      else if !High(u1) then Some((6, Encode(u1)))
      else if |s| < 12 || s[6] != BACKSLASH || s[7] != U || !Low(U4(s[8..])) then None
      else Some((12, Encode(PairValue(u1, U4(s[8..])))))
  }

  /** `s_decode_string` after the opening quote: the unread rest and the buffer. */
  function DecodeChars(s: bytes, cap: nat, out: bytes): (r: Option<(bytes, bytes)>)
    ensures r.Some? ==> |r.value.0| < |s|
    decreases |s|
  {
    if s == [] then None
    else if s[0] == QUOTE then Some((s[1..], out))
    else
      match DecodeOne(s)
      case None => None
      case Some((n, bs)) =>
        if |out| + |bs| > cap then None else DecodeChars(s[n..], cap, out + bs)
  }

  function DecodeString(s: bytes, cap: nat, out: bytes): (r: Option<(bytes, bytes)>)
    ensures r.Some? ==> |r.value.0| < |s|
  {
    if s == [] || s[0] != QUOTE then None else DecodeChars(s[1..], cap, out)
  }

  lemma U4Prefix(h: bytes, k: bytes)
    requires |h| == 4
    ensures U4(h + k) == U4(h)
  {
    assert forall i :: 0 <= i < 4 ==> (h + k)[i] == h[i];
  }

  lemma DecodeOnePrinted(p: Piece, k: bytes)
    requires PieceOk(p)
    requires p.Raw? ==> p.b != QUOTE
    ensures Print(p) != [] && Print(p)[0] != QUOTE
    ensures DecodeOne(Print(p) + k) == Some((|Print(p)|, Meaning(p)))
  {
    hide U4, Encode;
    var s := Print(p) + k;
    match p
    case Raw(b) =>
    case Short(e) =>
      assert s[0] == BACKSLASH && s[1] == e;
    case Uni(h) =>
      assert s[0] == BACKSLASH && s[1] == U && s[2..] == h + k;
      U4Prefix(h, k);
    case Pair(hi, lo) => DecodePair(hi, lo, k);
  }

  lemma DecodePair(hi: bytes, lo: bytes, k: bytes)
    requires PieceOk(Pair(hi, lo))
    ensures DecodeOne(Print(Pair(hi, lo)) + k) == Some((12, Meaning(Pair(hi, lo))))
  {
    hide U4, Encode, ShortEscape;
    var s := Print(Pair(hi, lo)) + k;
    assert s[0] == BACKSLASH && s[1] == U && s[2..] == hi + ([BACKSLASH, U] + lo + k);
    U4Prefix(hi, [BACKSLASH, U] + lo + k);
    assert s[6] == BACKSLASH && s[7] == U && s[8..] == lo + k;
    U4Prefix(lo, k);
    NoShortU();
  }

  lemma NoShortU()
    ensures !ShortEscape(U)
  {
  }

  lemma {:induction false} DecodeEmitted(ps: seq<Piece>, k: bytes, cap: nat, out: bytes)
    requires PiecesOk(ps) && |out| <= cap
    ensures DecodeChars(Emit(ps, [QUOTE] + k), cap, out)
         == if |out| + |Text(ps)| <= cap then Some((k, out + Text(ps))) else None
  {
    var s := Emit(ps, [QUOTE] + k);
    if ps == [] {
      assert s[1..] == k && out + [] == out;
    } else {
      var p, t := Print(ps[0]), Emit(ps[1..], [QUOTE] + k);
      DecodeOnePrinted(ps[0], t);
      assert s[0] == p[0] && s[|p|..] == t;
      var m := Meaning(ps[0]);
      if |out| + |m| <= cap {
        DecodeEmitted(ps[1..], k, cap, out + m);
        Assoc(out, m, Text(ps[1..]));
      }
    }
  }

  /** Decoding inverts writing, whatever escapes the writer chose and whatever follows;
      it fails exactly when the text does not fit. */
  lemma DecodeQuoted(ps: seq<Piece>, k: bytes, cap: nat, out: bytes)
    requires PiecesOk(ps) && |out| <= cap
    ensures DecodeString(Quoted(ps, k), cap, out)
         == if |out| + |Text(ps)| <= cap then Some((k, out + Text(ps))) else None
  {
    assert Quoted(ps, k)[1..] == Emit(ps, [QUOTE] + k);
    DecodeEmitted(ps, k, cap, out);
  }

  /** The piece that one successful turn read. */
  function PieceAt(s: bytes): (p: Piece)
    requires s != [] && s[0] != QUOTE && DecodeOne(s).Some?
  {
    if s[0] != BACKSLASH then Raw(s[0])
    else if ShortEscape(s[1]) then Short(s[1])
    else if !High(U4(s[2..])) then Uni(s[2..6])
    else Pair(s[2..6], s[8..12])
  }

  lemma PieceAtSound(s: bytes)
    requires s != [] && s[0] != QUOTE && DecodeOne(s).Some?
    ensures PieceOk(PieceAt(s)) && DecodeOne(s).value == (|Print(PieceAt(s))|, Meaning(PieceAt(s)))
    ensures s == Print(PieceAt(s)) + s[|Print(PieceAt(s))|..]
  {
    if s[0] == BACKSLASH && !ShortEscape(s[1]) {
      assert s[2..] == s[2..6] + s[6..];
      U4Prefix(s[2..6], s[6..]);
      if High(U4(s[2..])) {
        assert s[8..] == s[8..12] + s[12..];
        U4Prefix(s[8..12], s[12..]);
        assert s[..12] == [BACKSLASH, U] + s[2..6] + [BACKSLASH, U] + s[8..12];
      } else {
        assert s[..6] == [BACKSLASH, U] + s[2..6];
      }
    }
  }

  /** Everything the decoder accepts is a string literal: the accepted language and the
      value returned are those of the written form. */
  lemma {:induction false} DecodeSound(s: bytes, cap: nat, out: bytes) returns (ps: seq<Piece>)
    requires DecodeChars(s, cap, out).Some?
    ensures PiecesOk(ps)
    ensures s == Emit(ps, [QUOTE] + DecodeChars(s, cap, out).value.0)
    ensures DecodeChars(s, cap, out).value.1 == out + Text(ps)
    decreases |s|
  {
    if s[0] == QUOTE {
      ps := [];
      assert s == [QUOTE] + s[1..];
    } else {
      var (n, bs) := DecodeOne(s).value;
      var p := PieceAt(s);
      PieceAtSound(s);
      var tail := DecodeSound(s[n..], cap, out + bs);
      ps := [p] + tail;
      assert ps[1..] == tail;
      Assoc(out, bs, Text(tail));
    }
  }

  // ---- the skipper ---------------------------------------------------------------

  /** `s_skip_string` after the opening quote. */
  function SkipChars(s: bytes): (r: Option<bytes>)
    ensures r.Some? ==> |r.value| < |s|
    decreases |s|
  {
    if s == [] then None
    else if s[0] == QUOTE then Some(s[1..])
    else if s[0] != BACKSLASH then SkipChars(s[1..])
    else if |s| < 2 then None
    else if s[1] != U then SkipChars(s[2..])
    else if |s| < 6 then None
    else SkipChars(s[6..])
  }

  function SkipString(s: bytes): (r: Option<bytes>)
    ensures r.Some? ==> |r.value| < |s|
  {
    if s == [] || s[0] != QUOTE then None else SkipChars(s[1..])
  }

  lemma SkipOne(s: bytes)
    requires s != [] && s[0] != QUOTE && DecodeOne(s).Some?
    ensures SkipChars(s) == SkipChars(s[DecodeOne(s).value.0..])
  {
    if s[0] == BACKSLASH && DecodeOne(s).value.0 == 12 {
      assert s[6..][6..] == s[12..];
    }
  }

  /** Wherever decoding succeeds, skipping stops at the same position. */
  lemma {:induction false} SkipAgrees(s: bytes, cap: nat, out: bytes)
    requires DecodeString(s, cap, out).Some?
    ensures SkipString(s) == Some(DecodeString(s, cap, out).value.0)
  {
    SkipCharsAgrees(s[1..], cap, out);
  }

  lemma {:induction false} SkipCharsAgrees(s: bytes, cap: nat, out: bytes)
    requires DecodeChars(s, cap, out).Some?
    ensures SkipChars(s) == Some(DecodeChars(s, cap, out).value.0)
    decreases |s|
  {
    if s[0] != QUOTE {
      var (n, bs) := DecodeOne(s).value;
      SkipOne(s);
      SkipCharsAgrees(s[n..], cap, out + bs);
    }
  }

  /** What the skipper takes for one unit: any byte, a backslash with any byte, \\u with any four
      bytes. */
  predicate LoosePiece(p: Piece) {
    match p
    case Raw(b) => b != QUOTE && b != BACKSLASH
    case Short(e) => e != U
    case Uni(h) => |h| == 4
    case Pair(hi, lo) => |hi| == 4 && |lo| == 4
  }

  predicate LoosePieces(ps: seq<Piece>) {
    forall i :: 0 <= i < |ps| ==> LoosePiece(ps[i])
  }

  lemma PiecesAreLoose(ps: seq<Piece>)
    requires PiecesOk(ps)
    ensures LoosePieces(ps)
  {
    forall i | 0 <= i < |ps|
      ensures LoosePiece(ps[i])
    {
      assert PieceOk(ps[i]);
      NoShortU();
    }
  }

  lemma SkipPrinted(p: Piece, k: bytes)
    requires LoosePiece(p)
    ensures Print(p) != [] && SkipChars(Print(p) + k) == SkipChars(k)
  {
    var s := Print(p) + k;
    match p
    case Raw(b) => assert s[1..] == k;
    case Short(e) => assert s[0] == BACKSLASH && s[1] == e && s[2..] == k;
    case Uni(h) => assert s[0] == BACKSLASH && s[1] == U && s[6..] == k;
    case Pair(hi, lo) =>
      assert s[0] == BACKSLASH && s[1] == U && s[6..] == [BACKSLASH, U] + (lo + k);
      assert s[6..][6..] == k;
  }

  lemma {:induction false} SkipEmitted(ps: seq<Piece>, k: bytes)
    requires LoosePieces(ps)
    ensures SkipChars(Emit(ps, [QUOTE] + k)) == Some(k)
    decreases |ps|
  {
    if ps == [] {
      assert ([QUOTE] + k)[1..] == k;
    } else {
      hide SkipChars, Print;
      SkipPrinted(ps[0], Emit(ps[1..], [QUOTE] + k));
      SkipEmitted(ps[1..], k);
    }
  }

  /** Skipping consumes exactly any written string, the units that it does not look into being
      arbitrary. */
  lemma SkipQuoted(ps: seq<Piece>, k: bytes)
    requires LoosePieces(ps)
    ensures SkipString(Quoted(ps, k)) == Some(k)
  {
    hide Emit, SkipChars;
    assert Quoted(ps, k)[1..] == Emit(ps, [QUOTE] + k);
    SkipEmitted(ps, k);
  }

  /** Conversely, whatever is skipped is such a string. */
  lemma {:induction false} SkipCharsSound(s: bytes) returns (ps: seq<Piece>)
    requires SkipChars(s).Some?
    ensures LoosePieces(ps) && s == Emit(ps, [QUOTE] + SkipChars(s).value)
    decreases |s|
  {
    if s[0] == QUOTE {
      ps := [];
    } else {
      var p := if s[0] != BACKSLASH then Raw(s[0]) else if s[1] != U then Short(s[1]) else Uni(s[2..6]);
      var n := |Print(p)|;
      assert s == Print(p) + s[n..];
      var rest := SkipCharsSound(s[n..]);
      ps := [p] + rest;
      assert ps[1..] == rest;
    }
  }

  lemma SkipStringSound(s: bytes) returns (ps: seq<Piece>)
    requires SkipString(s).Some?
    ensures LoosePieces(ps) && s == Quoted(ps, SkipString(s).value)
  {
    ps := SkipCharsSound(s[1..]);
    assert s == [QUOTE] + s[1..];
  }

  // ---- the two escapers ----------------------------------------------------------

  /** `gwj_escape` for request bodies, `write_escaped` for records. */
  datatype Style = ForBody | ForRecord

  function EscapePiece(style: Style, b: byte): (p: Piece)
    ensures PieceOk(p) && LoosePiece(p) && Meaning(p) == [b]
  {
    if b == QUOTE || b == BACKSLASH then Short(b)
    else if b >= 0x20 then Raw(b)
    else if style.ForBody? && b == 10 then Short(110)
    else if style.ForBody? && b == 13 then Short(114)
    else if style.ForBody? && b == 9 then Short(116)
    else
      HexValOf(b / 16);
      HexValOf(b % 16);
      Uni([48, 48, HexDigit(b / 16), HexDigit(b % 16)])
  }

  function Pieces(style: Style, s: bytes): (ps: seq<Piece>)
    ensures |ps| == |s| && PiecesOk(ps) && LoosePieces(ps)
  {
    if s == [] then [] else [EscapePiece(style, s[0])] + Pieces(style, s[1..])
  }

  /** The escaped form of `s` followed by `k`. */
  function Escaped(style: Style, s: bytes, k: bytes): (r: bytes) {
    Emit(Pieces(style, s), k)
  }

  lemma {:induction false} PiecesText(style: Style, s: bytes)
    ensures Text(Pieces(style, s)) == s
  {
    if s != [] {
      PiecesText(style, s[1..]);
      assert Pieces(style, s)[1..] == Pieces(style, s[1..]);
    }
  }

  lemma EscapedCons(style: Style, s: bytes, k: bytes)
    requires s != []
    ensures Escaped(style, s, k) == Print(EscapePiece(style, s[0])) + Escaped(style, s[1..], k)
  {
    assert Pieces(style, s)[1..] == Pieces(style, s[1..]);
  }

  // ---- the escape rules, byte for byte ---------------------------------------------

  /** The rule of records (include/axilog/canonical.h): quote and backslash behind a backslash, a
      control byte as \u00 and its two lower-case hexadecimal digits, anything else as itself. */
  function RecordByte(b: byte): bytes {
    if b == 0x22 then [0x5C, 0x22]
    else if b == 0x5C then [0x5C, 0x5C]
    else if b < 0x20 then Ascii("\\u00") + HexText([b])
    else [b]
  }

  /** The rule of request bodies: the same, but LF, CR and HT have a short form. */
  function BodyByte(b: byte): bytes {
    if b == 0x0A then Ascii("\\n")
    else if b == 0x0D then Ascii("\\r")
    else if b == 0x09 then Ascii("\\t")
    else RecordByte(b)
  }

  function RuleText(style: Style, s: bytes): bytes {
    if s == [] then []
    else (if style.ForRecord? then RecordByte(s[0]) else BodyByte(s[0])) + RuleText(style, s[1..])
  }

  lemma PieceIsRule(style: Style, b: byte)
    ensures Print(EscapePiece(style, b)) == if style.ForRecord? then RecordByte(b) else BodyByte(b)
  {
    ShortForms();
    hide Ascii, HexText;
    if b < 0x20 {
      HexOfByte(b);
    }
  }

  lemma ShortForms()
    ensures Ascii("\\u00") == [0x5C, U, 48, 48]
    ensures Ascii("\\n") == [0x5C, 110] && Ascii("\\r") == [0x5C, 114] && Ascii("\\t") == [0x5C, 116]
  {
  }

  lemma HexOfByte(b: byte)
    ensures HexText([b]) == [HexDigit(b / 16), HexDigit(b % 16)]
  {
    assert [b][1..] == [];
    assert HexText([]) == [];
  }

  /** Both escapers write every byte string exactly by their rule. */
  lemma {:induction false} EscapedIsRule(style: Style, s: bytes, k: bytes)
    ensures Escaped(style, s, k) == RuleText(style, s) + k
  {
    if s == [] {
      assert [] + k == k;
    } else {
      PieceIsRule(style, s[0]);
      hide Escaped, EscapePiece, Print, RecordByte, BodyByte;
      EscapedCons(style, s, k);
      EscapedIsRule(style, s[1..], k);
      Assoc(if style.ForRecord? then RecordByte(s[0]) else BodyByte(s[0]), RuleText(style, s[1..]), k);
    }
  }

  /** Decoding a quoted escape returns the original bytes, for every byte string. */
  lemma EscapeRoundTrip(style: Style, s: bytes, k: bytes, cap: nat)
    requires |s| <= cap
    ensures DecodeString([QUOTE] + Escaped(style, s, [QUOTE] + k), cap, []) == Some((k, s))
  {
    PiecesText(style, s);
    DecodeQuoted(Pieces(style, s), k, cap, []);
    assert [] + s == s;
  }

  lemma {:induction false} EscapedLength(style: Style, s: bytes)
    ensures |Escaped(style, s, [])| <= 6 * |s|
    ensures (forall i :: 0 <= i < |s| ==> s[i] >= 0x20) ==> |Escaped(style, s, [])| <= 2 * |s|
  {
    if s != [] {
      EscapedCons(style, s, []);
      EscapedLength(style, s[1..]);
      assert |Print(EscapePiece(style, s[0]))| <= 6;
    }
  }

  /** Escaped text has no byte below 0x20, so in particular no NUL. */
  lemma {:induction false} EscapedPrintable(style: Style, s: bytes)
    ensures forall i :: 0 <= i < |Escaped(style, s, [])| ==> Escaped(style, s, [])[i] >= 0x20
  {
    if s != [] {
      EscapedCons(style, s, []);
      EscapedPrintable(style, s[1..]);
    }
  }

  lemma AsciiValid(s: bytes)
    requires forall i :: 0 <= i < |s| ==> s[i] < 0x80
    ensures ValidUtf8(s)
  {
    if s != [] {
      AsciiValid(s[1..]);
    }
  }

  /** Escaping touches ASCII only: code points outside it are copied. */
  lemma {:induction false} EscapedHigh(style: Style, a: bytes, s: bytes)
    requires forall i :: 0 <= i < |a| ==> a[i] >= 0x80
    ensures Escaped(style, a + s, []) == a + Escaped(style, s, [])
  {
    if a == [] {
      assert a + s == s;
    } else {
      PlainPiece(style, a[0]);
      hide Escaped, EscapePiece, Print;
      EscapedCons(style, a + s, []);
      assert (a + s)[1..] == a[1..] + s;
      EscapedHigh(style, a[1..], s);
      Assoc([a[0]], a[1..], Escaped(style, s, []));
      assert [a[0]] + a[1..] == a;
    }
  }

  /** Printable bytes other than the quote and the backslash stand for themselves. */
  lemma PlainPiece(style: Style, b: byte)
    requires b >= 0x20 && b != QUOTE && b != BACKSLASH
    ensures Print(EscapePiece(style, b)) == [b]
  {
  }

  /** Text that needs no escape is written as it is. */
  lemma {:induction false} EscapedPlain(style: Style, s: bytes, k: bytes)
    requires forall i :: 0 <= i < |s| ==> s[i] >= 0x20 && s[i] != QUOTE && s[i] != BACKSLASH
    ensures Escaped(style, s, k) == s + k
  {
    if s != [] {
      PlainPiece(style, s[0]);
      hide Escaped, EscapePiece, Print;
      EscapedCons(style, s, k);
      EscapedPlain(style, s[1..], k);
      Assoc([s[0]], s[1..], k);
      assert [s[0]] + s[1..] == s;
    } else {
      assert s + k == k;
    }
  }

  lemma EscapeAsciiValid(style: Style, b: byte)
    requires b < 0x80
    ensures ValidUtf8(Print(EscapePiece(style, b)))
  {
    EscapeAscii(style, b);
    hide *;
    AsciiValid(Print(EscapePiece(style, b)));
  }

  lemma EscapeAscii(style: Style, b: byte)
    requires b < 0x80
    ensures forall i :: 0 <= i < |Print(EscapePiece(style, b))| ==> Print(EscapePiece(style, b))[i] < 0x80
  {
  }

  lemma EncodedHigh(cp: scalar)
    requires cp >= 0x80
    ensures forall i :: 0 <= i < |Encode(cp)| ==> Encode(cp)[i] >= 0x80
  {
  }

  lemma {:induction false} EscapedKeepsUtf8(style: Style, cps: seq<scalar>)
    ensures ValidUtf8(Escaped(style, EncodeAll(cps), []))
  {
    if cps != [] {
      var s, t := EncodeAll(cps), EncodeAll(cps[1..]);
      EscapedKeepsUtf8(style, cps[1..]);
      if cps[0] < 0x80 {
        EscapedCons(style, s, []);
        assert s[1..] == t;
        EscapeAsciiValid(style, s[0]);
        ValidConcat(Print(EscapePiece(style, s[0])), Escaped(style, t, []));
      } else {
        EncodedHigh(cps[0]);
        EscapedHigh(style, Encode(cps[0]), t);
        PutUtf8Accepted(cps[0]);
        ValidConcat(Encode(cps[0]), Escaped(style, t, []));
      }
    }
  }

  // ---- the loops of gw_json.c ------------------------------------------------------

  /** `memcpy` into the destination at `o`, unless it would pass `cap`. */
  method PutBytes(dst: array<byte>, cap: nat, o0: nat, bs: bytes) returns (ok: bool, o: nat)
    requires o0 <= cap <= dst.Length
    modifies dst
    ensures ok == (o0 + |bs| <= cap)
    ensures o == (if ok then o0 + |bs| else o0) && o <= cap
    ensures dst[..o] == old(dst[..o0]) + if ok then bs else []
  {
    if o0 + |bs| > cap {
      return false, o0;
    }
    forall j | 0 <= j < |bs| {
      dst[o0 + j] := bs[j];
    }
    assert dst[..o0 + |bs|] == old(dst[..o0]) + bs;
    return true, o0 + |bs|;
  }

  /** `gwj_escape`. */
  method GwjEscape(dst: array<byte>, cap: nat, src: bytes) returns (n: int)
    requires cap <= dst.Length
    modifies dst
    ensures n == if |Escaped(ForBody, src, [])| <= cap then |Escaped(ForBody, src, [])| else -1
    ensures n >= 0 ==> dst[..n] == Escaped(ForBody, src, [])
  {
    var o, i := 0, 0;
    while i < |src|
      invariant 0 <= i <= |src| && 0 <= o <= cap
      invariant dst[..o] + Escaped(ForBody, src[i..], []) == Escaped(ForBody, src, [])
    {
      ghost var done := dst[..o];
      var rep := Print(EscapePiece(ForBody, src[i]));
      EscapedCons(ForBody, src[i..], []);
      assert src[i..][1..] == src[i + 1..];
      Assoc(done, rep, Escaped(ForBody, src[i + 1..], []));
      var ok;
      ok, o := PutBytes(dst, cap, o, rep);
      if !ok {
        return -1;
      }
      i := i + 1;
    }
    assert src[i..] == [];
    return o;
  }

  /** `gwj_escape_utf8`: refuses what is not well-formed UTF-8 before writing anything. */
  method GwjEscapeUtf8(dst: array<byte>, cap: nat, src: bytes) returns (n: int)
    requires cap <= dst.Length
    modifies dst
    ensures n >= 0 <==> IsUtf8(src) && |Escaped(ForBody, src, [])| <= cap
    ensures n >= 0 ==> n == |Escaped(ForBody, src, [])| && dst[..n] == Escaped(ForBody, src, [])
    ensures !IsUtf8(src) ==> dst[..] == old(dst[..])
  {
    var ok := TableValidate(src);
    if !ok {
      return -1;
    }
    n := GwjEscape(dst, cap, src);
  }

  /** `s_skip_string`. */
  method ScanSkipString(data: bytes, p0: nat) returns (ok: bool, p: nat)
    requires p0 <= |data|
    ensures p <= |data|
    ensures ok == SkipString(data[p0..]).Some?
    ensures ok ==> p0 < p && data[p..] == SkipString(data[p0..]).value
  {
    p := p0;
    if p == |data| || data[p] != QUOTE {
      return false, p;
    }
    p := p + 1;
    assert data[p0..][1..] == data[p..];
    while p < |data|
      invariant p0 < p <= |data|
      invariant SkipString(data[p0..]) == SkipChars(data[p..])
    {
      var c := data[p];
      ghost var at := data[p..];
      p := p + 1;
      assert at[1..] == data[p..];
      if c == QUOTE {
        return true, p;
      }
      if c == BACKSLASH {
        if p == |data| {
          return false, p;
        }
        p := p + 1;
        assert at[2..] == data[p..];
        if data[p - 1] == U {
          if |data| - p < 4 {
            return false, p;
          }
          p := p + 4;
          assert at[6..] == data[p..];
        }
      }
    }
    return false, p;
  }

  /** `s_decode_string`: `o` is the fill of `dst`, of which `cap` bytes may be used. */
  method ScanDecodeString(data: bytes, p0: nat, dst: array<byte>, cap: nat, o0: nat)
    returns (ok: bool, p: nat, o: nat)
    requires p0 <= |data| && o0 <= cap <= dst.Length
    modifies dst
    ensures p <= |data| && o <= cap
    ensures ok == DecodeString(data[p0..], cap, old(dst[..o0])).Some?
    ensures ok ==> p0 < p && (data[p..], dst[..o]) == DecodeString(data[p0..], cap, old(dst[..o0])).value
  {
    hide DecodeOne;
    p, o := p0, o0;
    if p == |data| || data[p] != QUOTE {
      return false, p, o;
    }
    ghost var before := dst[..o0];
    p := p + 1;
    assert data[p0..][1..] == data[p..];
    while p < |data|
      invariant p0 < p <= |data| && o <= cap
      invariant DecodeString(data[p0..], cap, before) == DecodeChars(data[p..], cap, dst[..o])
    {
      var at := data[p..];
      if at[0] == QUOTE {
        p := p + 1;
        return true, p, o;
      }
      match DecodeOne(at) {
        case None => return false, p, o;
        case Some((n, bs)) =>
          assert at[n..] == data[p + n..];
          ok, o := PutBytes(dst, cap, o, bs);
          if !ok {
            return;
          }
          p := p + n;
      }
    }
    return false, p, o;
  }
}
