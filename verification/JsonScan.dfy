/** The structural scanner of gateway/src/gw_json.c as functions on the unread suffix.
    The loops themselves are in JsonLoops. */
module JsonScan {
  import opened Bytes
  import opened JsonString

  const OPEN_BRACE: byte := 123
  const CLOSE_BRACE: byte := 125
  const OPEN_BRACKET: byte := 91
  const CLOSE_BRACKET: byte := 93
  const COLON: byte := 58

  const MAX_DEPTH := 64
  const TOP_KEY_CAP: nat := 63
  const BLOCK_KEY_CAP: nat := 31
  const TYPE_CAP: nat := 15

  predicate IsWs(b: byte) {
    b == 32 || b == 9 || b == 10 || b == 13
  }

  /** `strchr(tok, c) != NULL`: the characters of numbers, true, false and null, and the
      NUL byte, for which `strchr` finds the terminator. */
  predicate IsTok(b: byte) {
    || 48 <= b <= 57
    || b in [43, 45, 46, 101, 69, 116, 114, 117, 102, 97, 108, 115, 110]
    || b == 0
  }

  /** `s_ws`. */
  function SkipWs(s: bytes): (r: bytes)
    ensures |r| <= |s| && (r == [] || !IsWs(r[0]))
  {
    if s != [] && IsWs(s[0]) then SkipWs(s[1..]) else s
  }

  function SkipToken(s: bytes): (r: bytes)
    ensures |r| <= |s|
  {
    if s != [] && IsTok(s[0]) then SkipToken(s[1..]) else s
  }

  predicate At(s: bytes, b: byte) {
    s != [] && s[0] == b
  }

  /** A key and its colon, when the scanner does not look at the key. */
  function SkipKey(s: bytes): (r: Option<bytes>)
    ensures r.Some? ==> |r.value| < |s|
  {
    match SkipString(SkipWs(s))
    case None => None
    case Some(t) => if At(SkipWs(t), COLON) then Some(SkipWs(t)[1..]) else None
  }

  /** `s_skip_value`. */
  function SkipValue(s: bytes, depth: nat): (r: Option<bytes>)
    ensures r.Some? ==> |r.value| < |s|
    decreases |s|, 0
  {
    var t := SkipWs(s);
    if depth > MAX_DEPTH || t == [] then None
    else if t[0] == QUOTE then SkipString(t)
    else if t[0] == OPEN_BRACE || t[0] == OPEN_BRACKET then
      var isObj := t[0] == OPEN_BRACE;
      var u := SkipWs(t[1..]);
      if At(u, Closer(isObj)) then Some(u[1..]) else SkipItems(u, isObj, depth)
    else if !IsTok(t[0]) then None
    else Some(SkipToken(t[1..]))
  }

  function Closer(isObj: bool): byte {
    if isObj then CLOSE_BRACE else CLOSE_BRACKET
  }

  /** The `for (;;)` of `s_skip_value`. */
  function SkipItems(s: bytes, isObj: bool, depth: nat): (r: Option<bytes>)
    ensures r.Some? ==> |r.value| < |s|
    decreases |s|, 1
  {
    match if isObj then SkipKey(s) else Some(s)
    case None => None
    case Some(v) =>
      match SkipValue(v, depth + 1)
      case None => None
      case Some(t) =>
        var u := SkipWs(t);
        if At(u, COMMA) then SkipItems(u[1..], isObj, depth)
        else if At(u, Closer(isObj)) then Some(u[1..])
        else None
  }

  /** A decoded key, its colon and the white space around it: the head of every member
      that `gwj_top_string` and `gwj_content_text` look at. */
  function MemberHead(s: bytes, cap: nat): (r: Option<(bytes, bytes)>)
    ensures r.Some? ==> |r.value.1| < |s|
  {
    match DecodeString(s, cap, [])
    case None => None
    case Some((t, key)) =>
      if At(SkipWs(t), COLON) then Some((CStr(key), SkipWs(SkipWs(t)[1..]))) else None
  }

  // ---- gwj_top_string ------------------------------------------------------------

  function TopMembers(s: bytes, key: bytes, cap: nat): (r: Option<bytes>)
    decreases |s|
  {
    var t := SkipWs(s);
    if At(t, CLOSE_BRACE) then None
    else
      match MemberHead(t, TOP_KEY_CAP)
      case None => None
      case Some((k, v)) =>
        if k == key then
          match DecodeString(v, cap, []) {
            case None => None
            case Some((_, out)) => Some(out)
          }
        else
          match SkipValue(v, 0)
          case None => None
          case Some(u) => if At(SkipWs(u), COMMA) then TopMembers(SkipWs(u)[1..], key, cap) else None
  }

  /** `gwj_top_string` with a destination of `cap + 1` bytes. */
  function TopString(body: bytes, key: bytes, cap: nat): (r: Option<bytes>) {
    var t := SkipWs(body);
    if At(t, OPEN_BRACE) then TopMembers(t[1..], key, cap) else None
  }

  // ---- gwj_content_text ----------------------------------------------------------

  function KeyContent(): bytes { [99, 111, 110, 116, 101, 110, 116] }
  function KeyType(): bytes { [116, 121, 112, 101] }
  function KeyText(): bytes { [116, 101, 120, 116] }

  /** What the walk over one content block has found so far. */
  datatype Block = Block(isText: bool, textAt: Option<bytes>)

  /** The value of one member of a block: the unread rest and the updated findings. */
  function BlockValue(k: bytes, v: bytes, b: Block): (r: Option<(bytes, Block)>)
    ensures r.Some? ==> |r.value.0| < |v|
  {
    if k == KeyType() then
      match DecodeString(v, TYPE_CAP, []) {
        case None => None
        case Some((u, tv)) => Some((u, b.(isText := b.isText || CStr(tv) == KeyText())))
      }
    else if k == KeyText() then
      match SkipString(v) {
        case None => None
        case Some(u) => Some((u, b.(textAt := Some(v))))
      }
    else
      match SkipValue(v, 0)
      case None => None
      case Some(u) => Some((u, b))
  }

  function BlockMembers(s: bytes, b: Block): (r: Option<(bytes, Block)>)
    ensures r.Some? ==> |r.value.0| < |s|
    decreases |s|
  {
    var t := SkipWs(s);
    if At(t, CLOSE_BRACE) then Some((t[1..], b))
    else
      match MemberHead(t, BLOCK_KEY_CAP)
      case None => None
      case Some((k, v)) =>
        match BlockValue(k, v, b)
        case None => None
        case Some((u, b')) =>
          var w := SkipWs(u);
          if At(w, COMMA) then BlockMembers(w[1..], b')
          else if At(w, CLOSE_BRACE) then Some((w[1..], b'))
          else None
  }

  /** The deferred decode of a finished block. */
  function BlockOutput(b: Block, cap: nat, out: bytes): (r: Option<bytes>) {
    if b.isText && b.textAt.Some? then
      match DecodeString(b.textAt.value, cap, out)
      case None => None
      case Some((_, o)) => Some(o)
    else Some(out)
  }

  function Blocks(s: bytes, cap: nat, out: bytes): (r: Option<(bytes, bytes)>)
    ensures r.Some? ==> |r.value.0| < |s|
    decreases |s|
  {
    var t := SkipWs(s);
    if !At(t, OPEN_BRACE) then None
    else
      match BlockMembers(t[1..], Block(false, None))
      case None => None
      case Some((u, b)) =>
        match BlockOutput(b, cap, out)
        case None => None
        case Some(o) =>
          var w := SkipWs(u);
          if At(w, COMMA) then Blocks(w[1..], cap, o)
          else if At(w, CLOSE_BRACKET) then Some((w[1..], o))
          else None
  }

  function ContentArray(v: bytes, cap: nat, out: bytes): (r: Option<(bytes, bytes)>)
    ensures r.Some? ==> |r.value.0| < |v|
  {
    if !At(v, OPEN_BRACKET) then None
    else
      var u := SkipWs(v[1..]);
      if At(u, CLOSE_BRACKET) then Some((u[1..], out)) else Blocks(u, cap, out)
  }

  /** The value of one top-level member. */
  function TopValue(k: bytes, v: bytes, cap: nat, out: bytes): (r: Option<(bytes, bytes)>)
    ensures r.Some? ==> |r.value.0| < |v|
  {
    if k == KeyContent() then ContentArray(v, cap, out)
    else
      match SkipValue(v, 0)
      case None => None
      case Some(u) => Some((u, out))
  }

  function ContentMembers(s: bytes, cap: nat, out: bytes, found: bool): (r: Option<bytes>)
    decreases |s|
  {
    var t := SkipWs(s);
    if At(t, CLOSE_BRACE) then (if found then Some(out) else None)
    else
      match MemberHead(t, TOP_KEY_CAP)
      case None => None
      case Some((k, v)) =>
        match TopValue(k, v, cap, out)
        case None => None
        case Some((u, o)) =>
          var w, f := SkipWs(u), found || k == KeyContent();
          if At(w, COMMA) then ContentMembers(w[1..], cap, o, f)
          else if At(w, CLOSE_BRACE) && f then Some(o)
          else None
  }

  /** `gwj_content_text`. */
  function ContentText(body: bytes, cap: nat): (r: Option<bytes>) {
    var t := SkipWs(body);
    if At(t, OPEN_BRACE) then ContentMembers(t[1..], cap, [], false) else None
  }

  // ---- the destination is never overrun ---------------------------------------------------

  lemma {:induction false} DecodeFits(s: bytes, cap: nat, out: bytes)
    requires |out| <= cap && DecodeChars(s, cap, out).Some?
    ensures |DecodeChars(s, cap, out).value.1| <= cap
    decreases |s|
  {
    if s[0] != QUOTE {
      var (n, bs) := DecodeOne(s).value;
      hide DecodeOne;
      DecodeFits(s[n..], cap, out + bs);
    }
  }

  lemma OutputFits(b: Block, cap: nat, out: bytes)
    requires |out| <= cap && BlockOutput(b, cap, out).Some?
    ensures |BlockOutput(b, cap, out).value| <= cap
  {
    hide DecodeChars;
    if b.isText && b.textAt.Some? {
      DecodeFits(b.textAt.value[1..], cap, out);
    }
  }

  lemma {:induction false} BlocksFit(s: bytes, cap: nat, out: bytes)
    requires |out| <= cap && Blocks(s, cap, out).Some?
    ensures |Blocks(s, cap, out).value.1| <= cap
    decreases |s|
  {
    hide SkipWs, BlockMembers, BlockOutput;
    var (u, b) := BlockMembers(SkipWs(s)[1..], Block(false, None)).value;
    OutputFits(b, cap, out);
    if At(SkipWs(u), COMMA) {
      BlocksFit(SkipWs(u)[1..], cap, BlockOutput(b, cap, out).value);
    }
  }

  lemma {:induction false} MembersFit(s: bytes, cap: nat, out: bytes, found: bool)
    requires |out| <= cap && ContentMembers(s, cap, out, found).Some?
    ensures |ContentMembers(s, cap, out, found).value| <= cap
    decreases |s|
  {
    hide SkipWs, MemberHead, Blocks, SkipValue, KeyContent;
    var t := SkipWs(s);
    if !At(t, CLOSE_BRACE) {
      var (k, v) := MemberHead(t, TOP_KEY_CAP).value;
      var (u, o) := TopValue(k, v, cap, out).value;
      if k == KeyContent() && !At(SkipWs(v[1..]), CLOSE_BRACKET) {
        BlocksFit(SkipWs(v[1..]), cap, out);
      }
      if At(SkipWs(u), COMMA) {
        MembersFit(SkipWs(u)[1..], cap, o, found || k == KeyContent());
      }
    }
  }

  /** What `gwj_content_text` returns fits the buffer. */
  lemma ContentFits(body: bytes, cap: nat)
    requires ContentText(body, cap).Some?
    ensures |ContentText(body, cap).value| <= cap
  {
    hide SkipWs, ContentMembers;
    MembersFit(SkipWs(body)[1..], cap, [], false);
  }
}
