/** One content block as `gwj_content_text` (gateway/src/gw_json.c) accepts it, for arbitrary
    bytes: an object of loose members that may end in a comma.  Every block that the scanner
    accepts has this form, and every block of this form is accepted. */
module BlocksAccepted {
  import opened Bytes
  import opened JsonString
  import opened JsonScan
  import opened JsonDoc
  import opened JsonAccepted

  // ---- keys and ends -------------------------------------------------------------------------------

  /** White space, a key, white space, the colon, white space. */
  datatype Head = Head(pre: bytes, key: seq<Piece>, mid: bytes, gap: bytes)

  function EmitHead(h: Head, t: bytes): (r: bytes) {
    h.pre + Quoted(h.key, h.mid + ([COLON] + (h.gap + t)))
  }

  predicate HeadOk(h: Head, cap: nat) {
    AllWs(h.pre) && AllWs(h.mid) && AllWs(h.gap) && PiecesOk(h.key) && |Text(h.key)| <= cap
  }

  /** The key as `strcmp` sees it. */
  function KeyOf(h: Head): (r: bytes)
    requires PiecesOk(h.key)
  {
    CStr(Text(h.key))
  }

  /** How an object ends: a comma or not, white space, the brace. */
  datatype End = End(comma: bool, ws: bytes)

  function EndText(e: End, k: bytes): (r: bytes) {
    var t := e.ws + ([CLOSE_BRACE] + k);
    if e.comma then [COMMA] + t else t
  }

  lemma HeadWritten(h: Head, t: bytes, cap: nat)
    requires HeadOk(h, cap) && NoWsAhead(t)
    ensures var s := SkipWs(EmitHead(h, t));
      s != [] && !At(s, CLOSE_BRACE) && MemberHead(s, cap) == Some((KeyOf(h), t))
  {
    var rest := h.mid + ([COLON] + (h.gap + t));
    assert Quoted(h.key, rest)[0] == QUOTE;
    hide Quoted, DecodeString, CStr, Text;
    SkipWsOver(h.pre, Quoted(h.key, rest));
    DecodeQuoted(h.key, rest, cap, []);
    assert [] + Text(h.key) == Text(h.key);
    SkipWsOver(h.mid, [COLON] + (h.gap + t));
    assert ([COLON] + (h.gap + t))[1..] == h.gap + t;
    SkipWsOver(h.gap, t);
  }

  lemma HeadSound(s: bytes, cap: nat) returns (h: Head)
    requires MemberHead(SkipWs(s), cap).Some?
    ensures var (k, v) := MemberHead(SkipWs(s), cap).value;
      HeadOk(h, cap) && KeyOf(h) == k && s == EmitHead(h, v) && NoWsAhead(v)
  {
    hide DecodeString, SkipWs, Quoted, CStr, Text, AllWs;
    var t := SkipWs(s);
    var pre := WsSplit(s);
    var (u, text) := DecodeString(t, cap, []).value;
    var key := StringSound(t, cap, []);
    assert [] + Text(key) == Text(key);
    var mid := WsSplit(u);
    var w := SkipWs(u);
    HeadTail(w);
    var gap := WsSplit(w[1..]);
    h := Head(pre, key, mid, gap);
  }

  /** What was decoded is a written string with that text. */
  lemma StringSound(s: bytes, cap: nat, out: bytes) returns (ps: seq<Piece>)
    requires |out| <= cap && DecodeString(s, cap, out).Some?
    ensures var (u, o) := DecodeString(s, cap, out).value;
      PiecesOk(ps) && s == Quoted(ps, u) && o == out + Text(ps) && |o| <= cap
  {
    ps := DecodeSound(s[1..], cap, out);
    DecodeFits(s[1..], cap, out);
    assert s == [QUOTE] + s[1..];
  }

  // ---- one content block ------------------------------------------------------------------------------

  datatype Members = MNil | MCons(h: Head, v: Value, post: bytes, rest: Members)

  function EmitMembers(m: Members, e: End, k: bytes): (r: bytes)
    decreases m, 1
  {
    match m
    case MNil => EndText(e, k)
    case MCons(h, v, _, _) => EmitHead(h, EmitValue(v, MemberTail(m, e, k)))
  }

  /** What follows the value of a member. */
  function MemberTail(m: Members, e: End, k: bytes): (r: bytes)
    requires m.MCons?
    decreases m, 0
  {
    m.post + if m.rest.MNil? then EndText(e, k) else [COMMA] + EmitMembers(m.rest, e, k)
  }

  /** `type` is a string of at most 15 bytes, `text` a string up to its end, anything else a loose
      value at most 64 levels deep. */
  predicate MemberOk(h: Head, v: Value)
    requires PiecesOk(h.key)
  {
    && LooseValue(v)
    && (if KeyOf(h) == KeyType() then v.Str? && PiecesOk(v.ps) && |Text(v.ps)| <= TYPE_CAP
        else if KeyOf(h) == KeyText() then v.Str?
        else Height(v) <= MAX_DEPTH)
  }

  predicate MembersOk(m: Members) {
    m.MNil? || (HeadOk(m.h, BLOCK_KEY_CAP) && MemberOk(m.h, m.v) && AllWs(m.post) && MembersOk(m.rest))
  }

  predicate EndOk(e: End, empty: bool) {
    AllWs(e.ws) && (empty ==> !e.comma)
  }

  predicate IsTextType(h: Head, v: Value)
    requires PiecesOk(h.key) && MemberOk(h, v)
  {
    KeyOf(h) == KeyType() && CStr(Text(v.ps)) == KeyText()
  }

  predicate IsText(m: Members)
    requires MembersOk(m)
  {
    m.MCons? && (IsTextType(m.h, m.v) || IsText(m.rest))
  }

  /** The last `text` member. */
  function LastText(m: Members): (r: Option<seq<Piece>>)
    requires MembersOk(m)
  {
    if m.MNil? then None
    else if LastText(m.rest).Some? then LastText(m.rest)
    else if KeyOf(m.h) == KeyText() then Some(m.v.ps)
    else None
  }

  /** What the walk over the members finds. */
  function Walk(m: Members, e: End, k: bytes, b: Block): (r: Block)
    requires MembersOk(m)
  {
    if m.MNil? then b else Walk(m.rest, e, k, Visit(m.h, m.v, MemberTail(m, e, k), b))
  }

  function Visit(h: Head, v: Value, k: bytes, b: Block): (r: Block)
    requires PiecesOk(h.key) && MemberOk(h, v)
  {
    if KeyOf(h) == KeyType() then b.(isText := b.isText || IsTextType(h, v))
    else if KeyOf(h) == KeyText() then b.(textAt := Some(Quoted(v.ps, k)))
    else b
  }

  lemma VisitWritten(h: Head, v: Value, k: bytes, b: Block)
    requires PiecesOk(h.key) && MemberOk(h, v) && Ends(k)
    ensures BlockValue(KeyOf(h), EmitValue(v, k), b) == Some((k, Visit(h, v, k, b)))
  {
    hide CStr, Quoted, SkipValue, Height, DecodeString, KeyType, KeyText;
    if KeyOf(h) == KeyType() {
      hide KeyOf;
      DecodeQuoted(v.ps, k, TYPE_CAP, []);
      assert [] + Text(v.ps) == Text(v.ps);
    } else if KeyOf(h) == KeyText() {
      hide KeyOf;
      SkipQuoted(v.ps, k);
    } else {
      hide KeyOf;
      SkipWritten(v, k, 0);
    }
  }

  lemma EndSeen(e: End, k: bytes)
    requires AllWs(e.ws)
    ensures SkipWs(e.ws + ([CLOSE_BRACE] + k)) == [CLOSE_BRACE] + k
    ensures SkipWs(EndText(e, k)) == if e.comma then EndText(e, k) else [CLOSE_BRACE] + k
  {
    SkipWsOver(e.ws, [CLOSE_BRACE] + k);
    if e.comma {
      SkipWsOver([], EndText(e, k));
      assert [] + EndText(e, k) == EndText(e, k);
    }
  }

  /** Behind a value: the comma with what follows it, or the brace. */
  lemma TailSeen(post: bytes, t: bytes)
    requires AllWs(post) && t != [] && !IsWs(t[0]) && !IsTok(t[0])
    ensures SkipWs(post + t) == t && Ends(post + t)
  {
    SkipWsOver(post, t);
    WsEnds(post, t);
  }

  /** The same for an end without a comma. */
  lemma EndTail(post: bytes, e: End, k: bytes)
    requires AllWs(post) && AllWs(e.ws)
    ensures Ends(post + EndText(e, k))
    ensures SkipWs(post + EndText(e, k)) == if e.comma then EndText(e, k) else [CLOSE_BRACE] + k
  {
    if e.comma {
      TailSeen(post, EndText(e, k));
    } else {
      Assoc(post, e.ws, [CLOSE_BRACE] + k);
      TailSeen(post + e.ws, [CLOSE_BRACE] + k);
    }
  }

  lemma {:induction false} MembersWritten(m: Members, e: End, k: bytes, b: Block)
    requires MembersOk(m) && EndOk(e, m.MNil?)
    ensures BlockMembers(EmitMembers(m, e, k), b) == Some((k, Walk(m, e, k, b)))
    decreases m
  {
    if m.MNil? {
      EndSeen(e, k);
    } else {
      hide *;
      var tail := MemberTail(m, e, k);
      var b' := Visit(m.h, m.v, tail, b);
      MemberWritten(m, e, k, b);
      MemberNext(m, e, k);
      MembersUnfold(EmitMembers(m, e, k), KeyOf(m.h), EmitValue(m.v, tail), tail, b);
      WalkStep(m, e, k, b);
      if m.rest.MNil? {
        if e.comma {
          BraceReached(e, k, b');
        }
      } else {
        MembersWritten(m.rest, e, k, b');
      }
    }
  }

  lemma WalkStep(m: Members, e: End, k: bytes, b: Block)
    requires m.MCons? && MembersOk(m)
    ensures MembersOk(m.rest) && PiecesOk(m.h.key) && MemberOk(m.h, m.v)
    ensures Walk(m, e, k, b) == Walk(m.rest, e, k, Visit(m.h, m.v, MemberTail(m, e, k), b))
    ensures m.rest.MNil? ==> Walk(m, e, k, b) == Visit(m.h, m.v, MemberTail(m, e, k), b)
  {
    hide Visit, MemberTail, MemberOk;
  }

  /** What the scanner sees behind the value. */
  lemma MemberNext(m: Members, e: End, k: bytes)
    requires m.MCons? && MembersOk(m) && EndOk(e, false)
    ensures var w := SkipWs(MemberTail(m, e, k));
      && Ends(MemberTail(m, e, k))
      && (m.rest.MCons? ==> At(w, COMMA) && w[1..] == EmitMembers(m.rest, e, k))
      && (m.rest.MNil? && e.comma ==> At(w, COMMA) && w[1..] == e.ws + ([CLOSE_BRACE] + k))
      && (m.rest.MNil? && !e.comma ==> !At(w, COMMA) && At(w, CLOSE_BRACE) && w[1..] == k)
  {
    assert AllWs(m.post);
    hide EmitMembers, MembersOk;
    if m.rest.MNil? {
      EndTail(m.post, e, k);
    } else {
      TailSeen(m.post, [COMMA] + EmitMembers(m.rest, e, k));
    }
  }

  /** One turn of the member loop, its parts given. */
  lemma MembersUnfold(s: bytes, key: bytes, v: bytes, u: bytes, b: Block)
    requires !At(SkipWs(s), CLOSE_BRACE) && MemberHead(SkipWs(s), BLOCK_KEY_CAP) == Some((key, v))
    requires BlockValue(key, v, b).Some? && BlockValue(key, v, b).value.0 == u
    ensures var b' := BlockValue(key, v, b).value.1;
      var w := SkipWs(u);
      && (At(w, COMMA) ==> BlockMembers(s, b) == BlockMembers(w[1..], b'))
      && (!At(w, COMMA) && At(w, CLOSE_BRACE) ==> BlockMembers(s, b) == Some((w[1..], b')))
  {
    hide SkipWs, MemberHead, BlockValue;
  }

  lemma BraceReached(e: End, k: bytes, b: Block)
    requires EndOk(e, false)
    ensures BlockMembers(e.ws + ([CLOSE_BRACE] + k), b) == Some((k, b))
  {
    SkipWsOver(e.ws, [CLOSE_BRACE] + k);
  }

  lemma MemberWritten(m: Members, e: End, k: bytes, b: Block)
    requires m.MCons? && MembersOk(m) && EndOk(e, false)
    ensures var t := SkipWs(EmitMembers(m, e, k));
      var tail := MemberTail(m, e, k);
      && t != [] && !At(t, CLOSE_BRACE)
      && MemberHead(t, BLOCK_KEY_CAP) == Some((KeyOf(m.h), EmitValue(m.v, tail)))
      && BlockValue(KeyOf(m.h), EmitValue(m.v, tail), b) == Some((tail, Visit(m.h, m.v, tail, b)))
  {
    var tail := MemberTail(m, e, k);
    MemberNext(m, e, k);
    ValueStarts(m.v, tail);
    hide EmitValue, MemberHead, BlockValue, Visit, EmitHead, MemberTail, LooseValue;
    HeadWritten(m.h, EmitValue(m.v, tail), BLOCK_KEY_CAP);
    VisitWritten(m.h, m.v, tail, b);
  }

  // ---- what a block contributes ---------------------------------------------------------------------

  lemma {:induction false} WalkIsText(m: Members, e: End, k: bytes, b: Block)
    requires MembersOk(m)
    ensures Walk(m, e, k, b).isText == (b.isText || IsText(m))
    decreases m
  {
    if m.MCons? {
      hide MemberTail, IsTextType;
      WalkIsText(m.rest, e, k, Visit(m.h, m.v, MemberTail(m, e, k), b));
      NotBoth();
    }
  }

  lemma NotBoth()
    ensures KeyType() != KeyText()
  {
  }

  /** The remembered place is that of the last `text` member. */
  lemma {:induction false} WalkText(m: Members, e: End, k: bytes, b: Block) returns (tail: bytes)
    requires MembersOk(m)
    ensures Walk(m, e, k, b).textAt
         == if LastText(m).Some? then Some(Quoted(LastText(m).value, tail)) else b.textAt
    decreases m
  {
    tail := [];
    if m.MCons? {
      NotBoth();
      hide MemberTail, Quoted, KeyType, KeyText;
      var here := MemberTail(m, e, k);
      tail := WalkText(m.rest, e, k, Visit(m.h, m.v, here, b));
      if LastText(m.rest).None? {
        tail := here;
      }
    }
  }

  /** A content block: an object, its end, and white space around it. */
  datatype BlockDoc = BlockDoc(pre: bytes, members: Members, end: End, post: bytes)

  /** The text of a text block must be a string that can be decoded. */
  predicate BlockDocOk(d: BlockDoc) {
    && AllWs(d.pre) && AllWs(d.post) && MembersOk(d.members) && EndOk(d.end, d.members.MNil?)
    && (IsText(d.members) && LastText(d.members).Some? ==> PiecesOk(LastText(d.members).value))
  }

  function BlockDocText(d: BlockDoc): (r: bytes)
    requires BlockDocOk(d)
  {
    if IsText(d.members) && LastText(d.members).Some? then Text(LastText(d.members).value) else []
  }

  const START := Block(false, None)

  lemma BlockDocWritten(d: BlockDoc, k: bytes, cap: nat, out: bytes)
    requires BlockDocOk(d) && |out| <= cap
    ensures var s := EmitMembers(d.members, d.end, k);
      && BlockMembers(s, START).Some? && BlockMembers(s, START).value.0 == k
      && BlockOutput(BlockMembers(s, START).value.1, cap, out)
         == if |out| + |BlockDocText(d)| <= cap then Some(out + BlockDocText(d)) else None
  {
    var m, e := d.members, d.end;
    hide EmitMembers, BlockMembers, MembersOk, LastText, IsText, DecodeString, Quoted;
    MembersWritten(m, e, k, START);
    WalkIsText(m, e, k, START);
    var tail := WalkText(m, e, k, START);
    if IsText(m) && LastText(m).Some? {
      DecodeQuoted(LastText(m).value, tail, cap, out);
    } else {
      assert out + [] == out;
    }
  }

  // ---- every accepted block has this form --------------------------------------------------------------

  /** The string at `s` can be decoded, and ends before `k`. */
  ghost predicate Readable(s: bytes, k: bytes) {
    exists qs :: PiecesOk(qs) && s == Quoted(qs, k)
  }

  /** A string that was passed over, in decodable form if it has one. */
  lemma BestString(s: bytes) returns (ps: seq<Piece>)
    requires SkipString(s).Some?
    ensures var k := SkipString(s).value;
      LoosePieces(ps) && s == Quoted(ps, k) && (Readable(s, k) ==> PiecesOk(ps))
  {
    hide Quoted, SkipString;
    var k := SkipString(s).value;
    if qs :| PiecesOk(qs) && s == Quoted(qs, k) {
      ps := qs;
      PiecesAreLoose(qs);
    } else {
      ps := SkipStringSound(s);
    }
  }

  predicate IsTextMember(h: Head, v: Value)
    requires PiecesOk(h.key)
  {
    KeyOf(h) == KeyText() && v.Str?
  }

  ghost predicate BestText(ps: seq<Piece>, k: bytes) {
    Readable(Quoted(ps, k), k) ==> PiecesOk(ps)
  }

  /** Every `text` member that can be decoded is written so. */
  ghost predicate BestTexts(m: Members, e: End, k: bytes)
    requires MembersOk(m)
  {
    m.MNil? ||
    (&& (IsTextMember(m.h, m.v) ==> BestText(m.v.ps, MemberTail(m, e, k)))
     && BestTexts(m.rest, e, k))
  }

  lemma ValueSound(h: Head, s: bytes, b: Block) returns (v: Value)
    requires PiecesOk(h.key) && BlockValue(KeyOf(h), s, b).Some? && NoWsAhead(s)
    ensures var k := BlockValue(KeyOf(h), s, b).value.0;
      && MemberOk(h, v) && s == EmitValue(v, k)
      && (IsTextMember(h, v) ==> BestText(v.ps, k))
  {
    NotBoth();
    hide CStr, SkipString, SkipValue, DecodeString, KeyType, KeyText, Height, Quoted;
    if KeyOf(h) == KeyType() {
      hide KeyOf;
      var ps := StringSound(s, TYPE_CAP, []);
      assert [] + Text(ps) == Text(ps);
      PiecesAreLoose(ps);
      v := Str(ps);
    } else if KeyOf(h) == KeyText() {
      hide KeyOf;
      var ps := BestString(s);
      v := Str(ps);
    } else {
      hide KeyOf;
      var ws;
      ws, v := SkipSound(s, 0);
      NoLeadingWs(ws, s, EmitValue(v, SkipValue(s, 0).value));
    }
  }

  lemma NoLeadingWs(ws: bytes, s: bytes, t: bytes)
    requires AllWs(ws) && NoWsAhead(s) && s == ws + t
    ensures s == t
  {
    assert [] + t == t;
  }

  /** The text of a member, its tail, and what comes next, put together. */
  lemma {:induction false} MembersSound(s: bytes, b: Block) returns (m: Members, e: End)
    requires BlockMembers(s, b).Some?
    ensures var k := BlockMembers(s, b).value.0;
      MembersOk(m) && EndOk(e, m.MNil?) && s == EmitMembers(m, e, k) && BestTexts(m, e, k)
    decreases |s|
  {
    MembersTurn(s, b);
    hide *;
    var k := BlockMembers(s, b).value.0;
    var t := SkipWs(s);
    HeadTail(t);
    if t[0] == CLOSE_BRACE {
      var ws := WsSplit(s);
      m, e := NoMembers(ws, k);
    } else {
      var h := HeadSound(s, BLOCK_KEY_CAP);
      HeadKey(h, BLOCK_KEY_CAP);
      var (key, v0) := MemberHead(t, BLOCK_KEY_CAP).value;
      var v := ValueSound(h, v0, b);
      var (u, b') := BlockValue(key, v0, b).value;
      var post := WsSplit(u);
      var w := SkipWs(u);
      HeadTail(w);
      if w[0] == COMMA {
        var rest, e' := MembersSound(w[1..], b');
        m, e := Joined(h, v, post, rest, e', w, k);
      } else {
        m, e := LastMember(h, v, post, k);
      }
    }
  }

  lemma HeadKey(h: Head, cap: nat)
    requires HeadOk(h, cap)
    ensures PiecesOk(h.key)
  {
    hide PiecesOk, Text;
  }

  /** What one turn of the member loop has seen if the whole succeeds. */
  lemma MembersTurn(s: bytes, b: Block)
    requires BlockMembers(s, b).Some?
    ensures var t := SkipWs(s);
      && t != [] && |t| <= |s|
      && if t[0] == CLOSE_BRACE then BlockMembers(s, b) == Some((t[1..], b))
         else
           && MemberHead(t, BLOCK_KEY_CAP).Some?
           && var (key, v) := MemberHead(t, BLOCK_KEY_CAP).value;
              && BlockValue(key, v, b).Some?
              && var (u, b') := BlockValue(key, v, b).value;
                 var w := SkipWs(u);
                 && w != [] && |w| <= |u| < |s|
                 && if w[0] == COMMA then BlockMembers(w[1..], b') == BlockMembers(s, b)
                    else w[0] == CLOSE_BRACE && BlockMembers(s, b) == Some((w[1..], b'))
  {
    hide SkipWs, BlockValue, DecodeChars, CStr;
  }

  lemma NoMembers(ws: bytes, k: bytes) returns (m: Members, e: End)
    requires AllWs(ws)
    ensures m == MNil && MembersOk(m) && EndOk(e, true) && BestTexts(m, e, k)
    ensures EmitMembers(m, e, k) == ws + ([CLOSE_BRACE] + k)
  {
    m, e := MNil, End(false, ws);
  }

  lemma LastMember(h: Head, v: Value, post: bytes, k: bytes) returns (m: Members, e: End)
    requires HeadOk(h, BLOCK_KEY_CAP) && PiecesOk(h.key) && MemberOk(h, v) && AllWs(post)
    requires IsTextMember(h, v) ==> BestText(v.ps, post + ([CLOSE_BRACE] + k))
    ensures m.MCons? && MembersOk(m) && EndOk(e, false) && BestTexts(m, e, k)
    ensures EmitMembers(m, e, k) == EmitHead(h, EmitValue(v, post + ([CLOSE_BRACE] + k)))
  {
    hide EmitHead, EmitValue, MemberOk, BestText, KeyOf;
    m, e := MCons(h, v, post, MNil), End(false, []);
    assert [] + ([CLOSE_BRACE] + k) == [CLOSE_BRACE] + k;
    assert MemberTail(m, e, k) == post + ([CLOSE_BRACE] + k);
  }

  /** A member before the rest: an empty rest makes its comma the trailing one. */
  lemma Joined(h: Head, v: Value, post: bytes, rest: Members, e: End, w: bytes, k: bytes) returns (m: Members, e2: End)
    requires HeadOk(h, BLOCK_KEY_CAP) && MemberOk(h, v) && AllWs(post) && MembersOk(rest) && EndOk(e, rest.MNil?)
    requires At(w, COMMA) && w[1..] == EmitMembers(rest, e, k) && BestTexts(rest, e, k)
    requires IsTextMember(h, v) ==> BestText(v.ps, post + w)
    ensures m.MCons? && m.h == h && MembersOk(m) && EndOk(e2, false) && BestTexts(m, e2, k)
    ensures EmitMembers(m, e2, k) == EmitHead(h, EmitValue(v, post + w))
  {
    hide EmitHead, EmitValue, MemberOk, Readable, HeadOk, KeyOf, Quoted;
    m := MCons(h, v, post, rest);
    e2 := if rest.MNil? then End(true, e.ws) else e;
    assert w == [COMMA] + w[1..];
    assert MemberTail(m, e2, k) == post + w;
  }

  lemma {:induction false} LastTextBest(m: Members, e: End, k: bytes, b: Block, cap: nat, out: bytes)
    requires MembersOk(m) && BestTexts(m, e, k) && LastText(m).Some? && |out| <= cap
    requires Walk(m, e, k, b).textAt.Some? && DecodeString(Walk(m, e, k, b).textAt.value, cap, out).Some?
    ensures PiecesOk(LastText(m).value)
    decreases m
  {
    hide DecodeString, MemberTail, Quoted, Readable;
    var here := MemberTail(m, e, k);
    var b' := Visit(m.h, m.v, here, b);
    if LastText(m.rest).Some? {
      LastTextBest(m.rest, e, k, b', cap, out);
    } else {
      var tail := WalkText(m.rest, e, k, b');
      DecodedReadable(m.v.ps, here, cap, out);
    }
  }

  lemma DecodedReadable(ps: seq<Piece>, k: bytes, cap: nat, out: bytes)
    requires LoosePieces(ps) && |out| <= cap && DecodeString(Quoted(ps, k), cap, out).Some?
    ensures Readable(Quoted(ps, k), k)
  {
    hide DecodeString, Quoted;
    var qs := StringSound(Quoted(ps, k), cap, out);
    SkipAgrees(Quoted(ps, k), cap, out);
    SkipQuoted(ps, k);
  }

  /** Every block that is accepted is such a block, and adds its text. */
  lemma BlockDocSound(s: bytes, cap: nat, out: bytes, pre: bytes, post: bytes) returns (d: BlockDoc)
    requires BlockMembers(s, START).Some? && AllWs(pre) && AllWs(post) && |out| <= cap
    requires BlockOutput(BlockMembers(s, START).value.1, cap, out).Some?
    ensures BlockDocOk(d) && d.pre == pre && d.post == post
    ensures s == EmitMembers(d.members, d.end, BlockMembers(s, START).value.0)
    ensures BlockOutput(BlockMembers(s, START).value.1, cap, out).value == out + BlockDocText(d)
    ensures |out + BlockDocText(d)| <= cap
  {
    hide BlockMembers, EmitMembers, MembersOk, LastText, IsText, DecodeString, BestTexts;
    var m, e := MembersSound(s, START);
    var k := BlockMembers(s, START).value.0;
    MembersWritten(m, e, k, START);
    WalkIsText(m, e, k, START);
    var tail := WalkText(m, e, k, START);
    if IsText(m) && LastText(m).Some? {
      LastTextBest(m, e, k, START, cap, out);
    }
    d := BlockDoc(pre, m, e, post);
    BlockDocWritten(d, k, cap, out);
  }
}
