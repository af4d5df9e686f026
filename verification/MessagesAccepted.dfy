/** Exactly which bodies `gwj_content_text` (gateway/src/gw_json.c) accepts, and with which text:
    every body that it accepts is a document of the form below, and every such document is
    accepted.  The form is wider than RFC 8259: an object may end in a comma, anything may follow
    the closing brace, a value that is not looked at is loose, and a key counts up to its first
    NUL. */
module MessagesAccepted {
  import opened Bytes
  import opened JsonString
  import opened JsonScan
  import opened JsonDoc
  import opened JsonAccepted
  import opened BlocksAccepted

  // ---- the content array ------------------------------------------------------------------------------------

  function EmitBlocks(ds: seq<BlockDoc>, k: bytes): (r: bytes)
    requires ds != []
  {
    var tail := if |ds| == 1 then [CLOSE_BRACKET] + k else [COMMA] + EmitBlocks(ds[1..], k);
    ds[0].pre + ([OPEN_BRACE] + EmitMembers(ds[0].members, ds[0].end, ds[0].post + tail))
  }

  predicate BlocksOk(ds: seq<BlockDoc>) {
    forall i :: 0 <= i < |ds| ==> BlockDocOk(ds[i])
  }

  function BlocksText(ds: seq<BlockDoc>): (r: bytes)
    requires BlocksOk(ds)
  {
    if ds == [] then [] else BlockDocText(ds[0]) + BlocksText(ds[1..])
  }

  /** The first block, and what the scanner does next. */
  lemma BlockStep(ds: seq<BlockDoc>, k: bytes, cap: nat, out: bytes)
    requires ds != [] && BlocksOk(ds) && |out| <= cap
    ensures var o := out + BlockDocText(ds[0]);
      Blocks(EmitBlocks(ds, k), cap, out)
      == if |o| > cap then None else if |ds| == 1 then Some((k, o)) else Blocks(EmitBlocks(ds[1..], k), cap, o)
  {
    hide *;
    var d := ds[0];
    BlockParts(ds, k);
    var tail := BlockTail(ds, k);
    var s := [OPEN_BRACE] + EmitMembers(d.members, d.end, d.post + tail);
    NotWs();
    SkipWsOver(d.pre, s);
    assert s[1..] == EmitMembers(d.members, d.end, d.post + tail);
    BlockDocWritten(d, d.post + tail, cap, out);
    TailSeen(d.post, tail);
    BlocksUnfold(d.pre + s, s, d.post + tail, tail, cap, out);
  }

  function BlockTail(ds: seq<BlockDoc>, k: bytes): (r: bytes)
    requires ds != []
  {
    if |ds| == 1 then [CLOSE_BRACKET] + k else [COMMA] + EmitBlocks(ds[1..], k)
  }

  lemma BlockParts(ds: seq<BlockDoc>, k: bytes)
    requires ds != [] && BlocksOk(ds)
    ensures var d, tail := ds[0], BlockTail(ds, k);
      && BlockDocOk(d) && AllWs(d.pre) && AllWs(d.post)
      && EmitBlocks(ds, k) == d.pre + ([OPEN_BRACE] + EmitMembers(d.members, d.end, d.post + tail))
      && tail != [] && !IsWs(tail[0]) && !IsTok(tail[0])
      && (|ds| == 1 ==> At(tail, CLOSE_BRACKET) && !At(tail, COMMA) && tail[1..] == k)
      && (|ds| > 1 ==> At(tail, COMMA) && tail[1..] == EmitBlocks(ds[1..], k))
  {
    hide EmitMembers, MembersOk, LastText, IsText;
    assert BlockDocOk(ds[0]);
  }

  lemma NotWs()
    ensures forall t: bytes :: NoWsAhead([OPEN_BRACE] + t)
    ensures forall t: bytes :: At([OPEN_BRACE] + t, OPEN_BRACE)
  {
  }

  /** One turn of the loop over the blocks, its parts given. */
  lemma BlocksUnfold(s: bytes, t: bytes, u: bytes, w: bytes, cap: nat, out: bytes)
    requires SkipWs(s) == t && At(t, OPEN_BRACE) && SkipWs(u) == w
    requires BlockMembers(t[1..], START).Some? && BlockMembers(t[1..], START).value.0 == u
    ensures var o := BlockOutput(BlockMembers(t[1..], START).value.1, cap, out);
      && (o.None? ==> Blocks(s, cap, out) == None)
      && (o.Some? && At(w, COMMA) ==> Blocks(s, cap, out) == Blocks(w[1..], cap, o.value))
      && (o.Some? && !At(w, COMMA) && At(w, CLOSE_BRACKET) ==> Blocks(s, cap, out) == Some((w[1..], o.value)))
  {
    hide SkipWs, BlockMembers, BlockOutput;
  }

  lemma {:induction false} BlocksWritten(ds: seq<BlockDoc>, k: bytes, cap: nat, out: bytes)
    requires ds != [] && BlocksOk(ds) && |out| <= cap
    ensures Blocks(EmitBlocks(ds, k), cap, out)
         == if |out| + |BlocksText(ds)| <= cap then Some((k, out + BlocksText(ds))) else None
    decreases |ds|
  {
    hide Blocks, EmitBlocks, BlockDocOk, BlockDocText;
    BlockStep(ds, k, cap, out);
    var t := BlockDocText(ds[0]);
    if |ds| == 1 {
      assert BlocksText(ds[1..]) == [] && t + [] == t;
    } else if |out + t| <= cap {
      Assoc(out, t, BlocksText(ds[1..]));
      BlocksWritten(ds[1..], k, cap, out + t);
    }
  }

  lemma {:induction false} BlocksSound(s: bytes, cap: nat, out: bytes) returns (ds: seq<BlockDoc>)
    requires Blocks(s, cap, out).Some? && |out| <= cap
    ensures ds != [] && BlocksOk(ds)
    ensures s == EmitBlocks(ds, Blocks(s, cap, out).value.0)
    ensures Blocks(s, cap, out).value.1 == out + BlocksText(ds) && |out + BlocksText(ds)| <= cap
    decreases |s|
  {
    BlocksTurn(s, cap, out);
    hide *;
    var pre := WsSplit(s);
    var t := SkipWs(s);
    var (u, b) := BlockMembers(t[1..], START).value;
    var o := BlockOutput(b, cap, out).value;
    var post := WsSplit(u);
    var w := SkipWs(u);
    var d := BlockDocSound(t[1..], cap, out, pre, post);
    var k := Blocks(s, cap, out).value.0;
    assert t == [OPEN_BRACE] + t[1..];
    if w[0] == COMMA {
      var rest := BlocksSound(w[1..], cap, o);
      ds := [d] + rest;
      assert w == [COMMA] + EmitBlocks(rest, k);
      BlocksCons(d, rest, k);
      Assoc(out, BlockDocText(d), BlocksText(rest));
    } else {
      ds := [d];
      assert w == [CLOSE_BRACKET] + k;
      BlocksOne(d, k);
    }
  }

  /** What one turn of the loop over the blocks has seen if the whole succeeds. */
  lemma BlocksTurn(s: bytes, cap: nat, out: bytes)
    requires Blocks(s, cap, out).Some?
    ensures var t := SkipWs(s);
      && t != [] && t[0] == OPEN_BRACE && |t| <= |s| && BlockMembers(t[1..], START).Some?
      && var (u, b) := BlockMembers(t[1..], START).value;
         && BlockOutput(b, cap, out).Some?
         && var w, o := SkipWs(u), BlockOutput(b, cap, out).value;
            && w != [] && |w| <= |u| < |t|
            && if w[0] == COMMA then Blocks(w[1..], cap, o) == Blocks(s, cap, out)
               else w[0] == CLOSE_BRACKET && Blocks(s, cap, out) == Some((w[1..], o))
  {
    hide SkipWs, BlockMembers, BlockOutput;
  }

  lemma BlocksCons(d: BlockDoc, ds: seq<BlockDoc>, k: bytes)
    requires ds != [] && BlocksOk(ds) && BlockDocOk(d)
    ensures BlocksOk([d] + ds) && BlocksText([d] + ds) == BlockDocText(d) + BlocksText(ds)
    ensures EmitBlocks([d] + ds, k)
         == d.pre + ([OPEN_BRACE] + EmitMembers(d.members, d.end, d.post + ([COMMA] + EmitBlocks(ds, k))))
  {
    hide BlockDocOk, EmitMembers, BlockDocText;
    assert ([d] + ds)[1..] == ds;
  }

  lemma BlocksOne(d: BlockDoc, k: bytes)
    requires BlockDocOk(d)
    ensures BlocksOk([d]) && BlocksText([d]) == BlockDocText(d)
    ensures EmitBlocks([d], k) == d.pre + ([OPEN_BRACE] + EmitMembers(d.members, d.end, d.post + ([CLOSE_BRACKET] + k)))
  {
    hide BlockDocOk, EmitMembers, BlockDocText;
    assert [d][1..] == [] && BlocksText([]) == [] && BlockDocText(d) + [] == BlockDocText(d);
  }

  /** The array: white space only, or blocks. */
  function EmitContent(ws: bytes, ds: seq<BlockDoc>, k: bytes): (r: bytes) {
    [OPEN_BRACKET] + if ds == [] then ws + ([CLOSE_BRACKET] + k) else EmitBlocks(ds, k)
  }

  lemma ContentWritten(ws: bytes, ds: seq<BlockDoc>, k: bytes, cap: nat, out: bytes)
    requires AllWs(ws) && BlocksOk(ds) && |out| <= cap
    ensures ContentArray(EmitContent(ws, ds, k), cap, out)
         == if |out| + |BlocksText(ds)| <= cap then Some((k, out + BlocksText(ds))) else None
  {
    var s := EmitContent(ws, ds, k);
    if ds == [] {
      assert s[1..] == ws + ([CLOSE_BRACKET] + k);
      SkipWsOver(ws, [CLOSE_BRACKET] + k);
      assert out + [] == out;
    } else {
      assert s[1..] == EmitBlocks(ds, k);
      BlocksStart(ds, k);
      hide EmitBlocks, Blocks;
      BlocksWritten(ds, k, cap, out);
    }
  }

  /** The scanner may already be past the white space before the first block. */
  lemma BlocksStart(ds: seq<BlockDoc>, k: bytes)
    requires ds != [] && BlocksOk(ds)
    ensures var s := EmitBlocks(ds, k);
      !At(SkipWs(s), CLOSE_BRACKET) && forall cap, out :: Blocks(SkipWs(s), cap, out) == Blocks(s, cap, out)
  {
    var s := EmitBlocks(ds, k);
    assert AllWs(ds[0].pre);
    hide EmitMembers, BlockMembers, BlockOutput;
    var tail := if |ds| == 1 then [CLOSE_BRACKET] + k else [COMMA] + EmitBlocks(ds[1..], k);
    SkipWsOver(ds[0].pre, [OPEN_BRACE] + EmitMembers(ds[0].members, ds[0].end, ds[0].post + tail));
    SkipTwice(s, 0);
  }

  lemma ContentSound(v: bytes, cap: nat, out: bytes) returns (ws: bytes, ds: seq<BlockDoc>)
    requires ContentArray(v, cap, out).Some? && |out| <= cap
    ensures AllWs(ws) && BlocksOk(ds) && v == EmitContent(ws, ds, ContentArray(v, cap, out).value.0)
    ensures ContentArray(v, cap, out).value.1 == out + BlocksText(ds) && |out + BlocksText(ds)| <= cap
  {
    ws := WsSplit(v[1..]);
    var u := SkipWs(v[1..]);
    assert v == [OPEN_BRACKET] + v[1..];
    if At(u, CLOSE_BRACKET) {
      ds := [];
      assert u == [CLOSE_BRACKET] + u[1..];
      assert out + [] == out;
    } else {
      ds := BlocksSound(u, cap, out);
      ds := Shifted(ws, ds, ContentArray(v, cap, out).value.0);
    }
  }

  /** More white space before the first block. */
  lemma Shifted(ws: bytes, ds: seq<BlockDoc>, k: bytes) returns (es: seq<BlockDoc>)
    requires AllWs(ws) && ds != [] && BlocksOk(ds)
    ensures es != [] && BlocksOk(es) && BlocksText(es) == BlocksText(ds) && EmitBlocks(es, k) == ws + EmitBlocks(ds, k)
  {
    hide EmitMembers, MembersOk;
    var d := ds[0].(pre := ws + ds[0].pre);
    es := [d] + ds[1..];
    assert es[1..] == ds[1..];
    var tail := if |ds| == 1 then [CLOSE_BRACKET] + k else [COMMA] + EmitBlocks(ds[1..], k);
    Assoc(ws, ds[0].pre, [OPEN_BRACE] + EmitMembers(ds[0].members, ds[0].end, ds[0].post + tail));
  }

  // ---- the top-level object -----------------------------------------------------------------------------------

  /** A member of the response: one that is passed over, or the content. */
  datatype TopValueDoc = Other(v: Value) | Content(ws: bytes, blocks: seq<BlockDoc>)

  datatype Top = TNil | TCons(h: Head, v: TopValueDoc, post: bytes, rest: Top)

  function EmitTopValue(v: TopValueDoc, k: bytes): (r: bytes) {
    match v
    case Other(val) => EmitValue(val, k)
    case Content(ws, blocks) => EmitContent(ws, blocks, k)
  }

  function EmitTop(m: Top, e: End, k: bytes): (r: bytes)
    decreases m, 1
  {
    match m
    case TNil => EndText(e, k)
    case TCons(h, v, _, _) => EmitHead(h, EmitTopValue(v, TopTail(m, e, k)))
  }

  function TopTail(m: Top, e: End, k: bytes): (r: bytes)
    requires m.TCons?
    decreases m, 0
  {
    m.post + if m.rest.TNil? then EndText(e, k) else [COMMA] + EmitTop(m.rest, e, k)
  }

  /** The content is found under its key and nowhere else. */
  predicate TopValueOk(h: Head, v: TopValueDoc)
    requires PiecesOk(h.key)
  {
    match v
    case Other(val) => KeyOf(h) != KeyContent() && LooseValue(val) && Height(val) <= MAX_DEPTH
    case Content(ws, blocks) => KeyOf(h) == KeyContent() && AllWs(ws) && BlocksOk(blocks)
  }

  predicate TopOk(m: Top) {
    m.TNil? || (HeadOk(m.h, TOP_KEY_CAP) && TopValueOk(m.h, m.v) && AllWs(m.post) && TopOk(m.rest))
  }

  predicate HasContent(m: Top) {
    m.TCons? && (m.v.Content? || HasContent(m.rest))
  }

  function ValueText(h: Head, v: TopValueDoc): (r: bytes)
    requires PiecesOk(h.key) && TopValueOk(h, v)
  {
    if v.Content? then BlocksText(v.blocks) else []
  }

  /** The concatenated text of the text blocks, of every content member. */
  function TopText(m: Top): (r: bytes)
    requires TopOk(m)
  {
    if m.TNil? then [] else ValueText(m.h, m.v) + TopText(m.rest)
  }

  lemma ValueWritten(h: Head, v: TopValueDoc, k: bytes, cap: nat, out: bytes)
    requires PiecesOk(h.key) && TopValueOk(h, v) && Ends(k) && |out| <= cap
    ensures var o := out + ValueText(h, v);
      TopValue(KeyOf(h), EmitTopValue(v, k), cap, out) == if |o| <= cap then Some((k, o)) else None
    ensures NoWsAhead(EmitTopValue(v, k))
  {
    hide KeyOf, KeyContent, ContentArray, SkipValue, Height, BlocksOk;
    match v
    case Other(val) =>
      ValueStarts(val, k);
      hide EmitValue, LooseValue;
      SkipWritten(val, k, 0);
      assert out + [] == out;
    case Content(ws, blocks) =>
      assert EmitContent(ws, blocks, k)[0] == OPEN_BRACKET;
      hide EmitContent;
      ContentWritten(ws, blocks, k, cap, out);
  }

  /** The first member, and what the scanner does next. */
  lemma TopStep(m: Top, e: End, k: bytes, cap: nat, out: bytes, found: bool)
    requires m.TCons? && TopOk(m) && EndOk(e, false) && |out| <= cap
    ensures var o, f := out + ValueText(m.h, m.v), found || m.v.Content?;
      ContentMembers(EmitTop(m, e, k), cap, out, found)
      == if |o| > cap then None
         else if m.rest.TCons? then ContentMembers(EmitTop(m.rest, e, k), cap, o, f)
         else if f then Some(o) else None
  {
    hide *;
    var tail := TopTail(m, e, k);
    TopParts(m, e, k);
    TopNext(m, e, k);
    ValueWritten(m.h, m.v, tail, cap, out);
    HeadWritten(m.h, EmitTopValue(m.v, tail), TOP_KEY_CAP);
    TopUnfold(EmitTop(m, e, k), KeyOf(m.h), EmitTopValue(m.v, tail), tail, cap, out, found);
    if m.rest.TNil? && e.comma {
      EndReached(e, k, cap, out + ValueText(m.h, m.v), found || m.v.Content?);
    }
  }

  lemma TopParts(m: Top, e: End, k: bytes)
    requires m.TCons? && TopOk(m)
    ensures EmitTop(m, e, k) == EmitHead(m.h, EmitTopValue(m.v, TopTail(m, e, k)))
    ensures HeadOk(m.h, TOP_KEY_CAP) && PiecesOk(m.h.key) && TopValueOk(m.h, m.v)
    ensures m.v.Content? <==> KeyOf(m.h) == KeyContent()
  {
    hide TopTail, EmitTopValue, EmitHead, KeyOf, KeyContent, BlocksOk, LooseValue;
  }

  /** What the scanner sees behind the value. */
  lemma TopNext(m: Top, e: End, k: bytes)
    requires m.TCons? && TopOk(m) && EndOk(e, false)
    ensures var w := SkipWs(TopTail(m, e, k));
      && Ends(TopTail(m, e, k))
      && (m.rest.TCons? ==> At(w, COMMA) && w[1..] == EmitTop(m.rest, e, k))
      && (m.rest.TNil? && e.comma ==> At(w, COMMA) && w[1..] == e.ws + ([CLOSE_BRACE] + k))
      && (m.rest.TNil? && !e.comma ==> !At(w, COMMA) && At(w, CLOSE_BRACE))
  {
    assert AllWs(m.post);
    hide EmitTop, TopOk;
    if m.rest.TNil? {
      EndTail(m.post, e, k);
    } else {
      TailSeen(m.post, [COMMA] + EmitTop(m.rest, e, k));
    }
  }

  /** One turn of the member loop, its parts given. */
  lemma TopUnfold(s: bytes, key: bytes, v: bytes, u: bytes, cap: nat, out: bytes, found: bool)
    requires !At(SkipWs(s), CLOSE_BRACE) && MemberHead(SkipWs(s), TOP_KEY_CAP) == Some((key, v))
    requires TopValue(key, v, cap, out).Some? ==> TopValue(key, v, cap, out).value.0 == u
    ensures var r := TopValue(key, v, cap, out);
      var w, f := SkipWs(u), found || key == KeyContent();
      && (r.None? ==> ContentMembers(s, cap, out, found) == None)
      && (r.Some? && At(w, COMMA) ==> ContentMembers(s, cap, out, found) == ContentMembers(w[1..], cap, r.value.1, f))
      && (r.Some? && !At(w, COMMA) && At(w, CLOSE_BRACE) ==>
            ContentMembers(s, cap, out, found) == if f then Some(r.value.1) else None)
  {
    hide SkipWs, MemberHead, TopValue, KeyContent;
  }

  lemma EndReached(e: End, k: bytes, cap: nat, out: bytes, found: bool)
    requires EndOk(e, false)
    ensures ContentMembers(e.ws + ([CLOSE_BRACE] + k), cap, out, found) == if found then Some(out) else None
  {
    SkipWsOver(e.ws, [CLOSE_BRACE] + k);
  }

  lemma {:induction false} TopWritten(m: Top, e: End, k: bytes, cap: nat, out: bytes, found: bool)
    requires TopOk(m) && EndOk(e, m.TNil?) && |out| <= cap
    ensures ContentMembers(EmitTop(m, e, k), cap, out, found)
         == if (found || HasContent(m)) && |out| + |TopText(m)| <= cap then Some(out + TopText(m)) else None
    decreases m
  {
    if m.TNil? {
      EndSeen(e, k);
      assert out + [] == out;
    } else {
      hide ContentMembers, EmitTop, ValueText, HeadOk, TopValueOk;
      TopStep(m, e, k, cap, out, found);
      var t := ValueText(m.h, m.v);
      Assoc(out, t, TopText(m.rest));
      if m.rest.TNil? {
        assert TopText(m.rest) == [] && t + [] == t;
      } else if |out + t| <= cap {
        TopWritten(m.rest, e, k, cap, out + t, found || m.v.Content?);
      }
    }
  }

  lemma TopValueSound(h: Head, s: bytes, cap: nat, out: bytes) returns (v: TopValueDoc)
    requires PiecesOk(h.key) && TopValue(KeyOf(h), s, cap, out).Some? && NoWsAhead(s) && |out| <= cap
    ensures var (k, o) := TopValue(KeyOf(h), s, cap, out).value;
      TopValueOk(h, v) && s == EmitTopValue(v, k) && o == out + ValueText(h, v) && |o| <= cap
  {
    hide KeyOf, KeyContent, ContentArray, SkipValue, Height, EmitContent;
    if KeyOf(h) == KeyContent() {
      var ws, ds := ContentSound(s, cap, out);
      v := Content(ws, ds);
    } else {
      var ws, val := SkipSound(s, 0);
      NoLeadingWs(ws, s, EmitValue(val, SkipValue(s, 0).value));
      v := Other(val);
      assert out + [] == out;
    }
  }

  lemma {:induction false} TopSound(s: bytes, cap: nat, out: bytes, found: bool) returns (m: Top, e: End, k: bytes)
    requires ContentMembers(s, cap, out, found).Some? && |out| <= cap
    ensures TopOk(m) && EndOk(e, m.TNil?) && s == EmitTop(m, e, k) && (found || HasContent(m))
    ensures ContentMembers(s, cap, out, found).value == out + TopText(m) && |out + TopText(m)| <= cap
    decreases |s|
  {
    var t := SkipWs(s);
    if At(t, CLOSE_BRACE) {
      var ws := WsSplit(s);
      m, e, k := TNil, End(false, ws), t[1..];
      assert t == [CLOSE_BRACE] + k && out + [] == out;
    } else {
      var h := HeadSound(s, TOP_KEY_CAP);
      var v0 := MemberHead(t, TOP_KEY_CAP).value.1;
      var v := TopValueSound(h, v0, cap, out);
      var (u, o) := TopValue(KeyOf(h), v0, cap, out).value;
      assert v.Content? <==> KeyOf(h) == KeyContent();
      hide MemberHead, TopValue, EmitTopValue, TopValueOk, EmitHead, KeyOf, KeyContent, ValueText, HeadOk, SkipWs;
      hide AllWs;
      var post := WsSplit(u);
      var w := SkipWs(u);
      if At(w, COMMA) {
        var rest, e';
        rest, e', k := TopSound(w[1..], cap, o, found || v.Content?);
        m, e := TopJoined(h, v, post, rest, e', w, k);
        Assoc(out, ValueText(h, v), TopText(rest));
      } else {
        k := w[1..];
        assert w == [CLOSE_BRACE] + k;
        m, e := TopLast(h, v, post, k);
      }
    }
  }

  lemma TopLast(h: Head, v: TopValueDoc, post: bytes, k: bytes) returns (m: Top, e: End)
    requires HeadOk(h, TOP_KEY_CAP) && TopValueOk(h, v) && AllWs(post)
    ensures m == TCons(h, v, post, TNil) && TopOk(m) && EndOk(e, false) && TopText(m) == ValueText(h, v)
    ensures EmitTop(m, e, k) == EmitHead(h, EmitTopValue(v, post + ([CLOSE_BRACE] + k)))
  {
    hide EmitHead, EmitTopValue, TopValueOk, ValueText;
    m, e := TCons(h, v, post, TNil), End(false, []);
    assert [] + ([CLOSE_BRACE] + k) == [CLOSE_BRACE] + k;
    assert TopText(TNil) == [] && ValueText(h, v) + [] == ValueText(h, v);
  }

  lemma TopJoined(h: Head, v: TopValueDoc, post: bytes, rest: Top, e: End, w: bytes, k: bytes) returns (m: Top, e2: End)
    requires HeadOk(h, TOP_KEY_CAP) && TopValueOk(h, v) && AllWs(post) && TopOk(rest) && EndOk(e, rest.TNil?)
    requires At(w, COMMA) && w[1..] == EmitTop(rest, e, k)
    ensures m == TCons(h, v, post, rest) && TopOk(m) && EndOk(e2, false)
    ensures EmitTop(m, e2, k) == EmitHead(h, EmitTopValue(v, post + w))
  {
    hide EmitHead, EmitTopValue, TopValueOk, HeadOk, KeyOf;
    m := TCons(h, v, post, rest);
    e2 := if rest.TNil? then End(true, e.ws) else e;
    assert w == [COMMA] + w[1..];
    assert TopTail(m, e2, k) == post + w;
  }

  // ---- the accepted language -----------------------------------------------------------------------------------

  /** `body` is white space, an object with these members and this end, and then anything. */
  ghost predicate Accepted(body: bytes, m: Top, out: bytes) {
    && TopOk(m) && HasContent(m) && out == TopText(m)
    && exists ws, e, k :: AllWs(ws) && EndOk(e, m.TNil?) && body == ws + ([OPEN_BRACE] + EmitTop(m, e, k))
  }

  /** `gwj_content_text` returns `out` if and only if the body has this form and `out` is the
      concatenated text of its text blocks, and it fits. */
  lemma ContentTextExact(body: bytes, cap: nat, out: bytes)
    ensures ContentText(body, cap) == Some(out) <==> |out| <= cap && exists m :: Accepted(body, m, out)
  {
    if ContentText(body, cap) == Some(out) {
      var m := AcceptedSound(body, cap);
    }
    if m :| |out| <= cap && Accepted(body, m, out) {
      AcceptedWritten(body, m, cap, out);
    }
  }

  lemma AcceptedSound(body: bytes, cap: nat) returns (m: Top)
    requires ContentText(body, cap).Some?
    ensures Accepted(body, m, ContentText(body, cap).value) && |ContentText(body, cap).value| <= cap
  {
    hide ContentMembers, EmitTop, TopOk, TopText, HasContent;
    var ws := WsSplit(body);
    var t := SkipWs(body);
    var e, k;
    m, e, k := TopSound(t[1..], cap, [], false);
    assert t == [OPEN_BRACE] + t[1..];
    assert [] + TopText(m) == TopText(m);
  }

  lemma AcceptedWritten(body: bytes, m: Top, cap: nat, out: bytes)
    requires Accepted(body, m, out) && |out| <= cap
    ensures ContentText(body, cap) == Some(out)
  {
    hide ContentMembers, EmitTop, TopOk, TopText, HasContent;
    var ws, e, k :| AllWs(ws) && EndOk(e, m.TNil?) && body == ws + ([OPEN_BRACE] + EmitTop(m, e, k));
    var s := [OPEN_BRACE] + EmitTop(m, e, k);
    SkipWsOver(ws, s);
    assert s[1..] == EmitTop(m, e, k);
    TopWritten(m, e, k, cap, [], false);
    assert [] + TopText(m) == TopText(m);
  }

  /** The trailing comma that RFC 8259 does not allow, and text behind the object. */
  lemma TrailingComma(k: bytes, cap: nat)
    ensures ContentText([OPEN_BRACE]
      + EmitHead(Head([], ContentKey(), [], []), EmitContent([], [], [COMMA, CLOSE_BRACE] + k)), cap)
         == Some([])
  {
    hide *;
    var h := Head([], ContentKey(), [], []);
    var m := TCons(h, Content([], []), [], TNil);
    var e := End(true, []);
    CommaParts(h, m, e, k);
    var body := [OPEN_BRACE] + EmitTop(m, e, k);
    assert [] + body == body;
    AcceptedBy(body, m, e, k, []);
    AcceptedWritten(body, m, cap, []);
  }

  lemma AcceptedBy(body: bytes, m: Top, e: End, k: bytes, out: bytes)
    requires TopOk(m) && HasContent(m) && out == TopText(m) && EndOk(e, m.TNil?)
    requires body == [OPEN_BRACE] + EmitTop(m, e, k)
    ensures Accepted(body, m, out)
  {
    hide TopOk, HasContent, TopText, EmitTop;
    assert AllWs([]) && body == [] + ([OPEN_BRACE] + EmitTop(m, e, k));
  }

  lemma CommaParts(h: Head, m: Top, e: End, k: bytes)
    requires h == Head([], ContentKey(), [], []) && m == TCons(h, Content([], []), [], TNil) && e == End(true, [])
    ensures TopOk(m) && TopText(m) == [] && HasContent(m) && EndOk(e, m.TNil?)
    ensures EmitTop(m, e, k) == EmitHead(h, EmitContent([], [], [COMMA, CLOSE_BRACE] + k))
  {
    hide *;
    ContentHead(h);
    EmptyContent(h, m);
    CommaText(h, m, e, k);
  }

  lemma EmptyContent(h: Head, m: Top)
    requires HeadOk(h, TOP_KEY_CAP) && PiecesOk(h.key) && KeyOf(h) == KeyContent()
    requires m == TCons(h, Content([], []), [], TNil)
    ensures TopOk(m) && TopText(m) == [] && HasContent(m)
  {
    hide HeadOk, KeyOf, KeyContent;
  }

  lemma CommaText(h: Head, m: Top, e: End, k: bytes)
    requires m == TCons(h, Content([], []), [], TNil) && e == End(true, [])
    ensures EmitTop(m, e, k) == EmitHead(h, EmitContent([], [], [COMMA, CLOSE_BRACE] + k)) && EndOk(e, m.TNil?)
  {
    hide EmitHead, EmitContent;
    assert [] + ([CLOSE_BRACE] + k) == [CLOSE_BRACE] + k;
    assert TopTail(m, e, k) == [COMMA, CLOSE_BRACE] + k;
  }

  lemma ContentHead(h: Head)
    requires h == Head([], ContentKey(), [], [])
    ensures HeadOk(h, TOP_KEY_CAP) && PiecesOk(h.key) && KeyOf(h) == KeyContent()
  {
    hide Pieces, Text, CStr, KeyContent;
    PiecesText(ForBody, KeyContent());
    ContentPlain();
  }

  lemma ContentPlain()
    ensures CStr(KeyContent()) == KeyContent() && |KeyContent()| == 7
  {
    CStrOf(KeyContent(), []);
  }

  function ContentKey(): (ps: seq<Piece>)
    ensures PiecesOk(ps)
  {
    Pieces(ForBody, KeyContent())
  }
}
