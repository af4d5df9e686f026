/** What `gwj_top_string` and `gwj_content_text` return on a written document. */
module Messages {
  import opened Bytes
  import opened JsonString
  import opened JsonScan
  import opened JsonDoc

  // ---- the shape of a Messages response ---------------------------------------------

  /** The key of the first member. */
  function KeyOf(m: Items): (r: bytes)
    requires m.Cons? && ItemsOk(m)
  {
    Text(m.key)
  }

  function StrText(v: Value): (r: bytes)
    requires ValueOk(v) && v.Str?
  {
    Text(v.ps)
  }

  /** The members of a content block that the scanner can read: keys of at most 31 bytes,
      `type` a string of at most 15, `text` a string, nothing nested too deep. */
  predicate BlockOk(m: Items)
    requires ItemsOk(m)
  {
    m.Nil? ||
    (&& |KeyOf(m)| <= BLOCK_KEY_CAP && NoNul(KeyOf(m))
     && (if KeyOf(m) == KeyType() then m.v.Str? && |StrText(m.v)| <= TYPE_CAP && NoNul(StrText(m.v))
         else if KeyOf(m) == KeyText() then m.v.Str?
         else Height(m.v) <= MAX_DEPTH)
     && BlockOk(m.rest))
  }

  predicate BlockObjectOk(v: Value)
    requires ValueOk(v)
  {
    v.Obj? && BlockOk(v.items)
  }

  /** The `content` array: a list of block objects. */
  predicate BlocksOk(m: Items)
    requires ItemsOk(m)
  {
    m.Nil? || (BlockObjectOk(m.v) && BlocksOk(m.rest))
  }

  predicate ContentOk(v: Value)
    requires ValueOk(v)
  {
    v.Arr? && BlocksOk(v.items)
  }

  /** The top-level object. */
  predicate MessageOk(m: Items)
    requires ItemsOk(m)
  {
    m.Nil? ||
    (&& |KeyOf(m)| <= TOP_KEY_CAP && NoNul(KeyOf(m))
     && (if KeyOf(m) == KeyContent() then ContentOk(m.v) else Height(m.v) <= MAX_DEPTH)
     && MessageOk(m.rest))
  }

  /** Does the block say "type": "text"? */
  predicate IsTextBlock(m: Items)
    requires ItemsOk(m) && BlockOk(m)
  {
    m.Cons? && ((KeyOf(m) == KeyType() && StrText(m.v) == KeyText()) || IsTextBlock(m.rest))
  }

  /** The block's `text` member (the last one, should the writer repeat the key). */
  function TextMember(m: Items): (r: Option<Value>)
    requires ItemsOk(m) && BlockOk(m)
    ensures r.Some? ==> r.value.Str? && ValueOk(r.value)
  {
    if m.Nil? then None
    else if TextMember(m.rest).Some? then TextMember(m.rest)
    else if KeyOf(m) == KeyText() then Some(m.v)
    else None
  }

  function BlockText(v: Value): (r: bytes)
    requires ValueOk(v) && BlockObjectOk(v)
  {
    if IsTextBlock(v.items) && TextMember(v.items).Some? then StrText(TextMember(v.items).value) else []
  }

  /** The concatenated text of the text blocks. */
  function BlocksText(m: Items): (r: bytes)
    requires ItemsOk(m) && BlocksOk(m)
  {
    if m.Nil? then [] else BlockText(m.v) + BlocksText(m.rest)
  }

  function ContentValue(v: Value): (r: bytes)
    requires ValueOk(v) && ContentOk(v)
  {
    BlocksText(v.items)
  }

  function MessageText(m: Items): (r: bytes)
    requires ItemsOk(m) && MessageOk(m)
  {
    if m.Nil? then []
    else if KeyOf(m) == KeyContent() then ContentValue(m.v) + MessageText(m.rest)
    else MessageText(m.rest)
  }

  predicate HasContent(m: Items)
    requires ItemsOk(m)
  {
    m.Cons? && (KeyOf(m) == KeyContent() || HasContent(m.rest))
  }

  // ---- member heads ---------------------------------------------------------------------

  lemma MemberHeadWritten(m: Items, k: bytes, cap: nat)
    requires m.Cons? && ItemsOk(m) && |KeyOf(m)| <= cap && NoNul(KeyOf(m))
    ensures MemberHead(EmitItem(m, true, k), cap) == Some((KeyOf(m), EmitValue(m.v, ItemTail(m, true, k))))
  {
    var v := EmitValue(m.v, ItemTail(m, true, k));
    var t := m.mid + ([COLON] + (m.gap + v));
    hide EmitValue, ItemTail, SkipWs, DecodeString;
    DecodeQuoted(m.key, t, cap, []);
    assert [] + Text(m.key) == Text(m.key);
    CStrOf(Text(m.key), []);
    SkipWsOver(m.mid, [COLON] + (m.gap + v));
    ValueStarts(m.v, ItemTail(m, true, k));
    SkipWsOver(m.gap, v);
  }

  // ---- one content block ------------------------------------------------------------------

  /** `s` is a string literal with pieces `ps`, whatever follows it. */
  ghost predicate LiteralAt(s: bytes, ps: seq<Piece>) {
    exists k :: s == Quoted(ps, k)
  }

  /** The findings after a block, given those before: which the deferred decode then uses. */
  ghost predicate Found(m: Items, b0: Block, b: Block)
    requires ItemsOk(m) && BlockOk(m)
  {
    && b.isText == (b0.isText || IsTextBlock(m))
    && (match TextMember(m)
        case None => b.textAt == b0.textAt
        case Some(v) => b.textAt.Some? && LiteralAt(b.textAt.value, v.ps))
  }

  /** The findings after the first member alone. */
  ghost predicate FoundFirst(m: Items, b0: Block, b: Block)
    requires m.Cons? && ItemsOk(m) && BlockOk(m)
  {
    && b.isText == (b0.isText || (KeyOf(m) == KeyType() && StrText(m.v) == KeyText()))
    && (if KeyOf(m) == KeyText() then b.textAt.Some? && LiteralAt(b.textAt.value, m.v.ps)
        else b.textAt == b0.textAt)
  }

  lemma FoundStep(m: Items, b0: Block, b1: Block, b: Block)
    requires m.Cons? && ItemsOk(m) && BlockOk(m) && FoundFirst(m, b0, b1) && Found(m.rest, b1, b)
    ensures Found(m, b0, b)
  {
    hide LiteralAt, KeyOf, StrText;
  }

  lemma BlockValueWritten(m: Items, k: bytes, b0: Block) returns (b: Block)
    requires m.Cons? && ItemsOk(m) && BlockOk(m) && Ends(k)
    ensures BlockValue(KeyOf(m), EmitValue(m.v, k), b0) == Some((k, b))
    ensures FoundFirst(m, b0, b)
  {
    hide DecodeString, SkipString, SkipValue, BlockOk;
    var v := EmitValue(m.v, k);
    if KeyOf(m) == KeyType() {
      TypeOk(m);
      DecodeQuoted(m.v.ps, k, TYPE_CAP, []);
      assert [] + Text(m.v.ps) == Text(m.v.ps);
      CStrOf(Text(m.v.ps), []);
      b := b0.(isText := b0.isText || Text(m.v.ps) == KeyText());
    } else if KeyOf(m) == KeyText() {
      TypeOk(m);
      SkipQuoted(m.v.ps, k);
      b := b0.(textAt := Some(v));
      assert LiteralAt(v, m.v.ps);
    } else {
      TypeOk(m);
      SkipWritten(m.v, k, 0);
      b := b0;
    }
  }

  /** What `BlockOk` says about the first member. */
  lemma TypeOk(m: Items)
    requires m.Cons? && ItemsOk(m) && BlockOk(m)
    ensures if KeyOf(m) == KeyType() then m.v.Str? && PiecesOk(m.v.ps) && |Text(m.v.ps)| <= TYPE_CAP
      && NoNul(Text(m.v.ps))
            else if KeyOf(m) == KeyText() then m.v.Str? && PiecesOk(m.v.ps)
            else Height(m.v) <= MAX_DEPTH
  {
    assert ValueOk(m.v);
  }

  lemma {:induction false} BlockMembersWritten(m: Items, k: bytes, b0: Block) returns (b: Block)
    requires m.Cons? && ItemsOk(m) && BlockOk(m)
    ensures BlockMembers(EmitItems(m, true, k), b0) == Some((k, b))
    ensures Found(m, b0, b)
    decreases m
  {
    var s, tail := EmitItems(m, true, k), ItemTail(m, true, k);
    ItemStart(m, true, k);
    MemberHeadWritten(m, k, BLOCK_KEY_CAP);
    AfterItem(m, true, k);
    var b1 := BlockValueWritten(m, tail, b0);
    AfterMember(m, true, k);
    hide EmitItem, EmitItems, EmitValue, MemberHead, BlockValue, ItemTail, LiteralAt, KeyOf, SkipWs, Found, FoundFirst;
    if m.rest.Nil? {
      b := b1;
      FoundLast(m, b0, b);
    } else {
      b := BlockMembersWritten(m.rest, k, b1);
      FoundStep(m, b0, b1, b);
    }
  }

  lemma FoundLast(m: Items, b0: Block, b: Block)
    requires m.Cons? && m.rest.Nil? && ItemsOk(m) && BlockOk(m) && FoundFirst(m, b0, b)
    ensures Found(m, b0, b)
  {
    FoundStep(m, b0, b, b);
  }

  /** A whole block after its opening brace. */
  lemma BlockWritten(ws: bytes, m: Items, k: bytes) returns (b: Block)
    requires AllWs(ws) && ItemsOk(m) && BlockOk(m)
    ensures BlockMembers(EmitBody(ws, m, true, k), Block(false, None)) == Some((k, b))
    ensures Found(m, Block(false, None), b)
  {
    b := Block(false, None);
    if m.Nil? {
      SkipWsOver(ws, [CLOSE_BRACE] + k);
    } else {
      b := BlockMembersWritten(m, k, b);
    }
  }

  lemma BlockOutputWritten(v: Value, b: Block, cap: nat, out: bytes)
    requires ValueOk(v) && BlockObjectOk(v) && Found(v.items, Block(false, None), b) && |out| <= cap
    ensures BlockOutput(b, cap, out) == if |out| + |BlockText(v)| <= cap then Some(out + BlockText(v)) else None
  {
    assert out + [] == out;
    if IsTextBlock(v.items) && TextMember(v.items).Some? {
      var ps := TextMember(v.items).value.ps;
      var k :| b.textAt.value == Quoted(ps, k);
      DecodeQuoted(ps, k, cap, out);
    }
  }

  // ---- the content array ----------------------------------------------------------------------

  /** One block and what follows it in the array. */
  lemma BlockStep(m: Items, k: bytes, cap: nat, out: bytes)
    requires m.Cons? && ItemsOk(m) && BlocksOk(m) && |out| <= cap
    ensures var o := out + BlockText(m.v);
      Blocks(EmitItems(m, false, k), cap, out)
      == if |o| > cap then None
         else if m.rest.Nil? then Some((k, o))
         else Blocks(EmitItems(m.rest, false, k), cap, o)
  {
    var tail := ItemTail(m, false, k);
    var e := EmitItem(m, false, k);
    ItemStarts(m, false, k);
    SkipWsOver(m.pre, e);
    assert ValueOk(m.v);
    assert e == [OPEN_BRACE] + EmitBody(m.v.ws, m.v.items, true, tail);
    assert e[1..] == EmitBody(m.v.ws, m.v.items, true, tail);
    var b := BlockWritten(m.v.ws, m.v.items, tail);
    BlockOutputWritten(m.v, b, cap, out);
    AfterMember(m, false, k);
    hide EmitItem, EmitBody, EmitValue, BlockMembers, BlockOutput, Found, ItemTail, BlockText, ItemsOk, BlockOk;
    hide ValueOk;
    assert SkipWs(EmitItems(m, false, k)) == e;
  }

  lemma {:induction false} BlocksWritten(m: Items, k: bytes, cap: nat, out: bytes)
    requires m.Cons? && ItemsOk(m) && BlocksOk(m) && |out| <= cap
    ensures Blocks(EmitItems(m, false, k), cap, out)
         == if |out| + |BlocksText(m)| <= cap then Some((k, out + BlocksText(m))) else None
    decreases m
  {
    hide Blocks, EmitItems, BlockText;
    BlockStep(m, k, cap, out);
    var t := BlockText(m.v);
    assert BlocksText(m) == t + BlocksText(m.rest);
    if m.rest.Cons? {
      if |out + t| <= cap {
        BlocksWritten(m.rest, k, cap, out + t);
        Assoc(out, t, BlocksText(m.rest));
      }
    } else {
      assert BlocksText(m.rest) == [] && t + [] == t;
    }
  }

  lemma ContentArrayWritten(v: Value, k: bytes, cap: nat, out: bytes)
    requires ValueOk(v) && ContentOk(v) && |out| <= cap
    ensures ContentArray(EmitValue(v, k), cap, out)
         == if |out| + |ContentValue(v)| <= cap then Some((k, out + ContentValue(v))) else None
  {
    var m := v.items;
    assert EmitValue(v, k)[1..] == EmitBody(v.ws, m, false, k);
    hide Blocks, BlocksOk, BlocksText;
    if m.Nil? {
      SkipWsOver(v.ws, [CLOSE_BRACKET] + k);
      NoBlocks(out);
    } else {
      ItemStarts(m, false, k);
      SkipWsOver(m.pre, EmitItem(m, false, k));
      BlocksPre(m, k, cap, out);
      BlocksWritten(m, k, cap, out);
    }
  }

  lemma NoBlocks(out: bytes)
    ensures BlocksOk(Nil) && out + BlocksText(Nil) == out && |BlocksText(Nil)| == 0
  {
  }

  /** White space before the first block is skipped twice. */
  lemma BlocksPre(m: Items, k: bytes, cap: nat, out: bytes)
    requires m.Cons? && ItemsOk(m)
    ensures Blocks(EmitItems(m, false, k), cap, out) == Blocks(EmitItem(m, false, k), cap, out)
  {
    hide EmitItem, BlockMembers;
    ItemStarts(m, false, k);
    SkipWsOver(m.pre, EmitItem(m, false, k));
  }

  // ---- the top level ------------------------------------------------------------------------------

  /** One top-level member and what follows it. */
  lemma TopStep(m: Items, k: bytes, cap: nat, out: bytes, found: bool)
    requires m.Cons? && ItemsOk(m) && MessageOk(m) && |out| <= cap
    ensures var isContent := KeyOf(m) == KeyContent();
      var o := if isContent then out + ContentValue(m.v) else out;
      ContentMembers(EmitItems(m, true, k), cap, out, found)
      == if |o| > cap then None
         else if m.rest.Cons? then ContentMembers(EmitItems(m.rest, true, k), cap, o, found || isContent)
         else if found || isContent then Some(o)
         else None
  {
    var tail := ItemTail(m, true, k);
    ItemStart(m, true, k);
    MemberHeadWritten(m, k, TOP_KEY_CAP);
    AfterItem(m, true, k);
    if KeyOf(m) == KeyContent() {
      ContentArrayWritten(m.v, tail, cap, out);
    } else {
      SkipWritten(m.v, tail, 0);
    }
    AfterMember(m, true, k);
    hide EmitItem, EmitItems, EmitValue, MemberHead, ContentArray, SkipValue, ItemTail, ContentValue, ItemsOk;
    hide ContentOk;
  }

  lemma {:induction false} ContentMembersWritten(m: Items, k: bytes, cap: nat, out: bytes, found: bool)
    requires m.Cons? && ItemsOk(m) && MessageOk(m) && |out| <= cap
    ensures ContentMembers(EmitItems(m, true, k), cap, out, found)
         == if (found || HasContent(m)) && |out| + |MessageText(m)| <= cap then Some(out + MessageText(m)) else None
    decreases m
  {
    hide ContentMembers, EmitItems, ContentValue, KeyOf, ContentOk, LooseValue, Decodable;
    TopStep(m, k, cap, out, found);
    var isContent := KeyOf(m) == KeyContent();
    var t := if isContent then ContentValue(m.v) else [];
    assert out + [] == out && t + [] == t;
    assert MessageText(m) == t + MessageText(m.rest);
    if m.rest.Cons? {
      if |out + t| <= cap {
        ContentMembersWritten(m.rest, k, cap, out + t, found || isContent);
        Assoc(out, t, MessageText(m.rest));
      }
    } else {
      assert MessageText(m.rest) == [];
    }
  }

  /** `gwj_content_text` on any written Messages response, with anything after it, returns
      exactly the concatenated text of its text blocks; it fails exactly when there is no
      `content` member or the text does not fit the buffer. */
  lemma ContentTextWritten(ws: bytes, inner: bytes, m: Items, k: bytes, cap: nat)
    requires AllWs(ws) && AllWs(inner) && ItemsOk(m) && MessageOk(m)
    ensures ContentText(ws + EmitValue(Obj(inner, m), k), cap)
         == if HasContent(m) && |MessageText(m)| <= cap then Some(MessageText(m)) else None
  {
    var s := EmitValue(Obj(inner, m), k);
    SkipWsOver(ws, s);
    assert s[1..] == EmitBody(inner, m, true, k);
    if m.Nil? {
      SkipWsOver(inner, [CLOSE_BRACE] + k);
    } else {
      hide ContentMembers, EmitItems, MessageText, MessageOk;
      ContentMembersWritten(m, k, cap, [], false);
      assert [] + MessageText(m) == MessageText(m);
    }
  }

  // ---- gwj_top_string ---------------------------------------------------------------------------------

  /** Readable keys, and nothing nested too deep before the key that is looked up. */
  predicate LookupOk(m: Items, key: bytes)
    requires ItemsOk(m)
  {
    m.Nil? ||
    (&& |KeyOf(m)| <= TOP_KEY_CAP && NoNul(KeyOf(m))
     && (KeyOf(m) == key || (Height(m.v) <= MAX_DEPTH && LookupOk(m.rest, key))))
  }

  /** The string value of the first member with that key. */
  function Lookup(m: Items, key: bytes): (r: Option<bytes>)
    requires ItemsOk(m)
  {
    if m.Nil? then None
    else if KeyOf(m) != key then Lookup(m.rest, key)
    else if m.v.Str? then Some(StrText(m.v))
    else None
  }

  /** Decoding at a value: only a string, and only if it fits. */
  lemma StringAt(v: Value, k: bytes, cap: nat)
    requires ValueOk(v)
    ensures DecodeString(EmitValue(v, k), cap, [])
         == if v.Str? && |StrText(v)| <= cap then Some((k, StrText(v))) else None
  {
    if v.Str? {
      hide DecodeString, Quoted;
      DecodeQuoted(v.ps, k, cap, []);
      assert [] + Text(v.ps) == Text(v.ps);
    } else if v.Tok? {
      assert IsTok(v.t[0]) && (v.t + k)[0] == v.t[0];
    }
  }

  lemma {:induction false} TopMembersWritten(m: Items, key: bytes, k: bytes, cap: nat)
    requires m.Cons? && ItemsOk(m) && LookupOk(m, key)
    ensures TopMembers(EmitItems(m, true, k), key, cap)
         == if Lookup(m, key).Some? && |Lookup(m, key).value| <= cap then Lookup(m, key) else None
    decreases m
  {
    hide EmitItem, EmitItems, EmitValue, MemberHead, SkipValue, ItemTail, LooseValue, Decodable, DecodeString;
    var tail := ItemTail(m, true, k);
    ItemStart(m, true, k);
    MemberHeadWritten(m, k, TOP_KEY_CAP);
    AfterItem(m, true, k);
    if KeyOf(m) == key {
      StringAt(m.v, tail, cap);
    } else {
      SkipWritten(m.v, tail, 0);
      AfterMember(m, true, k);
      if m.rest.Cons? {
        TopMembersWritten(m.rest, key, k, cap);
      }
    }
  }

  /** `gwj_top_string` returns the string of the first member with that key, and fails
      exactly when there is none, it is not a string, or it does not fit. */
  lemma TopStringWritten(ws: bytes, inner: bytes, m: Items, key: bytes, k: bytes, cap: nat)
    requires AllWs(ws) && AllWs(inner) && ItemsOk(m) && LookupOk(m, key)
    ensures TopString(ws + EmitValue(Obj(inner, m), k), key, cap)
         == if Lookup(m, key).Some? && |Lookup(m, key).value| <= cap then Lookup(m, key) else None
  {
    var s := EmitValue(Obj(inner, m), k);
    SkipWsOver(ws, s);
    assert s[1..] == EmitBody(inner, m, true, k);
    if m.Nil? {
      SkipWsOver(inner, [CLOSE_BRACE] + k);
    } else {
      TopMembersWritten(m, key, k, cap);
    }
  }
}
