/** RFC 8259 documents as written: every choice of white space, escapes, member order
    and extra members is in the tree.  The theorems say what the scanner of
    gateway/src/gw_json.c makes of any such document. */
module JsonDoc {
  import opened Bytes
  import opened JsonString
  import opened JsonScan

  /** `Tok` is a number, true, false or null (any run of their characters). */
  datatype Value =
    | Str(ps: seq<Piece>)
    | Tok(t: bytes)
    | Arr(ws: bytes, items: Items)
    | Obj(ws: bytes, items: Items)

  /** Elements of an array or members of an object (`key`, `mid` and `gap` count for
      objects only): white space, key, white space, colon, white space, value, white
      space. */
  datatype Items =
    | Nil
    | Cons(pre: bytes, key: seq<Piece>, mid: bytes, gap: bytes, v: Value, post: bytes, rest: Items)

  /** The text of a value followed by `k`. */
  function EmitValue(v: Value, k: bytes): (r: bytes)
    decreases v, 0
  {
    match v
    case Str(ps) => Quoted(ps, k)
    case Tok(t) => t + k
    case Arr(ws, items) => [OPEN_BRACKET] + EmitBody(ws, items, false, k)
    case Obj(ws, items) => [OPEN_BRACE] + EmitBody(ws, items, true, k)
  }

  function EmitBody(ws: bytes, items: Items, isObj: bool, k: bytes): (r: bytes)
    decreases items, 1
  {
    if items.Nil? then ws + ([Closer(isObj)] + k) else EmitItems(items, isObj, k)
  }

  function EmitItems(items: Items, isObj: bool, k: bytes): (r: bytes)
    requires items.Cons?
    decreases items, 0
  {
    items.pre + EmitItem(items, isObj, k)
  }

  /** One item without its leading white space, then the rest of the list. */
  function EmitItem(items: Items, isObj: bool, k: bytes): (r: bytes)
    requires items.Cons?
    decreases items, 0, 0
  {
    var tail := if items.rest.Nil? then [Closer(isObj)] + k else [COMMA] + EmitItems(items.rest, isObj, k);
    var v := EmitValue(items.v, items.post + tail);
    if isObj then Quoted(items.key, items.mid + ([COLON] + (items.gap + v))) else v
  }

  predicate AllWs(s: bytes) {
    forall i :: 0 <= i < |s| ==> IsWs(s[i])
  }

  predicate AllTok(s: bytes) {
    forall i :: 0 <= i < |s| ==> IsTok(s[i])
  }

  /** What the skipper looks at: white space, tokens, and strings up to their end. */
  predicate LooseValue(v: Value) {
    match v
    case Str(ps) => LoosePieces(ps)
    case Tok(t) => t != [] && AllTok(t)
    case Arr(ws, items) => AllWs(ws) && LooseItems(items)
    case Obj(ws, items) => AllWs(ws) && LooseItems(items)
  }

  predicate LooseItems(items: Items) {
    items.Nil? ||
    (&& AllWs(items.pre) && AllWs(items.mid) && AllWs(items.gap) && AllWs(items.post)
     && LoosePieces(items.key) && LooseValue(items.v) && LooseItems(items.rest))
  }

  /** Every string has a text. */
  predicate Decodable(v: Value) {
    match v
    case Str(ps) => PiecesOk(ps)
    case Tok(_) => true
    case Arr(_, items) => DecodableItems(items)
    case Obj(_, items) => DecodableItems(items)
  }

  predicate DecodableItems(items: Items) {
    items.Nil? || (PiecesOk(items.key) && Decodable(items.v) && DecodableItems(items.rest))
  }

  predicate ValueOk(v: Value) {
    LooseValue(v) && Decodable(v)
  }

  predicate ItemsOk(items: Items) {
    LooseItems(items) && DecodableItems(items)
  }

  /** Levels of values below this one. */
  function Height(v: Value): nat {
    match v
    case Str(_) => 0
    case Tok(_) => 0
    case Arr(_, items) => ItemsHeight(items)
    case Obj(_, items) => ItemsHeight(items)
  }

  function ItemsHeight(items: Items): nat {
    match items
    case Nil => 0
    case Cons(_, _, _, _, v, _, rest) =>
      var h := 1 + Height(v);
      if h > ItemsHeight(rest) then h else ItemsHeight(rest)
  }

  /** What may follow a token. */
  predicate Ends(k: bytes) {
    k == [] || !IsTok(k[0])
  }

  // ---- white space and tokens ------------------------------------------------------

  predicate NoWsAhead(k: bytes) {
    k == [] || !IsWs(k[0])
  }

  lemma {:induction false} SkipWsOver(ws: bytes, k: bytes)
    requires AllWs(ws) && NoWsAhead(k)
    ensures SkipWs(ws + k) == k
  {
    if ws == [] {
      assert ws + k == k;
    } else {
      assert (ws + k)[1..] == ws[1..] + k;
      SkipWsOver(ws[1..], k);
    }
  }

  lemma {:induction false} SkipTokenOver(t: bytes, k: bytes)
    requires AllTok(t) && Ends(k)
    ensures SkipToken(t + k) == k
  {
    if t == [] {
      assert t + k == k;
    } else {
      assert (t + k)[1..] == t[1..] + k;
      SkipTokenOver(t[1..], k);
    }
  }

  lemma WsEnds(ws: bytes, k: bytes)
    requires AllWs(ws) && k != [] && !IsTok(k[0])
    ensures Ends(ws + k)
  {
  }

  lemma ValueStarts(v: Value, k: bytes)
    requires LooseValue(v)
    ensures EmitValue(v, k) != [] && NoWsAhead(EmitValue(v, k)) && !At(EmitValue(v, k), CLOSE_BRACE)
    ensures !At(EmitValue(v, k), CLOSE_BRACKET)
  {
    if v.Tok? {
      assert IsTok(v.t[0]);
      assert (v.t + k)[0] == v.t[0];
    }
  }

  lemma ItemStarts(items: Items, isObj: bool, k: bytes)
    requires items.Cons? && LooseItems(items)
    ensures var e := EmitItem(items, isObj, k);
      e != [] && NoWsAhead(e) && !At(e, CLOSE_BRACE) && !At(e, CLOSE_BRACKET)
  {
    ValueStarts(items.v, ItemTail(items, isObj, k));
  }

  /** What follows the value of an item. */
  function ItemTail(items: Items, isObj: bool, k: bytes): (r: bytes)
    requires items.Cons?
  {
    items.post + if items.rest.Nil? then [Closer(isObj)] + k else [COMMA] + EmitItems(items.rest, isObj, k)
  }

  /** After the value the scanner finds the closer or the comma, past white space. */
  lemma AfterItem(items: Items, isObj: bool, k: bytes)
    requires items.Cons? && LooseItems(items)
    ensures Ends(ItemTail(items, isObj, k))
    ensures var u := SkipWs(ItemTail(items, isObj, k));
      u == if items.rest.Nil? then [Closer(isObj)] + k else [COMMA] + EmitItems(items.rest, isObj, k)
  {
    var u := if items.rest.Nil? then [Closer(isObj)] + k else [COMMA] + EmitItems(items.rest, isObj, k);
    WsEnds(items.post, u);
    SkipWsOver(items.post, u);
  }

  lemma AfterMember(items: Items, isObj: bool, k: bytes)
    requires items.Cons? && LooseItems(items)
    ensures var w := SkipWs(ItemTail(items, isObj, k));
      if items.rest.Nil? then At(w, Closer(isObj)) && w[1..] == k
      else At(w, COMMA) && w[1..] == EmitItems(items.rest, isObj, k)
  {
    hide EmitItems, ItemTail;
    AfterItem(items, isObj, k);
  }

  /** The start of an item, past its leading white space. */
  lemma ItemStart(items: Items, isObj: bool, k: bytes)
    requires items.Cons? && LooseItems(items)
    ensures SkipWs(EmitItems(items, isObj, k)) == EmitItem(items, isObj, k)
    ensures !At(EmitItem(items, isObj, k), Closer(isObj))
  {
    hide EmitItem;
    ItemStarts(items, isObj, k);
    SkipWsOver(items.pre, EmitItem(items, isObj, k));
  }

  // ---- skipping ----------------------------------------------------------------------

  lemma SkipKeyWritten(items: Items, k: bytes)
    requires items.Cons? && LooseItems(items)
    ensures SkipKey(EmitItem(items, true, k)) == Some(items.gap + EmitValue(items.v, ItemTail(items, true, k)))
  {
    var v := items.gap + EmitValue(items.v, ItemTail(items, true, k));
    var t := items.mid + ([COLON] + v);
    assert SkipWs(Quoted(items.key, t)) == Quoted(items.key, t);
    SkipQuoted(items.key, t);
    SkipWsOver(items.mid, [COLON] + v);
    assert ([COLON] + v)[1..] == v;
  }

  lemma SkipWsTwice(ws: bytes, s: bytes, depth: nat)
    requires AllWs(ws) && NoWsAhead(s)
    ensures SkipValue(ws + s, depth) == SkipValue(s, depth)
  {
    SkipWsOver(ws, s);
    SkipWsOver([], s);
    assert [] + s == s;
  }

  /** `s_skip_value` consumes exactly any written value, when and only when the value
      does not reach below depth 64. */
  lemma {:induction false} SkipWritten(v: Value, k: bytes, depth: nat)
    requires LooseValue(v) && (v.Tok? ==> Ends(k))
    ensures SkipValue(EmitValue(v, k), depth) == if depth + Height(v) <= MAX_DEPTH then Some(k) else None
    decreases v, 0
  {
    hide EmitItems, EmitItem, SkipString, Quoted;
    var s := EmitValue(v, k);
    ValueStarts(v, k);
    assert SkipWs(s) == s;
    match v {
      case Str(ps) => SkipStr(ps, k, depth);
      case Tok(t) => SkipTok(t, k, depth);
      case Arr(ws, items) =>
        hide EmitBody, SkipItems, LooseItems;
        if depth <= MAX_DEPTH { SkipBody(ws, items, false, k, depth); }
      case Obj(ws, items) =>
        hide EmitBody, SkipItems, LooseItems;
        if depth <= MAX_DEPTH { SkipBody(ws, items, true, k, depth); }
    }
  }

  lemma SkipStr(ps: seq<Piece>, k: bytes, depth: nat)
    requires LoosePieces(ps)
    ensures SkipValue(Quoted(ps, k), depth) == if depth <= MAX_DEPTH then Some(k) else None
  {
    assert SkipWs(Quoted(ps, k)) == Quoted(ps, k) && Quoted(ps, k)[0] == QUOTE;
    hide Quoted, SkipString;
    SkipQuoted(ps, k);
  }

  lemma SkipTok(t: bytes, k: bytes, depth: nat)
    requires t != [] && AllTok(t) && Ends(k)
    ensures SkipValue(t + k, depth) == if depth <= MAX_DEPTH then Some(k) else None
  {
    var s := t + k;
    assert IsTok(t[0]) && s[0] == t[0] && !IsWs(t[0]);
    assert s[0] != QUOTE && s[0] != OPEN_BRACE && s[0] != OPEN_BRACKET;
    hide IsTok, IsWs;
    assert SkipWs(s) == s;
    assert s[1..] == t[1..] + k;
    SkipTokenOver(t[1..], k);
  }

  lemma {:induction false} SkipBody(ws: bytes, items: Items, isObj: bool, k: bytes, depth: nat)
    requires AllWs(ws) && LooseItems(items) && depth <= MAX_DEPTH
    ensures var u := SkipWs(EmitBody(ws, items, isObj, k));
      (if At(u, Closer(isObj)) then Some(u[1..]) else SkipItems(u, isObj, depth))
      == if depth + ItemsHeight(items) <= MAX_DEPTH then Some(k) else None
    decreases items, 1
  {
    if items.Nil? {
      SkipWsOver(ws, [Closer(isObj)] + k);
    } else {
      ItemStarts(items, isObj, k);
      SkipWsOver(items.pre, EmitItem(items, isObj, k));
      SkipItemsWritten(items, isObj, k, depth);
    }
  }

  /** The key part of an item is passed over; what remains is its value. */
  lemma SkipToValue(items: Items, isObj: bool, k: bytes, depth: nat)
    requires items.Cons? && LooseItems(items)
    ensures var e := EmitItem(items, isObj, k);
      var at := if isObj then SkipKey(e) else Some(e);
      at.Some? && SkipValue(at.value, depth) == SkipValue(EmitValue(items.v, ItemTail(items, isObj, k)), depth)
  {
    if isObj {
      SkipKeyWritten(items, k);
      ValueStarts(items.v, ItemTail(items, isObj, k));
      SkipWsTwice(items.gap, EmitValue(items.v, ItemTail(items, isObj, k)), depth);
    }
  }

  lemma {:induction false} SkipItemsWritten(items: Items, isObj: bool, k: bytes, depth: nat)
    requires items.Cons? && LooseItems(items) && depth <= MAX_DEPTH
    ensures SkipItems(EmitItem(items, isObj, k), isObj, depth)
         == if depth + ItemsHeight(items) <= MAX_DEPTH then Some(k) else None
    decreases items, 0
  {
    hide EmitItem, EmitValue, EmitItems, SkipValue, SkipKey, LooseValue;
    var tail := ItemTail(items, isObj, k);
    AfterItem(items, isObj, k);
    SkipToValue(items, isObj, k, depth + 1);
    SkipWritten(items.v, tail, depth + 1);
    if items.rest.Nil? {
      assert SkipWs(tail)[1..] == k;
    } else {
      assert SkipWs(tail)[1..] == EmitItems(items.rest, isObj, k);
      SkipItemsPre(items.rest, isObj, k, depth);
      SkipItemsWritten(items.rest, isObj, k, depth);
    }
  }

  /** Leading white space of an item does not matter. */
  lemma SkipItemsPre(items: Items, isObj: bool, k: bytes, depth: nat)
    requires items.Cons? && LooseItems(items)
    ensures SkipItems(EmitItems(items, isObj, k), isObj, depth) == SkipItems(EmitItem(items, isObj, k), isObj, depth)
  {
    var e := EmitItem(items, isObj, k);
    ItemStarts(items, isObj, k);
    SkipWsOver(items.pre, e);
    if isObj {
      assert SkipKey(items.pre + e) == SkipKey(e);
    } else {
      SkipWsTwice(items.pre, e, depth + 1);
    }
  }
}
