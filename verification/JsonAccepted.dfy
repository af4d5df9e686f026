/** Exactly which bodies the scanner of gateway/src/gw_json.c accepts: `s_skip_value` and
    `gwj_content_text` as if-and-only-ifs, for arbitrary bytes. */
module JsonAccepted {
  import opened Bytes
  import opened JsonString
  import opened JsonScan
  import opened JsonDoc

  // ---- s_skip_value ------------------------------------------------------------------------------

  lemma {:induction false} WsSplit(s: bytes) returns (ws: bytes)
    ensures AllWs(ws) && s == ws + SkipWs(s)
  {
    if s != [] && IsWs(s[0]) {
      ws := WsSplit(s[1..]);
      ws := [s[0]] + ws;
    } else {
      ws := [];
    }
  }

  lemma {:induction false} TokenSplit(s: bytes) returns (t: bytes)
    ensures AllTok(t) && s == t + SkipToken(s) && Ends(SkipToken(s))
  {
    if s != [] && IsTok(s[0]) {
      t := TokenSplit(s[1..]);
      t := [s[0]] + t;
    } else {
      t := [];
    }
  }

  /** `v` is what was skipped at `s`, behind white space, before `k`. */
  ghost predicate Skipped(s: bytes, ws: bytes, v: Value, k: bytes, depth: nat) {
    && AllWs(ws) && LooseValue(v) && (v.Tok? ==> Ends(k)) && depth + Height(v) <= MAX_DEPTH
    && s == ws + EmitValue(v, k)
  }

  lemma {:induction false} SkipSound(s: bytes, depth: nat) returns (ws: bytes, v: Value)
    requires SkipValue(s, depth).Some?
    ensures Skipped(s, ws, v, SkipValue(s, depth).value, depth)
    decreases |s|, 0
  {
    ws := WsSplit(s);
    var t := SkipWs(s);
    SkipTwice(s, depth);
    if t[0] == QUOTE {
      hide EmitValue, SkipWs;
      var ps := SkipStringSound(t);
      v := Str(ps);
      StringIs(ps, SkipString(t).value);
    } else if t[0] == OPEN_BRACE || t[0] == OPEN_BRACKET {
      assert depth <= MAX_DEPTH;
      hide EmitValue, SkipValue, LooseValue, Height, SkipWs;
      v := SkipContainer(t, t[0] == OPEN_BRACE, depth);
    } else {
      hide EmitValue, SkipWs;
      v := TokenSound(t, depth);
    }
  }

  lemma SkipTwice(s: bytes, depth: nat)
    ensures |SkipWs(s)| <= |s| && SkipWs(SkipWs(s)) == SkipWs(s)
    ensures SkipValue(SkipWs(s), depth) == SkipValue(s, depth)
    ensures SkipValue(s, depth).Some? ==> SkipWs(s) != []
  {
  }

  lemma StringIs(ps: seq<Piece>, k: bytes)
    ensures EmitValue(Str(ps), k) == Quoted(ps, k) && Height(Str(ps)) == 0
  {
  }

  lemma TokenSound(t: bytes, depth: nat) returns (v: Value)
    requires t != [] && SkipWs(t) == t && SkipValue(t, depth).Some?
    requires t[0] != QUOTE && t[0] != OPEN_BRACE && t[0] != OPEN_BRACKET
    ensures v.Tok? && LooseValue(v) && Height(v) == 0 && depth <= MAX_DEPTH
    ensures Ends(SkipValue(t, depth).value) && t == EmitValue(v, SkipValue(t, depth).value)
  {
    var rest := TokenSplit(t[1..]);
    v := Tok([t[0]] + rest);
    assert IsTok(t[0]);
    hide IsTok, SkipToken;
    assert t == [t[0]] + t[1..];
    Assoc([t[0]], rest, SkipToken(t[1..]));
  }

  lemma {:induction false} SkipContainer(t: bytes, isObj: bool, depth: nat) returns (v: Value)
    requires t != [] && t[0] == (if isObj then OPEN_BRACE else OPEN_BRACKET) && SkipValue(t, depth).Some?
    requires depth <= MAX_DEPTH && SkipWs(t) == t
    ensures LooseValue(v) && !v.Tok? && depth + Height(v) <= MAX_DEPTH && t == EmitValue(v, SkipValue(t, depth).value)
    decreases |t|, 0, 0
  {
    ContainerTurn(t, isObj, depth);
    hide *;
    var k := SkipValue(t, depth).value;
    var u := SkipWs(t[1..]);
    var inner := WsSplit(t[1..]);
    assert t == [t[0]] + t[1..];
    if u != [] && u[0] == Closer(isObj) {
      assert u == [Closer(isObj)] + k;
      v := EmptyContainer(isObj, inner, k);
    } else {
      var items := SkipItemsSound(u, isObj, depth, inner);
      v := FullContainer(isObj, items, k);
    }
  }

  lemma ContainerTurn(t: bytes, isObj: bool, depth: nat)
    requires t != [] && t[0] == (if isObj then OPEN_BRACE else OPEN_BRACKET) && SkipValue(t, depth).Some?
    requires depth <= MAX_DEPTH && SkipWs(t) == t
    ensures var u := SkipWs(t[1..]);
      && |u| < |t|
      && SkipValue(t, depth) == if u != [] && u[0] == Closer(isObj) then Some(u[1..]) else SkipItems(u, isObj, depth)
  {
    hide SkipWs, SkipItems, SkipString, SkipToken;
  }

  lemma EmptyContainer(isObj: bool, ws: bytes, k: bytes) returns (v: Value)
    requires AllWs(ws)
    ensures LooseValue(v) && !v.Tok? && Height(v) == 0
    ensures EmitValue(v, k) == [if isObj then OPEN_BRACE else OPEN_BRACKET] + (ws + ([Closer(isObj)] + k))
  {
    v := if isObj then Obj(ws, Nil) else Arr(ws, Nil);
  }

  lemma FullContainer(isObj: bool, items: Items, k: bytes) returns (v: Value)
    requires items.Cons? && LooseItems(items)
    ensures LooseValue(v) && !v.Tok? && Height(v) == ItemsHeight(items)
    ensures EmitValue(v, k) == [if isObj then OPEN_BRACE else OPEN_BRACKET] + EmitItems(items, isObj, k)
  {
    hide EmitItems, LooseItems, ItemsHeight;
    v := if isObj then Obj([], items) else Arr([], items);
    assert EmitBody([], items, isObj, k) == EmitItems(items, isObj, k);
  }

  /** The items, with `pre` in front of the first. */
  lemma {:induction false} SkipItemsSound(s: bytes, isObj: bool, depth: nat, pre: bytes) returns (items: Items)
    requires SkipItems(s, isObj, depth).Some? && AllWs(pre) && depth <= MAX_DEPTH
    ensures items.Cons? && LooseItems(items) && depth + ItemsHeight(items) <= MAX_DEPTH
    ensures pre + s == EmitItems(items, isObj, SkipItems(s, isObj, depth).value)
    decreases |s|, 1
  {
    SkipTurn(s, isObj, depth);
    NilItems();
    hide *;
    var k := SkipItems(s, isObj, depth).value;
    var v := (if isObj then SkipKey(s) else Some(s)).value;
    var t := SkipValue(v, depth + 1).value;
    var ws, val := SkipSound(v, depth + 1);
    SkippedParts(v, ws, val, t, depth + 1);
    var post := WsSplit(t);
    var u := SkipWs(t);
    HeadTail(u);
    if u[0] == COMMA {
      var rest := SkipItemsSound(u[1..], isObj, depth, []);
      items := ItemSound(s, isObj, pre, v, ws, val, post, rest, k);
    } else {
      items := ItemSound(s, isObj, pre, v, ws, val, post, Nil, k);
    }
    ItemHeights(items);
  }

  /** What one turn of the item loop has seen if the whole succeeds. */
  lemma SkipTurn(s: bytes, isObj: bool, depth: nat)
    requires SkipItems(s, isObj, depth).Some?
    ensures var at := if isObj then SkipKey(s) else Some(s);
      && at.Some? && |at.value| <= |s| && SkipValue(at.value, depth + 1).Some?
      && var t := SkipValue(at.value, depth + 1).value;
         var u := SkipWs(t);
         && u != [] && |u| <= |t| < |s|
         && if u[0] == COMMA then SkipItems(u[1..], isObj, depth) == SkipItems(s, isObj, depth)
            else u[0] == Closer(isObj) && SkipItems(s, isObj, depth) == Some(u[1..])
  {
    hide SkipKey, SkipValue, SkipWs;
  }

  lemma NilItems()
    ensures LooseItems(Nil) && ItemsHeight(Nil) == 0 && AllWs([])
  {
  }

  lemma SkippedParts(s: bytes, ws: bytes, v: Value, k: bytes, depth: nat)
    requires Skipped(s, ws, v, k, depth)
    ensures AllWs(ws) && LooseValue(v) && depth + Height(v) <= MAX_DEPTH && s == ws + EmitValue(v, k)
  {
    hide LooseValue, Height, EmitValue;
  }

  lemma ItemHeights(items: Items)
    requires items.Cons?
    ensures ItemsHeight(items)
         == if 1 + Height(items.v) > ItemsHeight(items.rest) then 1 + Height(items.v) else ItemsHeight(items.rest)
  {
  }

  /** One item from its parts. */
  lemma ItemSound(s: bytes, isObj: bool, pre: bytes, v: bytes, ws: bytes, val: Value, post: bytes, rest: Items,
    k: bytes)
    returns (items: Items)
    requires AllWs(pre) && AllWs(ws) && LooseValue(val) && AllWs(post) && LooseItems(rest)
    requires Some(v) == if isObj then SkipKey(s) else Some(s)
    requires v == ws + EmitValue(val,
      post + if rest.Nil? then [Closer(isObj)] + k else [COMMA] + EmitItems(rest, isObj, k))
    ensures items.Cons? && LooseItems(items) && items.v == val && items.rest == rest
    ensures pre + s == EmitItems(items, isObj, k)
  {
    var tail := post + if rest.Nil? then [Closer(isObj)] + k else [COMMA] + EmitItems(rest, isObj, k);
    if isObj {
      var lead, key, mid := KeySound(s);
      assert [COLON] + v == [COLON] + (ws + EmitValue(val, tail));
      items := Cons(pre + lead, key, mid, ws, val, post, rest);
      assert s == lead + EmitItem(items, true, k);
      Assoc(pre, lead, EmitItem(items, true, k));
    } else {
      items := Cons(pre + ws, [], [], [], val, post, rest);
      Assoc(pre, ws, EmitValue(val, tail));
    }
  }

  /** A key that was passed over. */
  lemma KeySound(s: bytes) returns (lead: bytes, key: seq<Piece>, mid: bytes)
    requires SkipKey(s).Some?
    ensures AllWs(lead) && AllWs(mid) && LoosePieces(key)
    ensures s == lead + Quoted(key, mid + ([COLON] + SkipKey(s).value))
  {
    lead := WsSplit(s);
    key := SkipStringSound(SkipWs(s));
    var t := SkipString(SkipWs(s)).value;
    mid := WsSplit(t);
    assert SkipWs(t) == [COLON] + SkipKey(s).value;
  }

  /** `s_skip_value` succeeds and stops at `k` if and only if the text is white space, one value in
      the loose sense that reaches at most 64 levels down, and `k`, not inside a token. */
  lemma SkipValueExact(s: bytes, k: bytes, depth: nat)
    ensures SkipValue(s, depth) == Some(k) <==> exists ws, v :: Skipped(s, ws, v, k, depth)
  {
    if SkipValue(s, depth) == Some(k) {
      var ws, v := SkipSound(s, depth);
    }
    if ws, v :| Skipped(s, ws, v, k, depth) {
      hide SkipValue, EmitValue;
      ValueStarts(v, k);
      SkipWsTwice(ws, EmitValue(v, k), depth);
      SkipWritten(v, k, depth);
    }
  }
}
