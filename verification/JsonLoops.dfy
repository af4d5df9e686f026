/** The loops of gateway/src/gw_json.c over a body and a position, proved against the
    functions of JsonScan. */
module JsonLoops {
  import opened Bytes
  import opened JsonString
  import opened JsonScan

  /** `s_ws`. */
  method ScanWs(data: bytes, p0: nat) returns (p: nat)
    requires p0 <= |data|
    ensures p0 <= p <= |data| && data[p..] == SkipWs(data[p0..])
  {
    p := p0;
    while p < |data| && IsWs(data[p])
      invariant p0 <= p <= |data|
      invariant SkipWs(data[p..]) == SkipWs(data[p0..])
    {
      assert data[p..][1..] == data[p + 1..];
      p := p + 1;
    }
  }

  /** The token loop of `s_skip_value`. */
  method ScanToken(data: bytes, p0: nat) returns (p: nat)
    requires p0 <= |data|
    ensures p0 <= p <= |data| && data[p..] == SkipToken(data[p0..])
  {
    p := p0;
    while p < |data| && IsTok(data[p])
      invariant p0 <= p <= |data|
      invariant SkipToken(data[p..]) == SkipToken(data[p0..])
    {
      assert data[p..][1..] == data[p + 1..];
      p := p + 1;
    }
  }

  /** The key part of an object member in `s_skip_value`. */
  method ScanSkipKey(data: bytes, p0: nat) returns (ok: bool, p: nat)
    requires p0 <= |data|
    ensures p <= |data| && ok == SkipKey(data[p0..]).Some?
    ensures ok ==> p0 < p && data[p..] == SkipKey(data[p0..]).value
  {
    hide SkipWs, SkipString;
    p := ScanWs(data, p0);
    ok, p := ScanSkipString(data, p);
    if !ok {
      return;
    }
    p := ScanWs(data, p);
    if p == |data| || data[p] != COLON {
      return false, p;
    }
    assert data[p..][1..] == data[p + 1..];
    p := p + 1;
  }

  /** `s_skip_value`: recursion and loop together. */
  method ScanSkipValue(data: bytes, p0: nat, depth: nat) returns (ok: bool, p: nat)
    requires p0 <= |data|
    ensures p <= |data| && ok == SkipValue(data[p0..], depth).Some?
    ensures ok ==> p0 < p && data[p..] == SkipValue(data[p0..], depth).value
    decreases |data| - p0, 1
  {
    hide SkipWs, SkipString, SkipToken, SkipItems, IsTok;
    p := p0;
    if depth > MAX_DEPTH {
      return false, p;
    }
    p := ScanWs(data, p);
    if p == |data| {
      return false, p;
    }
    var c := data[p];
    assert data[p..][1..] == data[p + 1..];
    if c == QUOTE {
      ok, p := ScanSkipString(data, p);
    } else if c == OPEN_BRACE || c == OPEN_BRACKET {
      var isObj := c == OPEN_BRACE;
      p := ScanWs(data, p + 1);
      if p < |data| && data[p] == Closer(isObj) {
        assert data[p..][1..] == data[p + 1..];
        return true, p + 1;
      }
      ok, p := ScanSkipItems(data, p, isObj, depth);
    } else if !IsTok(c) {
      ok := false;
    } else {
      p := ScanToken(data, p + 1);
      ok := true;
    }
  }

  /** The `for (;;)` of `s_skip_value`. */
  method ScanSkipItems(data: bytes, p0: nat, isObj: bool, depth: nat) returns (ok: bool, p: nat)
    requires p0 <= |data|
    ensures p <= |data| && ok == SkipItems(data[p0..], isObj, depth).Some?
    ensures ok ==> p0 < p && data[p..] == SkipItems(data[p0..], isObj, depth).value
    decreases |data| - p0, 2
  {
    hide SkipWs, SkipKey, SkipValue;
    p := p0;
    while true
      invariant p0 <= p <= |data|
      invariant SkipItems(data[p..], isObj, depth) == SkipItems(data[p0..], isObj, depth)
      decreases |data| - p
    {
      if isObj {
        ok, p := ScanSkipKey(data, p);
        if !ok {
          return;
        }
      }
      ok, p := ScanSkipValue(data, p, depth + 1);
      if !ok {
        return;
      }
      p := ScanWs(data, p);
      if p == |data| {
        return false, p;
      }
      assert data[p..][1..] == data[p + 1..];
      if data[p] == COMMA {
        p := p + 1;
      } else {
        return data[p] == Closer(isObj), if data[p] == Closer(isObj) then p + 1 else p;
      }
    }
  }

  /** Key buffer, colon and white space: the start of each member loop. */
  method ScanMemberHead(data: bytes, p0: nat, cap: nat) returns (ok: bool, key: bytes, p: nat)
    requires p0 <= |data|
    ensures p <= |data| && ok == MemberHead(data[p0..], cap).Some?
    ensures ok ==> p0 < p && (key, data[p..]) == MemberHead(data[p0..], cap).value
  {
    hide SkipWs, DecodeString;
    var kbuf := new byte[cap + 1];
    var klen;
    assert kbuf[..0] == [];
    ok, p, klen := ScanDecodeString(data, p0, kbuf, cap, 0);
    key := CStr(kbuf[..klen]);
    if !ok {
      return;
    }
    p := ScanWs(data, p);
    if p == |data| || data[p] != COLON {
      return false, key, p;
    }
    assert data[p..][1..] == data[p + 1..];
    p := ScanWs(data, p + 1);
  }

  /** `gwj_top_string`. */
  method GwjTopString(body: bytes, key: bytes, dst: array<byte>) returns (ok: bool)
    requires dst.Length >= 1
    modifies dst
    ensures ok == TopString(body, key, dst.Length - 1).Some?
    ensures ok ==> var v := TopString(body, key, dst.Length - 1).value;
      |v| < dst.Length && dst[..|v|] == v && dst[|v|] == 0
  {
    hide SkipWs, MemberHead, SkipValue, DecodeString;
    var cap := dst.Length - 1;
    assert body[0..] == body;
    var p := ScanWs(body, 0);
    if p == |body| || body[p] != OPEN_BRACE {
      return false;
    }
    assert body[p..][1..] == body[p + 1..];
    p := p + 1;
    while true
      invariant p <= |body|
      invariant TopMembers(body[p..], key, cap) == TopString(body, key, cap)
      decreases |body| - p
    {
      p := ScanWs(body, p);
      if p < |body| && body[p] == CLOSE_BRACE {
        return false;
      }
      var k;
      ok, k, p := ScanMemberHead(body, p, TOP_KEY_CAP);
      if !ok {
        return;
      }
      if k == key {
        var olen;
        assert dst[..0] == [];
        ok, p, olen := ScanDecodeString(body, p, dst, cap, 0);
        if ok {
          dst[olen] := 0;
        }
        return;
      }
      ok, p := ScanSkipValue(body, p, 0);
      if !ok {
        return;
      }
      p := ScanWs(body, p);
      if p == |body| || body[p] != COMMA {
        return false;
      }
      assert body[p..][1..] == body[p + 1..];
      p := p + 1;
    }
  }

  /** The value of one member of a content block. */
  method ScanBlockValue(data: bytes, p0: nat, k: bytes, b0: Block) returns (ok: bool, p: nat, b: Block)
    requires p0 <= |data|
    ensures p <= |data| && ok == BlockValue(k, data[p0..], b0).Some?
    ensures ok ==> p0 < p && (data[p..], b) == BlockValue(k, data[p0..], b0).value
  {
    hide SkipString, SkipValue, DecodeString;
    b := b0;
    if k == KeyType() {
      var tv := new byte[TYPE_CAP + 1];
      var tvl;
      assert tv[..0] == [];
      ok, p, tvl := ScanDecodeString(data, p0, tv, TYPE_CAP, 0);
      if ok && CStr(tv[..tvl]) == KeyText() {
        b := b.(isText := true);
      }
    } else if k == KeyText() {
      b := b.(textAt := Some(data[p0..]));
      ok, p := ScanSkipString(data, p0);
    } else {
      ok, p := ScanSkipValue(data, p0, 0);
    }
  }

  /** The inner loop of `gwj_content_text`: the members of one block. */
  method ScanBlock(data: bytes, p0: nat) returns (ok: bool, p: nat, b: Block)
    requires p0 <= |data|
    ensures p <= |data| && ok == BlockMembers(data[p0..], Block(false, None)).Some?
    ensures ok ==> p0 < p && (data[p..], b) == BlockMembers(data[p0..], Block(false, None)).value
  {
    hide SkipWs, MemberHead, BlockValue;
    p, b := p0, Block(false, None);
    while true
      invariant p0 <= p <= |data|
      invariant BlockMembers(data[p..], b) == BlockMembers(data[p0..], Block(false, None))
      decreases |data| - p
    {
      p := ScanWs(data, p);
      if p < |data| && data[p] == CLOSE_BRACE {
        assert data[p..][1..] == data[p + 1..];
        return true, p + 1, b;
      }
      var k;
      ok, k, p := ScanMemberHead(data, p, BLOCK_KEY_CAP);
      if !ok {
        return;
      }
      ok, p, b := ScanBlockValue(data, p, k, b);
      if !ok {
        return;
      }
      p := ScanWs(data, p);
      if p == |data| {
        return false, p, b;
      }
      assert data[p..][1..] == data[p + 1..];
      if data[p] == COMMA {
        p := p + 1;
      } else {
        return data[p] == CLOSE_BRACE, if data[p] == CLOSE_BRACE then p + 1 else p, b;
      }
    }
  }

  /** The middle loop: the blocks of the content array. */
  method ScanBlocks(data: bytes, p0: nat, dst: array<byte>, o0: nat) returns (ok: bool, p: nat, o: nat)
    requires p0 <= |data| && o0 <= dst.Length
    modifies dst
    ensures p <= |data| && o <= dst.Length
    ensures ok == Blocks(data[p0..], dst.Length, old(dst[..o0])).Some?
    ensures ok ==> p0 < p && (data[p..], dst[..o]) == Blocks(data[p0..], dst.Length, old(dst[..o0])).value
  {
    hide SkipWs, BlockMembers, DecodeString;
    ghost var before := dst[..o0];
    p, o := p0, o0;
    while true
      invariant p0 <= p <= |data| && o <= dst.Length
      invariant Blocks(data[p..], dst.Length, dst[..o]) == Blocks(data[p0..], dst.Length, before)
      decreases |data| - p
    {
      p := ScanWs(data, p);
      if p == |data| || data[p] != OPEN_BRACE {
        return false, p, o;
      }
      assert data[p..][1..] == data[p + 1..];
      var b;
      ok, p, b := ScanBlock(data, p + 1);
      if !ok {
        return;
      }
      if b.isText && b.textAt.Some? {
        var at, saved := b.textAt.value, 0;
        assert at[0..] == at;
        ok, saved, o := ScanDecodeString(at, 0, dst, dst.Length, o);
        if !ok {
          return;
        }
      }
      p := ScanWs(data, p);
      if p == |data| {
        return false, p, o;
      }
      assert data[p..][1..] == data[p + 1..];
      if data[p] == COMMA {
        p := p + 1;
      } else {
        return data[p] == CLOSE_BRACKET, if data[p] == CLOSE_BRACKET then p + 1 else p, o;
      }
    }
  }

  /** The value of one top-level member in `gwj_content_text`. */
  method ScanTopValue(data: bytes, p0: nat, k: bytes, dst: array<byte>, o0: nat)
    returns (ok: bool, p: nat, o: nat)
    requires p0 <= |data| && o0 <= dst.Length
    modifies dst
    ensures p <= |data| && o <= dst.Length
    ensures ok == TopValue(k, data[p0..], dst.Length, old(dst[..o0])).Some?
    ensures ok ==> p0 < p && (data[p..], dst[..o]) == TopValue(k, data[p0..], dst.Length, old(dst[..o0])).value
  {
    hide SkipWs, Blocks, SkipValue;
    p, o := p0, o0;
    if k != KeyContent() {
      ok, p := ScanSkipValue(data, p, 0);
      return;
    }
    if p == |data| || data[p] != OPEN_BRACKET {
      return false, p, o;
    }
    assert data[p..][1..] == data[p + 1..];
    p := ScanWs(data, p + 1);
    if p < |data| && data[p] == CLOSE_BRACKET {
      assert data[p..][1..] == data[p + 1..];
      return true, p + 1, o;
    }
    ok, p, o := ScanBlocks(data, p, dst, o);
  }

  /** `gwj_content_text`: the outer loop. */
  method GwjContentText(body: bytes, dst: array<byte>) returns (ok: bool, outLen: nat)
    modifies dst
    ensures outLen <= dst.Length
    ensures ok == ContentText(body, dst.Length).Some?
    ensures ok ==> dst[..outLen] == ContentText(body, dst.Length).value
  {
    hide SkipWs, MemberHead, TopValue;
    outLen := 0;
    assert body[0..] == body;
    var p := ScanWs(body, 0);
    if p == |body| || body[p] != OPEN_BRACE {
      return false, 0;
    }
    assert body[p..][1..] == body[p + 1..];
    var found := false;
    p := p + 1;
    assert dst[..0] == [];
    while true
      invariant p <= |body| && outLen <= dst.Length
      invariant ContentMembers(body[p..], dst.Length, dst[..outLen], found) == ContentText(body, dst.Length)
      decreases |body| - p
    {
      p := ScanWs(body, p);
      if p < |body| && body[p] == CLOSE_BRACE {
        return found, outLen;
      }
      var k;
      ok, k, p := ScanMemberHead(body, p, TOP_KEY_CAP);
      if !ok {
        return;
      }
      ok, p, outLen := ScanTopValue(body, p, k, dst, outLen);
      if !ok {
        return;
      }
      found := found || k == KeyContent();
      p := ScanWs(body, p);
      if p == |body| {
        return false, outLen;
      }
      assert body[p..][1..] == body[p + 1..];
      if body[p] == COMMA {
        p := p + 1;
      } else {
        return body[p] == CLOSE_BRACE && found, outLen;
      }
    }
  }
}
