/** Recovery of an intent (gateway/src/gw_wal.c) from any file at all, in terms of its lines: which
    lines there are, which of them is a field, and which field counts. */
module WalRules {
  import opened Bytes
  import opened Numbers
  import opened Canonical
  import opened Wal

  // ---- the lines of a file --------------------------------------------------------------------------

  /** A line ends behind its line feed, after 599 bytes, or with the file. */
  predicate IsLineLen(data: bytes, max: nat, n: nat) {
    && 1 <= n <= max && n <= |data| && LF !in data[..n - 1]
    && (data[n - 1] == LF || n == max || n == |data|)
  }

  lemma {:induction false} LineLenExact(data: bytes, max: nat, n: nat)
    requires data != [] && max > 0
    ensures n == LineLen(data, max) <==> IsLineLen(data, max, n)
    decreases |data|
  {
    if data[0] == LF {
      assert 1 < n <= |data| ==> data[..n - 1][0] == LF;
    } else if max == 1 || |data| == 1 {
      assert LineLen(data, max) == 1;
    } else {
      assert LineLen(data, max) >= 2;
      if 1 < n <= |data| {
        LineLenExact(data[1..], max - 1, n - 1);
        assert data[..n - 1] == [data[0]] + data[1..][..n - 2];
      }
    }
  }

  predicate LineEnd(b: byte) {
    b == LF || b == CR
  }

  /** `r` is `s` without the line feeds and carriage returns at its end. */
  ghost predicate Trimmed(s: bytes, r: bytes) {
    && r <= s && (forall i :: |r| <= i < |s| ==> LineEnd(s[i]))
    && (r == [] || !LineEnd(r[|r| - 1]))
  }

  lemma {:induction false} TrimExact(s: bytes, r: bytes)
    ensures r == Trim(s) <==> Trimmed(s, r)
  {
    if s != [] && LineEnd(s[|s| - 1]) {
      var t := s[..|s| - 1];
      TrimExact(t, r);
      if Trimmed(s, r) {
        assert r != s;
        assert r <= t;
      }
    } else if Trimmed(s, r) {
      assert r == s;
    }
  }

  /** The lines as the loop sees them: up to the first NUL, without their end. */
  function LinesOf(data: bytes): seq<bytes>
    decreases |data|
  {
    if data == [] then [] else [Block(data)] + LinesOf(data[LineLen(data, LINE_MAX)..])
  }

  // ---- the fields of a line ---------------------------------------------------------------------------

  /** A line is a field if it is the key, an equals sign, and a value that is not empty and fits. */
  lemma FieldExact(line: bytes, key: string, cap: nat, v: bytes)
    ensures ParseField(line, key, cap) == Some(v) <==> line == Ascii(key) + ([61] + v) && 1 <= |v| < cap
  {
    var n := |key|;
    var w := Ascii(key) + ([61] + v);
    assert w[..n] == Ascii(key) && w[n] == 61 && w[n + 1..] == v && |w| == n + 1 + |v|;
    if ParseField(line, key, cap) == Some(v) {
      assert line == line[..n] + ([line[n]] + line[n + 1..]);
    }
  }

  /** What stands before the first equals sign. */
  function KeyPart(line: bytes): bytes {
    if line == [] || line[0] == EQUALS then [] else [line[0]] + KeyPart(line[1..])
  }

  lemma {:induction false} KeyPartOf(key: bytes, v: bytes)
    requires EQUALS !in key
    ensures KeyPart(key + ([EQUALS] + v)) == key
  {
    var line := key + ([EQUALS] + v);
    if key == [] {
      assert line == [EQUALS] + v;
    } else {
      assert line[1..] == key[1..] + ([EQUALS] + v);
      KeyPartOf(key[1..], v);
    }
  }

  lemma FieldKey(line: bytes, key: string, cap: nat)
    requires EQUALS !in Ascii(key)
    ensures ParseField(line, key, cap).Some? ==> KeyPart(line) == Ascii(key)
  {
    hide ParseField, KeyPart, Ascii;
    if ParseField(line, key, cap).Some? {
      var v := ParseField(line, key, cap).value;
      FieldExact(line, key, cap, v);
      KeyPartOf(Ascii(key), v);
    }
  }

  lemma Keys()
    ensures EQUALS !in Ascii("input_hash") && EQUALS !in Ascii("model_id") && EQUALS !in Ascii("max_tokens")
    ensures EQUALS !in Ascii("seed") && EQUALS !in Ascii("temperature_q16") && EQUALS !in Ascii("top_p_q16")
  {
  }

  lemma KeysDiffer()
    ensures |Ascii("input_hash")| == 10 && |Ascii("model_id")| == 8 && |Ascii("max_tokens")| == 10
    ensures |Ascii("seed")| == 4 && |Ascii("temperature_q16")| == 15 && |Ascii("top_p_q16")| == 9
    ensures Ascii("input_hash") != Ascii("max_tokens")
  {
    assert Ascii("input_hash")[0] != Ascii("max_tokens")[0];
  }

  /** A line is a field of at most one key. */
  lemma OneKey(line: bytes)
    ensures ParseField(line, "input_hash", 65).Some? ==> KeyPart(line) == Ascii("input_hash")
    ensures ParseField(line, "model_id", 256).Some? ==> KeyPart(line) == Ascii("model_id")
    ensures ParseField(line, "max_tokens", 64).Some? ==> KeyPart(line) == Ascii("max_tokens")
    ensures ParseField(line, "seed", 64).Some? ==> KeyPart(line) == Ascii("seed")
    ensures ParseField(line, "temperature_q16", 64).Some? ==> KeyPart(line) == Ascii("temperature_q16")
    ensures ParseField(line, "top_p_q16", 64).Some? ==> KeyPart(line) == Ascii("top_p_q16")
  {
    hide ParseField, KeyPart, Ascii;
    Keys();
    FieldKey(line, "input_hash", 65);
    FieldKey(line, "model_id", 256);
    FieldKey(line, "max_tokens", 64);
    FieldKey(line, "seed", 64);
    FieldKey(line, "temperature_q16", 64);
    FieldKey(line, "top_p_q16", 64);
  }

  // ---- the field that counts ----------------------------------------------------------------------------

  /** The value of the last line that is this field. */
  function LastField(lines: seq<bytes>, key: string, cap: nat): Option<bytes> {
    if lines == [] then None
    else
      var v := ParseField(lines[|lines| - 1], key, cap);
      if v.Some? then v else LastField(lines[..|lines| - 1], key, cap)
  }

  function NumberField(lines: seq<bytes>, key: string, missing: int): int {
    var v := LastField(lines, key, 64);
    if v.Some? then Strtol(v.value) else missing
  }

  function NarrowField(lines: seq<bytes>, key: string, missing: int): int {
    var v := LastField(lines, key, 64);
    if v.Some? then Int32(Strtol(v.value)) else missing
  }

  function TextField(lines: seq<bytes>, key: string, cap: nat): bytes {
    OrEmpty(LastField(lines, key, cap))
  }

  function TakeAll(lines: seq<bytes>): Partial {
    if lines == [] then EMPTY else TakeLine(lines[|lines| - 1], TakeAll(lines[..|lines| - 1]))
  }

  lemma TakeSnoc(lines: seq<bytes>, line: bytes)
    ensures TakeAll(lines + [line]) == TakeLine(line, TakeAll(lines))
  {
    hide TakeLine;
    assert (lines + [line])[..|lines|] == lines;
  }

  lemma TakeUnfold(data: bytes, st: Partial)
    requires data != []
    ensures var n := LineLen(data, LINE_MAX);
      && 0 < n <= |data| && LinesOf(data) == [Block(data)] + LinesOf(data[n..])
      && TakeLines(data, st) == TakeLines(data[n..], TakeLine(Block(data), st))
  {
    hide TakeLine, Block;
  }

  lemma {:induction false} TakeRest(data: bytes, before: seq<bytes>)
    ensures TakeLines(data, TakeAll(before)) == TakeAll(before + LinesOf(data))
    decreases |data|
  {
    hide *;
    if data == [] {
      TakeNone(data, before);
    } else {
      var n, line := LineLen(data, LINE_MAX), Block(data);
      TakeUnfold(data, TakeAll(before));
      TakeSnoc(before, line);
      TakeRest(data[n..], before + [line]);
      Joined(before, line, LinesOf(data[n..]));
    }
  }

  lemma TakeNone(data: bytes, before: seq<bytes>)
    requires data == []
    ensures TakeLines(data, TakeAll(before)) == TakeAll(before + LinesOf(data))
  {
    hide TakeAll;
    assert before + [] == before;
  }

  lemma Joined(a: seq<bytes>, x: bytes, b: seq<bytes>)
    ensures a + ([x] + b) == a + [x] + b
  {
  }

  /** One line changes the field that it is, and no other. */
  lemma OneLine(line: bytes, st: Partial)
    ensures var t, i := TakeLine(line, st), st.intent;
      var h, m := ParseField(line, "input_hash", 65), ParseField(line, "model_id", 256);
      && t.haveHash == (st.haveHash || h.Some?) && t.intent.hash == (if h.Some? then h.value else i.hash)
      && t.haveModel == (st.haveModel || m.Some?) && t.intent.modelId == (if m.Some? then m.value else i.modelId)
    ensures var t, i := TakeLine(line, st), st.intent;
      var n, s := ParseField(line, "max_tokens", 64), ParseField(line, "seed", 64);
      && t.intent.maxTokens == (if n.Some? then Int32(Strtol(n.value)) else i.maxTokens)
      && t.intent.seed == (if s.Some? then Strtol(s.value) else i.seed)
    ensures var t, i := TakeLine(line, st), st.intent;
      var p, q := ParseField(line, "temperature_q16", 64), ParseField(line, "top_p_q16", 64);
      && t.intent.temperature == (if p.Some? then Int32(Strtol(p.value)) else i.temperature)
      && t.intent.topP == (if q.Some? then Int32(Strtol(q.value)) else i.topP)
  {
    OneKey(line);
    KeysDiffer();
    hide ParseField, KeyPart, Ascii, Strtol, Int32;
  }

  lemma {:induction false} TakeAllFields(lines: seq<bytes>)
    ensures var st := TakeAll(lines);
      && st.haveHash == LastField(lines, "input_hash", 65).Some?
      && st.haveModel == LastField(lines, "model_id", 256).Some?
      && st.intent.hash == TextField(lines, "input_hash", 65) && st.intent.modelId == TextField(lines, "model_id", 256)
      && st.intent.maxTokens == NarrowField(lines, "max_tokens", -1) && st.intent.seed == NumberField(lines, "seed", -1)
      && st.intent.temperature == NarrowField(lines, "temperature_q16", NULL_Q16)
      && st.intent.topP == NarrowField(lines, "top_p_q16", NULL_Q16)
    decreases |lines|
  {
    if lines != [] {
      var n := |lines| - 1;
      hide TakeLine, ParseField, Strtol, Int32;
      TakeAllFields(lines[..n]);
      OneLine(lines[n], TakeAll(lines[..n]));
    }
  }

  /** `gw_wal_recover` on any file: refused unless some line is a model_id and the last line that is
      an input_hash has 64 characters; each field is that of the last line with its key, or null. */
  lemma RecoverExact(data: bytes)
    ensures var ls := LinesOf(data);
      var h, m := LastField(ls, "input_hash", 65), LastField(ls, "model_id", 256);
      Recover(data)
      == if h.None? || m.None? || |h.value| != 64 then None
         else Some(Intent(h.value, m.value, NarrowField(ls, "max_tokens", -1), NumberField(ls, "seed", -1),
                NarrowField(ls, "temperature_q16", -0x8000_0000), NarrowField(ls, "top_p_q16", -0x8000_0000)))
  {
    hide LastField, TakeLines, LinesOf;
    var ls := LinesOf(data);
    TakeRest(data, []);
    assert [] + ls == ls && TakeAll([]) == EMPTY;
    TakeAllFields(ls);
    hide TakeAll, NarrowField, NumberField;
  }

  // ---- numbers --------------------------------------------------------------------------------------------

  predicate AllSpace(s: bytes) {
    forall i :: 0 <= i < |s| ==> s[i] in Ascii(" ") || 9 <= s[i] <= 13
  }

  lemma {:induction false} SkipSpaceOver(ws: bytes, t: bytes)
    requires AllSpace(ws) && (t == [] || !IsSpace(t[0]))
    ensures SkipSpace(ws + t) == t
  {
    if ws == [] {
      assert ws + t == t;
    } else {
      assert Ascii(" ") == [32];
      assert (ws + t)[1..] == ws[1..] + t;
      SkipSpaceOver(ws[1..], t);
    }
  }

  function Clamp(v: int): int {
    if v < -0x8000_0000_0000_0000 then -0x8000_0000_0000_0000
    else if v > 0x7FFF_FFFF_FFFF_FFFF then 0x7FFF_FFFF_FFFF_FFFF
    else v
  }

  /** `strtoll` on any text: white space, a sign or none, digits or none, and then anything else. */
  lemma StrtolExact(ws: bytes, sign: bytes, d: bytes, k: bytes)
    requires AllSpace(ws) && AllDigits(d) && NoDigitAhead(k) && sign in [[], Ascii("+"), Ascii("-")]
    requires d == [] && sign == [] ==> k == [] || !(k[0] in [43, 45] || IsSpace(k[0]))
    ensures Strtol(ws + (sign + (d + k))) == Clamp((if sign == Ascii("-") then -1 else 1) * NatOf(d))
  {
    assert Ascii("+") == [43] && Ascii("-") == [45];
    var t := sign + (d + k);
    assert d != [] ==> IsDigit(d[0]) && (d + k)[0] == d[0];
    assert d == [] ==> d + k == k;
    assert sign == [] ==> t == d + k;
    assert sign != [] ==> t[0] == sign[0] && t[1..] == d + k;
    SkipSpaceOver(ws, t);
    DigitSpanOf(d, k);
    assert (d + k)[..|d|] == d;
    hide NatOf, Ascii;
  }

  /** The conversion keeps the value modulo two to the 32, and values that fit. */
  lemma Int32Exact(v: int, r: int)
    ensures r == Int32(v) <==> -0x8000_0000 <= r < 0x8000_0000 && (v - r) % 0x1_0000_0000 == 0
  {
  }
}
