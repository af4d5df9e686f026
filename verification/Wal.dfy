/** The write-ahead intent of gateway/src/gw_wal.c: its text, its recovery line by line, and
    what recovery makes of a text cut short. */
module Wal {
  import opened Bytes
  import opened Numbers
  import opened Canonical

  /** `gw_intent_t`. */
  datatype Intent = Intent(hash: bytes, modelId: bytes, maxTokens: int, seed: int, temperature: int, topP: int)

  const EQUALS: byte := 61
  const LINE_MAX: nat := 599

  function Line(key: string, value: bytes, k: bytes): (r: bytes) {
    Ascii(key) + ([EQUALS] + (value + ([LF] + k)))
  }

  /** The lines after the first. */
  function RestText(i: Intent): (r: bytes) {
    Line("model_id", i.modelId,
    Line("max_tokens", IntText(i.maxTokens),
    Line("seed", IntText(i.seed),
    Line("temperature_q16", IntText(i.temperature),
    Line("top_p_q16", IntText(i.topP), [])))))
  }

  /** What `gw_wal_write` puts in the file. */
  function WalText(i: Intent): (r: bytes) {
    Line("input_hash", i.hash, RestText(i))
  }

  // ---- recovery ------------------------------------------------------------------------------

  /** How much one `fgets` takes. */
  function LineLen(data: bytes, max: nat): (n: nat)
    ensures n <= |data| && n <= max && (data != [] && max > 0 ==> n > 0)
  {
    if data == [] || max == 0 then 0
    else if data[0] == LF then 1
    else 1 + LineLen(data[1..], max - 1)
  }

  function Trim(s: bytes): (r: bytes) {
    if s != [] && (s[|s| - 1] == LF || s[|s| - 1] == CR) then Trim(s[..|s| - 1]) else s
  }

  /** `parse_field`. */
  function ParseField(line: bytes, key: string, cap: nat): (r: Option<bytes>) {
    var n := |key|;
    if |line| <= n || line[..n] != Ascii(key) || line[n] != EQUALS then None
    else if |line| == n + 1 || |line| - n - 1 >= cap then None
    else Some(line[n + 1..])
  }

  predicate IsSpace(b: byte) {
    b == 32 || 9 <= b <= 13
  }

  function SkipSpace(s: bytes): (r: bytes) {
    if s != [] && IsSpace(s[0]) then SkipSpace(s[1..]) else s
  }

  /** `strtol` and `strtoll` in base 10 on a 64-bit long. */
  function Strtol(s: bytes): (v: int)
    ensures Int64(v)
  {
    var t := SkipSpace(s);
    var neg := t != [] && t[0] == MINUS;
    var u := if t != [] && (t[0] == MINUS || t[0] == 43) then t[1..] else t;
    var m: int := NatOf(u[..DigitSpan(u)]);
    var v := if neg then -m else m;
    if v < -0x8000_0000_0000_0000 then -0x8000_0000_0000_0000
    else if v >= 0x8000_0000_0000_0000 then 0x7FFF_FFFF_FFFF_FFFF
    else v
  }

  /** The conversion to int32_t. */
  function Int32(v: int): (r: int)
    ensures -0x8000_0000 <= r < 0x8000_0000
  {
    (v + 0x8000_0000) % 0x1_0000_0000 - 0x8000_0000
  }

  datatype Partial = Partial(intent: Intent, haveHash: bool, haveModel: bool)

  /** One line against the six keys, in the order of the source. */
  function TakeLine(line: bytes, st: Partial): (r: Partial) {
    var i := st.intent;
    if ParseField(line, "input_hash", 65).Some? then
      st.(intent := i.(hash := ParseField(line, "input_hash", 65).value), haveHash := true)
    else if ParseField(line, "model_id", 256).Some? then
      st.(intent := i.(modelId := ParseField(line, "model_id", 256).value), haveModel := true)
    else if ParseField(line, "max_tokens", 64).Some? then
      st.(intent := i.(maxTokens := Int32(Strtol(ParseField(line, "max_tokens", 64).value))))
    else if ParseField(line, "seed", 64).Some? then
      st.(intent := i.(seed := Strtol(ParseField(line, "seed", 64).value)))
    else if ParseField(line, "temperature_q16", 64).Some? then
      st.(intent := i.(temperature := Int32(Strtol(ParseField(line, "temperature_q16", 64).value))))
    else if ParseField(line, "top_p_q16", 64).Some? then
      st.(intent := i.(topP := Int32(Strtol(ParseField(line, "top_p_q16", 64).value))))
    else st
  }

  /** What the loop makes of one `fgets` block. */
  function Block(data: bytes): (r: bytes) {
    Trim(CStr(data[..LineLen(data, LINE_MAX)]))
  }

  function TakeLines(data: bytes, st: Partial): (r: Partial)
    decreases |data|
  {
    if data == [] then st else TakeLines(data[LineLen(data, LINE_MAX)..], TakeLine(Block(data), st))
  }

  const EMPTY := Partial(Intent([], [], -1, -1, NULL_Q16, NULL_Q16), false, false)

  /** `gw_wal_recover` on an existing file; None is the refusal. */
  function Recover(data: bytes): (r: Option<Intent>) {
    var st := TakeLines(data, EMPTY);
    if st.haveHash && st.haveModel && |st.intent.hash| == 64 then Some(st.intent) else None
  }

  /** The recovery loop of `gw_wal_recover`. */
  method WalRecover(data: bytes) returns (r: Option<Intent>)
    ensures r == Recover(data)
  {
    hide TakeLine, Block;
    var st := EMPTY;
    var p := 0;
    assert data[0..] == data;
    while p < |data|
      invariant 0 <= p <= |data|
      invariant TakeLines(data[p..], st) == TakeLines(data, EMPTY)
    {
      var n := LineLen(data[p..], LINE_MAX);
      st := TakeLine(Block(data[p..]), st);
      assert data[p..][n..] == data[p + n..];
      p := p + n;
    }
    return if st.haveHash && st.haveModel && |st.intent.hash| == 64 then Some(st.intent) else None;
  }

  // ---- one line ----------------------------------------------------------------------------------

  /** No control byte: what a value must be to stay on its line. */
  predicate Visible(s: bytes) {
    forall i :: 0 <= i < |s| ==> s[i] >= 0x20
  }

  lemma {:induction false} LineLenOf(s: bytes, k: bytes, max: nat)
    requires Visible(s) && |s| < max
    ensures LineLen(s + ([LF] + k), max) == |s| + 1
  {
    if s == [] {
      assert s + ([LF] + k) == [LF] + k;
    } else {
      assert (s + ([LF] + k))[1..] == s[1..] + ([LF] + k);
      LineLenOf(s[1..], k, max - 1);
    }
  }

  lemma {:induction false} LineLenAll(s: bytes, max: nat)
    requires Visible(s) && |s| <= max
    ensures LineLen(s, max) == |s|
  {
    if s != [] {
      LineLenAll(s[1..], max - 1);
    }
  }

  lemma VisibleKept(s: bytes)
    requires Visible(s)
    ensures Trim(s) == s && CStr(s) == s && Trim(s + [LF]) == s && CStr(s + [LF]) == s + [LF]
  {
    assert NoNul(s) && NoNul(s + [LF]);
    CStrOf(s, []);
    CStrOf(s + [LF], []);
    assert (s + [LF])[..|s|] == s;
  }

  /** A whole visible line is taken as one block. */
  lemma TakeWholeLine(s: bytes, k: bytes, st: Partial)
    requires Visible(s) && |s| < LINE_MAX
    ensures TakeLines(s + ([LF] + k), st) == TakeLines(k, TakeLine(s, st))
  {
    var data := s + ([LF] + k);
    hide TakeLine, Trim, CStr;
    LineLenOf(s, k, LINE_MAX);
    assert data[..|s| + 1] == s + [LF];
    assert data[|s| + 1..] == k;
    VisibleKept(s);
  }

  /** A visible text without a line feed is one block. */
  lemma TakeCutLine(s: bytes, st: Partial)
    requires Visible(s) && 0 < |s| <= LINE_MAX
    ensures TakeLines(s, st) == TakeLine(s, st)
  {
    hide TakeLine, Trim, CStr;
    LineLenAll(s, LINE_MAX);
    assert s[..|s|] == s && s[|s|..] == [];
    VisibleKept(s);
  }

  lemma LineSplit(key: string, value: bytes, k: bytes)
    ensures Line(key, value, k) == (Ascii(key) + [EQUALS] + value) + ([LF] + k)
  {
    var a := Ascii(key);
    Assoc(a, [EQUALS], value);
    Assoc([EQUALS], value, [LF] + k);
    Assoc(a, [EQUALS] + value, [LF] + k);
  }

  lemma FieldOf(key: string, value: bytes, cap: nat)
    requires 0 < |value| < cap
    ensures ParseField(Ascii(key) + [EQUALS] + value, key, cap) == Some(value)
  {
    var line := Ascii(key) + [EQUALS] + value;
    assert line[..|key|] == Ascii(key) && line[|key| + 1..] == value;
  }

  /** A line with another key is not that field. */
  lemma NotField(line: bytes, key: string, cap: nat)
    requires |key| >= 2 && |line| >= 2 && (line[0] != Ascii(key)[0] || line[1] != Ascii(key)[1])
    ensures ParseField(line, key, cap) == None
  {
    if |line| > |key| {
      assert line[..|key|][0] == line[0] && line[..|key|][1] == line[1];
    }
  }

  lemma VisibleKey(key: string, value: bytes)
    requires forall i :: 0 <= i < |key| ==> ' ' <= key[i] <= '~'
    requires Visible(value)
    ensures Visible(Ascii(key) + [EQUALS] + value)
  {
    AsciiPlain(key);
    assert Plain(Ascii(key));
  }

  lemma {:induction false} StrtolOf(v: int)
    requires Int64(v)
    ensures Strtol(IntText(v)) == v
  {
    var m := if v < 0 then -v else v;
    var d, s := Digits(m), IntText(v);
    NatOfDigits(m);
    DigitSpanOf(d, []);
    assert d + [] == d && d[..|d|] == d;
    assert IsDigit(d[0]);
    assert SkipSpace(s) == s;
    if v < 0 {
      assert s[1..] == d;
    }
  }

  lemma IntTextVisible(v: int)
    requires Int64(v)
    ensures Visible(IntText(v)) && 0 < |IntText(v)| <= 20
  {
    IntTextBound(v);
    DigitsPlain(if v < 0 then -v else v);
  }

  // ---- the round trip -------------------------------------------------------------------------------

  predicate Range32(v: int) {
    -0x8000_0000 <= v < 0x8000_0000
  }

  /** The intents the gateway writes. */
  predicate IntentOk(i: Intent) {
    && |i.hash| == 64 && Visible(i.hash)
    && 0 < |i.modelId| < 256 && Visible(i.modelId)
    && Range32(i.maxTokens) && Int64(i.seed) && Range32(i.temperature) && Range32(i.topP)
  }

  lemma TakeHashLine(v: bytes, k: bytes, st: Partial)
    requires |v| == 64 && Visible(v)
    ensures TakeLines(Line("input_hash", v, k), st)
         == TakeLines(k, st.(intent := st.intent.(hash := v), haveHash := true))
  {
    hide TakeLines, ParseField;
    var line := Ascii("input_hash") + [EQUALS] + v;
    LineSplit("input_hash", v, k);
    VisibleKey("input_hash", v);
    TakeWholeLine(line, k, st);
    FieldOf("input_hash", v, 65);
  }

  lemma TakeModelLine(v: bytes, k: bytes, st: Partial)
    requires 0 < |v| < 256 && Visible(v)
    ensures TakeLines(Line("model_id", v, k), st)
         == TakeLines(k, st.(intent := st.intent.(modelId := v), haveModel := true))
  {
    hide TakeLines, ParseField;
    var line := Ascii("model_id") + [EQUALS] + v;
    LineSplit("model_id", v, k);
    VisibleKey("model_id", v);
    TakeWholeLine(line, k, st);
    assert line[0] == 109;
    NotField(line, "input_hash", 65);
    FieldOf("model_id", v, 256);
  }

  lemma TakeTokensLine(v: int, k: bytes, st: Partial)
    requires Range32(v)
    ensures TakeLines(Line("max_tokens", IntText(v), k), st) == TakeLines(k, st.(intent := st.intent.(maxTokens := v)))
  {
    hide TakeLines, ParseField, Strtol, IntText;
    var line := Ascii("max_tokens") + [EQUALS] + IntText(v);
    IntTextVisible(v);
    StrtolOf(v);
    LineSplit("max_tokens", IntText(v), k);
    VisibleKey("max_tokens", IntText(v));
    TakeWholeLine(line, k, st);
    assert line[0] == 109 && line[1] == 97;
    NotField(line, "input_hash", 65);
    NotField(line, "model_id", 256);
    FieldOf("max_tokens", IntText(v), 64);
  }

  lemma TakeSeedLine(v: int, k: bytes, st: Partial)
    requires Int64(v)
    ensures TakeLines(Line("seed", IntText(v), k), st) == TakeLines(k, st.(intent := st.intent.(seed := v)))
  {
    hide TakeLines, ParseField, Strtol, IntText;
    var line := Ascii("seed") + [EQUALS] + IntText(v);
    IntTextVisible(v);
    StrtolOf(v);
    LineSplit("seed", IntText(v), k);
    VisibleKey("seed", IntText(v));
    TakeWholeLine(line, k, st);
    assert line[0] == 115 && line[1] == 101;
    NotField(line, "input_hash", 65);
    NotField(line, "model_id", 256);
    NotField(line, "max_tokens", 64);
    FieldOf("seed", IntText(v), 64);
  }

  lemma TakeTemperatureLine(v: int, k: bytes, st: Partial)
    requires Range32(v)
    ensures TakeLines(Line("temperature_q16", IntText(v), k), st)
         == TakeLines(k, st.(intent := st.intent.(temperature := v)))
  {
    hide TakeLines, ParseField, Strtol, IntText;
    var line := Ascii("temperature_q16") + [EQUALS] + IntText(v);
    IntTextVisible(v);
    StrtolOf(v);
    LineSplit("temperature_q16", IntText(v), k);
    VisibleKey("temperature_q16", IntText(v));
    TakeWholeLine(line, k, st);
    assert line[0] == 116 && line[1] == 101;
    NotField(line, "input_hash", 65);
    NotField(line, "model_id", 256);
    NotField(line, "max_tokens", 64);
    NotField(line, "seed", 64);
    FieldOf("temperature_q16", IntText(v), 64);
  }

  lemma TakeTopPLine(v: int, k: bytes, st: Partial)
    requires Range32(v)
    ensures TakeLines(Line("top_p_q16", IntText(v), k), st) == TakeLines(k, st.(intent := st.intent.(topP := v)))
  {
    hide TakeLines, ParseField, Strtol, IntText;
    var line := Ascii("top_p_q16") + [EQUALS] + IntText(v);
    IntTextVisible(v);
    StrtolOf(v);
    LineSplit("top_p_q16", IntText(v), k);
    VisibleKey("top_p_q16", IntText(v));
    TakeWholeLine(line, k, st);
    assert line[0] == 116 && line[1] == 111;
    NotField(line, "input_hash", 65);
    NotField(line, "model_id", 256);
    NotField(line, "max_tokens", 64);
    NotField(line, "seed", 64);
    NotField(line, "temperature_q16", 64);
    FieldOf("top_p_q16", IntText(v), 64);
  }

  /** Writing an intent and recovering it returns every field. */
  lemma WalRoundTrip(i: Intent)
    requires IntentOk(i)
    ensures Recover(WalText(i)) == Some(i)
  {
    hide Line, TakeLine;
    var k5 := Line("top_p_q16", IntText(i.topP), []);
    var k4 := Line("temperature_q16", IntText(i.temperature), k5);
    var k3 := Line("seed", IntText(i.seed), k4);
    var k2 := Line("max_tokens", IntText(i.maxTokens), k3);
    var s1 := EMPTY.(intent := EMPTY.intent.(hash := i.hash), haveHash := true);
    TakeHashLine(i.hash, RestText(i), EMPTY);
    var s2 := s1.(intent := s1.intent.(modelId := i.modelId), haveModel := true);
    TakeModelLine(i.modelId, k2, s1);
    var s3 := s2.(intent := s2.intent.(maxTokens := i.maxTokens));
    TakeTokensLine(i.maxTokens, k3, s2);
    var s4 := s3.(intent := s3.intent.(seed := i.seed));
    TakeSeedLine(i.seed, k4, s3);
    var s5 := s4.(intent := s4.intent.(temperature := i.temperature));
    TakeTemperatureLine(i.temperature, k5, s4);
    TakeTopPLine(i.topP, [], s5);
  }

  /** The text fits the 768-byte buffer of `gw_wal_write`. */
  lemma WalTextFits(i: Intent)
    requires IntentOk(i)
    ensures |WalText(i)| < 768
  {
    IntTextVisible(i.maxTokens);
    IntTextVisible(i.seed);
    IntTextVisible(i.temperature);
    IntTextVisible(i.topP);
  }

  // ---- a text cut short -----------------------------------------------------------------------------------

  /** No block of the text starts like the hash line. */
  predicate NoHashLine(data: bytes)
    decreases |data|
  {
    data == [] || (data[0] != 105 && NoHashLine(data[LineLen(data, LINE_MAX)..]))
  }

  lemma FirstOfBlock(data: bytes)
    requires data != [] && Block(data) != []
    ensures Block(data)[0] == data[0]
  {
    var n := LineLen(data, LINE_MAX);
    var s := CStr(data[..n]);
    TrimPrefix(s);
    assert data[..n][0] == data[0];
  }

  lemma {:induction false} TrimPrefix(s: bytes)
    ensures Trim(s) <= s
  {
    if s != [] && (s[|s| - 1] == LF || s[|s| - 1] == CR) {
      TrimPrefix(s[..|s| - 1]);
    }
  }

  lemma OtherLineKeepsHash(line: bytes, st: Partial)
    requires line == [] || line[0] != 105
    ensures TakeLine(line, st).intent.hash == st.intent.hash
  {
    if |line| > 10 {
      assert line[..10][0] == line[0];
    }
    hide Strtol, Int32;
  }

  lemma {:induction false} RestKeepsHash(data: bytes, st: Partial)
    requires NoHashLine(data)
    ensures TakeLines(data, st).intent.hash == st.intent.hash
    decreases |data|
  {
    if data != [] {
      hide TakeLine, Block;
      var line := Block(data);
      if line != [] {
        FirstOfBlock(data);
      }
      OtherLineKeepsHash(line, st);
      RestKeepsHash(data[LineLen(data, LINE_MAX)..], TakeLine(line, st));
    }
  }

  ghost predicate PrefixesSafe(k: bytes) {
    forall q :: q <= k ==> NoHashLine(q)
  }

  lemma PrefixOfLine(key: string, value: bytes, k: bytes, q: bytes)
    requires key != "" && key[0] != 'i' && (forall i :: 0 <= i < |key| ==> ' ' <= key[i] <= '~')
    requires Visible(value) && |key| + 1 + |value| < LINE_MAX && PrefixesSafe(k)
    requires q <= Line(key, value, k)
    ensures NoHashLine(q)
  {
    hide Line;
    var line := Ascii(key) + [EQUALS] + value;
    LineSplit(key, value, k);
    VisibleKey(key, value);
    assert line[0] == key[0] as int;
    if |q| <= |line| {
      assert q == line[..|q|];
      LineLenAll(q, LINE_MAX);
      assert q[|q|..] == [];
    } else {
      var q' := q[|line| + 1..];
      assert q == line + ([LF] + q');
      assert q' <= k;
      LineLenOf(line, q', LINE_MAX);
      assert q[|line| + 1..] == q';
    }
  }

  lemma LinePrefixesSafe(key: string, value: bytes, k: bytes)
    requires key != "" && key[0] != 'i' && (forall i :: 0 <= i < |key| ==> ' ' <= key[i] <= '~')
    requires Visible(value) && |key| + 1 + |value| < LINE_MAX && PrefixesSafe(k)
    ensures PrefixesSafe(Line(key, value, k))
  {
    forall q | q <= Line(key, value, k)
      ensures NoHashLine(q)
    {
      PrefixOfLine(key, value, k, q);
    }
  }

  lemma RestPrefixesSafe(i: Intent)
    requires IntentOk(i)
    ensures PrefixesSafe(RestText(i))
  {
    hide Line, PrefixesSafe, IntText;
    IntTextVisible(i.maxTokens);
    IntTextVisible(i.seed);
    IntTextVisible(i.temperature);
    IntTextVisible(i.topP);
    NilSafe();
    var k5 := Line("top_p_q16", IntText(i.topP), []);
    var k4 := Line("temperature_q16", IntText(i.temperature), k5);
    var k3 := Line("seed", IntText(i.seed), k4);
    var k2 := Line("max_tokens", IntText(i.maxTokens), k3);
    LinePrefixesSafe("top_p_q16", IntText(i.topP), []);
    LinePrefixesSafe("temperature_q16", IntText(i.temperature), k5);
    LinePrefixesSafe("seed", IntText(i.seed), k4);
    LinePrefixesSafe("max_tokens", IntText(i.maxTokens), k3);
    LinePrefixesSafe("model_id", i.modelId, k2);
  }

  lemma NilSafe()
    ensures PrefixesSafe([])
  {
  }

  /** A cut inside the first line leaves no model, so recovery refuses. */
  lemma CutFirstLine(p: bytes, v: bytes, k: bytes)
    requires |v| == 64 && Visible(v) && p <= Line("input_hash", v, k) && |p| <= 75
    ensures Recover(p) == None
  {
    if p != [] {
      var line := Ascii("input_hash") + [EQUALS] + v;
      LineSplit("input_hash", v, k);
      VisibleKey("input_hash", v);
      assert line[0] == 105;
      hide TakeLines, TakeLine, ParseField, Line;
      assert p == line[..|p|];
      assert p[0] == 105;
      TakeCutLine(p, EMPTY);
      NotModel(p);
      NoModel(p, EMPTY);
    }
  }

  lemma NotModel(line: bytes)
    requires line != [] && line[0] != 109
    ensures ParseField(line, "model_id", 256) == None
  {
    if |line| > 8 {
      assert line[..8][0] == line[0] && Ascii("model_id")[0] == 109;
    }
  }

  /** Flags once set stay set. */
  lemma {:induction false} FlagsKept(data: bytes, st: Partial)
    ensures st.haveHash ==> TakeLines(data, st).haveHash
    ensures st.haveModel ==> TakeLines(data, st).haveModel
    decreases |data|
  {
    if data != [] {
      hide ParseField, Strtol, Int32, Block, LineLen;
      FlagsKept(data[LineLen(data, LINE_MAX)..], TakeLine(Block(data), st));
    }
  }

  lemma NoModel(line: bytes, st: Partial)
    requires ParseField(line, "model_id", 256).None?
    ensures TakeLine(line, st).haveModel == st.haveModel
  {
    hide ParseField, Strtol, Int32;
  }

  /** The text after the hash line, cut before the first byte of the model. */
  lemma CutBeforeModel(i: Intent, q: bytes, st: Partial)
    requires IntentOk(i) && q <= RestText(i) && |q| <= 9 && !st.haveModel
    ensures !TakeLines(q, st).haveModel
  {
    if q != [] {
      var key := Ascii("model_id") + [EQUALS];
      assert RestText(i)[..9] == key;
      assert q == key[..|q|];
      AsciiPlain("model_id");
      assert Plain(Ascii("model_id"));
      assert Visible(key);
      hide TakeLine, TakeLines, RestText;
      TakeCutLine(q, st);
      NoModel(q, st);
    }
  }

  /** Cut inside or after the model: one byte of it is enough. */
  lemma CutAfterModel(i: Intent, q: bytes, st: Partial)
    requires IntentOk(i) && q <= RestText(i) && |q| >= 10 && st.haveHash
    ensures TakeLines(q, st).haveModel && TakeLines(q, st).haveHash
  {
    var line := Ascii("model_id") + [EQUALS] + i.modelId;
    var k := RestOf(i);
    LineSplit("model_id", i.modelId, k);
    FlagsKept(q, st);
    hide TakeLines, RestText, Line, TakeLine;
    if |q| <= |line| {
      var v := i.modelId[..|q| - 9];
      assert q == Ascii("model_id") + [EQUALS] + v;
      CutModel(v, st);
    } else {
      var q' := q[|line| + 1..];
      assert q == line + ([LF] + q');
      LineSplit("model_id", i.modelId, q');
      TakeModelLine(i.modelId, q', st);
      FlagsKept(q', st.(intent := st.intent.(modelId := i.modelId), haveModel := true));
    }
  }

  /** The lines after the model, with the model line itself split off. */
  lemma RestOf(i: Intent) returns (k: bytes)
    ensures RestText(i) == Line("model_id", i.modelId, k)
  {
    k := Line("max_tokens", IntText(i.maxTokens),
         Line("seed", IntText(i.seed),
         Line("temperature_q16", IntText(i.temperature),
         Line("top_p_q16", IntText(i.topP), []))));
  }

  lemma CutModel(v: bytes, st: Partial)
    requires 0 < |v| < 256 && Visible(v)
    ensures TakeLines(Ascii("model_id") + [EQUALS] + v, st).haveModel
  {
    hide TakeLines, ParseField;
    var line := Ascii("model_id") + [EQUALS] + v;
    VisibleKey("model_id", v);
    TakeCutLine(line, st);
    assert line[0] == 109;
    NotField(line, "input_hash", 65);
    FieldOf("model_id", v, 256);
  }

  /** What recovery makes of any prefix of an intent, as an interrupted write leaves it: it is
      recovered if and only if it reaches the first byte of the model, byte 86, and then with
      the same input hash, never a different one. */
  lemma CutIntentExact(i: Intent, p: bytes)
    requires IntentOk(i) && p <= WalText(i)
    ensures Recover(p).Some? <==> |p| >= 86
    ensures Recover(p).Some? ==> Recover(p).value.hash == i.hash
  {
    hide Line, TakeLines, RestText;
    if |p| <= 75 {
      CutFirstLine(p, i.hash, RestText(i));
    } else {
      var line := Ascii("input_hash") + [EQUALS] + i.hash;
      LineSplit("input_hash", i.hash, RestText(i));
      var q := p[76..];
      assert p == line + ([LF] + q);
      assert q <= RestText(i);
      LineSplit("input_hash", i.hash, q);
      TakeHashLine(i.hash, q, EMPTY);
      RestPrefixesSafe(i);
      var st := EMPTY.(intent := EMPTY.intent.(hash := i.hash), haveHash := true);
      RestKeepsHash(q, st);
      if |q| <= 9 {
        CutBeforeModel(i, q, st);
      } else {
        CutAfterModel(i, q, st);
      }
    }
  }
}
