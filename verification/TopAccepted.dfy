/** Exactly which bodies `gwj_top_string` (gateway/src/gw_json.c) finds a key in, and with which
    string: members that it passes over, the first one with the key, its string, and then anything. */
module TopAccepted {
  import opened Bytes
  import opened JsonString
  import opened JsonScan
  import opened JsonDoc
  import opened JsonAccepted
  import opened BlocksAccepted

  /** A member that is passed over, up to the comma behind it. */
  datatype Passed = Passed(h: Head, v: Value, post: bytes)

  predicate PassedOk(p: Passed, key: bytes) {
    HeadOk(p.h, TOP_KEY_CAP) && KeyOf(p.h) != key && LooseValue(p.v) && Height(p.v) <= MAX_DEPTH && AllWs(p.post)
  }

  predicate AllPassed(ms: seq<Passed>, key: bytes) {
    forall i :: 0 <= i < |ms| ==> PassedOk(ms[i], key)
  }

  function EmitPassed(ms: seq<Passed>, k: bytes): bytes {
    if ms == [] then k
    else EmitHead(ms[0].h, EmitValue(ms[0].v, ms[0].post + ([COMMA] + EmitPassed(ms[1..], k))))
  }

  /** The member that is looked for. */
  ghost predicate Wanted(h: Head, ps: seq<Piece>, key: bytes, out: bytes) {
    HeadOk(h, TOP_KEY_CAP) && KeyOf(h) == key && PiecesOk(ps) && Text(ps) == out
  }

  ghost predicate Found(body: bytes, ms: seq<Passed>, key: bytes, out: bytes) {
    && AllPassed(ms, key)
    && exists ws, h, ps, k ::
         && AllWs(ws) && Wanted(h, ps, key, out)
         && body == ws + ([OPEN_BRACE] + EmitPassed(ms, EmitHead(h, Quoted(ps, k))))
  }

  // ---- what is written is found ------------------------------------------------------------------------

  /** One member that is passed over. */
  lemma PassedStep(p: Passed, t: bytes, key: bytes, cap: nat)
    requires PassedOk(p, key)
    ensures TopMembers(EmitHead(p.h, EmitValue(p.v, p.post + ([COMMA] + t))), key, cap) == TopMembers(t, key, cap)
  {
    hide *;
    var tail := p.post + ([COMMA] + t);
    PassedParts(p, key);
    CommaSeen(p.post, t);
    ValueStarts(p.v, tail);
    SkipWritten(p.v, tail, 0);
    HeadWritten(p.h, EmitValue(p.v, tail), TOP_KEY_CAP);
    PassOver(EmitHead(p.h, EmitValue(p.v, tail)), KeyOf(p.h), EmitValue(p.v, tail), tail, key, cap);
  }

  lemma PassedParts(p: Passed, key: bytes)
    requires PassedOk(p, key)
    ensures HeadOk(p.h, TOP_KEY_CAP) && PiecesOk(p.h.key) && KeyOf(p.h) != key && AllWs(p.post)
    ensures LooseValue(p.v) && Height(p.v) <= MAX_DEPTH
  {
    hide KeyOf, LooseValue, Height;
  }

  lemma CommaSeen(post: bytes, t: bytes)
    requires AllWs(post)
    ensures var w := SkipWs(post + ([COMMA] + t));
      Ends(post + ([COMMA] + t)) && At(w, COMMA) && w[1..] == t
  {
    TailSeen(post, [COMMA] + t);
    assert ([COMMA] + t)[1..] == t;
  }

  /** One turn of the loop on a member with another key. */
  lemma PassOver(s: bytes, k: bytes, v: bytes, u: bytes, key: bytes, cap: nat)
    requires !At(SkipWs(s), CLOSE_BRACE) && MemberHead(SkipWs(s), TOP_KEY_CAP) == Some((k, v)) && k != key
    requires SkipValue(v, 0) == Some(u) && At(SkipWs(u), COMMA)
    ensures TopMembers(s, key, cap) == TopMembers(SkipWs(u)[1..], key, cap)
  {
    hide SkipWs, MemberHead, SkipValue;
  }

  lemma WantedStep(h: Head, ps: seq<Piece>, k: bytes, key: bytes, cap: nat, out: bytes)
    requires Wanted(h, ps, key, out)
    ensures TopMembers(EmitHead(h, Quoted(ps, k)), key, cap) == if |out| <= cap then Some(out) else None
  {
    assert NoWsAhead(Quoted(ps, k));
    hide EmitHead, Quoted, DecodeString, MemberHead, SkipWs, Text;
    HeadWritten(h, Quoted(ps, k), TOP_KEY_CAP);
    DecodeQuoted(ps, k, cap, []);
    assert [] + Text(ps) == Text(ps);
  }

  lemma {:induction false} FoundWritten(ms: seq<Passed>, h: Head, ps: seq<Piece>, k: bytes, key: bytes, cap: nat,
    out: bytes)
    requires AllPassed(ms, key) && Wanted(h, ps, key, out)
    ensures TopMembers(EmitPassed(ms, EmitHead(h, Quoted(ps, k))), key, cap) == if |out| <= cap then Some(out) else None
    decreases |ms|
  {
    hide EmitHead, Quoted, TopMembers, PassedOk, Wanted, EmitValue;
    if ms == [] {
      WantedStep(h, ps, k, key, cap, out);
    } else {
      PassedStep(ms[0], EmitPassed(ms[1..], EmitHead(h, Quoted(ps, k))), key, cap);
      FoundWritten(ms[1..], h, ps, k, key, cap, out);
    }
  }

  // ---- what is found was written --------------------------------------------------------------------------

  lemma {:induction false} FoundSound(s: bytes, key: bytes, cap: nat)
    returns (ms: seq<Passed>, h: Head, ps: seq<Piece>, k: bytes)
    requires TopMembers(s, key, cap).Some?
    ensures var out := TopMembers(s, key, cap).value;
      AllPassed(ms, key) && Wanted(h, ps, key, out) && |out| <= cap && s == EmitPassed(ms, EmitHead(h, Quoted(ps, k)))
    decreases |s|
  {
    TopTurn(s, key, cap);
    hide *;
    var h0 := HeadSound(s, TOP_KEY_CAP);
    HeadKey(h0, TOP_KEY_CAP);
    var (k0, v) := MemberHead(SkipWs(s), TOP_KEY_CAP).value;
    if k0 == key {
      h, k := h0, DecodeString(v, cap, []).value.0;
      ps := StringSound(v, cap, []);
      WantedBy(h, ps, key, v, cap);
      ms := [];
      PassedNil(EmitHead(h, Quoted(ps, k)), key);
    } else {
      var u := SkipValue(v, 0).value;
      var val := PassedSound(v);
      var post := WsSplit(u);
      var w := SkipWs(u);
      var rest;
      rest, h, ps, k := FoundSound(w[1..], key, cap);
      HeadTail(w);
      ms := [Passed(h0, val, post)] + rest;
      PassedCons(Passed(h0, val, post), rest, w[1..], EmitHead(h, Quoted(ps, k)), key);
    }
  }

  /** What one turn of the loop has seen if the whole succeeds. */
  lemma TopTurn(s: bytes, key: bytes, cap: nat)
    requires TopMembers(s, key, cap).Some?
    ensures MemberHead(SkipWs(s), TOP_KEY_CAP).Some?
    ensures var (k, v) := MemberHead(SkipWs(s), TOP_KEY_CAP).value;
      if k == key then
        DecodeString(v, cap, []).Some? && TopMembers(s, key, cap).value == DecodeString(v, cap, []).value.1
      else
        && SkipValue(v, 0).Some?
        && var w := SkipWs(SkipValue(v, 0).value);
           w != [] && w[0] == COMMA && |w| <= |s| && TopMembers(s, key, cap) == TopMembers(w[1..], key, cap)
  {
    hide SkipWs, MemberHead, SkipValue, DecodeString;
  }

  lemma WantedBy(h: Head, ps: seq<Piece>, key: bytes, v: bytes, cap: nat)
    requires HeadOk(h, TOP_KEY_CAP) && PiecesOk(h.key) && KeyOf(h) == key && PiecesOk(ps)
    requires DecodeString(v, cap, []).Some? && DecodeString(v, cap, []).value.1 == [] + Text(ps)
    ensures Wanted(h, ps, key, DecodeString(v, cap, []).value.1) && |DecodeString(v, cap, []).value.1| <= cap
  {
    hide HeadOk, KeyOf, Text, DecodeChars;
    DecodeFits(v[1..], cap, []);
    assert [] + Text(ps) == Text(ps);
  }

  lemma PassedNil(k: bytes, key: bytes)
    ensures AllPassed([], key) && EmitPassed([], k) == k
  {
  }

  lemma PassedCons(p: Passed, ms: seq<Passed>, t: bytes, k: bytes, key: bytes)
    requires HeadOk(p.h, TOP_KEY_CAP) && PiecesOk(p.h.key) && KeyOf(p.h) != key
    requires LooseValue(p.v) && Height(p.v) <= MAX_DEPTH && AllWs(p.post) && AllPassed(ms, key)
    requires t == EmitPassed(ms, k)
    ensures AllPassed([p] + ms, key)
    ensures EmitPassed([p] + ms, k) == EmitHead(p.h, EmitValue(p.v, p.post + ([COMMA] + t)))
  {
    hide HeadOk, KeyOf, LooseValue, Height, AllWs, EmitHead, EmitValue;
    assert ([p] + ms)[1..] == ms;
  }

  /** The value that was passed over. */
  lemma PassedSound(v: bytes) returns (val: Value)
    requires SkipValue(v, 0).Some? && NoWsAhead(v)
    ensures LooseValue(val) && Height(val) <= MAX_DEPTH && v == EmitValue(val, SkipValue(v, 0).value)
  {
    hide SkipValue, LooseValue, Height, EmitValue;
    var ws;
    ws, val := SkipSound(v, 0);
    NoLeadingWs(ws, v, EmitValue(val, SkipValue(v, 0).value));
  }

  // ---- the accepted language -----------------------------------------------------------------------------------

  /** `gwj_top_string` returns `out` if and only if the body has this form and `out` fits: nothing is
      asked of the bytes behind the string. */
  lemma TopStringExact(body: bytes, key: bytes, cap: nat, out: bytes)
    ensures TopString(body, key, cap) == Some(out) <==> |out| <= cap && exists ms :: Found(body, ms, key, out)
  {
    if TopString(body, key, cap) == Some(out) {
      FoundIn(body, key, cap, out);
    }
    if ms :| |out| <= cap && Found(body, ms, key, out) {
      TakenFrom(body, ms, key, cap, out);
    }
  }

  lemma FoundIn(body: bytes, key: bytes, cap: nat, out: bytes)
    requires TopString(body, key, cap) == Some(out)
    ensures |out| <= cap && exists ms :: Found(body, ms, key, out)
  {
    hide TopMembers, EmitPassed, AllPassed, EmitHead, Quoted, Wanted, AllWs;
    var ws := WsSplit(body);
    var t := SkipWs(body);
    var ms, h, ps, k := FoundSound(t[1..], key, cap);
    assert t == [OPEN_BRACE] + t[1..];
    assert Found(body, ms, key, out);
  }

  lemma TakenFrom(body: bytes, ms: seq<Passed>, key: bytes, cap: nat, out: bytes)
    requires |out| <= cap && Found(body, ms, key, out)
    ensures TopString(body, key, cap) == Some(out)
  {
    hide TopMembers, EmitPassed, AllPassed, EmitHead, Quoted, Wanted;
    var ws, h, ps, k :|
      AllWs(ws) && Wanted(h, ps, key, out) && body == ws + ([OPEN_BRACE] + EmitPassed(ms, EmitHead(h, Quoted(ps, k))));
    var s := [OPEN_BRACE] + EmitPassed(ms, EmitHead(h, Quoted(ps, k)));
    SkipWsOver(ws, s);
    assert s[1..] == EmitPassed(ms, EmitHead(h, Quoted(ps, k)));
    FoundWritten(ms, h, ps, k, key, cap, out);
  }
}
