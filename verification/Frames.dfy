/** The frame file: u32le tag length, tag, u64le payload length, payload, 32-byte commitment
    (gateway/src/gw_ledger.c), its replay, and the reader of tools/obs_v1_loss_check.py. */
module Frames {
  import opened Bytes
  import opened Canonical
  import opened Substrate

  const TAG_MAX := 32
  const PAYLOAD_MAX := 256 * 1024

  datatype Frame = Frame(tag: bytes, payload: bytes, commit: Digest)

  // ---- little-endian integers ---------------------------------------------------------------

  /** `wr_u32le`, `wr_u64le`: `n` in `w` bytes, least significant first. */
  function Le(n: nat, w: nat): (r: bytes)
    ensures |r| == w
  {
    if w == 0 then [] else [n % 256] + Le(n / 256, w - 1)
  }

  /** `rd_u32le`, `rd_u64le` on the first `w` bytes. */
  function ReadLe(s: bytes, w: nat): (n: nat)
    requires |s| >= w
  {
    if w == 0 then 0 else s[0] + 256 * ReadLe(s[1..], w - 1)
  }

  function Pow256(w: nat): nat {
    if w == 0 then 1 else 256 * Pow256(w - 1)
  }

  lemma {:induction false} LeRoundTrip(n: nat, w: nat, k: bytes)
    requires n < Pow256(w)
    ensures ReadLe(Le(n, w) + k, w) == n
  {
    if w > 0 {
      LeRoundTrip(n / 256, w - 1, k);
      assert (Le(n, w) + k)[1..] == Le(n / 256, w - 1) + k;
    }
  }

  lemma {:induction false} ReadLePrefix(a: bytes, b: bytes, w: nat)
    requires |a| >= w && |b| >= w && a[..w] == b[..w]
    ensures ReadLe(a, w) == ReadLe(b, w)
  {
    if w > 0 {
      assert a[0] == a[..w][0] && b[0] == b[..w][0];
      assert a[1..][..w - 1] == a[..w][1..] && b[1..][..w - 1] == b[..w][1..];
      ReadLePrefix(a[1..], b[1..], w - 1);
    }
  }

  /** The loop of `rd_u64le` (and the shifts of `rd_u32le`): most significant byte first. */
  method ReadLittleEndian(b: bytes) returns (v: nat)
    ensures v == ReadLe(b, |b|)
  {
    v := 0;
    var i := |b|;
    while i > 0
      invariant 0 <= i <= |b|
      invariant v == ReadLe(b[i..], |b| - i)
    {
      i := i - 1;
      assert b[i..][1..] == b[i + 1..];
      v := v * 256 + b[i];
    }
    assert b[0..] == b;
  }

  /** The loop of `wr_u64le`. */
  method WriteLittleEndian(b: array<byte>, value: nat)
    modifies b
    ensures b[..] == Le(value, b.Length)
  {
    var v: nat := value;
    var i := 0;
    while i < b.Length
      invariant 0 <= i <= b.Length
      invariant b[..i] + Le(v, b.Length - i) == Le(value, b.Length)
    {
      ghost var done := b[..i];
      b[i] := v % 256;
      assert b[..i + 1] == done + [v % 256];
      Assoc(done, [v % 256], Le(v / 256, b.Length - i - 1));
      v, i := v / 256, i + 1;
    }
    assert b[..] == b[..b.Length];
  }

  // ---- writing ------------------------------------------------------------------------------------

  /** The bytes of a frame followed by `k`. */
  function EncodeFrame(f: Frame, k: bytes): (r: bytes)
    ensures |r| == 44 + |f.tag| + |f.payload| + |k|
  {
    Le(|f.tag|, 4) + (f.tag + (Le(|f.payload|, 8) + (f.payload + (f.commit + k))))
  }

  function EncodeFrames(fs: seq<Frame>, k: bytes): (r: bytes) {
    if fs == [] then k else EncodeFrame(fs[0], EncodeFrames(fs[1..], k))
  }

  predicate FrameOk(c: Crypto, f: Frame) {
    && 1 <= |f.tag| <= TAG_MAX && 1 <= |f.payload| <= PAYLOAD_MAX
    && c.evidence(CStr(f.tag), f.payload) == Some(f.commit)
  }

  predicate FramesOk(c: Crypto, fs: seq<Frame>) {
    forall i :: 0 <= i < |fs| ==> FrameOk(c, fs[i])
  }

  lemma EncodeFrameAppend(f: Frame, k: bytes)
    ensures EncodeFrame(f, k) == EncodeFrame(f, []) + k
  {
    var a, b, d := Le(|f.tag|, 4), Le(|f.payload|, 8), f.commit;
    hide Le;
    assert d + [] == d;
    Assoc(f.payload, d, k);
    Assoc(b, f.payload + d, k);
    Assoc(f.tag, b + (f.payload + d), k);
    Assoc(a, f.tag + (b + (f.payload + d)), k);
  }

  lemma {:induction false} EncodeFramesAppend(fs: seq<Frame>, k: bytes)
    ensures EncodeFrames(fs, k) == EncodeFrames(fs, []) + k
  {
    if fs != [] {
      hide EncodeFrame;
      var t := EncodeFrames(fs[1..], []);
      EncodeFramesAppend(fs[1..], k);
      EncodeFrameAppend(fs[0], t + k);
      EncodeFrameAppend(fs[0], t);
      Assoc(EncodeFrame(fs[0], []), t, k);
    }
  }

  lemma {:induction false} EncodeFramesSnoc(fs: seq<Frame>, f: Frame, k: bytes)
    ensures EncodeFrames(fs + [f], k) == EncodeFrames(fs, EncodeFrame(f, k))
  {
    if fs == [] {
      assert fs + [f] == [f] && [f][1..] == [];
      assert EncodeFrames([], k) == k;
    } else {
      assert (fs + [f])[1..] == fs[1..] + [f];
      EncodeFramesSnoc(fs[1..], f, k);
    }
  }

  // ---- reading -------------------------------------------------------------------------------------

  datatype Parsed = Eof | Torn | Bad | Good(f: Frame, rest: bytes)

  /** One turn of the replay loop of `gwl_open`. */
  function ParseFrame(c: Crypto, data: bytes): (r: Parsed)
    ensures r.Good? ==> |r.rest| < |data|
  {
    if data == [] then Eof
    else if |data| < 4 then Torn
    else
      var tlen := ReadLe(data, 4);
      if tlen == 0 || tlen > TAG_MAX then Bad
      else if |data| < 4 + tlen + 8 then Torn
      else
        var tag, d2 := data[4..4 + tlen], data[4 + tlen..];
        var plen := ReadLe(d2, 8);
        if plen == 0 || plen > PAYLOAD_MAX then Bad
        else if |d2| < 8 + plen + 32 then Torn
        else
          var payload, stored := d2[8..8 + plen], d2[8 + plen..8 + plen + 32];
          if c.evidence(CStr(tag), payload) != Some(stored) then Bad
          else Good(Frame(tag, payload, stored), d2[8 + plen + 32..])
  }

  lemma ParseEncoded(c: Crypto, f: Frame, k: bytes)
    requires FrameOk(c, f)
    ensures ParseFrame(c, EncodeFrame(f, k)) == Good(f, k)
  {
    var d2 := Le(|f.payload|, 8) + (f.payload + (f.commit + k));
    hide Le, ReadLe, CStr, ParseFrame;
    HeaderReads(|f.tag|, |f.payload|, f.tag + d2, f.payload + (f.commit + k));
    CutHeader(Le(|f.tag|, 4), f.tag, d2);
    CutBody(Le(|f.payload|, 8), f.payload, f.commit, k);
    ParseParts(c, EncodeFrame(f, k), f, d2, k);
  }

  /** A frame from the slices that the reader takes. */
  lemma ParseParts(c: Crypto, data: bytes, f: Frame, d2: bytes, k: bytes)
    requires FrameOk(c, f) && |data| >= 4 + |f.tag| && |d2| == 8 + |f.payload| + 32 + |k|
    requires ReadLe(data, 4) == |f.tag| && data[4..4 + |f.tag|] == f.tag && data[4 + |f.tag|..] == d2
    requires ReadLe(d2, 8) == |f.payload| && d2[8..8 + |f.payload|] == f.payload
    requires d2[8 + |f.payload|..8 + |f.payload| + 32] == f.commit && d2[8 + |f.payload| + 32..] == k
    ensures ParseFrame(c, data) == Good(f, k)
  {
    hide ReadLe, CStr;
  }

  lemma CutBody(h: bytes, payload: bytes, commit: bytes, k: bytes)
    requires |h| == 8 && |commit| == 32
    ensures var d2, n := h + (payload + (commit + k)), 8 + |payload|;
      && |d2| == n + 32 + |k| && d2[8..n] == payload && d2[n..n + 32] == commit && d2[n + 32..] == k
  {
    var d2, n := h + (payload + (commit + k)), 8 + |payload|;
    assert d2[8..] == payload + (commit + k);
    assert d2[n..] == commit + k;
  }

  lemma CutHeader(h: bytes, tag: bytes, d2: bytes)
    requires |h| == 4
    ensures var data := h + (tag + d2);
      data[4..4 + |tag|] == tag && data[4 + |tag|..] == d2
  {
    var data := h + (tag + d2);
    assert data[4..] == tag + d2;
  }

  lemma HeaderReads(tlen: nat, plen: nat, t1: bytes, t2: bytes)
    requires tlen <= TAG_MAX && plen <= PAYLOAD_MAX
    ensures ReadLe(Le(tlen, 4) + t1, 4) == tlen && ReadLe(Le(plen, 8) + t2, 8) == plen
  {
    assert Pow256(4) > TAG_MAX;
    assert Pow256(8) > PAYLOAD_MAX by { assert Pow256(4) == 0x1_0000_0000; }
    LeRoundTrip(tlen, 4, t1);
    LeRoundTrip(plen, 8, t2);
  }

  /** A frame cut anywhere inside is torn, never bad and never whole. */
  lemma CutFrameIsTorn(c: Crypto, f: Frame, p: bytes)
    requires FrameOk(c, f) && p <= EncodeFrame(f, []) && 0 < |p| < |EncodeFrame(f, [])|
    ensures ParseFrame(c, p) == Torn
  {
    var e := EncodeFrame(f, []);
    var t1 := f.tag + (Le(|f.payload|, 8) + (f.payload + (f.commit + [])));
    HeaderReads(|f.tag|, |f.payload|, t1, f.payload + (f.commit + []));
    hide Le, ReadLe, CStr;
    if |p| >= 4 {
      assert p[..4] == e[..4];
      ReadLePrefix(p, e, 4);
      var n := 4 + |f.tag|;
      if |p| >= n + 8 {
        var d2 := Le(|f.payload|, 8) + (f.payload + (f.commit + []));
        assert e[4..] == t1;
        assert e[n..] == d2;
        assert p[n..][..8] == e[n..][..8];
        ReadLePrefix(p[n..], e[n..], 8);
      }
    }
  }

  // ---- replay ----------------------------------------------------------------------------------------

  datatype Chain = Chain(head: Digest, seq_: nat)

  /** What replay has established: chain, last payload, the frames, their length in bytes. */
  datatype Replayed = Replayed(chain: Chain, last: bytes, frames: seq<Frame>, end: nat)

  function Advance(c: Crypto, a: Replayed, f: Frame): (r: Option<Replayed>) {
    var head :- c.link(a.chain.head, f.commit);
    Some(Replayed(Chain(head, a.chain.seq_ + 1), f.payload, a.frames + [f], a.end + |EncodeFrame(f, [])|))
  }

  /** The loop of `gwl_open` from a given point: the result and whether the tail was torn. */
  function ReplayFrom(c: Crypto, data: bytes, tornOk: bool, a: Replayed): (r: Option<(Replayed, bool)>)
    decreases |data|
  {
    match ParseFrame(c, data)
    case Eof => Some((a, false))
    case Torn => if tornOk then Some((a, true)) else None
    case Bad => None
    case Good(f, rest) =>
      var b :- Advance(c, a, f);
      ReplayFrom(c, rest, tornOk, b)
  }

  function Genesis(c: Crypto): Replayed {
    Replayed(Chain(c.genesis, 0), [], [], 0)
  }

  function Replay(c: Crypto, data: bytes, tornOk: bool): (r: Option<(Replayed, bool)>) {
    ReplayFrom(c, data, tornOk, Genesis(c))
  }

  /** Folding a list of frames into the chain. */
  function AdvanceAll(c: Crypto, a: Replayed, fs: seq<Frame>): (r: Option<Replayed>)
    decreases |fs|
  {
    if fs == [] then Some(a)
    else
      var b :- Advance(c, a, fs[0]);
      AdvanceAll(c, b, fs[1..])
  }

  function Chained(c: Crypto, fs: seq<Frame>): (r: Option<Replayed>) {
    AdvanceAll(c, Genesis(c), fs)
  }

  /** What a failed or interrupted append can leave: nothing, or part of one valid frame. */
  ghost predicate TornTail(c: Crypto, p: bytes) {
    p == [] || exists f :: FrameOk(c, f) && p <= EncodeFrame(f, []) && |p| < |EncodeFrame(f, [])|
  }

  lemma {:induction false} ReplayFromExact(c: Crypto, fs: seq<Frame>, p: bytes, tornOk: bool, a: Replayed)
    requires FramesOk(c, fs) && TornTail(c, p)
    ensures ReplayFrom(c, EncodeFrames(fs, p), tornOk, a)
         == if AdvanceAll(c, a, fs).None? || (p != [] && !tornOk) then None
            else Some((AdvanceAll(c, a, fs).value, p != []))
    decreases |fs|
  {
    hide EncodeFrame, FrameOk;
    if fs == [] {
      if p != [] {
        var f :| FrameOk(c, f) && p <= EncodeFrame(f, []) && |p| < |EncodeFrame(f, [])|;
        CutFrameIsTorn(c, f, p);
      }
    } else {
      ParseEncoded(c, fs[0], EncodeFrames(fs[1..], p));
      if Advance(c, a, fs[0]).Some? {
        ReplayFromExact(c, fs[1..], p, tornOk, Advance(c, a, fs[0]).value);
      }
    }
  }

  /** Replay of any whole frames followed by part of one more recovers exactly those frames,
      with their head and sequence, and reports torn exactly when there is a part; it refuses
      a torn file unless told that the tail may be torn. */
  lemma ReplayExact(c: Crypto, fs: seq<Frame>, p: bytes, tornOk: bool)
    requires FramesOk(c, fs) && TornTail(c, p) && Chained(c, fs).Some?
    ensures Replay(c, EncodeFrames(fs, p), tornOk)
         == if p != [] && !tornOk then None else Some((Chained(c, fs).value, p != []))
  {
    ReplayFromExact(c, fs, p, tornOk, Genesis(c));
  }

  lemma {:induction false} AdvanceAllFacts(c: Crypto, a: Replayed, fs: seq<Frame>)
    requires AdvanceAll(c, a, fs).Some?
    ensures var r := AdvanceAll(c, a, fs).value;
      && r.frames == a.frames + fs && r.chain.seq_ == a.chain.seq_ + |fs|
      && r.last == (if fs == [] then a.last else fs[|fs| - 1].payload)
      && r.end == a.end + |EncodeFrames(fs, [])|
    decreases |fs|
  {
    if fs == [] {
      assert a.frames + [] == a.frames;
    } else {
      var b := Advance(c, a, fs[0]).value;
      AdvanceAllFacts(c, b, fs[1..]);
      EncodeFrameAppend(fs[0], EncodeFrames(fs[1..], []));
      assert a.frames + [fs[0]] + fs[1..] == a.frames + fs;
    }
  }

  /** The state after replay: one sequence number a frame, the last frame's payload, and the
      point to truncate at is the end of the last whole frame. */
  lemma ChainedFacts(c: Crypto, fs: seq<Frame>)
    requires Chained(c, fs).Some?
    ensures var r := Chained(c, fs).value;
      && r.frames == fs && r.chain.seq_ == |fs| && r.end == |EncodeFrames(fs, [])|
      && r.last == (if fs == [] then [] else fs[|fs| - 1].payload)
  {
    AdvanceAllFacts(c, Genesis(c), fs);
    assert [] + fs == fs;
  }

  lemma {:induction false} AdvanceAllSnoc(c: Crypto, a: Replayed, fs: seq<Frame>, f: Frame)
    requires AdvanceAll(c, a, fs).Some?
    ensures AdvanceAll(c, a, fs + [f]) == Advance(c, AdvanceAll(c, a, fs).value, f)
    decreases |fs|
  {
    if fs == [] {
      assert fs + [f] == [f] && [f][1..] == [];
      if Advance(c, a, f).Some? {
        assert AdvanceAll(c, Advance(c, a, f).value, []) == Some(Advance(c, a, f).value);
      }
    } else {
      assert (fs + [f])[1..] == fs[1..] + [f];
      AdvanceAllSnoc(c, Advance(c, a, fs[0]).value, fs[1..], f);
    }
  }

  lemma {:induction false} AdvanceAllNone(c: Crypto, a: Replayed, fs: seq<Frame>, f: Frame)
    requires AdvanceAll(c, a, fs).None?
    ensures AdvanceAll(c, a, fs + [f]).None?
    decreases |fs|
  {
    assert (fs + [f])[1..] == fs[1..] + [f];
    if Advance(c, a, fs[0]).Some? {
      AdvanceAllNone(c, Advance(c, a, fs[0]).value, fs[1..], f);
    }
  }

  /** The head of a chain, from the last frame back to genesis; None if a link faults. */
  function HeadOf(c: Crypto, fs: seq<Frame>): Option<Digest> {
    if fs == [] then Some(c.genesis)
    else
      var n := |fs| - 1;
      var h :- HeadOf(c, fs[..n]);
      c.link(h, fs[n].commit)
  }

  /** Folding the frames forwards links each commitment to the head before it, from genesis on, and
      faults exactly when a link does. */
  lemma {:induction false} HeadExact(c: Crypto, fs: seq<Frame>)
    ensures Chained(c, fs).Some? <==> HeadOf(c, fs).Some?
    ensures Chained(c, fs).Some? ==> Chained(c, fs).value.chain == Chain(HeadOf(c, fs).value, |fs|)
    decreases |fs|
  {
    if fs != [] {
      var n := |fs| - 1;
      assert fs == fs[..n] + [fs[n]];
      HeadExact(c, fs[..n]);
      hide EncodeFrame, AdvanceAll;
      if Chained(c, fs[..n]).Some? {
        AdvanceAllSnoc(c, Genesis(c), fs[..n], fs[n]);
      } else {
        AdvanceAllNone(c, Genesis(c), fs[..n], fs[n]);
      }
    }
  }

  // ---- soundness: only such files are accepted -----------------------------------------------------------

  lemma ParseSound(c: Crypto, data: bytes)
    requires ParseFrame(c, data).Good?
    ensures var r := ParseFrame(c, data);
      FrameOk(c, r.f) && data == EncodeFrame(r.f, r.rest)
  {
    hide ReadLe, Le, CStr;
    ParseGood(c, data);
    hide ParseFrame;
    var r := ParseFrame(c, data);
    var d2 := data[4 + |r.f.tag|..];
    ReadLeInverts(data, 4);
    ReadLeInverts(d2, 8);
    assert d2[8..] == r.f.payload + (r.f.commit + r.rest);
    assert d2 == Le(|r.f.payload|, 8) + d2[8..];
    assert data[4..] == r.f.tag + d2;
    assert data == Le(|r.f.tag|, 4) + data[4..];
  }

  /** The slices of an accepted frame. */
  lemma ParseGood(c: Crypto, data: bytes)
    requires ParseFrame(c, data).Good?
    ensures var r := ParseFrame(c, data);
      var n, m := |r.f.tag|, |r.f.payload|;
      && FrameOk(c, r.f) && |data| >= 4 + n + 8 + m + 32 && ReadLe(data, 4) == n && data[4..4 + n] == r.f.tag
      && var d2 := data[4 + n..];
         && ReadLe(d2, 8) == m && d2[8..8 + m] == r.f.payload && d2[8 + m..8 + m + 32] == r.f.commit
         && d2[8 + m + 32..] == r.rest
  {
    hide ReadLe, CStr;
  }

  lemma {:induction false} ReadLeInverts(s: bytes, w: nat)
    requires |s| >= w
    ensures Le(ReadLe(s, w), w) == s[..w]
  {
    if w > 0 {
      ReadLeInverts(s[1..], w - 1);
      var m := ReadLe(s[1..], w - 1);
      assert (s[0] + 256 * m) % 256 == s[0] && (s[0] + 256 * m) / 256 == m;
      assert s[..w] == [s[0]] + s[1..][..w - 1];
    }
  }

  /** A file that replays is its frames, each with the commitment recomputed, and a tail that
      is empty unless reported torn. */
  lemma {:induction false} ReplayFromSound(c: Crypto, data: bytes, tornOk: bool, a: Replayed)
    returns (fs: seq<Frame>, p: bytes)
    requires ReplayFrom(c, data, tornOk, a).Some?
    ensures FramesOk(c, fs) && data == EncodeFrames(fs, p)
    ensures AdvanceAll(c, a, fs) == Some(ReplayFrom(c, data, tornOk, a).value.0)
    ensures ReplayFrom(c, data, tornOk, a).value.1 == (p != []) && (p != [] ==> tornOk && ParseFrame(c, p).Torn?)
    decreases |data|
  {
    hide FrameOk, EncodeFrame;
    match ParseFrame(c, data)
    case Eof => fs, p := [], [];
    case Torn => fs, p := [], data;
    case Good(f, rest) =>
      ParseSound(c, data);
      var gs;
      gs, p := ReplayFromSound(c, rest, tornOk, Advance(c, a, f).value);
      fs := [f] + gs;
      assert fs[1..] == gs;
  }

  // ---- the Python reader -----------------------------------------------------------------------------------

  /** `frames` of tools/obs_v1_loss_check.py; None is the raised ValueError.  Slices past the
      end are short, as in Python, and only then is the length tested. */
  function PyFrames(data: bytes): (r: Option<seq<(bytes, bytes)>>)
    decreases |data|
  {
    if data == [] then Some([])
    else if |data| < 4 then None
    else
      var tlen := ReadLe(data, 4);
      if |data| < 4 + tlen + 8 then None
      else
        var d2 := data[4 + tlen..];
        var plen := ReadLe(d2, 8);
        if |d2| < 8 + plen + 32 then None
        else
          Prefixed([(data[4..4 + tlen], d2[8..8 + plen])], PyFrames(d2[8 + plen + 32..]))
  }

  function Prefixed(a: seq<(bytes, bytes)>, r: Option<seq<(bytes, bytes)>>): Option<seq<(bytes, bytes)>> {
    if r.None? then None else Some(a + r.value)
  }

  lemma PrefixedSnoc(a: seq<(bytes, bytes)>, x: (bytes, bytes), r: Option<seq<(bytes, bytes)>>)
    ensures Prefixed(a, Prefixed([x], r)) == Prefixed(a + [x], r)
    ensures Prefixed([], r) == r
  {
    if r.Some? {
      assert a + ([x] + r.value) == a + [x] + r.value && [] + r.value == r.value;
    }
  }

  function TagsAndPayloads(fs: seq<Frame>): (r: seq<(bytes, bytes)>)
    ensures |r| == |fs|
  {
    if fs == [] then [] else [(fs[0].tag, fs[0].payload)] + TagsAndPayloads(fs[1..])
  }

  lemma PyStep(c: Crypto, data: bytes)
    ensures ParseFrame(c, data).Torn? ==> PyFrames(data) == None
    ensures ParseFrame(c, data).Good? ==> var r := ParseFrame(c, data);
      PyFrames(data) == Prefixed([(r.f.tag, r.f.payload)], PyFrames(r.rest))
  {
    hide ReadLe, CStr;
  }

  /** The checker reads the same frames from a whole file and raises an error on a torn one. */
  lemma {:induction false} PyFramesExact(c: Crypto, fs: seq<Frame>, p: bytes)
    requires FramesOk(c, fs) && TornTail(c, p)
    ensures PyFrames(EncodeFrames(fs, p)) == if p == [] then Some(TagsAndPayloads(fs)) else None
    decreases |fs|
  {
    hide EncodeFrame, FrameOk;
    if fs == [] {
      if p != [] {
        var f :| FrameOk(c, f) && p <= EncodeFrame(f, []) && |p| < |EncodeFrame(f, [])|;
        CutFrameIsTorn(c, f, p);
        PyStep(c, p);
      }
    } else {
      var rest := EncodeFrames(fs[1..], p);
      ParseEncoded(c, fs[0], rest);
      PyStep(c, EncodeFrame(fs[0], rest));
      PyFramesExact(c, fs[1..], p);
    }
  }

  lemma Finished(rest: bytes, out: seq<(bytes, bytes)>)
    requires rest == []
    ensures Prefixed(out, PyFrames(rest)) == Some(out)
  {
    assert out + [] == out;
  }

  /** The generator loop of `frames`. */
  method ReadFrames(data: bytes) returns (r: Option<seq<(bytes, bytes)>>)
    ensures r == PyFrames(data)
  {
    hide ReadLe;
    var off := 0;
    var out: seq<(bytes, bytes)> := [];
    assert data[0..] == data;
    PrefixedSnoc([], ([], []), PyFrames(data));
    while off < |data|
      invariant 0 <= off <= |data|
      invariant PyFrames(data) == Prefixed(out, PyFrames(data[off..]))
    {
      ghost var at := data[off..];
      if off + 4 > |data| {
        return None;
      }
      var tlen := ReadLe(data[off..], 4);
      off := off + 4;
      if off + tlen + 8 > |data| {
        return None;
      }
      var tag := data[off..off + tlen];
      off := off + tlen;
      assert at[4 + tlen..] == data[off..];
      var plen := ReadLe(data[off..], 8);
      off := off + 8;
      if off + plen + 32 > |data| {
        return None;
      }
      var payload := data[off..off + plen];
      assert at[4..4 + tlen] == tag && at[4 + tlen..][8..8 + plen] == payload;
      off := off + plen + 32;
      assert at[4 + tlen..][8 + plen + 32..] == data[off..];
      PrefixedSnoc(out, (tag, payload), PyFrames(data[off..]));
      out := out + [(tag, payload)];
    }
    Finished(data[off..], out);
    return Some(out);
  }
}
