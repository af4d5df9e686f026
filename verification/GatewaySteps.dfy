/** What one append and one observation can do, and how the invariant carries over them. */
module GatewaySteps {
  import opened Bytes
  import opened Faults
  import opened Numbers
  import opened Canonical
  import opened Substrate
  import opened Obs
  import opened Frames
  import opened DurableLedger
  import opened Gateway
  import opened GatewayInv

  // ---- one append ------------------------------------------------------------------------------

  /** One more valid frame with that tag and payload. */
  predicate Grown(c: Crypto, fs: seq<Frame>, gs: seq<Frame>, tag: bytes, payload: bytes) {
    && |gs| == |fs| + 1 && gs[..|fs|] == fs
    && FrameOk(c, gs[|fs|]) && gs[|fs|].tag == tag && gs[|fs|].payload == payload
  }

  /** Everything an append can do from a synchronised state: nothing, part of a frame, a whole
      frame with an error, or success. */
  ghost predicate Appended(c: Crypto, s: State, t: State, ok: bool, tag: bytes, payload: bytes) {
    && t == s.(l := t.l, h := t.h) && t.h.intents == s.h.intents
    && t.l.file == EncodeFrames(t.h.frames, t.h.torn)
    && t.l.exported <= EncodeFrames(t.h.frames, [])
    && (!ok ==> t.l.chain == s.l.chain && t.l.last == s.l.last)
    && (t.h.frames == s.h.frames ==> t.l.exported == s.l.exported && t.l.exportOn == s.l.exportOn)
    && (|| (t.h.frames == s.h.frames && !ok && (t.h.torn != [] ==> CutOf(c, t.h.torn, tag)))
        || (t.h.torn == [] && Grown(c, s.h.frames, t.h.frames, tag, payload)))
    && (ok ==> |t.h.frames| > |s.h.frames| && Sync(c, t)
               && (t.l.exportOn ==> t.l.exported == EncodeFrames(t.h.frames, [])))
  }

  /** Ready to append: synchronised, with the export in step. */
  predicate Ready(c: Crypto, s: State) {
    && Sync(c, s) && s.l.file == EncodeFrames(s.h.frames, [])
    && s.l.exported <= EncodeFrames(s.h.frames, [])
    && (s.l.exportOn ==> s.l.exported == EncodeFrames(s.h.frames, []))
  }

  lemma PartialFrame(c: Crypto, s: State, f: Frame, n: nat)
    requires Ready(c, s) && FrameOk(c, f) && n < |EncodeFrame(f, [])|
    ensures var e := EncodeFrame(f, [])[..n];
      && s.l.file + e == EncodeFrames(s.h.frames, s.h.torn + e)
      && (s.h.torn + e != [] ==> CutOf(c, s.h.torn + e, f.tag))
  {
    hide EncodeFrame, EncodeFrames, FrameOk, Chained;
    var e := EncodeFrame(f, [])[..n];
    assert s.h.torn + e == e;
    EncodeFramesAppend(s.h.frames, e);
  }

  lemma WholeFrame(c: Crypto, fs: seq<Frame>, f: Frame)
    requires FrameOk(c, f)
    ensures EncodeFrames(fs + [f], []) == EncodeFrames(fs, []) + EncodeFrame(f, [])
    ensures Grown(c, fs, fs + [f], f.tag, f.payload)
  {
    hide EncodeFrame, EncodeFrames, FrameOk;
    EncodeFramesSnoc(fs, f, []);
    EncodeFramesAppend(fs, EncodeFrame(f, []));
  }

  lemma MirrorPrefix(a: bytes, e: bytes, m: nat)
    ensures a + e[..Min(m, |e|)] <= a + e
    ensures m >= |e| ==> a + e[..Min(m, |e|)] == a + e
  {
    if m >= |e| {
      assert e[..|e|] == e;
    }
  }

  lemma PrefixGrows(x: bytes, a: bytes, e: bytes)
    requires x <= a
    ensures x <= a + e
  {
  }

  lemma AppendFrameFacts(g: Config, s: State, f: Frame, io: Io)
    requires Ready(g.c, s) && FrameOk(g.c, f)
    ensures var (l, ok) := AppendFrame(g.c, s.l, f, io);
      var e := EncodeFrame(f, []);
      var h := if io.n >= |e| then s.h.(frames := s.h.frames + [f]) else s.h.(torn := s.h.torn + e[..io.n]);
      Appended(g.c, s, s.(l := l, h := h), ok, f.tag, f.payload)
  {
    var (l, ok) := AppendFrame(g.c, s.l, f, io);
    var e := EncodeFrame(f, []);
    if io.n < |e| {
      hide EncodeFrame, EncodeFrames, FrameOk, CutOf, Chained;
      PartialFrame(g.c, s, f, io.n);
    } else {
      var t := s.(l := l, h := s.h.(frames := s.h.frames + [f]));
      WholeFrame(g.c, s.h.frames, f);
      hide EncodeFrame, EncodeFrames, FrameOk, CutOf, Grown;
      assert e[..|e|] == e;
      MirrorPrefix(s.l.exported, e, io.mirror);
      PrefixGrows(s.l.exported, EncodeFrames(s.h.frames, []), e);
      if ok {
        AdvanceAllSnoc(g.c, Genesis(g.c), s.h.frames, f);
        assert Sync(g.c, t);
      }
    }
  }

  lemma AppendFacts(g: Config, s: State, tag: bytes, payload: bytes, io: Io)
    requires Ready(g.c, s) && NoNul(tag)
    ensures var (t, ok) := AppendStep(g, s, tag, payload, io);
      Appended(g.c, s, t, ok, tag, payload)
  {
    CStrOf(tag, []);
    hide EncodeFrame, EncodeFrames, AppendFrame, CutOf, Grown, Sync;
    if |tag| == 0 || |tag| > TAG_MAX || |payload| == 0 || |payload| > PAYLOAD_MAX || g.c.evidence(tag, payload).None? {
      SyncTorn(g.c, s);
    } else {
      AppendFrameFacts(g, s, Frame(tag, payload, g.c.evidence(tag, payload).value), io);
    }
  }

  lemma SyncTorn(c: Crypto, s: State)
    requires Sync(c, s)
    ensures s.h.torn == []
  {
  }

  // ---- one observation -----------------------------------------------------------------------------

  /** What `commit_observation` can do: refuse before anything changed, or mark the sequence
      number as used and append the record of that prompt. */
  ghost predicate Committed(g: Config, s: State, t: State, ok: bool, prompt: bytes) {
    || (t == s && !ok)
    || exists r ::
         && WellRecorded(g.c, r) && r.ledgerSeq == |s.h.frames| + 1 && r.inputHash == g.c.sha256(prompt)
         && Appended(g.c, s.(adm := Ctx(true, |s.h.frames| + 1)), t, ok, ObsTag(), Canon(r, true))
  }

  lemma TagsNoNul()
    ensures NoNul(ObsTag()) && NoNul(StateTag()) && ObsTag() != StateTag()
  {
    AsciiPlain("AX:OBS:v1");
    AsciiPlain("AX:STATE:v1");
    assert |ObsTag()| == 9 && |StateTag()| == 11;
  }

  lemma SealedFields(g: Config, x: Input)
    requires InputShape(x) && Seal(g.c, Draft(g.c, x)).Some? && x.input.Some? && x.input.value != []
    ensures var r := Seal(g.c, Draft(g.c, x)).value;
      r.ledgerSeq == x.ledgerSeq && r.inputHash == g.c.sha256(x.input.value)
  {
  }

  /** An admitted observation goes straight to the append: validation cannot refuse it. */
  lemma CommitUnfold(g: Config, s: State, state: int, failure: int, prompt: bytes, output: bytes, params: Params,
    io: Io)
    requires ParamsRange(params)
    ensures var x := ObsInput(g, s, state, failure, prompt, output, params);
      CommitObs(g, s, state, failure, prompt, output, params, io)
      == if AdmitRc(g.c, x, s.adm, MAX_OUTPUT_BYTES) != AX_OK || Seal(g.c, Draft(g.c, x)).None? then (s, false)
         else AppendStep(g, s.(adm := Ctx(true, s.l.chain.seq_ + 1)), ObsTag(),
           Canon(Seal(g.c, Draft(g.c, x)).value, true), io)
  {
    var x := ObsInput(g, s, state, failure, prompt, output, params);
    hide AdmitRc, Seal, Draft, Canon, ValidateRc, AppendStep, ObsTag, WellRecorded;
    if AdmitRc(g.c, x, s.adm, MAX_OUTPUT_BYTES) == AX_OK {
      AdmittedIsWellRecorded(g.c, x, s.adm, MAX_OUTPUT_BYTES);
      AdmittedValidates(g.c, x, s.adm, MAX_OUTPUT_BYTES);
      RecordFits(g.c, Seal(g.c, Draft(g.c, x)).value);
    }
  }

  lemma CommittedBy(g: Config, s: State, t: State, ok: bool, prompt: bytes, r: Record)
    requires WellRecorded(g.c, r) && r.ledgerSeq == |s.h.frames| + 1 && r.inputHash == g.c.sha256(prompt)
    requires Appended(g.c, s.(adm := Ctx(true, |s.h.frames| + 1)), t, ok, ObsTag(), Canon(r, true))
    ensures Committed(g, s, t, ok, prompt)
  {
    hide WellRecorded, Appended, ObsTag, Canon;
  }

  lemma CommitObsFacts(g: Config, s: State, state: int, failure: int, prompt: bytes, output: bytes, params: Params,
    io: Io)
    requires Ready(g.c, s) && prompt != [] && ParamsRange(params)
    ensures var (t, ok) := CommitObs(g, s, state, failure, prompt, output, params, io);
      Committed(g, s, t, ok, prompt)
  {
    hide AdmitRc, Seal, Draft, CommitObs, Canon, WellRecorded, Appended, AppendStep, ObsTag, Sync, EncodeFrames;
    hide ParamsRange;
    var x := ObsInput(g, s, state, failure, prompt, output, params);
    assert x.input == Some(prompt) && x.params == params && x.ledgerSeq == s.l.chain.seq_ + 1;
    CommitUnfold(g, s, state, failure, prompt, output, params, io);
    SyncFacts(g.c, s);
    var (t, ok) := CommitObs(g, s, state, failure, prompt, output, params, io);
    if AdmitRc(g.c, x, s.adm, MAX_OUTPUT_BYTES) == AX_OK && Seal(g.c, Draft(g.c, x)).Some? {
      hide *;
      AdmittedIsWellRecorded(g.c, x, s.adm, MAX_OUTPUT_BYTES);
      var rec := Seal(g.c, Draft(g.c, x)).value;
      SealedFields(g, x);
      var s1 := s.(adm := Ctx(true, s.l.chain.seq_ + 1));
      TagsNoNul();
      ReadyKept(g.c, s, s1);
      AppendFacts(g, s1, ObsTag(), Canon(rec, true), io);
      CommittedBy(g, s, t, ok, prompt, rec);
    }
  }

  lemma RecordFits(c: Crypto, r: Record)
    requires WellRecorded(c, r)
    ensures |Canon(r, true)| <= MAX_OBS_BYTES
  {
  }

  lemma ReadyKept(c: Crypto, s: State, t: State)
    requires Ready(c, s) && t.l == s.l && t.h == s.h
    ensures Ready(c, t)
  {
  }

  /** The ordering guard: after an admitted record whose append failed, the same process
      admits no other. */
  lemma SecondRefused(g: Config, s: State, state: int, failure: int, prompt: bytes, output: bytes, params: Params,
    io: Io)
    requires s.adm == Ctx(true, s.l.chain.seq_ + 1)
    ensures CommitObs(g, s, state, failure, prompt, output, params, io) == (s, false)
  {
    hide Canon, Seal, Draft, ValidateRc, AppendStep, OutputRc, SchemaValid;
  }

  // ---- carrying the invariant over --------------------------------------------------------------------

  /** Steps that leave the frames, the intents and the intent file alone. */
  lemma Carry(g: Config, s: State, t: State)
    requires IntentsInv(g.c, s) && OpenInv(g.c, s) && s.phase != Clearing(true)
    requires t.h == s.h.(torn := t.h.torn) && t.wal == s.wal
    ensures IntentsInv(g.c, t) && OpenInv(g.c, t)
  {
    hide ReadIntent, Evidence, Probe, HexText, HasEvidence, ObsCount;
    assert forall i :: 0 <= i < |t.h.intents| ==> EndOf(t.h, i) == EndOf(s.h, i);
    forall i | 0 <= i < |t.h.intents|
      ensures IntentKept(g.c, t, i)
    {
      assert IntentKept(g.c, s, i);
    }
  }

  lemma FramesGrow(c: Crypto, fs: seq<Frame>, gs: seq<Frame>, tag: bytes, payload: bytes)
    requires FramesInv(c, fs) && Grown(c, fs, gs, tag, payload) && StoredAt(c, gs[|fs|], |fs| + 1)
    ensures FramesInv(c, gs)
  {
    hide FrameOk, StoredAt;
    forall k | 0 <= k < |gs|
      ensures FrameOk(c, gs[k]) && StoredAt(c, gs[k], k + 1)
    {
      if k < |fs| {
        assert gs[k] == gs[..|fs|][k];
        assert FrameOk(c, fs[k]);
      }
    }
  }

  /** Intents before the latest do not see a frame that is appended now. */
  lemma IntentsGrow(c: Crypto, s: State, t: State)
    requires IntentsInv(c, s) && t.h.intents == s.h.intents && t.wal == s.wal
    requires |t.h.frames| == |s.h.frames| + 1 && t.h.frames[..|s.h.frames|] == s.h.frames
    ensures Ordered(t.h)
    ensures s.h.intents != [] ==>
      var i := |s.h.intents| - 1;
      (IntentKept(c, t, i) ==> IntentsInv(c, t)) && FramesOf(t.h, i) == FramesOf(s.h, i) + [t.h.frames[|s.h.frames|]]
    ensures s.h.intents == [] ==> IntentsInv(c, t)
  {
    hide HasEvidence, ObsCount;
    var n := |s.h.frames|;
    forall i | 0 <= i < |t.h.intents|
      ensures t.h.intents[i].base <= EndOf(t.h, i) <= |t.h.frames|
    {
      assert s.h.intents[i].base <= EndOf(s.h, i) <= |s.h.frames|;
    }
    forall i | 0 <= i < |s.h.intents| - 1
      ensures IntentKept(c, t, i)
    {
      var a, b := s.h.intents[i].base, EndOf(s.h, i);
      assert 0 <= a <= b <= n;
      SliceSame(s.h.frames, t.h.frames, a, b);
      assert FramesOf(t.h, i) == FramesOf(s.h, i);
      assert IntentKept(c, s, i);
    }
    if s.h.intents != [] {
      var i := |s.h.intents| - 1;
      var a := s.h.intents[i].base;
      assert t.h.frames == s.h.frames + [t.h.frames[n]];
      assert t.h.frames[a..] == s.h.frames[a..] + [t.h.frames[n]];
    }
  }

  lemma SliceSame(fs: seq<Frame>, gs: seq<Frame>, a: int, b: int)
    requires |fs| <= |gs| && gs[..|fs|] == fs && 0 <= a <= b <= |fs|
    ensures gs[a..b] == fs[a..b]
  {
    assert |gs[a..b]| == b - a == |fs[a..b]|;
    forall k | 0 <= k < b - a
      ensures gs[a..b][k] == fs[a..b][k]
    {
      assert gs[a..b][k] == gs[a + k] == gs[..|fs|][a + k];
    }
  }

  lemma AllEvidence(c: Crypto, fs: seq<Frame>, gs: seq<Frame>, base: nat, hash: Digest)
    requires base <= |fs| && |gs| == |fs| + 1 && gs[..|fs|] == fs
    requires forall k :: 0 <= k < |fs[base..]| ==> Evidence(c, fs[base..][k], hash)
    requires Evidence(c, gs[|fs|], hash)
    ensures forall k :: 0 <= k < |gs[base..]| ==> Evidence(c, gs[base..][k], hash)
  {
    hide Evidence;
    forall k | 0 <= k < |gs[base..]|
      ensures Evidence(c, gs[base..][k], hash)
    {
      if base + k < |fs| {
        assert gs[base..][k] == gs[..|fs|][base + k] == fs[base..][k];
      }
    }
  }

  lemma EvidenceKept(c: Crypto, fs: seq<Frame>, f: Frame, hash: Digest)
    ensures HasEvidence(c, fs, hash) ==> HasEvidence(c, fs + [f], hash)
    ensures Evidence(c, f, hash) ==> HasEvidence(c, fs + [f], hash)
  {
    hide Evidence;
    if HasEvidence(c, fs, hash) {
      var k :| 0 <= k < |fs| && Evidence(c, fs[k], hash);
      assert (fs + [f])[k] == fs[k];
    }
    if Evidence(c, f, hash) {
      assert (fs + [f])[|fs|] == f;
    }
  }

  /** A start-up frame, appended when no intent is open. */
  lemma GrowState(g: Config, s: State, t: State, payload: bytes)
    requires Inv(g, s) && s.wal.None? && t.wal.None? && t.h.intents == s.h.intents && t.h.torn == []
    requires Grown(g.c, s.h.frames, t.h.frames, StateTag(), payload)
    ensures FramesInv(g.c, t.h.frames) && IntentsInv(g.c, t)
  {
    var n := |s.h.frames|;
    var f := t.h.frames[n];
    FramesGrow(g.c, s.h.frames, t.h.frames, StateTag(), payload);
    IntentsGrow(g.c, s, t);
    if s.h.intents != [] {
      var i := |s.h.intents| - 1;
      TagsNoNul();
      hide Evidence, HasEvidence, ObsCount, FrameOk, ObsTag, StateTag, FramesInv, FileInv, OpenInv, PhaseInv, ExportInv;
      assert IntentKept(g.c, s, i);
      EvidenceKept(g.c, FramesOf(s.h, i), f, s.h.intents[i].hash);
      ObsCountSnoc(FramesOf(s.h, i), f);
    }
  }

  /** An observation of the latest intent, appended while it is open. */
  lemma GrowObs(g: Config, s: State, t: State, r: Record)
    requires s.h.intents != [] && Ordered(s.h)
    requires s.wal.Some? && t.wal == s.wal && t.h.intents == s.h.intents && t.h.torn == []
    requires Grown(g.c, s.h.frames, t.h.frames, ObsTag(), Canon(r, true))
    requires WellRecorded(g.c, r) && r.ledgerSeq == |s.h.frames| + 1
    requires var i := Latest(s.h); r.inputHash == i.hash || r.inputHash == g.c.sha256(Synth(HexText(i.hash)))
    requires |s.h.frames| - Latest(s.h).base <= Latest(s.h).stops
    requires Inv(g, s)
    ensures Ordered(t.h) && Latest(t.h) == Latest(s.h)
    ensures FramesInv(g.c, t.h.frames) && IntentsInv(g.c, t)
    ensures var since := t.h.frames[Latest(s.h).base..];
      forall k :: 0 <= k < |since| ==> Evidence(g.c, since[k], Latest(s.h).hash)
    ensures LastPayload(t.h.frames) == Canon(r, true)
  {
    hide Evidence, StoredAt, HasEvidence, ObsCount, FrameOk, ObsTag, FramesInv, PhaseInv, ExportInv, WellRecorded;
    hide Stores, Canon, Probe, HexText, ReadIntent, EncodeFrames, CutOf, IntentKept, Synth;
    var n, last := |s.h.frames|, Latest(s.h);
    var f := t.h.frames[n];
    NewEvidence(g.c, f, r, last.hash);
    FramesGrow(g.c, s.h.frames, t.h.frames, ObsTag(), Canon(r, true));
    IntentsGrow(g.c, s, t);
    AllEvidence(g.c, s.h.frames, t.h.frames, last.base, last.hash);
    OneMoreKept(g.c, s, t);
  }

  lemma NewEvidence(c: Crypto, f: Frame, r: Record, hash: Digest)
    requires f.tag == ObsTag() && f.payload == Canon(r, true) && WellRecorded(c, r)
    requires r.inputHash == hash || r.inputHash == c.sha256(Synth(HexText(hash)))
    ensures Evidence(c, f, hash) && StoredAt(c, f, r.ledgerSeq)
  {
    hide WellRecorded, Canon, ObsTag, StateTag, HexText, Synth;
    assert Stores(c, f, r);
  }

  /** Of an open intent only the count matters. */
  lemma OneMoreKept(c: Crypto, s: State, t: State)
    requires IntentsInv(c, s) && s.h.intents != [] && s.wal.Some? && t.wal == s.wal && t.h.intents == s.h.intents
      && Ordered(t.h)
    requires |t.h.frames| == |s.h.frames| + 1 && |s.h.frames| - Latest(s.h).base <= Latest(s.h).stops
    ensures IntentKept(c, t, |s.h.intents| - 1)
  {
    hide HasEvidence, ObsCount;
  }
}
