/** The invariant, event by event, and over whole runs. */
module GatewayEvents {
  import opened Bytes
  import opened Utf8
  import opened Numbers
  import opened Canonical
  import opened Substrate
  import opened Obs
  import opened Frames
  import opened DurableLedger
  import opened Wal
  import opened RequestBody
  import opened Gateway
  import opened GatewayInv
  import opened GatewaySteps

  // ---- stops and crashes -----------------------------------------------------------------------

  /** A start attempt that stops after its recovery frame: one more stop pays for the frame. */
  lemma StopKeeps(g: Config, s: State)
    requires FileInv(g.c, s) && IntentsInv(g.c, s) && s.wal.Some? && s.h.intents != []
    requires s.phase == Clearing(true) && OpenIntent(g.c, s, Latest(s.h))
    ensures var t := s.(phase := Down, h := CountStop(s.h));
      FileInv(g.c, t) && IntentsInv(g.c, t) && OpenInv(g.c, t)
  {
    hide EncodeFrames, FramesInv, CutOf, ReadIntent, Evidence, Probe, HexText, HasEvidence, ObsCount;
    var t := s.(phase := Down, h := CountStop(s.h));
    assert forall i :: 0 <= i < |t.h.intents| ==> EndOf(t.h, i) == EndOf(s.h, i);
    forall i | 0 <= i < |t.h.intents|
      ensures IntentKept(g.c, t, i)
    {
      assert IntentKept(g.c, s, i);
      assert FramesOf(t.h, i) == FramesOf(s.h, i);
    }
  }

  lemma CrashInv(g: Config, s: State)
    requires Inv(g, s)
    ensures Inv(g, CrashStep(s))
  {
    hide EncodeFrames, FramesInv, CutOf, ReadIntent, Evidence, Probe, HexText, HasEvidence, ObsCount, Sync;
    hide IntentsInv, OpenIntent;
    var t := CrashStep(s);
    if s.phase == Clearing(true) {
      StopKeeps(g, s);
    } else {
      Carry(g, s, t);
    }
  }

  // ---- start --------------------------------------------------------------------------------------

  lemma OpenFacts(g: Config, s: State)
    requires FileInv(g.c, s)
    ensures var l0 := s.l.(exportOn := false);
      var r := Open(g.c, l0, ReadIntent(s.wal).Some?);
      && (r.None? <==> Chained(g.c, s.h.frames).None? || (s.h.torn != [] && ReadIntent(s.wal).None?))
      && (r.Some? ==> var l := r.value.0; var a := Chained(g.c, s.h.frames).value;
            l == l0.(file := EncodeFrames(s.h.frames, []), chain := a.chain, last := a.last))
  {
    FileTail(g.c, s);
    var tornOk := ReadIntent(s.wal).Some?;
    hide FramesInv, CutOf, ReadIntent, TornTail, FramesOk, EncodeFrames;
    FramesAreOk(g.c, s.h.frames);
    ReplayFromExact(g.c, s.h.frames, s.h.torn, tornOk, Genesis(g.c));
    if Chained(g.c, s.h.frames).Some? {
      ChainedFacts(g.c, s.h.frames);
      EncodeFramesAppend(s.h.frames, s.h.torn);
      var e := EncodeFrames(s.h.frames, []);
      assert s.l.file[..|e|] == e;
    }
  }

  lemma FramesAreOk(c: Crypto, fs: seq<Frame>)
    requires FramesInv(c, fs)
    ensures FramesOk(c, fs)
  {
  }

  lemma StartInv(g: Config, s: State)
    requires Inv(g, s) && s.phase.Down?
    ensures Inv(g, StartStep(g, s))
  {
    var t := StartStep(g, s);
    if t != s {
      hide EncodeFrames, FramesInv, CutOf, ReadIntent, Open, IntentsInv, OpenIntent, Chained, Probe, HexText, Evidence;
      OpenFacts(g, s);
      Carry(g, s, t);
    }
  }

  lemma EnableInv(g: Config, s: State, made: bool, n: nat, synced: bool)
    requires Inv(g, s) && s.phase.Opened?
    ensures Inv(g, EnableStep(g, s, made, n, synced))
  {
    var t := EnableStep(g, s, made, n, synced);
    hide EncodeFrames, FramesInv, CutOf, ReadIntent, IntentsInv, OpenIntent, Chained, Probe, HexText, Evidence;
    Carry(g, s, t);
    if n >= |s.l.file| {
      assert s.l.file[..|s.l.file|] == s.l.file;
    }
  }

  // ---- recovery --------------------------------------------------------------------------------------

  lemma ReadyNow(g: Config, s: State)
    requires Inv(g, s) && Live(s)
    ensures Ready(g.c, s) && s.l.chain.seq_ == |s.h.frames| && s.l.last == LastPayload(s.h.frames)
  {
    hide EncodeFrames, FramesInv, CutOf, ReadIntent, IntentsInv, OpenInv, Chained;
    SyncFacts(g.c, s);
  }

  /** A recovered intent has representable parameters. */
  lemma {:induction false} RecoveredRange(data: bytes, st: Partial)
    requires ParamsRange(RecoveryParams(st.intent))
    ensures ParamsRange(RecoveryParams(TakeLines(data, st).intent))
    decreases |data|
  {
    if data != [] {
      hide ParseField, Strtol, Block, LineLen;
      RecoveredRange(data[LineLen(data, LINE_MAX)..], TakeLine(Block(data), st));
    }
  }

  /** A cut or missing frame while the intent stays open. */
  lemma NoFrame(g: Config, s: State, t: State)
    requires Inv(g, s) && Live(s) && s.wal.Some? && ReadIntent(s.wal).Some? && s.phase != Clearing(true)
    requires t.l == s.l.(file := t.l.file)
    requires t.wal == s.wal && t.h == s.h.(torn := t.h.torn) && t.l.file == EncodeFrames(t.h.frames, t.h.torn)
    requires t.h.torn != [] ==> CutOf(g.c, t.h.torn, ObsTag())
    requires t.phase.Down? || t.phase.Serving?
    ensures Inv(g, t)
  {
    hide EncodeFrames, FramesInv, CutOf, ReadIntent, IntentsInv, OpenIntent, Chained, Probe, HexText, Evidence;
    hide ObsTag, StateTag;
    Carry(g, s, t);
  }

  /** The recovery frame is in the file; whether the append also succeeded decides the phase. */
  lemma RecoveryFrame(g: Config, s: State, t: State, ok: bool, r: Record)
    requires Inv(g, s) && s.phase.Recovering? && s.wal.Some?
    requires !Probe(LastPayload(s.h.frames), HexText(Latest(s.h).hash))
    requires Appended(g.c, s.(adm := Ctx(true, |s.h.frames| + 1)), t, ok, ObsTag(), Canon(r, true))
    requires |t.h.frames| > |s.h.frames|
    requires WellRecorded(g.c, r) && r.ledgerSeq == |s.h.frames| + 1
      && r.inputHash == g.c.sha256(Synth(HexText(Latest(s.h).hash)))
    ensures Inv(g, if ok then t.(phase := Clearing(true)) else t.(phase := Down, h := CountStop(t.h)))
  {
    hide EncodeFrames, CutOf, ReadIntent, Chained, Probe, HexText, Evidence, ObsTag, StateTag, WellRecorded, Canon;
    hide Synth, FramesInv, HasEvidence, ObsCount, FrameOk;
    GrowObs(g, s, t, r);
    var u := t.(phase := Clearing(true));
    hide IntentsInv;
    Carry2(g, t, u);
    assert FileInv(g.c, u);
    assert OpenIntent(g.c, u, Latest(u.h));
    if !ok {
      StopKeeps(g, u);
    }
  }

  lemma Carry2(g: Config, t: State, u: State)
    requires IntentsInv(g.c, t) && u.h == t.h && u.wal == t.wal
    ensures IntentsInv(g.c, u)
  {
    hide HasEvidence, ObsCount;
    forall i | 0 <= i < |u.h.intents|
      ensures IntentKept(g.c, u, i)
    {
      assert IntentKept(g.c, t, i);
    }
  }

  /** Nothing to recover, nothing readable, or already evidenced: only the phase changes. */
  lemma RecoverIdle(g: Config, s: State, phase: Phase)
    requires Inv(g, s) && s.phase.Recovering?
    requires phase.Down? || (phase.Committing? && s.wal.None?)
      || (phase == Clearing(false) && ReadIntent(s.wal).Some?
        && Probe(LastPayload(s.h.frames), ReadIntent(s.wal).value.hash))
    ensures Inv(g, s.(phase := phase))
  {
    hide EncodeFrames, FramesInv, CutOf, IntentKept, Chained, Probe, HexText, Evidence, Recover;
    Carry(g, s, s.(phase := phase));
  }

  lemma RecoverInv(g: Config, s: State, io: Io)
    requires Inv(g, s) && s.phase.Recovering?
    ensures Inv(g, RecoverStep(g, s, io))
  {
    hide Inv, Probe, CommitObs, ReadIntent, Synth, Ready;
    ReadyNow(g, s);
    if s.wal.None? {
      RecoverIdle(g, s, Committing);
    } else {
      match ReadIntent(s.wal)
      case None => RecoverIdle(g, s, Down);
      case Some(i) =>
        if Probe(s.l.last, i.hash) {
          RecoverIdle(g, s, Clearing(false));
        } else {
          RecoverFresh(g, s, i, io);
        }
    }
  }

  /** No frame names the intent yet, so recovery commits one. */
  lemma RecoverFresh(g: Config, s: State, i: Intent, io: Io)
    requires Inv(g, s) && s.phase.Recovering? && s.wal.Some? && ReadIntent(s.wal) == Some(i)
    requires !Probe(s.l.last, i.hash) && Ready(g.c, s) && s.l.last == LastPayload(s.h.frames)
    ensures Inv(g, RecoverStep(g, s, io))
  {
    hide *;
    IntentHash(g, s, i);
    ReadRange(s.wal, i);
    SynthSome(i.hash);
    RecoverUnfold(g, s, i, io);
    var (t, ok) := CommitObs(g, s, ERROR, TRANSPORT_ERROR, Synth(i.hash), [], RecoveryParams(i), io);
    CommitObsFacts(g, s, ERROR, TRANSPORT_ERROR, Synth(i.hash), [], RecoveryParams(i), io);
    RecoverCommitted(g, s, t, ok);
  }

  /** The state after a recovery that tried to commit. */
  function Recovered(s: State, t: State, ok: bool): State {
    if ok then t.(phase := Clearing(true))
    else t.(phase := Down, h := if |t.h.frames| > |s.h.frames| then CountStop(t.h) else t.h)
  }

  lemma RecoverUnfold(g: Config, s: State, i: Intent, io: Io)
    requires s.wal.Some? && ReadIntent(s.wal) == Some(i) && !Probe(s.l.last, i.hash)
    ensures var (t, ok) := CommitObs(g, s, ERROR, TRANSPORT_ERROR, Synth(i.hash), [], RecoveryParams(i), io);
      RecoverStep(g, s, io) == Recovered(s, t, ok)
  {
    hide ReadIntent, Probe, CommitObs, Synth, RecoveryParams, CountStop;
  }

  /** The readable intent is the latest one. */
  lemma IntentHash(g: Config, s: State, i: Intent)
    requires Inv(g, s) && s.wal.Some? && ReadIntent(s.wal) == Some(i)
    ensures Ordered(s.h) && s.h.intents != [] && i.hash == HexText(Latest(s.h).hash)
  {
    hide FileInv, PhaseInv, ExportInv, ReadIntent, IntentKept, Evidence, Probe, HexText;
  }

  lemma ReadRange(wal: Option<bytes>, i: Intent)
    requires ReadIntent(wal) == Some(i)
    ensures ParamsRange(RecoveryParams(i))
  {
    hide Recover, ParamsRange;
    RecoveredIntentRange(wal.value);
  }

  lemma SynthSome(hash: bytes)
    ensures Synth(hash) != []
  {
    assert |Synth(hash)| >= 1;
  }

  lemma RecoverCommitted(g: Config, s: State, t: State, ok: bool)
    requires Ordered(s.h) && s.h.intents != [] && s.phase.Recovering? && s.wal.Some? && ReadIntent(s.wal).Some?
    requires !Probe(LastPayload(s.h.frames), HexText(Latest(s.h).hash))
    requires Committed(g, s, t, ok, Synth(HexText(Latest(s.h).hash))) && Inv(g, s)
    ensures Inv(g, Recovered(s, t, ok))
  {
    hide Inv, ReadIntent, Probe, LastPayload, HexText, Synth, WellRecorded, Appended, Canon, ObsTag, Ordered;
    if t == s && !ok {
      RecoverIdle(g, s, Down);
    } else {
      var r :| WellRecorded(g.c, r) && r.ledgerSeq == |s.h.frames| + 1
            && r.inputHash == g.c.sha256(Synth(HexText(Latest(s.h).hash)))
            && Appended(g.c, s.(adm := Ctx(true, |s.h.frames| + 1)), t, ok, ObsTag(), Canon(r, true));
      RecoverOutcome(g, s, t, ok, r);
    }
  }

  lemma RecoveredIntentRange(data: bytes)
    requires Recover(data).Some?
    ensures ParamsRange(RecoveryParams(Recover(data).value))
  {
    hide TakeLines;
    RecoveredRange(data, EMPTY);
  }

  lemma RecoverOutcome(g: Config, s: State, t: State, ok: bool, r: Record)
    requires Ordered(s.h) && s.h.intents != [] && s.phase.Recovering? && s.wal.Some? && ReadIntent(s.wal).Some?
    requires !Probe(LastPayload(s.h.frames), HexText(Latest(s.h).hash))
    requires WellRecorded(g.c, r) && r.ledgerSeq == |s.h.frames| + 1
      && r.inputHash == g.c.sha256(Synth(HexText(Latest(s.h).hash)))
    requires Appended(g.c, s.(adm := Ctx(true, |s.h.frames| + 1)), t, ok, ObsTag(), Canon(r, true)) && Inv(g, s)
    ensures Inv(g, Recovered(s, t, ok))
  {
    hide EncodeFrames, FramesInv, CutOf, IntentsInv, OpenIntent, Chained, Probe, HexText, Evidence, ObsTag;
    hide StateTag, WellRecorded, Canon, ReadIntent, Sync, FrameOk, Synth;
    if |t.h.frames| > |s.h.frames| {
      RecoveryFrame(g, s, t, ok, r);
    } else {
      NoFrame(g, s, t.(phase := Down));
    }
  }

  // ---- clearing the intent ----------------------------------------------------------------------------

  /** The latest intent closes: it is evidenced, or nothing is owed to it. */
  lemma CloseIntent(g: Config, s: State, t: State)
    requires IntentsInv(g.c, s) && s.h.intents != [] && s.wal.Some? && OpenIntent(g.c, s, Latest(s.h))
    requires Latest(s.h).called && Latest(s.h).unseen ==> Latest(s.h).base < |s.h.frames|
    requires t.h == s.h && t.wal.None?
    ensures IntentsInv(g.c, t) && OpenInv(g.c, t)
  {
    hide ReadIntent, Evidence, Probe, HexText, ObsCount;
    var last := |s.h.intents| - 1;
    forall i | 0 <= i < |t.h.intents|
      ensures IntentKept(g.c, t, i)
    {
      assert IntentKept(g.c, s, i);
      if i == last && Latest(s.h).base < |s.h.frames| {
        var since := s.h.frames[Latest(s.h).base..];
        assert FramesOf(t.h, i) == since;
        assert Evidence(g.c, since[0], Latest(s.h).hash);
      }
    }
  }

  lemma ClearRemoved(g: Config, s: State, synced: bool)
    requires Inv(g, s) && (s.phase.Clearing? || s.phase.Closing?)
    ensures Inv(g, ClearStep(s, true, synced))
  {
    var t := ClearStep(s, true, synced);
    assert t.wal.None? && t.h == s.h && t.l == s.l && t.adm == s.adm
      && (t.phase.Down? || t.phase.Committing? || t.phase.Serving?);
    ClosesWell(g, s);
    assert Live(s) && s.h.torn == [];
    hide *;
    CloseIntent(g, s, t);
    ClearedParts(g, s, t);
  }

  lemma ClearedParts(g: Config, s: State, t: State)
    requires Inv(g, s) && Live(s) && s.h.torn == [] && t.wal.None? && t.h == s.h && t.l == s.l && t.adm == s.adm
    requires t.phase.Down? || t.phase.Committing? || t.phase.Serving?
    requires IntentsInv(g.c, t) && OpenInv(g.c, t)
    ensures Inv(g, t)
  {
    hide EncodeFrames, FramesInv, CutOf, ReadIntent, IntentKept, OpenIntent, Chained, Probe, HexText, Evidence;
  }

  lemma ClearFailed(g: Config, s: State, synced: bool)
    requires Inv(g, s) && (s.phase.Clearing? || s.phase.Closing?)
    ensures Inv(g, ClearStep(s, false, synced))
  {
    hide EncodeFrames, FramesInv, CutOf, ReadIntent, IntentsInv, OpenIntent, Chained, Probe, HexText, Evidence, Sync;
    if s.phase == Clearing(true) {
      StopKeeps(g, s);
    } else {
      Carry(g, s, ClearStep(s, false, synced));
    }
  }

  lemma ClearInv(g: Config, s: State, removed: bool, synced: bool)
    requires Inv(g, s) && (s.phase.Clearing? || s.phase.Closing?)
    ensures Inv(g, ClearStep(s, removed, synced))
  {
    hide *;
    if removed {
      ClearRemoved(g, s, synced);
    } else {
      ClearFailed(g, s, synced);
    }
  }

  lemma ClosesWell(g: Config, s: State)
    requires Inv(g, s) && (s.phase.Clearing? || s.phase.Closing?)
    ensures s.wal.Some? && s.h.intents != [] && OpenIntent(g.c, s, Latest(s.h))
    ensures Latest(s.h).called && Latest(s.h).unseen ==> Latest(s.h).base < |s.h.frames|
  {
    hide EncodeFrames, FramesInv, CutOf, ReadIntent, Chained, Probe, HexText, Evidence, FileInv, ExportInv, Sync;
    var since := s.h.frames[Latest(s.h).base..];
    assert since == [] <==> Latest(s.h).base == |s.h.frames|;
  }

  // ---- the start-up frame --------------------------------------------------------------------------------

  lemma CommitStateInv(g: Config, s: State, io: Io)
    requires Inv(g, s) && s.phase.Committing?
    ensures Inv(g, CommitStateStep(g, s, io))
  {
    hide Inv, AppendStep, StatePayload, StateTag, Ready, Appended;
    var (u, ok) := AppendStep(g, s, StateTag(), StatePayload(g), io);
    assert CommitStateStep(g, s, io) == u.(phase := if ok then Serving else Down);
    ReadyNow(g, s);
    TagsNoNul();
    AppendFacts(g, s, StateTag(), StatePayload(g), io);
    StateOutcome(g, s, u, ok, StatePayload(g));
  }

  lemma StateOutcome(g: Config, s: State, u: State, ok: bool, payload: bytes)
    requires Inv(g, s) && s.phase.Committing? && Appended(g.c, s, u, ok, StateTag(), payload)
    ensures Inv(g, u.(phase := if ok then Serving else Down))
  {
    hide EncodeFrames, FramesInv, CutOf, ReadIntent, IntentKept, OpenIntent, Chained, Probe, HexText, Evidence;
    hide StateTag, ObsTag, FrameOk;
    var t := u.(phase := if ok then Serving else Down);
    if |u.h.frames| > |s.h.frames| {
      GrowState(g, s, t, payload);
    } else {
      Carry(g, s, t);
    }
  }

  // ---- a request ---------------------------------------------------------------------------------------------

  lemma IntentFits(g: Config, req: Req)
    requires ConfigOk(g) && Sendable(req.params)
    ensures IntentOk(IntentOf(g, req))
  {
    hide ValidUtf8, HexText;
    HexPlain(g.c.sha256(req.prompt));
    assert Plain(HexText(g.c.sha256(req.prompt)));
    assert IdBytesOk(g.modelId);
  }

  /** Whatever part of the intent text reached the disk, recovery can only read this hash, and it
      reads it exactly from 86 bytes on. */
  lemma WrittenIntent(g: Config, req: Req, n: nat)
    requires ConfigOk(g) && Sendable(req.params)
    ensures var text := WalText(IntentOf(g, req));
      var w := Some(text[..Min(n, |text|)]);
      && (ReadIntent(w).Some? ==> ReadIntent(w).value.hash == HexText(g.c.sha256(req.prompt)))
      && (ReadIntent(w).Some? <==> n >= 86) && |text| >= 86
      && (n >= |text| ==> Describes(g, ReadIntent(w).value, req))
  {
    hide *;
    var i := IntentOf(g, req);
    IntentFits(g, req);
    IntentFields(g, req);
    WrittenText(i, n);
  }

  lemma IntentFields(g: Config, req: Req)
    ensures Describes(g, IntentOf(g, req), req) && IntentOf(g, req).hash == HexText(g.c.sha256(req.prompt))
  {
    hide HexText;
  }

  lemma WrittenText(i: Intent, n: nat)
    requires IntentOk(i)
    ensures var text := WalText(i);
      var w := Some(text[..Min(n, |text|)]);
      && (ReadIntent(w).Some? ==> ReadIntent(w).value.hash == i.hash)
      && (ReadIntent(w).Some? <==> n >= 86) && |text| >= 86
      && (n >= |text| ==> ReadIntent(w) == Some(i))
  {
    hide WalText, Recover, IntentOk;
    var text := WalText(i);
    assert text[..|text|] == text;
    WalRoundTrip(i);
    CutIntentExact(i, text);
    CutIntentExact(i, text[..Min(n, |text|)]);
  }

  /** A new intent while none is open. */
  lemma NewIntent(g: Config, s: State, t: State, r: IntentRec)
    requires IntentsInv(g.c, s) && s.wal.None? && t.wal.Some?
    requires t.h == s.h.(intents := s.h.intents + [r])
    requires r.base == |s.h.frames| && !r.called && r.stops == 0 && t.phase != Clearing(true)
    requires r.unseen == !Probe(LastPayload(s.h.frames), HexText(r.hash))
    requires ReadIntent(t.wal).Some? ==> ReadIntent(t.wal).value.hash == HexText(r.hash)
    ensures IntentsInv(g.c, t) && OpenInv(g.c, t) && Latest(t.h) == r
  {
    hide ReadIntent, Evidence, Probe, HexText, HasEvidence, ObsCount;
    var n := |s.h.intents|;
    forall i | 0 <= i < |t.h.intents|
      ensures t.h.intents[i].base <= EndOf(t.h, i) <= |t.h.frames|
    {
      if i < n {
        assert t.h.intents[i] == s.h.intents[i];
        assert s.h.intents[i].base <= EndOf(s.h, i) <= |s.h.frames|;
      }
    }
    forall i | 0 <= i < |t.h.intents|
      ensures IntentKept(g.c, t, i)
    {
      if i < n {
        assert t.h.intents[i] == s.h.intents[i] && EndOf(t.h, i) == EndOf(s.h, i);
        assert IntentKept(g.c, s, i);
      } else {
        assert FramesOf(t.h, i) == [];
      }
    }
  }

  lemma RequestInv(g: Config, s: State, req: Req, wio: WalIo)
    requires Inv(g, s) && ConfigOk(g) && s.phase.Serving?
    requires ReqOk(g, req)
    ensures Inv(g, RequestStep(g, s, req, wio))
  {
    hide Inv, HexText, WalText, Probe, ConfigOk;
    if s.wal.None? && wio.created {
      assert Live(s);
      var t := RequestStep(g, s, req, wio);
      var text := WalText(IntentOf(g, req));
      var hash := g.c.sha256(req.prompt);
      var r := IntentRec(hash, |s.h.frames|, !Probe(s.l.last, HexText(hash)), false, 0);
      var ready := wio.n >= |text| && wio.synced;
      assert t == s.(wal := Some(text[..Min(wio.n, |text|)]), h := s.h.(intents := s.h.intents + [r]),
                     phase := if ready then IntentOpen(req) else Serving);
      hide *;
      ReadyNow(g, s);
      IntentsNow(g, s);
      WrittenIntent(g, req, wio.n);
      NewIntent(g, s, t, r);
      RequestParts(g, s, t, req, r);
    }
  }

  lemma IntentsNow(g: Config, s: State)
    requires Inv(g, s)
    ensures IntentsInv(g.c, s)
  {
  }

  lemma RequestParts(g: Config, s: State, t: State, req: Req, r: IntentRec)
    requires Inv(g, s) && Live(s) && s.wal.None? && t.wal.Some? && t.l == s.l && t.adm == s.adm
    requires t.h == s.h.(intents := s.h.intents + [r]) && IntentsInv(g.c, t) && OpenInv(g.c, t) && Latest(t.h) == r
    requires t.phase.Serving?
      || (t.phase == IntentOpen(req) && ReadIntent(t.wal).Some? && Describes(g, ReadIntent(t.wal).value, req))
    requires r.base == |s.h.frames| && r.stops == 0 && !r.called && r.hash == g.c.sha256(req.prompt)
    requires ReqOk(g, req)
    ensures Inv(g, t)
  {
    hide ReqOk, EncodeFrames, FramesInv, CutOf, ReadIntent, IntentKept, OpenIntent, Chained, Probe, HexText;
    hide Evidence, ParamsRange, Describes;
  }

  // ---- the call ------------------------------------------------------------------------------------------------

  lemma CallInv(g: Config, s: State, req: Req, reply: Reply)
    requires Inv(g, s) && s.phase == IntentOpen(req)
    ensures Inv(g, CallStep(g, s, req, reply))
  {
    hide EncodeFrames, FramesInv, CutOf, ReadIntent, Chained, Probe, HexText, Evidence, HasEvidence, ObsCount;
    hide ValidUtf8;
    var t := CallStep(g, s, req, reply);
    if t.phase.Closing? {
      hide IntentsInv, OpenIntent;
      Carry(g, s, t);
    } else {
      CalledKeeps(g, s, t);
    }
  }

  lemma CalledKeeps(g: Config, s: State, t: State)
    requires IntentsInv(g.c, s) && OpenInv(g.c, s) && s.wal.Some? && s.phase != Clearing(true)
    requires t.wal == s.wal && t.h == MarkCalled(s.h)
    ensures IntentsInv(g.c, t) && OpenInv(g.c, t)
    ensures Latest(t.h) == Latest(s.h).(called := true)
  {
    hide ReadIntent, Evidence, Probe, HexText, HasEvidence, ObsCount;
    assert forall i :: 0 <= i < |t.h.intents| ==> EndOf(t.h, i) == EndOf(s.h, i);
    forall i | 0 <= i < |t.h.intents|
      ensures IntentKept(g.c, t, i)
    {
      assert IntentKept(g.c, s, i);
      assert FramesOf(t.h, i) == FramesOf(s.h, i);
    }
  }

  // ---- the observation of a call ------------------------------------------------------------------------------------

  /** The record of the call is in the file: its payload names the input hash. */
  lemma CallFrame(g: Config, s: State, t: State, ok: bool, req: Req, r: Record)
    requires Inv(g, s) && s.phase.Answered? && s.phase.req == req
    requires WellRecorded(g.c, r) && r.ledgerSeq == |s.h.frames| + 1 && r.inputHash == g.c.sha256(req.prompt)
    requires Appended(g.c, s.(adm := Ctx(true, |s.h.frames| + 1)), t, ok, ObsTag(), Canon(r, true))
    requires |t.h.frames| > |s.h.frames|
    ensures Inv(g, t.(phase := if ok then Closing else Serving))
  {
    NamesHash(r);
    hide EncodeFrames, CutOf, ReadIntent, Chained, Probe, HexText, Evidence, ObsTag, StateTag, WellRecorded, Canon;
    hide Synth, FramesInv, HasEvidence, ObsCount, FrameOk;
    SyncFacts(g.c, s);
    GrowObs(g, s, t, r);
    var u := t.(phase := if ok then Closing else Serving);
    hide IntentsInv;
    Carry2(g, t, u);
    assert FileInv(g.c, u);
    assert OpenIntent(g.c, u, Latest(u.h));
  }

  lemma NamesHash(r: Record)
    ensures Probe(Canon(r, true), HexText(r.inputHash))
  {
    hide TextWith, Contains;
    ContainsInputHash(r, r.obsHash);
  }

  lemma CallOutcome(g: Config, s: State, t: State, ok: bool, req: Req)
    requires s.phase.Answered? && s.phase.req == req && s.l.chain.seq_ == |s.h.frames|
    requires Committed(g, s, t, ok, req.prompt) && Inv(g, s)
    ensures Inv(g, t.(phase := if ok then Closing else Serving))
    ensures !ok ==> t == s || t.adm == Ctx(true, t.l.chain.seq_ + 1)
  {
    hide EncodeFrames, FramesInv, CutOf, IntentsInv, OpenIntent, Chained, Probe, HexText, Evidence, ObsTag;
    hide StateTag, WellRecorded, Canon, ReadIntent, Sync, FrameOk;
    var u := t.(phase := if ok then Closing else Serving);
    if t == s && !ok {
      Carry(g, s, u);
    } else {
      var r :| WellRecorded(g.c, r) && r.ledgerSeq == |s.h.frames| + 1 && r.inputHash == g.c.sha256(req.prompt)
            && Appended(g.c, s.(adm := Ctx(true, |s.h.frames| + 1)), t, ok, ObsTag(), Canon(r, true));
      if |t.h.frames| > |s.h.frames| {
        CallFrame(g, s, t, ok, req, r);
      } else {
        NoFrame(g, s, u);
      }
    }
  }

  lemma PendingRequest(g: Config, s: State)
    requires Inv(g, s) && s.phase.Answered?
    ensures s.phase.req.prompt != [] && ParamsRange(s.phase.req.params)
  {
    hide ParamsRange;
  }

  lemma CommitInv(g: Config, s: State, req: Req, reply: Reply, io1: Io, io2: Io)
    requires Inv(g, s) && s.phase == Answered(req, reply)
    ensures Inv(g, CommitStep(g, s, req, reply, io1, io2))
  {
    hide Inv, Committed, CommitObs, OutcomeOf, Ready, ParamsRange;
    ReadyNow(g, s);
    var o := OutcomeOf(reply);
    PendingRequest(g, s);
    var (t, ok) := CommitObs(g, s, o.state, o.failure, req.prompt, o.output, req.params, io1);
    CommitObsFacts(g, s, o.state, o.failure, req.prompt, o.output, req.params, io1);
    CallOutcome(g, s, t, ok, req);
    if !ok && o.state != ERROR {
      if t == s {
        CommitObsFacts(g, s, ERROR, INVALID_OUTPUT, req.prompt, [], req.params, io2);
        var (u, ok2) := CommitObs(g, s, ERROR, INVALID_OUTPUT, req.prompt, [], req.params, io2);
        CallOutcome(g, s, u, ok2, req);
      } else {
        SecondRefused(g, t, ERROR, INVALID_OUTPUT, req.prompt, [], req.params, io2);
      }
    }
  }

  // ---- every event, every run ---------------------------------------------------------------------------------------

  lemma ActInv(g: Config, s: State, e: Event)
    requires Inv(g, s) && ConfigOk(g)
    ensures Inv(g, Act(g, s, e))
  {
    hide Inv, ConfigOk, CrashStep, StartStep, EnableStep, RecoverStep, ClearStep, CommitStateStep, RequestStep;
    hide CallStep, CommitStep, CheckRequest;
    match e
    case Other(_, _) =>
    case Crash => CrashInv(g, s);
    case Start => if s.phase.Down? { StartInv(g, s); }
    case EnableCopy(made, n, synced) => if s.phase.Opened? { EnableInv(g, s, made, n, synced); }
    case RecoverIntent(io) => if s.phase.Recovering? { RecoverInv(g, s, io); }
    case Clear(removed, synced) =>
      if s.phase.Clearing? || s.phase.Closing? {
        ClearInv(g, s, removed, synced);
      } else {
        ClearIdle(s, removed, synced);
      }
    case CommitState(io) => if s.phase.Committing? { CommitStateInv(g, s, io); }
    case Request(prompt, maxTokens, temperature, topP, wio) =>
      var r := CheckRequest(g, s, prompt, maxTokens, temperature, topP);
      if s.phase.Serving? && r.Some? { RequestInv(g, s, r.value, wio); }
    case Call(reply) => if s.phase.IntentOpen? { CallInv(g, s, s.phase.req, reply); }
    case Commit(io1, io2) => if s.phase.Answered? { CommitInv(g, s, s.phase.req, s.phase.reply, io1, io2); }
  }

  lemma ClearIdle(s: State, removed: bool, synced: bool)
    requires !s.phase.Clearing? && !s.phase.Closing?
    ensures ClearStep(s, removed, synced) == s
  {
  }

  lemma {:induction false} LifeInv(g: Config, s: State, es: seq<Event>)
    requires Inv(g, s) && ConfigOk(g)
    ensures Inv(g, Life(g, s, es))
    decreases |es|
  {
    hide Inv, ConfigOk, Act;
    if es != [] {
      ActInv(g, s, es[0]);
      LifeInv(g, Act(g, s, es[0]), es[1..]);
    }
  }

  /** While no process is up, the invariant does not depend on the configuration. */
  lemma DownInv(g: Config, k: Config, s: State)
    requires Inv(g, s) && s.phase.Down? && k.c == g.c
    ensures Inv(k, s)
  {
    hide FileInv, IntentsInv, ExportInv, OpenIntent, Sync;
  }

  lemma OtherInv(g: Config, s: State, u: Setup, es: seq<Event>)
    requires Inv(g, s) && s.phase.Down? && ConfigOk(With(g, u))
    ensures Inv(g, CrashStep(Life(With(g, u), s, es)))
  {
    hide Inv, ConfigOk, Life;
    var k := With(g, u);
    DownInv(g, k, s);
    LifeInv(k, s, es);
    CrashInv(k, Life(k, s, es));
    DownInv(k, g, CrashStep(Life(k, s, es)));
  }

  lemma StepInv(g: Config, s: State, e: Event)
    requires Inv(g, s) && ConfigOk(g)
    ensures Inv(g, Step(g, s, e))
  {
    hide Inv, ConfigOk, Act, Life, CrashStep, With;
    if e.Other? {
      if s.phase.Down? && ConfigOk(With(g, e.setup)) {
        OtherInv(g, s, e.setup, e.es);
      }
    } else {
      ActInv(g, s, e);
    }
  }

  lemma {:induction false} RunInv(g: Config, s: State, es: seq<Event>)
    requires Inv(g, s) && ConfigOk(g)
    ensures Inv(g, Run(g, s, es))
    decreases |es|
  {
    hide Inv, ConfigOk, Step;
    if es != [] {
      StepInv(g, s, es[0]);
      RunInv(g, Step(g, s, es[0]), es[1..]);
    }
  }
}
