/** Safety over whole runs: every sequence of start attempts, requests, oracle outcomes, failed
    writes, crashes and restarts. */
module GatewayTheorems {
  import opened Bytes
  import opened Utf8
  import opened Numbers
  import opened Canonical
  import opened Substrate
  import opened Obs
  import opened Frames
  import opened DurableLedger
  import opened Wal
  import opened Gateway
  import opened GatewayInv
  import opened GatewaySteps
  import opened GatewayEvents
  import opened GatewayHistory

  /** The state after these events, from empty disks. */
  function Reach(g: Config, es: seq<Event>): State {
    Run(g, Init(), es)
  }

  lemma Reached(g: Config, es: seq<Event>)
    requires ConfigOk(g)
    ensures Inv(g, Reach(g, es)) && Probed(Reach(g, es).h)
  {
    InitInv(g);
    assert Probed(Init().h);
    hide Inv, ConfigOk, Run, Probed, Init;
    RunInv(g, Init(), es);
    RunProbed(g, Init(), es);
  }

  // ---- evidence ------------------------------------------------------------------------------------

  /** Every oracle call whose intent is closed has an observation frame of its own, provided
      its input hash did not occur in the chain's last payload when the intent was written. */
  lemma EveryCallEvidenced(g: Config, es: seq<Event>, i: nat)
    requires ConfigOk(g) && i < |Reach(g, es).h.intents|
    ensures var s := Reach(g, es);
      var r := s.h.intents[i];
      && Ordered(s.h)
      && (Closed(s, i) && r.called && !Probe(LastPayload(s.h.frames[..r.base]), HexText(r.hash))
          ==> HasEvidence(g.c, FramesOf(s.h, i), r.hash))
  {
    hide Run, HasEvidence, Probe, HexText, LastPayload, ObsCount, ConfigOk, FileInv, OpenInv, PhaseInv, ExportInv;
    Reached(g, es);
    var s := Reach(g, es);
    assert IntentKept(g.c, s, i);
    assert ProbedAt(s.h, s.h.intents[i]);
  }

  /** One intent produces at most one observation frame, plus one for each start attempt that
      stopped after its recovery frame reached the file and before the intent was cleared. */
  lemma ObservationsBounded(g: Config, es: seq<Event>, i: nat)
    requires ConfigOk(g) && i < |Reach(g, es).h.intents|
    ensures var s := Reach(g, es);
      Ordered(s.h) && ObsCount(FramesOf(s.h, i)) <= 1 + s.h.intents[i].stops
  {
    hide Run, HasEvidence, ObsCount, ConfigOk, FileInv, OpenInv, PhaseInv, ExportInv;
    Reached(g, es);
    assert IntentKept(g.c, Reach(g, es), i);
  }

  /** A call is made only under an intent of its own that is complete on disk and carries the
      hash of the very prompt that is sent; the body for it can always be built. */
  lemma CallHasItsIntent(g: Config, es: seq<Event>, reply: Reply)
    requires ConfigOk(g) && Reach(g, es).phase.IntentOpen?
    ensures var s := Reach(g, es);
      var t := Step(g, s, Call(reply));
      && s.h.intents != [] && t.calls == s.calls + 1
      && ReadIntent(s.wal).Some? && ReadIntent(s.wal).value.hash == HexText(g.c.sha256(s.phase.req.prompt))
      && var i := |s.h.intents| - 1;
         && !s.h.intents[i].called && s.h.intents[i].hash == g.c.sha256(s.phase.req.prompt)
         && t.h == s.h.(intents := s.h.intents[i := s.h.intents[i].(called := true)])
  {
    hide Run, Probe, HexText, FileInv, IntentsInv, ExportInv, ValidUtf8, Evidence, Recover;
    Reached(g, es);
  }

  // ---- the frame file --------------------------------------------------------------------------------

  /** In every reachable state the file is whole valid frames and at most one strict prefix of
      a further frame: part of an observation only under a readable intent, part of the start-up
      frame only without one. */
  lemma FileShape(g: Config, es: seq<Event>)
    requires ConfigOk(g)
    ensures var s := Reach(g, es);
      && FramesOk(g.c, s.h.frames) && s.l.file == EncodeFrames(s.h.frames, s.h.torn)
      && (s.h.torn != [] ==> CutOf(g.c, s.h.torn, if s.wal.None? then StateTag() else ObsTag()))
      && (s.h.torn != [] && s.wal.Some? ==> ReadIntent(s.wal).Some?)
  {
    hide Run, CutOf, EncodeFrames, StateTag, ObsTag, ReadIntent, IntentsInv, OpenInv, PhaseInv, ExportInv, StoredAt;
    hide FrameOk;
    Reached(g, es);
  }

  /** After a torn append nothing happens any more until the process is restarted. */
  lemma TornStops(g: Config, es: seq<Event>, e: Event)
    requires ConfigOk(g) && Reach(g, es).h.torn != [] && !e.Crash? && !e.Start? && !e.Other?
    ensures Step(g, Reach(g, es), e) == Reach(g, es)
  {
    hide Run, FileInv, IntentsInv, OpenInv, ExportInv, CheckRequest, CommitStep, RecoverStep, CommitStateStep;
    hide EnableStep, CallStep;
    Reached(g, es);
    var s := Reach(g, es);
    assert s.phase.Down? || (s.phase.Serving? && s.wal.Some?);
  }

  /** `ax_ledger_append` raises no fault. */
  ghost predicate LinkTotal(c: Crypto) {
    forall h, d :: c.link(h, d).Some?
  }

  lemma {:induction false} ChainTotal(c: Crypto, a: Replayed, fs: seq<Frame>)
    requires LinkTotal(c)
    ensures AdvanceAll(c, a, fs).Some?
    decreases |fs|
  {
    if fs != [] {
      assert c.link(a.chain.head, fs[0].commit).Some?;
      hide EncodeFrame;
      ChainTotal(c, Advance(c, a, fs[0]).value, fs[1..]);
    }
  }

  /** Replay at a start refuses exactly when the start-up frame itself was torn; otherwise it
      recovers every frame, the head, the sequence and the last payload, and cuts the file to
      the whole frames. */
  lemma RestartExact(g: Config, es: seq<Event>)
    requires ConfigOk(g) && LinkTotal(g.c) && Reach(g, es).phase.Down?
    ensures var s := Reach(g, es);
      var t := Step(g, s, Start);
      && (t.phase.Down? <==> s.h.torn != [] && s.wal.None?)
      && (t.phase.Down? ==> t == s && CutOf(g.c, s.h.torn, StateTag()))
      && (!t.phase.Down? ==>
            && t.phase.Opened? && t.wal == s.wal && t.h == s.h.(torn := []) && Sync(g.c, t)
            && t.l.file == EncodeFrames(s.h.frames, []) && t.l.chain.seq_ == |s.h.frames|)
  {
    hide Run, CutOf, EncodeFrames, StateTag, ObsTag, Recover, IntentsInv, OpenInv, PhaseInv, ExportInv, FramesInv;
    hide Open, AdvanceAll;
    Reached(g, es);
    var s := Reach(g, es);
    OpenFacts(g, s);
    ChainTotal(g.c, Genesis(g.c), s.h.frames);
    ChainedFacts(g.c, s.h.frames);
  }

  // ---- sequence numbers ---------------------------------------------------------------------------------

  /** Across all restarts and truncations the observation stored as the k-th frame carries
      ledger_seq = k, though the admission context is reset at each start. */
  lemma SequenceIsPlace(g: Config, es: seq<Event>, k: nat, r: Record)
    requires ConfigOk(g) && k < |Reach(g, es).h.frames|
    requires Stores(g.c, Reach(g, es).h.frames[k], r)
    ensures r.ledgerSeq == k + 1
  {
    hide Run, IntentsInv, OpenInv, PhaseInv, ExportInv, FramesOk, WellRecorded, Canon, ObsTag, StateTag;
    Reached(g, es);
    TagsNoNul();
    var f := Reach(g, es).h.frames[k];
    assert StoredAt(g.c, f, k + 1);
    var q :| Stores(g.c, f, q) && q.ledgerSeq == k + 1;
    StoresUnique(g.c, f, q, r);
  }

  /** Every frame with the observation tag stores a record, and later ones carry larger
      sequence numbers. */
  lemma SequenceIncreases(g: Config, es: seq<Event>, j: nat, k: nat)
    requires ConfigOk(g) && j < k < |Reach(g, es).h.frames|
    requires Reach(g, es).h.frames[j].tag == ObsTag() && Reach(g, es).h.frames[k].tag == ObsTag()
    ensures var fs := Reach(g, es).h.frames;
      exists a, b :: Stores(g.c, fs[j], a) && Stores(g.c, fs[k], b) && a.ledgerSeq < b.ledgerSeq
  {
    hide Run, IntentsInv, OpenInv, PhaseInv, ExportInv, FramesOk, WellRecorded, Canon, ObsTag, StateTag, Stores;
    Reached(g, es);
    TagsNoNul();
    var fs := Reach(g, es).h.frames;
    assert StoredAt(g.c, fs[j], j + 1) && StoredAt(g.c, fs[k], k + 1);
    var a :| Stores(g.c, fs[j], a) && a.ledgerSeq == j + 1;
    var b :| Stores(g.c, fs[k], b) && b.ledgerSeq == k + 1;
  }

  /** Frames are never lost: the bytes of the frames that a run has stored stay at the head of the
      file in every longer run, through failed appends, truncations and restarts. */
  lemma FramesDurable(g: Config, es: seq<Event>, later: seq<Event>)
    requires ConfigOk(g)
    ensures EncodeFrames(Reach(g, es).h.frames, []) <= Reach(g, es + later).l.file
  {
    hide *;
    var fs, t := Reach(g, es).h.frames, Reach(g, es + later);
    RunConcat(g, Init(), es, later);
    RunGrows(g, Run(g, Init(), es), later);
    ReachIs(g, es);
    ReachIs(g, es + later);
    GrowsFrames(Reach(g, es).h, t.h);
    FileShape(g, es + later);
    EncodedPrefix(fs, t.h.frames, t.h.torn);
  }

  lemma ReachIs(g: Config, es: seq<Event>)
    ensures Reach(g, es) == Run(g, Init(), es)
  {
    hide Run;
  }

  lemma GrowsFrames(h: History, k: History)
    requires Grows(h, k)
    ensures h.frames <= k.frames
  {
  }

  lemma {:induction false} EncodedPrefix(fs: seq<Frame>, gs: seq<Frame>, p: bytes)
    requires fs <= gs
    ensures EncodeFrames(fs, []) <= EncodeFrames(gs, p)
    decreases |fs|
  {
    if fs != [] {
      hide EncodeFrame;
      EncodedPrefix(fs[1..], gs[1..], p);
      EncodeFrameAppend(fs[0], EncodeFrames(fs[1..], []));
      EncodeFrameAppend(fs[0], EncodeFrames(gs[1..], p));
    }
  }

  lemma {:induction false} RunConcat(g: Config, s: State, a: seq<Event>, b: seq<Event>)
    ensures Run(g, s, a + b) == Run(g, Run(g, s, a), b)
    decreases |a|
  {
    hide Step;
    if a == [] {
      assert a + b == b;
    } else {
      assert (a + b)[1..] == a[1..] + b;
      RunConcat(g, Step(g, s, a[0]), a[1..], b);
    }
  }

  // ---- the export -------------------------------------------------------------------------------------------

  /** The export is a byte prefix of the primary in every state, and equal to it while it is
      active and no append of the process has failed. */
  lemma ExportIsPrefix(g: Config, es: seq<Event>)
    requires ConfigOk(g)
    ensures var s := Reach(g, es);
      s.l.exported <= s.l.file && (s.l.exportOn && InStep(s) ==> s.l.exported == s.l.file)
  {
    hide Run, EncodeFrames, FramesInv, CutOf, IntentsInv, OpenInv, PhaseInv;
    Reached(g, es);
    var s := Reach(g, es);
    EncodeFramesAppend(s.h.frames, s.h.torn);
  }

  /** A process that may still append has seen no append fail: it holds the number of the frames in
      the file, the last payload, and the head that links every commitment back to genesis. */
  lemma LiveInStep(g: Config, es: seq<Event>)
    requires ConfigOk(g) && Live(Reach(g, es))
    ensures var s := Reach(g, es);
      && InStep(s) && Sync(g.c, s) && s.l.file == EncodeFrames(s.h.frames, [])
      && s.l.chain.seq_ == |s.h.frames| && s.l.last == LastPayload(s.h.frames)
      && HeadOf(g.c, s.h.frames) == Some(s.l.chain.head)
  {
    hide Run, FramesInv, CutOf, IntentsInv, OpenInv, ExportInv, Chained, EncodeFrames, HeadOf, LastPayload;
    Reached(g, es);
    SyncFacts(g.c, Reach(g, es));
    HeadExact(g.c, Reach(g, es).h.frames);
  }
}
