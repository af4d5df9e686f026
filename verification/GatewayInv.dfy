/** What every step of the gateway keeps. */
module GatewayInv {
  import opened Bytes
  import opened Utf8
  import opened Normalise
  import opened Numbers
  import opened Canonical
  import opened Substrate
  import opened Obs
  import opened Frames
  import opened DurableLedger
  import opened Wal
  import opened RequestBody
  import opened Gateway
  import RecordParser
  import ObsRules

  // ---- frames ------------------------------------------------------------------------------------

  /** The frame stores exactly this well-formed record. */
  predicate Stores(c: Crypto, f: Frame, r: Record) {
    f.tag == ObsTag() && f.payload == Canon(r, true) && WellRecorded(c, r)
  }

  /** An observation in place `k`, counted from 1, carries sequence number `k`. */
  ghost predicate StoredAt(c: Crypto, f: Frame, k: nat) {
    f.tag == StateTag() || exists r :: Stores(c, f, r) && r.ledgerSeq == k
  }

  /** The frame is an observation of the call with that input hash: the record of the call
      itself, or the recovery record that names the hash. */
  ghost predicate Evidence(c: Crypto, f: Frame, hash: Digest) {
    exists r :: Stores(c, f, r) && (r.inputHash == hash || r.inputHash == c.sha256(Synth(HexText(hash))))
  }

  ghost predicate FramesInv(c: Crypto, fs: seq<Frame>) {
    FramesOk(c, fs) && forall k :: 0 <= k < |fs| ==> StoredAt(c, fs[k], k + 1)
  }

  function LastPayload(fs: seq<Frame>): bytes {
    if fs == [] then [] else fs[|fs| - 1].payload
  }

  function ObsCount(fs: seq<Frame>): (n: nat)
    ensures n <= |fs|
  {
    if fs == [] then 0
    else ObsCount(fs[..|fs| - 1]) + if fs[|fs| - 1].tag == ObsTag() then 1 else 0
  }

  /** Part of a frame with that tag. */
  ghost predicate CutOf(c: Crypto, p: bytes, tag: bytes) {
    exists f :: FrameOk(c, f) && f.tag == tag && p <= EncodeFrame(f, []) && |p| < |EncodeFrame(f, [])|
  }

  /** Whole frames, and at most one part of a frame: of an observation while an intent that
      can be read is open, of the start-up frame when there is no intent. */
  ghost predicate FileInv(c: Crypto, s: State) {
    && s.l.file == EncodeFrames(s.h.frames, s.h.torn)
    && FramesInv(c, s.h.frames)
    && (s.h.torn != [] ==>
          if s.wal.None? then CutOf(c, s.h.torn, StateTag())
          else CutOf(c, s.h.torn, ObsTag()) && ReadIntent(s.wal).Some?)
  }

  /** The process knows exactly what is in the file. */
  predicate Sync(c: Crypto, s: State) {
    && s.h.torn == []
    && Chained(c, s.h.frames).Some?
    && s.l.chain == Chained(c, s.h.frames).value.chain
    && s.l.last == Chained(c, s.h.frames).value.last
  }

  // ---- intents -------------------------------------------------------------------------------------

  /** The frames written while intent `i` was the latest. */
  function FramesOf(h: History, i: nat): (r: seq<Frame>)
    requires i < |h.intents| && Ordered(h)
  {
    h.frames[h.intents[i].base..EndOf(h, i)]
  }

  function EndOf(h: History, i: nat): int
    requires i < |h.intents|
  {
    if i + 1 < |h.intents| then h.intents[i + 1].base else |h.frames|
  }

  predicate Ordered(h: History) {
    forall i :: 0 <= i < |h.intents| ==> h.intents[i].base <= EndOf(h, i) <= |h.frames|
  }

  ghost predicate HasEvidence(c: Crypto, fs: seq<Frame>, hash: Digest) {
    exists k :: 0 <= k < |fs| && Evidence(c, fs[k], hash)
  }

  /** An intent is closed when a later one exists or its file is gone. */
  predicate Closed(s: State, i: nat) {
    i + 1 < |s.h.intents| || s.wal.None?
  }

  /** The obligation towards intent `i`. */
  ghost predicate IntentKept(c: Crypto, s: State, i: nat)
    requires i < |s.h.intents| && Ordered(s.h)
  {
    var r := s.h.intents[i];
    && ObsCount(FramesOf(s.h, i)) <= 1 + r.stops
    && (Closed(s, i) && r.called && r.unseen ==> HasEvidence(c, FramesOf(s.h, i), r.hash))
  }

  ghost predicate IntentsInv(c: Crypto, s: State) {
    Ordered(s.h) && forall i :: 0 <= i < |s.h.intents| ==> IntentKept(c, s, i)
  }

  /** While the intent file exists it belongs to the latest intent `r`, every frame since is
      its evidence, and recovery will not write one more than it should. */
  ghost predicate OpenIntent(c: Crypto, s: State, r: IntentRec)
    requires r.base <= |s.h.frames|
  {
    var since := s.h.frames[r.base..];
    && (ReadIntent(s.wal).Some? ==> ReadIntent(s.wal).value.hash == HexText(r.hash))
    && (forall k :: 0 <= k < |since| ==> Evidence(c, since[k], r.hash))
    && |since| <= r.stops + 1
    && (since == [] ==> r.unseen == !Probe(LastPayload(s.h.frames), HexText(r.hash)))
    && (|since| == r.stops + 1 && s.phase != Clearing(true) ==> Probe(LastPayload(s.h.frames), HexText(r.hash)))
  }

  ghost predicate OpenInv(c: Crypto, s: State)
    requires Ordered(s.h)
  {
    s.wal.Some? ==> s.h.intents != [] && OpenIntent(c, s, Latest(s.h))
  }

  function Latest(h: History): (r: IntentRec)
    requires h.intents != [] && Ordered(h)
    ensures r.base <= |h.frames|
  {
    h.intents[|h.intents| - 1]
  }

  // ---- phases ---------------------------------------------------------------------------------------

  predicate AdmOk(s: State) {
    s.adm.initialized ==> s.adm.last <= |s.h.frames|
  }

  /** A request in flight: its intent is the latest, complete on disk, with no frame yet. */
  predicate Pending(g: Config, s: State, req: Req)
    requires Ordered(s.h)
  {
    && s.wal.Some? && ReadIntent(s.wal).Some? && Describes(g, ReadIntent(s.wal).value, req) && s.h.intents != []
    && Latest(s.h).base == |s.h.frames| && Latest(s.h).stops == 0
    && Latest(s.h).hash == g.c.sha256(req.prompt)
    && ReqOk(g, req)
  }

  /** What `handle_request` has made sure of before it writes the intent. */
  predicate ReqOk(g: Config, req: Req) {
    && req.prompt != [] && ValidUtf8(req.prompt) && |req.prompt| <= g.maxPrompt
    && ParamsRange(req.params) && Sendable(req.params) && req.params.seed == NULL_INT64
  }

  /** The intent is that of this request, field by field. */
  predicate Describes(g: Config, i: Intent, req: Req) {
    && i.hash == HexText(g.c.sha256(req.prompt)) && i.modelId == g.modelId
    && i.maxTokens == req.params.maxTokens && i.seed == -1
    && i.temperature == req.params.temperature && i.topP == req.params.topP
  }

  /** Is the process one that may still append? */
  predicate Live(s: State) {
    !s.phase.Down? && !(s.phase.Serving? && s.wal.Some?)
  }

  predicate PhaseInv(g: Config, s: State)
    requires Ordered(s.h)
  {
    && (Live(s) ==> Sync(g.c, s) && AdmOk(s))
    && (match s.phase
        case Clearing(own) =>
          && s.wal.Some? && s.h.intents != []
          && (own ==> Latest(s.h).base < |s.h.frames|)
          && (!own ==> Probe(LastPayload(s.h.frames), HexText(Latest(s.h).hash)))
        case Committing => s.wal.None?
        case IntentOpen(req) => Pending(g, s, req) && !Latest(s.h).called
        case Answered(req, reply) => Pending(g, s, req) && !reply.AllocFail?
        case Closing =>
          && s.wal.Some? && s.h.intents != [] && Latest(s.h).stops == 0
          && (Latest(s.h).called ==> Latest(s.h).base < |s.h.frames|)
        case _ => true)
  }

  /** No append of this process has failed: it counts the frames that are in the file. */
  predicate InStep(s: State) {
    !s.phase.Down? && s.h.torn == [] && s.l.chain.seq_ == |s.h.frames|
  }

  /** The export is a prefix of the whole frames; while no append has failed, an active
      export is all of them. */
  predicate ExportInv(s: State) {
    && s.l.exported <= EncodeFrames(s.h.frames, [])
    && (s.l.exportOn && InStep(s) ==> s.l.exported == EncodeFrames(s.h.frames, []))
  }

  ghost predicate Inv(g: Config, s: State) {
    && FileInv(g.c, s) && IntentsInv(g.c, s) && OpenInv(g.c, s) && PhaseInv(g, s) && ExportInv(s)
  }

  lemma InitInv(g: Config)
    ensures Inv(g, Init())
  {
  }

  // ---- small facts -------------------------------------------------------------------------------------

  lemma SyncFacts(c: Crypto, s: State)
    requires Sync(c, s)
    ensures s.l.chain.seq_ == |s.h.frames| && s.l.last == LastPayload(s.h.frames)
  {
    ChainedFacts(c, s.h.frames);
  }

  lemma ObsCountSnoc(fs: seq<Frame>, f: Frame)
    ensures ObsCount(fs + [f]) == ObsCount(fs) + if f.tag == ObsTag() then 1 else 0
  {
    assert (fs + [f])[..|fs|] == fs;
  }

  lemma CutIsTail(c: Crypto, p: bytes, tag: bytes)
    requires CutOf(c, p, tag)
    ensures TornTail(c, p)
  {
    hide FrameOk, EncodeFrame;
    var f :| FrameOk(c, f) && f.tag == tag && p <= EncodeFrame(f, []) && |p| < |EncodeFrame(f, [])|;
  }

  lemma FileTail(c: Crypto, s: State)
    requires FileInv(c, s)
    ensures TornTail(c, s.h.torn)
  {
    hide CutOf, TornTail;
    TailNil(c);
    if s.h.torn != [] {
      CutIsTail(c, s.h.torn, if s.wal.None? then StateTag() else ObsTag());
    }
  }

  lemma TailNil(c: Crypto)
    ensures TornTail(c, [])
  {
  }

  /** A record read back from its text is unique, so evidence and sequence number speak of
      one record. */
  lemma StoresUnique(c: Crypto, f: Frame, a: Record, b: Record)
    requires Stores(c, f, a) && Stores(c, f, b)
    ensures a == b
  {
    ObsRules.WellRecordedReadable(c, a);
    ObsRules.WellRecordedReadable(c, b);
    RecordParser.CanonInjective(a, b);
  }
}
