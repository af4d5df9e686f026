/** What the history of a run does over time: frames are only ever added, and an intent keeps
    its hash, its place and what the probe said when it was written. */
module GatewayHistory {
  import opened Bytes
  import opened Numbers
  import opened Canonical
  import opened Substrate
  import opened Obs
  import opened Frames
  import opened DurableLedger
  import opened Wal
  import opened Gateway
  import opened GatewayInv
  import opened GatewayEvents

  /** The same intent, later. */
  predicate Later(a: IntentRec, b: IntentRec) {
    && b.hash == a.hash && b.base == a.base && b.unseen == a.unseen
    && (a.called ==> b.called) && a.stops <= b.stops
  }

  predicate Grows(h: History, k: History) {
    && h.frames <= k.frames && |h.intents| <= |k.intents|
    && forall i :: 0 <= i < |h.intents| ==> Later(h.intents[i], k.intents[i])
  }

  lemma GrowsTrans(a: History, b: History, c: History)
    requires Grows(a, b) && Grows(b, c)
    ensures Grows(a, c)
  {
    forall i | 0 <= i < |a.intents|
      ensures Later(a.intents[i], c.intents[i])
    {
      assert Later(a.intents[i], b.intents[i]) && Later(b.intents[i], c.intents[i]);
    }
  }

  lemma TrackGrows(c: Crypto, h: History, tag: bytes, payload: bytes, io: Io)
    ensures Grows(h, Track(c, h, tag, payload, io))
    ensures Track(c, h, tag, payload, io).intents == h.intents
    ensures |Track(c, h, tag, payload, io).frames| <= |h.frames| + 1
  {
    hide EncodeFrame;
  }

  lemma AppendGrows(g: Config, s: State, tag: bytes, payload: bytes, io: Io)
    ensures Grows(s.h, AppendStep(g, s, tag, payload, io).0.h)
    ensures AppendStep(g, s, tag, payload, io).0.h.intents == s.h.intents
    ensures |AppendStep(g, s, tag, payload, io).0.h.frames| <= |s.h.frames| + 1
  {
    hide Track, Append, Grows;
    TrackGrows(g.c, s.h, tag, payload, io);
  }

  lemma CommitGrows(g: Config, s: State, state: int, failure: int, prompt: bytes, output: bytes, params: Params, io: Io)
    ensures var t := CommitObs(g, s, state, failure, prompt, output, params, io).0;
      Grows(s.h, t.h) && t.h.intents == s.h.intents && |t.h.frames| <= |s.h.frames| + 1
  {
    hide AdmitRc, Seal, Draft, ValidateRc, Canon, AppendStep, ObsTag;
    var x := ObsInput(g, s, state, failure, prompt, output, params);
    if Seal(g.c, Draft(g.c, x)).Some? {
      var t := s.(adm := Ctx(true, x.ledgerSeq));
      AppendGrows(g, t, ObsTag(), Canon(Seal(g.c, Draft(g.c, x)).value, true), io);
    }
  }

  /** A commit is at most two attempts. */
  lemma CommitStepGrows(g: Config, s: State, req: Req, reply: Reply, io1: Io, io2: Io)
    ensures var t := CommitStep(g, s, req, reply, io1, io2);
      Grows(s.h, t.h) && t.h.intents == s.h.intents && |t.h.frames| <= |s.h.frames| + 2
  {
    hide CommitObs, OutcomeOf, Grows;
    var o := OutcomeOf(reply);
    var t := CommitObs(g, s, o.state, o.failure, req.prompt, o.output, req.params, io1).0;
    CommitGrows(g, s, o.state, o.failure, req.prompt, o.output, req.params, io1);
    CommitGrows(g, t, ERROR, INVALID_OUTPUT, req.prompt, [], req.params, io2);
    GrowsTrans(s.h, t.h, CommitObs(g, t, ERROR, INVALID_OUTPUT, req.prompt, [], req.params, io2).0.h);
  }

  lemma RecoverStepGrows(g: Config, s: State, io: Io)
    ensures var t := RecoverStep(g, s, io);
      Grows(s.h, t.h) && |t.h.intents| == |s.h.intents| && |t.h.frames| <= |s.h.frames| + 1
  {
    hide CommitObs, ReadIntent, Probe, Synth;
    if s.wal.Some? && ReadIntent(s.wal).Some? {
      var i := ReadIntent(s.wal).value;
      CommitGrows(g, s, ERROR, TRANSPORT_ERROR, Synth(i.hash), [], RecoveryParams(i), io);
    }
  }

  /** No event of a process removes a frame or rewrites an intent; only a request adds an intent. */
  lemma ActGrows(g: Config, s: State, e: Event)
    ensures Grows(s.h, Act(g, s, e).h) && |Act(g, s, e).h.frames| <= |s.h.frames| + 2
    ensures !e.Request? ==> |Act(g, s, e).h.intents| == |s.h.intents|
  {
    hide CommitStep, RecoverStep, AppendStep, CheckRequest, Open, EnableExport, StateTag, StatePayload, WalText;
    hide Probe, HexText;
    match e
    case RecoverIntent(io) => RecoverStepGrows(g, s, io);
    case CommitState(io) => AppendGrows(g, s, StateTag(), StatePayload(g), io);
    case Commit(io1, io2) =>
      if s.phase.Answered? { CommitStepGrows(g, s, s.phase.req, s.phase.reply, io1, io2); }
    case _ =>
  }

  lemma {:induction false} LifeGrows(g: Config, s: State, es: seq<Event>)
    ensures Grows(s.h, Life(g, s, es).h)
    decreases |es|
  {
    hide Act;
    if es != [] {
      ActGrows(g, s, es[0]);
      LifeGrows(g, Act(g, s, es[0]), es[1..]);
      GrowsTrans(s.h, Act(g, s, es[0]).h, Life(g, s, es).h);
    }
  }

  lemma CrashGrows(s: State)
    ensures Grows(s.h, CrashStep(s).h)
  {
  }

  /** No event, under whatever configuration, removes a frame or rewrites an intent. */
  lemma StepGrows(g: Config, s: State, e: Event)
    ensures Grows(s.h, Step(g, s, e).h)
    ensures !e.Other? ==> |Step(g, s, e).h.frames| <= |s.h.frames| + 2
  {
    hide Act, Life, CrashStep, ConfigOk, With;
    if e.Other? {
      var t := Life(With(g, e.setup), s, e.es);
      LifeGrows(With(g, e.setup), s, e.es);
      CrashGrows(t);
      GrowsTrans(s.h, t.h, CrashStep(t).h);
    } else {
      ActGrows(g, s, e);
    }
  }

  lemma {:induction false} RunGrows(g: Config, s: State, es: seq<Event>)
    ensures Grows(s.h, Run(g, s, es).h)
    decreases |es|
  {
    hide Step;
    if es != [] {
      StepGrows(g, s, es[0]);
      RunGrows(g, Step(g, s, es[0]), es[1..]);
      GrowsTrans(s.h, Step(g, s, es[0]).h, Run(g, s, es).h);
    }
  }

  // ---- what the probe said ------------------------------------------------------------------------

  /** `unseen` is what the probe would say of the frames that were there. */
  predicate ProbedAt(h: History, r: IntentRec) {
    r.base <= |h.frames| && r.unseen == !Probe(LastPayload(h.frames[..r.base]), HexText(r.hash))
  }

  predicate Probed(h: History) {
    forall i :: 0 <= i < |h.intents| ==> ProbedAt(h, h.intents[i])
  }

  lemma ProbedLater(h: History, k: History, i: nat)
    requires Grows(h, k) && i < |h.intents| && ProbedAt(h, h.intents[i])
    ensures ProbedAt(k, k.intents[i])
  {
    hide Probe, HexText, LastPayload;
    assert Later(h.intents[i], k.intents[i]);
    assert k.frames[..h.intents[i].base] == h.frames[..h.intents[i].base];
  }

  lemma ProbedRequest(g: Config, s: State, req: Req, wio: WalIo)
    requires Inv(g, s) && s.phase.Serving? && Probed(s.h)
    ensures Probed(RequestStep(g, s, req, wio).h)
  {
    hide Inv, Probe, HexText, LastPayload, WalText, IntentOf;
    if s.wal.None? && wio.created {
      assert Live(s);
      ReadyNow(g, s);
      assert s.h.frames[..|s.h.frames|] == s.h.frames;
    }
  }

  lemma ActProbed(g: Config, s: State, e: Event)
    requires Inv(g, s) && Probed(s.h)
    ensures Probed(Act(g, s, e).h)
  {
    hide Inv, ProbedAt, CheckRequest, RequestStep, Grows;
    if e.Request? {
      var r := CheckRequest(g, s, e.prompt, e.maxTokens, e.temperature, e.topP);
      if s.phase.Serving? && r.Some? {
        ProbedRequest(g, s, r.value, e.wio);
      }
    } else {
      hide Act;
      ActGrows(g, s, e);
      ProbedKept(s.h, Act(g, s, e).h);
    }
  }

  lemma ProbedKept(h: History, k: History)
    requires Probed(h) && Grows(h, k) && |k.intents| == |h.intents|
    ensures Probed(k)
  {
    hide ProbedAt;
    forall i | 0 <= i < |k.intents|
      ensures ProbedAt(k, k.intents[i])
    {
      assert ProbedAt(h, h.intents[i]);
      ProbedLater(h, k, i);
    }
  }

  lemma {:induction false} LifeProbed(g: Config, s: State, es: seq<Event>)
    requires Inv(g, s) && ConfigOk(g) && Probed(s.h)
    ensures Probed(Life(g, s, es).h)
    decreases |es|
  {
    hide Inv, ConfigOk, Act, Probed;
    if es != [] {
      ActInv(g, s, es[0]);
      ActProbed(g, s, es[0]);
      LifeProbed(g, Act(g, s, es[0]), es[1..]);
    }
  }

  lemma StepProbed(g: Config, s: State, e: Event)
    requires Inv(g, s) && ConfigOk(g) && Probed(s.h)
    ensures Probed(Step(g, s, e).h)
  {
    hide Inv, Act, Life, ConfigOk, Probed, CrashStep;
    if e.Other? {
      var k := With(g, e.setup);
      if s.phase.Down? && ConfigOk(k) {
        DownInv(g, k, s);
        LifeProbed(k, s, e.es);
        var t := Life(k, s, e.es);
        CrashGrows(t);
        CrashCount(t);
        ProbedKept(t.h, CrashStep(t).h);
      }
    } else {
      ActProbed(g, s, e);
    }
  }

  lemma CrashCount(s: State)
    ensures |CrashStep(s).h.intents| == |s.h.intents|
  {
  }

  lemma {:induction false} RunProbed(g: Config, s: State, es: seq<Event>)
    requires Inv(g, s) && ConfigOk(g) && Probed(s.h)
    ensures Probed(Run(g, s, es).h)
    decreases |es|
  {
    hide Inv, ConfigOk, Step, Probed;
    if es != [] {
      StepInv(g, s, es[0]);
      StepProbed(g, s, es[0]);
      RunProbed(g, Step(g, s, es[0]), es[1..]);
    }
  }
}
