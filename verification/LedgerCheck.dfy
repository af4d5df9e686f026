/** The historical checker on the ledger of any run of the gateway. */
module LedgerCheck {
  import opened Canonical
  import opened Substrate
  import opened Obs
  import opened Frames
  import opened JsonReader
  import opened Gateway
  import opened GatewayInv
  import opened GatewayTheorems
  import opened LossCheck
  import GatewaySteps

  lemma StoredIsOk(c: Crypto, f: Frame, k: nat)
    requires StoredAt(c, f, k) && f.tag == ObsTag()
    ensures Clean(f.payload, Loads)
  {
    GatewaySteps.TagsNoNul();
    hide WellRecorded, Canon, Loads, SignaturesOf, ObsTag, StateTag;
    var r :| Stores(c, f, r) && r.ledgerSeq == k;
    AdmittedIsOk(c, r);
  }

  lemma {:induction false} TaggedAt(fs: seq<Frame>, i: nat)
    requires i < |fs|
    ensures TagsAndPayloads(fs)[i] == (fs[i].tag, fs[i].payload)
  {
    if i > 0 {
      TaggedAt(fs[1..], i - 1);
    }
  }

  lemma {:induction false} TaggedTo(fs: seq<Frame>, n: nat)
    requires n <= |fs|
    ensures TagsAndPayloads(fs)[..n] == TagsAndPayloads(fs[..n])
  {
    forall i | 0 <= i < n
      ensures TagsAndPayloads(fs)[..n][i] == TagsAndPayloads(fs[..n])[i]
    {
      TaggedAt(fs, i);
      TaggedAt(fs[..n], i);
    }
  }

  /** The checker looks at one payload for each observation frame, and finds nothing in it. */
  lemma {:induction false} PayloadsOk(c: Crypto, fs: seq<Frame>)
    requires forall k :: 0 <= k < |fs| ==> StoredAt(c, fs[k], k + 1)
    ensures var ps := ObsPayloads(TagsAndPayloads(fs));
      && |ps| == ObsCount(fs)
      && forall i :: 0 <= i < |ps| ==> Clean(ps[i], Loads)
    decreases |fs|
  {
    hide StoredAt, Clean, TagsAndPayloads, ObsPayloads, ObsCount, ObsTag;
    if fs == [] {
      NoObs(fs);
    } else {
      var n := |fs| - 1;
      LastObs(fs);
      assert forall k :: 0 <= k < n ==> fs[..n][k] == fs[k];
      PayloadsOk(c, fs[..n]);
      if fs[n].tag == ObsTag() {
        StoredIsOk(c, fs[n], n + 1);
      }
    }
  }

  lemma NoObs(fs: seq<Frame>)
    requires fs == []
    ensures ObsPayloads(TagsAndPayloads(fs)) == [] && ObsCount(fs) == 0
  {
  }

  lemma LastObs(fs: seq<Frame>)
    requires fs != []
    ensures var n := |fs| - 1;
      var isObs := fs[n].tag == ObsTag();
      && ObsPayloads(TagsAndPayloads(fs))
        == ObsPayloads(TagsAndPayloads(fs[..n])) + (if isObs then [fs[n].payload] else [])
      && ObsCount(fs) == ObsCount(fs[..n]) + (if isObs then 1 else 0)
  {
    TagIsSchema();
    hide TagsAndPayloads, ObsTag, Schema;
    TaggedTo(fs, |fs| - 1);
    TaggedAt(fs, |fs| - 1);
  }

  lemma TagIsSchema()
    ensures ObsTag() == Schema()
  {
  }

  /** For every run: on a ledger with a torn tail the checker stops with an error; otherwise it
      counts every observation frame, finds no defect and exits 0. */
  lemma LedgerChecksClean(g: Config, es: seq<Event>)
    requires ConfigOk(g)
    ensures var s := Reach(g, es);
      ReportOf(s.l.file, Loads)
      == if s.h.torn != [] then Error else Report(Summary(ObsCount(s.h.frames), 0, 0, 0), 0)
  {
    hide Run, StoredAt, ObsPayloads, SummaryOf, TagsAndPayloads, EncodeFrames, IntentsInv, OpenInv, PhaseInv;
    hide ExportInv, CutOf, TornTail, FramesOk, Clean;
    Reached(g, es);
    var s := Reach(g, es);
    FileTail(g.c, s);
    PyFramesExact(g.c, s.h.frames, s.h.torn);
    PayloadsOk(g.c, s.h.frames);
    SummaryFacts(ObsPayloads(TagsAndPayloads(s.h.frames)), Loads);
  }
}
