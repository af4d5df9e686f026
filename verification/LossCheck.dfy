/** The historical checker tools/obs_v1_loss_check.py.  What `json.loads` makes of a payload is
    a parameter, which JsonReader fills: None is an exception that `signatures` catches. */
module LossCheck {
  import opened Bytes
  import opened Canonical
  import opened Obs
  import opened Frames
  import opened Utf8
  import opened JsonDoc
  import opened JsonValue
  import opened JsonReader
  import opened RecordDoc
  import opened RecordReading
  import Substrate
  import Normalise
  import Numbers

  datatype Class =
    | OK | NotObs | Unparseable
    | OutputLoss | OverSizeLimit | IdentifierUnverifiable
    | UnknownEnum | ForbiddenStatePair

  datatype Category = LossOrCorruption | SchemaAnomaly

  /** The label starts with V1_. */
  predicate Finding(x: Class) {
    !x.OK? && !x.NotObs? && !x.Unparseable?
  }

  /** `category`. */
  function CategoryOf(x: Class): (r: Option<Category>)
    ensures r.Some? <==> Finding(x)
  {
    if x.OutputLoss? || x.OverSizeLimit? || x.IdentifierUnverifiable? then Some(LossOrCorruption)
    else if x.UnknownEnum? || x.ForbiddenStatePair? then Some(SchemaAnomaly)
    else None
  }

  // ---- one record ---------------------------------------------------------------------------------

  /** `isinstance(v, int) and v > 0`: in Python a bool is an int. */
  predicate PositiveInt(v: Option<Py>) {
    match v
    case Some(PyInt(n)) => n > 0
    case Some(PyBool(b)) => b
    case _ => false
  }

  predicate IsText(v: Option<Py>, s: string) {
    v == Some(PyStr(Ascii(s)))
  }

  predicate V1State(cs: Option<Py>) {
    IsText(cs, "COMPLETE") || IsText(cs, "TRUNCATED") || IsText(cs, "ERROR")
  }

  predicate V1Failure(ft: Option<Py>) {
    ft == Some(PyNone) || IsText(ft, "TIMEOUT") || IsText(ft, "INVALID_OUTPUT") || IsText(ft, "TRANSPORT_ERROR")
  }

  predicate PermittedPair(cs: Option<Py>, ft: Option<Py>) {
    || ((IsText(cs, "COMPLETE") || IsText(cs, "TRUNCATED")) && ft == Some(PyNone))
    || (IsText(cs, "ERROR") && (IsText(ft, "TIMEOUT") || IsText(ft, "INVALID_OUTPUT") || IsText(ft, "TRANSPORT_ERROR")))
  }

  /** `is_forbidden_pair`. */
  predicate ForbiddenPair(m: map<bytes, Py>) {
    var cs, ft := Get(m, "completion_state"), Get(m, "failure_type");
    V1State(cs) && V1Failure(ft) && !PermittedPair(cs, ft)
  }

  function When(b: bool, x: Class): seq<Class> {
    if b then [x] else []
  }

  predicate LosesOutput(m: map<bytes, Py>) {
    IsText(Get(m, "output"), "") && PositiveInt(Get(m, "output_size"))
  }

  predicate LosesId(m: map<bytes, Py>) {
    IsText(Get(m, "model_id"), "") || IsText(Get(m, "oracle_id"), "")
  }

  predicate HasUnknown(m: map<bytes, Py>) {
    IsText(Get(m, "completion_state"), "UNKNOWN") || IsText(Get(m, "failure_type"), "UNKNOWN")
  }

  function Found(m: map<bytes, Py>, size: nat): seq<Class> {
    When(LosesOutput(m), OutputLoss) + When(size > MAX_OBS_BYTES, OverSizeLimit)
      + When(LosesId(m), IdentifierUnverifiable)
    + When(HasUnknown(m), UnknownEnum) + When(!HasUnknown(m) && ForbiddenPair(m), ForbiddenStatePair)
  }

  function SignaturesOf(size: nat, loaded: Option<Py>): (r: seq<Class>)
    ensures r != []
  {
    if loaded.None? then [Unparseable]
    else if !loaded.value.PyDict? || !IsText(Get(loaded.value.entries, "schema_version"), "AX:OBS:v1") then [NotObs]
    else if Found(loaded.value.entries, size) == [] then [OK]
    else Found(loaded.value.entries, size)
  }

  /** `signatures`, which appends to a list. */
  method Signatures(payload: bytes, loaded: Option<Py>) returns (found: seq<Class>)
    ensures found == SignaturesOf(|payload|, loaded)
  {
    if loaded.None? {
      return [Unparseable];
    }
    if !loaded.value.PyDict? || !IsText(Get(loaded.value.entries, "schema_version"), "AX:OBS:v1") {
      return [NotObs];
    }
    hide LosesOutput, LosesId, HasUnknown, ForbiddenPair;
    var m := loaded.value.entries;
    found := [];
    if LosesOutput(m) {
      found := found + [OutputLoss];
    }
    if |payload| > MAX_OBS_BYTES {
      found := found + [OverSizeLimit];
    }
    if LosesId(m) {
      found := found + [IdentifierUnverifiable];
    }
    if HasUnknown(m) {
      found := found + [UnknownEnum];
    } else if ForbiddenPair(m) {
      found := found + [ForbiddenStatePair];
    }
    assert found == Found(m, |payload|);
    if found == [] {
      return [OK];
    }
  }

  predicate HasCategory(f: seq<Class>, cat: Category) {
    exists i :: 0 <= i < |f| && CategoryOf(f[i]) == Some(cat)
  }

  /** The string as a value. */
  function Said(s: string): Option<Py> {
    Some(PyStr(Ascii(s)))
  }

  /** Labels are all findings or one non-finding; the first is a loss if any of them is, and an
      anomaly is never hidden; every finding has a category; no label is given twice. */
  lemma Precedence(size: nat, loaded: Option<Py>)
    ensures var f := SignaturesOf(size, loaded);
      && (Finding(f[0]) <==> HasCategory(f, LossOrCorruption) || HasCategory(f, SchemaAnomaly))
      && (!Finding(f[0]) ==> |f| == 1)
      && (HasCategory(f, LossOrCorruption) ==> CategoryOf(f[0]) == Some(LossOrCorruption))
      && (forall i, j :: 0 <= i < j < |f| ==> f[i] != f[j])
      && (f[0] == Unparseable <==> loaded.None?)
      && (f[0] == NotObs <==>
            && loaded.Some?
            && !(loaded.value.PyDict? && Get(loaded.value.entries, "schema_version") == Said("AX:OBS:v1")))
  {
    hide Found, HasCategory, Get, Ascii;
    var f := SignaturesOf(size, loaded);
    if loaded.Some? && loaded.value.PyDict? && f == Found(loaded.value.entries, size) {
      var m := loaded.value.entries;
      FoundFindings(m, size);
      FoundLossFirst(m, size);
      FoundDistinct(m, size);
      SomeCategory(f);
    } else {
      assert |f| == 1 && !Finding(f[0]);
      NoCategory(f[0]);
      assert f == [f[0]];
    }
  }

  lemma NoCategory(x: Class)
    requires !Finding(x)
    ensures forall cat :: !HasCategory([x], cat)
  {
  }

  lemma SomeCategory(f: seq<Class>)
    requires f != [] && Finding(f[0])
    ensures HasCategory(f, LossOrCorruption) || HasCategory(f, SchemaAnomaly)
  {
    assert CategoryOf(f[0]).Some?;
  }

  lemma FoundFindings(m: map<bytes, Py>, size: nat)
    ensures forall i :: 0 <= i < |Found(m, size)| ==> Finding(Found(m, size)[i])
  {
    hide LosesOutput, LosesId, HasUnknown, ForbiddenPair;
  }

  lemma FoundDistinct(m: map<bytes, Py>, size: nat)
    ensures forall i, j :: 0 <= i < j < |Found(m, size)| ==> Found(m, size)[i] != Found(m, size)[j]
  {
    hide LosesOutput, LosesId, HasUnknown, ForbiddenPair;
  }

  /** The losses come before the anomalies. */
  lemma FoundLossFirst(m: map<bytes, Py>, size: nat)
    ensures HasCategory(Found(m, size), LossOrCorruption) ==>
      Found(m, size) != [] && CategoryOf(Found(m, size)[0]) == Some(LossOrCorruption)
  {
    hide LosesOutput, LosesId, HasUnknown, ForbiddenPair;
    var losses := When(LosesOutput(m), OutputLoss) + When(size > MAX_OBS_BYTES, OverSizeLimit)
                  + When(LosesId(m), IdentifierUnverifiable);
    assert losses != [] ==> CategoryOf(losses[0]) == Some(LossOrCorruption);
  }

  /** Which labels any value has, canonical or not, in terms of what is under its keys. */
  lemma LabelsExact(size: nat, m: map<bytes, Py>)
    requires Get(m, "schema_version") == Said("AX:OBS:v1")
    ensures var f := SignaturesOf(size, Some(PyDict(m)));
      var cs, ft, n := Get(m, "completion_state"), Get(m, "failure_type"), Get(m, "output_size");
      && (OutputLoss in f <==>
            && Get(m, "output") == Some(PyStr([])) && n.Some?
            && (n.value == PyBool(true) || (n.value.PyInt? && n.value.n > 0)))
      && (OverSizeLimit in f <==> size > 65536)
      && (IdentifierUnverifiable in f <==>
            Get(m, "model_id") == Some(PyStr([])) || Get(m, "oracle_id") == Some(PyStr([])))
      && (UnknownEnum in f <==> cs == Said("UNKNOWN") || ft == Said("UNKNOWN"))
      && (ForbiddenStatePair in f <==>
            || (cs == Said("ERROR") && ft == Some(PyNone))
            || ((cs == Said("COMPLETE") || cs == Said("TRUNCATED"))
                && (ft == Said("TIMEOUT") || ft == Said("INVALID_OUTPUT") || ft == Said("TRANSPORT_ERROR"))))
      && (OK in f <==> f == [OK]) && NotObs !in f && Unparseable !in f
      && (forall i, j :: 0 <= i < j < |f| ==> Rank(f[i]) < Rank(f[j]))
  {
    hide LosesOutput, LosesId, HasUnknown, ForbiddenPair, Found, Get, Rank, Ascii;
    var f := SignaturesOf(size, Some(PyDict(m)));
    assert f == if Found(m, size) == [] then [OK] else Found(m, size);
    hide Said, IsText, SignaturesOf;
    FoundExact(m, size);
    LossConditions(m);
    EnumConditions(m);
  }

  /** The precedence order of the script. */
  function Rank(x: Class): nat {
    match x
    case OutputLoss => 1
    case OverSizeLimit => 2
    case IdentifierUnverifiable => 3
    case UnknownEnum => 4
    case ForbiddenStatePair => 5
    case _ => 0
  }

  /** Labels below the rank, in their order. */
  predicate Ranked(f: seq<Class>, n: nat) {
    && (forall x :: x in f ==> 1 <= Rank(x) < n)
    && (forall i, j :: 0 <= i < j < |f| ==> Rank(f[i]) < Rank(f[j]))
  }

  lemma WhenAdded(f: seq<Class>, b: bool, x: Class)
    requires Ranked(f, Rank(x)) && Rank(x) > 0
    ensures Ranked(f + When(b, x), Rank(x) + 1)
    ensures forall y :: y in f + When(b, x) <==> y in f || (b && y == x)
  {
    hide Rank;
  }

  lemma FoundExact(m: map<bytes, Py>, size: nat)
    ensures var f := Found(m, size);
      && (OutputLoss in f <==> LosesOutput(m)) && (OverSizeLimit in f <==> size > 65536)
      && (IdentifierUnverifiable in f <==> LosesId(m)) && (UnknownEnum in f <==> HasUnknown(m))
      && (ForbiddenStatePair in f <==> !HasUnknown(m) && ForbiddenPair(m))
      && OK !in f && NotObs !in f && Unparseable !in f
      && (forall i, j :: 0 <= i < j < |f| ==> Rank(f[i]) < Rank(f[j]))
  {
    hide LosesOutput, LosesId, HasUnknown, ForbiddenPair, When;
    FiveLabels(LosesOutput(m), size > MAX_OBS_BYTES, LosesId(m), HasUnknown(m), !HasUnknown(m) && ForbiddenPair(m));
  }

  lemma FiveLabels(b1: bool, b2: bool, b3: bool, b4: bool, b5: bool)
    ensures var f := When(b1, OutputLoss) + When(b2, OverSizeLimit) + When(b3, IdentifierUnverifiable)
                     + When(b4, UnknownEnum) + When(b5, ForbiddenStatePair);
      && (OutputLoss in f <==> b1) && (OverSizeLimit in f <==> b2) && (IdentifierUnverifiable in f <==> b3)
      && (UnknownEnum in f <==> b4) && (ForbiddenStatePair in f <==> b5)
      && OK !in f && NotObs !in f && Unparseable !in f && Ranked(f, 6)
  {
    hide When, Ranked;
    var f1 := When(b1, OutputLoss);
    var f2 := f1 + When(b2, OverSizeLimit);
    var f3 := f2 + When(b3, IdentifierUnverifiable);
    var f4 := f3 + When(b4, UnknownEnum);
    NoneRanked();
    assert [] + f1 == f1;
    WhenAdded([], b1, OutputLoss);
    WhenAdded(f1, b2, OverSizeLimit);
    WhenAdded(f2, b3, IdentifierUnverifiable);
    WhenAdded(f3, b4, UnknownEnum);
    WhenAdded(f4, b5, ForbiddenStatePair);
  }

  lemma NoneRanked()
    ensures Ranked([], 1)
  {
  }

  lemma LossConditions(m: map<bytes, Py>)
    ensures var n := Get(m, "output_size");
      LosesOutput(m) <==>
        && Get(m, "output") == Some(PyStr([])) && n.Some?
        && (n.value == PyBool(true) || (n.value.PyInt? && n.value.n > 0))
    ensures LosesId(m) <==> Get(m, "model_id") == Some(PyStr([])) || Get(m, "oracle_id") == Some(PyStr([]))
  {
    assert Ascii("") == [];
    hide Get;
  }

  lemma EnumConditions(m: map<bytes, Py>)
    ensures var cs, ft := Get(m, "completion_state"), Get(m, "failure_type");
      && (HasUnknown(m) <==> cs == Said("UNKNOWN") || ft == Said("UNKNOWN"))
      && (!HasUnknown(m) && ForbiddenPair(m) <==>
            || (cs == Said("ERROR") && ft == Some(PyNone))
            || ((cs == Said("COMPLETE") || cs == Said("TRUNCATED"))
                && (ft == Said("TIMEOUT") || ft == Said("INVALID_OUTPUT") || ft == Said("TRANSPORT_ERROR"))))
  {
    Words();
    hide Ascii, Get;
  }

  // ---- the counting loop ------------------------------------------------------------------------------

  datatype Summary = Summary(records: nat, defects: nat, loss: nat, anomaly: nat)

  function Bit(b: bool): nat { if b then 1 else 0 }

  /** One record counted. */
  function Counted(s: Summary, f: seq<Class>): Summary
    requires f != []
  {
    if Finding(f[0])
    then
      var loss, anomaly := Bit(HasCategory(f, LossOrCorruption)), Bit(HasCategory(f, SchemaAnomaly));
      Summary(s.records + 1, s.defects + 1, s.loss + loss, s.anomaly + anomaly)
    else s.(records := s.records + 1)
  }

  function SummaryOf(items: seq<bytes>, loads: bytes -> Option<Py>): (s: Summary) {
    if items == [] then Summary(0, 0, 0, 0)
    else
      var last := items[|items| - 1];
      Counted(SummaryOf(items[..|items| - 1], loads), SignaturesOf(|last|, loads(last)))
  }

  lemma SummarySnoc(items: seq<bytes>, i: nat, loads: bytes -> Option<Py>)
    requires i < |items|
    ensures SummaryOf(items[..i + 1], loads)
         == Counted(SummaryOf(items[..i], loads), SignaturesOf(|items[i]|, loads(items[i])))
  {
    hide SignaturesOf, Counted;
    assert items[..i + 1][..i] == items[..i];
  }

  /** The record has a label of the category, or any finding. */
  predicate Labelled(payload: bytes, loads: bytes -> Option<Py>, cat: Option<Category>) {
    var f := SignaturesOf(|payload|, loads(payload));
    if cat.None? then Finding(f[0]) else HasCategory(f, cat.value)
  }

  /** Which records have. */
  function Hits(items: seq<bytes>, loads: bytes -> Option<Py>, cat: Option<Category>): set<nat> {
    set i: nat | i < |items| && Labelled(items[i], loads, cat)
  }

  lemma HitsSnoc(items: seq<bytes>, loads: bytes -> Option<Py>, cat: Option<Category>)
    requires items != []
    ensures var n := |items| - 1;
      |Hits(items, loads, cat)| == |Hits(items[..n], loads, cat)| + Bit(Labelled(items[n], loads, cat))
  {
    hide Labelled;
    var n := |items| - 1;
    var before := Hits(items[..n], loads, cat);
    assert forall i :: 0 <= i < n ==> items[..n][i] == items[i];
    if Labelled(items[n], loads, cat) {
      assert Hits(items, loads, cat) == before + {n} && n !in before;
    } else {
      assert Hits(items, loads, cat) == before;
    }
  }

  /** The summary counts the records, those with a finding, and those with one of each category. */
  lemma {:induction false} SummaryExact(items: seq<bytes>, loads: bytes -> Option<Py>)
    ensures var s := SummaryOf(items, loads);
      && s.records == |items| && s.defects == |Hits(items, loads, None)|
      && s.loss == |Hits(items, loads, Some(LossOrCorruption))|
      && s.anomaly == |Hits(items, loads, Some(SchemaAnomaly))|
    decreases |items|
  {
    if items == [] {
      assert forall cat :: Hits(items, loads, cat) == {};
    } else {
      hide SignaturesOf, HasCategory, Finding, Hits;
      var n := |items| - 1;
      SummaryExact(items[..n], loads);
      HitsSnoc(items, loads, None);
      HitsSnoc(items, loads, Some(LossOrCorruption));
      HitsSnoc(items, loads, Some(SchemaAnomaly));
      Precedence(|items[n]|, loads(items[n]));
    }
  }

  /** `set(category(x) for x in sig)` and its two counts. */
  method Categories(f: seq<Class>) returns (cats: set<Category>)
    ensures forall cat :: cat in cats <==> HasCategory(f, cat)
  {
    cats := {};
    for i := 0 to |f|
      invariant forall cat :: cat in cats <==> HasCategory(f[..i], cat)
    {
      ghost var before := cats;
      var c := CategoryOf(f[i]);
      if c.Some? {
        cats := cats + {c.value};
      }
      forall cat
        ensures cat in cats <==> HasCategory(f[..i + 1], cat)
      {
        OneMoreClass(f, i, cat);
      }
    }
    assert f[..|f|] == f;
  }

  lemma OneMoreClass(f: seq<Class>, i: nat, cat: Category)
    requires i < |f|
    ensures HasCategory(f[..i + 1], cat) <==> HasCategory(f[..i], cat) || CategoryOf(f[i]) == Some(cat)
  {
    if HasCategory(f[..i], cat) {
      var j :| 0 <= j < i && CategoryOf(f[..i][j]) == Some(cat);
      assert f[..i + 1][j] == f[..i][j];
    }
    if CategoryOf(f[i]) == Some(cat) {
      assert f[..i + 1][i] == f[i];
    }
    if HasCategory(f[..i + 1], cat) {
      var j :| 0 <= j < i + 1 && CategoryOf(f[..i + 1][j]) == Some(cat);
      assert j < i ==> f[..i][j] == f[..i + 1][j];
    }
  }

  /** The loop of `main`. */
  method CountFindings(items: seq<bytes>, loads: bytes -> Option<Py>) returns (s: Summary)
    ensures s == SummaryOf(items, loads)
  {
    var defects, loss, anomaly := 0, 0, 0;
    for i := 0 to |items|
      invariant Summary(i, defects, loss, anomaly) == SummaryOf(items[..i], loads)
    {
      hide SignaturesOf, HasCategory, SummaryOf;
      SummarySnoc(items, i, loads);
      var sig := Signatures(items[i], loads(items[i]));
      if Finding(sig[0]) {
        defects := defects + 1;
        var cats := Categories(sig);
        if LossOrCorruption in cats {
          loss := loss + 1;
        }
        if SchemaAnomaly in cats {
          anomaly := anomaly + 1;
        }
      }
    }
    assert items[..|items|] == items;
    return Summary(|items|, defects, loss, anomaly);
  }

  /** The record has no finding. */
  predicate Clean(payload: bytes, loads: bytes -> Option<Py>) {
    !Finding(SignaturesOf(|payload|, loads(payload))[0])
  }

  predicate AllClean(items: seq<bytes>, loads: bytes -> Option<Py>) {
    forall i :: 0 <= i < |items| ==> Clean(items[i], loads)
  }

  lemma AllCleanSnoc(items: seq<bytes>, loads: bytes -> Option<Py>)
    requires items != []
    ensures var n := |items| - 1;
      AllClean(items, loads) <==> AllClean(items[..n], loads) && Clean(items[n], loads)
  {
    hide Clean;
    var n := |items| - 1;
    assert forall i :: 0 <= i < n ==> items[..n][i] == items[i];
    if AllClean(items[..n], loads) && Clean(items[n], loads) {
      forall i | 0 <= i < |items|
        ensures Clean(items[i], loads)
      {
        assert i < n ==> Clean(items[..n][i], loads);
      }
    }
  }

  /** The promise of the summary line: each category at most the defects, the defects at most
      their sum, and defects exactly when some record has a finding. */
  lemma {:induction false} SummaryFacts(items: seq<bytes>, loads: bytes -> Option<Py>)
    ensures var s := SummaryOf(items, loads);
      && s.records == |items| && s.loss <= s.defects && s.anomaly <= s.defects && s.defects <= s.loss + s.anomaly
      && (s.defects == 0 <==> AllClean(items, loads))
  {
    if items != [] {
      hide SummaryOf, AllClean, Clean;
      LastCounted(items, loads);
      AllCleanSnoc(items, loads);
      SummaryFacts(items[..|items| - 1], loads);
    }
  }

  /** What the last record adds. */
  lemma LastCounted(items: seq<bytes>, loads: bytes -> Option<Py>)
    requires items != []
    ensures var n := |items| - 1;
      var s, t := SummaryOf(items[..n], loads), SummaryOf(items, loads);
      var defect, loss, anomaly := t.defects - s.defects, t.loss - s.loss, t.anomaly - s.anomaly;
      && t.records == s.records + 1 && 0 <= loss <= defect && 0 <= anomaly <= defect && defect <= loss + anomaly
      && defect == if Clean(items[n], loads) then 0 else 1
  {
    hide SignaturesOf, HasCategory, Finding;
    var last := items[|items| - 1];
    Precedence(|last|, loads(last));
  }

  /** The payloads of the frames with the observation tag. */
  function ObsPayloads(fs: seq<(bytes, bytes)>): (r: seq<bytes>) {
    if fs == [] then []
    else
      var n := |fs| - 1;
      ObsPayloads(fs[..n]) + if fs[n].0 == Schema() then [fs[n].1] else []
  }

  datatype Report = Error | Report(summary: Summary, exit: int)

  function ReportOf(data: bytes, loads: bytes -> Option<Py>): Report {
    match PyFrames(data)
    case None => Error
    case Some(fs) =>
      var s := SummaryOf(ObsPayloads(fs), loads);
      Report(s, if s.defects > 0 then 3 else 0)
  }

  /** `main --frames`. */
  method CheckFrames(data: bytes, loads: bytes -> Option<Py>) returns (r: Report)
    ensures r == ReportOf(data, loads)
  {
    var fs := ReadFrames(data);
    if fs.None? {
      return Error;
    }
    var items: seq<bytes> := [];
    for i := 0 to |fs.value|
      invariant items == ObsPayloads(fs.value[..i])
    {
      if fs.value[i].0 == Schema() {
        items := items + [fs.value[i].1];
      }
      assert fs.value[..i + 1][..i] == fs.value[..i];
    }
    assert fs.value[..|fs.value|] == fs.value;
    var s := CountFindings(items, loads);
    return Report(s, if s.defects > 0 then 3 else 0);
  }

  /** A frame of the observations in which something is found. */
  predicate Defective(f: (bytes, bytes), loads: bytes -> Option<Py>) {
    f.0 == Ascii("AX:OBS:v1") && Labelled(f.1, loads, None)
  }

  lemma {:induction false} ObsPayloadsExact(fs: seq<(bytes, bytes)>, p: bytes)
    ensures p in ObsPayloads(fs) <==> (Ascii("AX:OBS:v1"), p) in fs
  {
    if fs != [] {
      hide Ascii;
      var n := |fs| - 1;
      ObsPayloadsExact(fs[..n], p);
      assert fs == fs[..n] + [fs[n]];
    }
  }

  /** The exit code: 3 if and only if some observation frame of a whole file is defective. */
  lemma ReportExact(data: bytes, loads: bytes -> Option<Py>)
    ensures ReportOf(data, loads).Error? <==> PyFrames(data).None?
    ensures PyFrames(data).Some? ==>
      var found := exists f :: f in PyFrames(data).value && Defective(f, loads);
      ReportOf(data, loads).exit == if found then 3 else 0
  {
    if PyFrames(data).Some? {
      hide PyFrames, ObsPayloads, Labelled, Hits, SummaryOf, Ascii;
      var fs := PyFrames(data).value;
      var items := ObsPayloads(fs);
      SummaryExact(items, loads);
      NoHits(items, loads);
      if p :| p in items && Labelled(p, loads, None) {
        ObsPayloadsExact(fs, p);
        assert Defective((Ascii("AX:OBS:v1"), p), loads);
      }
      if f :| f in fs && Defective(f, loads) {
        ObsPayloadsExact(fs, f.1);
        assert f == (Ascii("AX:OBS:v1"), f.1);
      }
    }
  }

  lemma NoHits(items: seq<bytes>, loads: bytes -> Option<Py>)
    ensures |Hits(items, loads, None)| > 0 <==> exists p :: p in items && Labelled(p, loads, None)
  {
    hide Labelled;
    var hits := Hits(items, loads, None);
    if p :| p in items && Labelled(p, loads, None) {
      var i: nat :| i < |items| && items[i] == p;
      assert i in hits;
    }
    if hits != {} {
      var i :| i in hits;
      assert items[i] in items;
    }
  }

  // ---- what it says of canonical records ---------------------------------------------------------------------

  predicate EnumsInRange(r: Record) {
    COMPLETE <= r.state <= ERROR && FAILURE_NULL <= r.failure <= TRANSPORT_ERROR
  }

  /** The signatures of a record, in terms of its fields. */
  function RecordSignatures(r: Record, size: nat): seq<Class> {
    When(OrEmpty(r.output) == [] && r.outputSize > 0, OutputLoss)
    + When(size > MAX_OBS_BYTES, OverSizeLimit)
    + When(OrEmpty(r.modelId) == [] || OrEmpty(r.oracleId) == [], IdentifierUnverifiable)
    + When(!EnumsInRange(r), UnknownEnum)
    + When(EnumsInRange(r) && !PairPermitted(r.state, r.failure), ForbiddenStatePair)
  }

  function RecordValue(r: Record): (v: Py) {
    DocumentOk(r);
    Denote(Document(r))
  }

  lemma RecordSays(r: Record)
    ensures RecordValue(r).PyDict? && Says(RecordValue(r).entries, r)
  {
    hide Says, Denote, Document, ValueOk;
    Reading(r);
  }

  lemma EmptyText(s: bytes)
    ensures IsText(Some(PyStr(s)), "") <==> s == []
  {
  }

  lemma Words()
    ensures |Ascii("COMPLETE")| == 8 && |Ascii("TRUNCATED")| == 9 && |Ascii("ERROR")| == 5 && |Ascii("UNKNOWN")| == 7
    ensures |Ascii("TIMEOUT")| == 7 && |Ascii("INVALID_OUTPUT")| == 14 && |Ascii("TRANSPORT_ERROR")| == 15
    ensures Ascii("TIMEOUT") != Ascii("UNKNOWN")
  {
    assert Ascii("TIMEOUT")[0] == 84 && Ascii("UNKNOWN")[0] == 85;
  }

  lemma EnumsSeen(m: map<bytes, Py>, r: Record)
    requires Says(m, r)
    ensures HasUnknown(m) <==> !EnumsInRange(r)
    ensures EnumsInRange(r) ==> (ForbiddenPair(m) <==> !PairPermitted(r.state, r.failure))
  {
    Words();
    hide Ascii, Get;
  }

  /** A record as the serialiser writes it, admitted or historical: the schema name, a hexadecimal
      hash, 64-bit parameters, UTF-8 strings. */
  predicate Serialised(r: Record) {
    && Sealed(r) && ParamsRange(r.params)
    && ValidUtf8(OrEmpty(r.modelId)) && ValidUtf8(OrEmpty(r.oracleId)) && ValidUtf8(OrEmpty(r.output))
  }

  /** For every record, admitted or historical, the checker reports on its canonical bytes exactly
      the signatures that its fields have. */
  lemma SignaturesExact(r: Record)
    requires Serialised(r)
    ensures var payload := Canon(r, true);
      var f := RecordSignatures(r, |payload|);
      SignaturesOf(|payload|, Loads(payload)) == if f == [] then [OK] else f
  {
    hide Canon, Loads, SignaturesOf, RecordSignatures, ValidUtf8, Denote, Document, Schema, ParamsRange;
    LoadsCanon(r);
    ValueSignatures(r, |Canon(r, true)|);
  }

  lemma ValueSignatures(r: Record, size: nat)
    requires r.schemaVersion == Some(Schema())
    ensures SignaturesOf(size, Some(RecordValue(r)))
         == if RecordSignatures(r, size) == [] then [OK] else RecordSignatures(r, size)
  {
    hide RecordValue, Found, RecordSignatures, Ascii, Says;
    RecordSays(r);
    var m := RecordValue(r).entries;
    SchemaSeen(m, r);
    EnumsSeen(m, r);
    StringsSeen(m, r);
    SameSignatures(m, r, size);
  }

  /** In terms of the record: it counts as a loss if its output, an identifier or its size says so,
      and as an anomaly if an enum is out of range or the pair is not one of the permitted. */
  lemma CategoriesExact(r: Record)
    requires Serialised(r)
    ensures var payload := Canon(r, true);
      var f := SignaturesOf(|payload|, Loads(payload));
      && (HasCategory(f, LossOrCorruption) <==>
            || (OrEmpty(r.output) == [] && r.outputSize > 0) || |payload| > 65536
            || OrEmpty(r.modelId) == [] || OrEmpty(r.oracleId) == [])
      && (HasCategory(f, SchemaAnomaly) <==> !PairPermitted(r.state, r.failure))
      && (Finding(f[0]) <==> HasCategory(f, LossOrCorruption) || HasCategory(f, SchemaAnomaly))
  {
    hide SignaturesOf, Loads, Canon, Serialised, HasCategory, RecordSignatures, Finding, OrEmpty, PairPermitted;
    SignaturesExact(r);
    Precedence(|Canon(r, true)|, Loads(Canon(r, true)));
    FieldCategories(r, |Canon(r, true)|);
  }

  lemma FieldCategories(r: Record, size: nat)
    ensures var f := if RecordSignatures(r, size) == [] then [OK] else RecordSignatures(r, size);
      && (HasCategory(f, LossOrCorruption) <==>
            || (OrEmpty(r.output) == [] && r.outputSize > 0) || size > 65536
            || OrEmpty(r.modelId) == [] || OrEmpty(r.oracleId) == [])
      && (HasCategory(f, SchemaAnomaly) <==> !PairPermitted(r.state, r.failure))
  {
    PermittedInRange(r);
    hide OrEmpty, PairPermitted, EnumsInRange;
    var b1, b2 := OrEmpty(r.output) == [] && r.outputSize > 0, size > MAX_OBS_BYTES;
    var b3 := OrEmpty(r.modelId) == [] || OrEmpty(r.oracleId) == [];
    var b4, b5 := !EnumsInRange(r), EnumsInRange(r) && !PairPermitted(r.state, r.failure);
    WhenCategory(b1, OutputLoss);
    WhenCategory(b2, OverSizeLimit);
    WhenCategory(b3, IdentifierUnverifiable);
    WhenCategory(b4, UnknownEnum);
    WhenCategory(b5, ForbiddenStatePair);
    NoCategory(OK);
    hide When, HasCategory;
    CategoryConcat(When(b1, OutputLoss), When(b2, OverSizeLimit));
    CategoryConcat(When(b1, OutputLoss) + When(b2, OverSizeLimit), When(b3, IdentifierUnverifiable));
    var losses := When(b1, OutputLoss) + When(b2, OverSizeLimit) + When(b3, IdentifierUnverifiable);
    CategoryConcat(losses, When(b4, UnknownEnum));
    CategoryConcat(losses + When(b4, UnknownEnum), When(b5, ForbiddenStatePair));
    CategoryNone();
  }

  lemma PermittedInRange(r: Record)
    ensures PairPermitted(r.state, r.failure) ==> EnumsInRange(r)
  {
  }

  lemma WhenCategory(b: bool, x: Class)
    requires Finding(x)
    ensures forall cat :: HasCategory(When(b, x), cat) <==> b && CategoryOf(x) == Some(cat)
  {
    forall cat
      ensures HasCategory(When(b, x), cat) <==> b && CategoryOf(x) == Some(cat)
    {
      assert b ==> When(b, x)[0] == x;
    }
  }

  lemma CategoryConcat(a: seq<Class>, b: seq<Class>)
    ensures forall cat :: HasCategory(a + b, cat) <==> HasCategory(a, cat) || HasCategory(b, cat)
  {
    forall cat
      ensures HasCategory(a + b, cat) <==> HasCategory(a, cat) || HasCategory(b, cat)
    {
      if HasCategory(a, cat) {
        var i :| 0 <= i < |a| && CategoryOf(a[i]) == Some(cat);
        assert (a + b)[i] == a[i];
      }
      if HasCategory(b, cat) {
        var i :| 0 <= i < |b| && CategoryOf(b[i]) == Some(cat);
        assert (a + b)[|a| + i] == b[i];
      }
    }
  }

  lemma CategoryNone()
    ensures forall cat :: !HasCategory([], cat)
  {
  }

  lemma SchemaSeen(m: map<bytes, Py>, r: Record)
    requires Says(m, r) && r.schemaVersion == Some(Schema())
    ensures IsText(Get(m, "schema_version"), "AX:OBS:v1")
  {
    hide Ascii, Get;
  }

  lemma StringsSeen(m: map<bytes, Py>, r: Record)
    requires Says(m, r)
    ensures LosesOutput(m) <==> OrEmpty(r.output) == [] && r.outputSize > 0
    ensures LosesId(m) <==> OrEmpty(r.modelId) == [] || OrEmpty(r.oracleId) == []
  {
    EmptyText(OrEmpty(r.output));
    EmptyText(OrEmpty(r.modelId));
    EmptyText(OrEmpty(r.oracleId));
    hide Ascii, Get, IsText, OrEmpty;
  }

  lemma SameSignatures(m: map<bytes, Py>, r: Record, size: nat)
    requires LosesOutput(m) <==> OrEmpty(r.output) == [] && r.outputSize > 0
    requires LosesId(m) <==> OrEmpty(r.modelId) == [] || OrEmpty(r.oracleId) == []
    requires HasUnknown(m) <==> !EnumsInRange(r)
    requires EnumsInRange(r) ==> (ForbiddenPair(m) <==> !PairPermitted(r.state, r.failure))
    ensures Found(m, size) == RecordSignatures(r, size)
  {
    hide LosesOutput, LosesId, HasUnknown, ForbiddenPair, EnumsInRange, PairPermitted, OrEmpty;
  }

  lemma AdmittedIsSerialised(c: Substrate.Crypto, r: Record)
    requires WellRecorded(c, r)
    ensures Serialised(r)
  {
    hide Canon, ValidUtf8, Normalise.NfcScan, Schema;
    Numbers.HexTextIsHex(c.commit(Schema(), Canon(r, false)).value);
  }

  /** Every admitted record, read back from its canonical bytes, is classified OK. */
  lemma AdmittedIsOk(c: Substrate.Crypto, r: Record)
    requires WellRecorded(c, r)
    ensures SignaturesOf(|Canon(r, true)|, Loads(Canon(r, true))) == [OK]
  {
    hide SignaturesOf, Canon, ValidUtf8, Normalise.NfcScan, Schema, Loads, Serialised;
    AdmittedIsSerialised(c, r);
    SignaturesExact(r);
  }

  /** The payload of an admitted record is UTF-8 and is the text of its document. */
  lemma AdmittedIsDocument(c: Substrate.Crypto, r: Record)
    requires WellRecorded(c, r)
    ensures Canon(r, true) == EmitValue(Document(r), []) && ValueOk(Document(r)) && ValidUtf8(Canon(r, true))
  {
    hide Canon, EmitValue, Document, ValidUtf8, ValueOk, Schema, Sealed, ParamsRange, WellRecorded;
    AdmittedIsSerialised(c, r);
    CanonIsDocument(r);
    CanonUtf8(r);
  }
}
