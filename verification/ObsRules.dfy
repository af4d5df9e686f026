/** Admission and validation in the words of their requirements: which texts and identifiers are
    accepted, byte by byte and code point by code point, which code each refusal has, and that an
    altered record does not validate. */
module ObsRules {
  import opened Bytes
  import opened Faults
  import opened Utf8
  import opened Normalise
  import opened Numbers
  import opened Canonical
  import opened Substrate
  import opened Obs
  import opened RecordParser

  // ---- texts ---------------------------------------------------------------------------------------

  /** A code point that a prompt or an output may hold: no control but LF and CR, no DEL, no mark of
      the four combining blocks. */
  predicate GoodScalar(cp: int) {
    && (cp >= 0x20 || cp == 0x0A || cp == 0x0D) && cp != 0x7F
    && !(0x0300 <= cp <= 0x036F) && !(0x1DC0 <= cp <= 0x1DFF) && !(0x20D0 <= cp <= 0x20FF) && !(0xFE20 <= cp <= 0xFE2F)
  }

  predicate AllGood(cps: seq<scalar>) {
    forall i :: 0 <= i < |cps| ==> GoodScalar(cps[i])
  }

  ghost predicate GoodText(s: bytes) {
    exists cps: seq<scalar> :: EncodeAll(cps) == s && AllGood(cps)
  }

  lemma ForbiddenConcat(a: bytes, b: bytes)
    ensures HasForbidden(a + b) <==> HasForbidden(a) || HasForbidden(b)
  {
    if HasForbidden(a) {
      var i :| 0 <= i < |a| && ForbiddenByte(a[i]);
      assert (a + b)[i] == a[i];
    }
    if HasForbidden(b) {
      var i :| 0 <= i < |b| && ForbiddenByte(b[i]);
      assert (a + b)[|a| + i] == b[i];
    }
  }

  predicate ForbiddenScalar(cp: int) {
    (cp < 0x20 && cp != 0x0A) || cp == 0x7F
  }

  lemma ForbiddenEncoded(cp: scalar)
    ensures HasForbidden(Encode(cp)) <==> ForbiddenScalar(cp)
  {
    if cp < 0x80 {
      assert Encode(cp) == [cp] && Encode(cp)[0] == cp;
    } else {
      assert forall i :: 0 <= i < |Encode(cp)| ==> Encode(cp)[i] >= 0x80;
    }
  }

  lemma {:induction false} ForbiddenAll(cps: seq<scalar>)
    ensures HasForbidden(EncodeAll(cps)) <==> exists i :: 0 <= i < |cps| && ForbiddenScalar(cps[i])
  {
    if cps != [] {
      hide HasForbidden, Encode;
      ForbiddenEncoded(cps[0]);
      ForbiddenConcat(Encode(cps[0]), EncodeAll(cps[1..]));
      ForbiddenAll(cps[1..]);
      assert forall i :: 1 <= i < |cps| ==> cps[i] == cps[1..][i - 1];
    } else {
      assert EncodeAll(cps) == [];
    }
  }

  predicate Fine(cp: int) {
    !ForbiddenScalar(cp) && !Combining(cp)
  }

  predicate AllFine(cps: seq<scalar>) {
    forall i :: 0 <= i < |cps| ==> Fine(cps[i])
  }

  lemma FineCons(x: scalar, cps: seq<scalar>)
    ensures AllFine([x] + cps) <==> Fine(x) && AllFine(cps)
    ensures AllGood([x] + cps) <==> GoodScalar(x) && AllGood(cps)
  {
    hide Fine, GoodScalar;
    var s := [x] + cps;
    assert s[0] == x;
    forall i | 0 <= i < |cps|
      ensures AllFine(s) ==> Fine(cps[i])
      ensures AllGood(s) ==> GoodScalar(cps[i])
    {
      assert s[i + 1] == cps[i];
    }
  }

  /** Normalisation turns the code points that may be there into those that may be stored. */
  lemma {:induction false} LinesFine(cps: seq<scalar>)
    ensures AllFine(LinesCp(cps)) <==> AllGood(cps)
    decreases |cps|
  {
    if cps != [] {
      hide AllFine, AllGood;
      assert cps == [cps[0]] + cps[1..];
      FineCons(cps[0], cps[1..]);
      if cps[0] == 13 && |cps| > 1 && cps[1] == 10 {
        assert cps[1..] == [cps[1]] + cps[2..];
        FineCons(cps[1], cps[2..]);
        FineCons(10, LinesCp(cps[2..]));
        LinesFine(cps[2..]);
      } else {
        FineCons(if cps[0] == 13 then 10 else cps[0], LinesCp(cps[1..]));
        LinesFine(cps[1..]);
      }
    }
  }

  lemma CleanScalars(cps: seq<scalar>)
    ensures CleanText(EncodeAll(cps)) <==> AllGood(cps)
  {
    EncodedIsValid(cps);
    LinesOnCodePoints(cps);
    ForbiddenAll(LinesCp(cps));
    NfcMeaning(LinesCp(cps));
    LinesFine(cps);
    hide ValidUtf8, HasForbidden, NfcScan, EncodeAll, LinesCp, Lines, AllGood;
  }

  /** `ax_validate_and_normalise` accepts, the buffer apart, exactly the good texts. */
  lemma CleanTextExact(s: bytes)
    ensures CleanText(s) <==> GoodText(s)
  {
    hide AllGood, EncodeAll, CodePoints, HasForbidden, NfcScan, Lines;
    if CleanText(s) {
      hide ValidUtf8;
      EncodeCodePoints(s);
      CleanScalars(CodePoints(s));
    }
    hide CleanText;
    if cps: seq<scalar> :| EncodeAll(cps) == s && AllGood(cps) {
      CleanScalars(cps);
    }
  }

  /** Line endings, as equations: CR LF is one line feed, a CR before anything else is one, and text
      without CR stays. */
  lemma {:induction false} LinesRules(a: bytes, b: bytes)
    ensures Lines(a + ([0x0D, 0x0A] + b)) == Lines(a) + ([0x0A] + Lines(b))
    ensures b == [] || b[0] != 0x0A ==> Lines(a + ([0x0D] + b)) == Lines(a) + ([0x0A] + Lines(b))
    ensures CR !in a ==> Lines(a) == a
    decreases |a|
  {
    if a == [] {
      assert a + ([0x0D, 0x0A] + b) == [0x0D, 0x0A] + b && ([0x0D, 0x0A] + b)[2..] == b;
      assert a + ([0x0D] + b) == [0x0D] + b && ([0x0D] + b)[1..] == b;
      assert [] + ([0x0A] + Lines(b)) == [0x0A] + Lines(b);
    } else if a[0] == CR && |a| > 1 && a[1] == LF {
      LinesRules(a[2..], b);
      LinesPair(a, [0x0D, 0x0A] + b);
      LinesPair(a, [0x0D] + b);
      LinesPair(a, []);
      assert a + [] == a && a[2..] + [] == a[2..];
      Assoc([LF], Lines(a[2..]), [0x0A] + Lines(b));
    } else {
      LinesRules(a[1..], b);
      var x: byte := if a[0] == CR then LF else a[0];
      LinesStep(a, [0x0D, 0x0A] + b);
      LinesStep(a, [0x0D] + b);
      LinesStep(a, []);
      assert a + [] == a && a[1..] + [] == a[1..];
      Assoc([x], Lines(a[1..]), [0x0A] + Lines(b));
      if CR !in a {
        assert CR !in a[1..] && a == [a[0]] + a[1..];
      }
    }
  }

  lemma LinesPair(a: bytes, k: bytes)
    requires |a| > 1 && a[0] == CR && a[1] == LF
    ensures Lines(a + k) == [LF] + Lines(a[2..] + k)
  {
    assert (a + k)[2..] == a[2..] + k;
  }

  lemma LinesStep(a: bytes, k: bytes)
    requires a != [] && (a[0] == CR ==> |a| == 1 || a[1] != LF) && (k == [] || k[0] != LF)
    ensures Lines(a + k) == [if a[0] == CR then LF else a[0]] + Lines(a[1..] + k)
  {
    var s := a + k;
    assert s[1..] == a[1..] + k && s[0] == a[0];
    assert |a| > 1 ==> s[1] == a[1];
    assert |a| == 1 && k != [] ==> s[1] == k[0];
    LinesOne(s);
  }

  lemma LinesOne(s: bytes)
    requires s != [] && !(s[0] == CR && |s| > 1 && s[1] == LF)
    ensures Lines(s) == [if s[0] == CR then LF else s[0]] + Lines(s[1..])
  {
  }

  // ---- admission -------------------------------------------------------------------------------------

  /** An identifier: present, not empty, no control byte, no DEL, UTF-8. */
  ghost predicate GoodId(id: Option<bytes>) {
    && id.Some? && |id.value| >= 1 && IsUtf8(id.value)
    && forall i :: 0 <= i < |id.value| ==> id.value[i] >= 0x20 && id.value[i] != 0x7F
  }

  predicate LongId(id: Option<bytes>) {
    id.Some? && |id.value| > 256
  }

  /** The five pairs of completion state and failure type. */
  const PAIRS: set<(int, int)> := {
    (COMPLETE, FAILURE_NULL), (TRUNCATED, FAILURE_NULL),
    (ERROR, TIMEOUT), (ERROR, INVALID_OUTPUT), (ERROR, TRANSPORT_ERROR)}

  /** Input that no record can be made of. */
  ghost predicate Malformed(x: Input) {
    || !GoodId(x.modelId) || !GoodId(x.oracleId) || (x.state, x.failure) !in PAIRS
    || (x.state == ERROR && x.outputLen > 64512)
    || (x.input.None? && x.inputLen > 0) || (x.output.None? && x.outputLen > 0)
  }

  /** What admission stores: a longer output is cut to 64,512 bytes and marked TRUNCATED with its
      original size; line endings are normalised; an absent or empty input has the zero hash. */
  function Stored(c: Crypto, x: Input): Record
    requires InputShape(x)
  {
    var output := OrEmpty(x.output);
    var text := Lines(if |output| > 64512 then output[..64512] else output);
    Record(
      if x.outputLen > 64512 then TRUNCATED else x.state, x.failure,
      if OrEmpty(x.input) == [] then ZeroDigest() else c.sha256(OrEmpty(x.input)), x.ledgerSeq,
      x.modelId, [], x.oracleId, Some(text), if x.outputLen > 64512 then x.outputLen else |text|,
      x.params, Some(Ascii("AX:OBS:v1")))
  }

  lemma IdExact(id: Option<bytes>)
    ensures IdOk(id) <==> GoodId(id)
    ensures IdTooLong(id) <==> LongId(id)
  {
    if id.Some? {
      ValidUtf8Exact(id.value);
    }
    hide ValidUtf8, IsUtf8;
  }

  lemma MalformedExact(x: Input)
    ensures SchemaValid(x) <==> !Malformed(x)
  {
    IdExact(x.modelId);
    IdExact(x.oracleId);
    hide IdOk, GoodId;
  }

  lemma StoredIsDraft(c: Crypto, x: Input)
    requires InputShape(x) && !(x.output.None? && x.outputLen > 0)
    ensures Draft(c, x) == Stored(c, x) && OutputTaken(x) == Taken(x)
  {
    hide Lines;
  }

  /** The part of the output that is looked at. */
  function Taken(x: Input): bytes {
    var output := OrEmpty(x.output);
    if |output| > 64512 then output[..64512] else output
  }

  /** The code of the output part, and its order: encoding, then room, then content. */
  lemma OutputCode(x: Input, bufSize: nat)
    requires InputShape(x) && OutputTaken(x) == Taken(x)
    ensures var t := Taken(x);
      var rc := if IsUtf8(t) && |Lines(t)| >= bufSize then AX_ERR_BUFFER else AX_ERR_ENCODING;
      OutputRc(x, bufSize) < 0 ==> OutputRc(x, bufSize) == rc
    ensures var t := Taken(x);
      OutputRc(x, bufSize) < 0 <==> t != [] && (!GoodText(t) || |Lines(t)| >= bufSize)
  {
    var t := Taken(x);
    CleanTextExact(t);
    ValidUtf8Exact(t);
    hide GoodText, IsUtf8, ValidUtf8, HasForbidden, NfcScan, Lines;
  }

  /** The return code of `ax_obs_admit`, refusal by refusal and in their order. */
  lemma AdmitCodes(c: Crypto, x: Input, ctx: Ctx, bufSize: nat)
    requires InputShape(x)
    ensures var t, r := Taken(x), Stored(c, x);
      var d := c.commit(Ascii("AX:OBS:v1"), Canon(r, true));
      AdmitRc(c, x, ctx, bufSize)
      == if ctx.initialized && x.ledgerSeq <= ctx.last then AX_ERR_ORDERING
         else if LongId(x.modelId) || LongId(x.oracleId) then AX_ERR_SIZE
         else if Malformed(x) then AX_ERR_SCHEMA
         else if t != [] && !IsUtf8(t) then AX_ERR_ENCODING
         else if t != [] && |Lines(t)| >= bufSize then AX_ERR_BUFFER
         else if t != [] && !GoodText(t) then AX_ERR_ENCODING
         else if |Canon(r, true)| >= 131072 then AX_ERR_BUFFER
         else if d.None? then AX_ERR_HASH
         else if |Canon(r.(obsHash := HexText(d.value)), true)| > 65536 then AX_ERR_SIZE
         else AX_OK
  {
    hide IdTooLong, LongId, SchemaValid, Malformed, OutputRc, GoodText, IsUtf8, Lines, Taken, Draft, Stored, Canon;
    hide Ascii, HexText, OutputTaken;
    IdExact(x.modelId);
    IdExact(x.oracleId);
    MalformedExact(x);
    if SchemaValid(x) {
      NoLostOutput(x);
      StoredIsDraft(c, x);
      OutputCode(x, bufSize);
      GoodIsUtf8(Taken(x));
      BlankText(Stored(c, x));
      StoredBlank(c, x);
    }
  }

  lemma NoLostOutput(x: Input)
    requires SchemaValid(x)
    ensures !(x.output.None? && x.outputLen > 0)
  {
    hide IdOk;
  }

  lemma StoredBlank(c: Crypto, x: Input)
    requires InputShape(x)
    ensures Stored(c, x).obsHash == []
  {
    hide Lines, Ascii;
  }

  lemma GoodIsUtf8(s: bytes)
    ensures GoodText(s) ==> IsUtf8(s)
  {
    hide EncodeAll, AllGood;
  }

  /** The text that is hashed is the text with an empty hash. */
  lemma BlankText(r: Record)
    ensures r.obsHash == [] ==> Canon(r, false) == Canon(r, true)
  {
    hide TextWith;
  }

  // ---- validation ----------------------------------------------------------------------------------------

  /** A stored output: UTF-8 without a mark of the four combining blocks. */
  ghost predicate GoodOutput(s: bytes) {
    exists cps: seq<scalar> :: EncodeAll(cps) == s && forall i :: 0 <= i < |cps| ==> !Combining(cps[i])
  }

  lemma GoodOutputExact(s: bytes)
    ensures ValidUtf8(s) && NfcScan(s) <==> GoodOutput(s)
  {
    if ValidUtf8(s) {
      EncodeCodePoints(s);
      NfcMeaning(CodePoints(s));
    }
    if cps: seq<scalar> :| EncodeAll(cps) == s && forall i :: 0 <= i < |cps| ==> !Combining(cps[i]) {
      EncodedIsValid(cps);
      NfcMeaning(cps);
    }
  }

  /** The size that a record may carry for its output. */
  predicate GoodSize(r: Record) {
    var n := |OrEmpty(r.output)|;
    r.outputSize == n || (r.state == TRUNCATED && r.outputSize > n)
  }

  /** The commitment to the record with an empty hash, as it is written in a record. */
  function HashOf(c: Crypto, r: Record): Option<bytes> {
    var d :- c.commit(Ascii("AX:OBS:v1"), Canon(r.(obsHash := []), true));
    Some(HexText(d))
  }

  lemma HashIs(c: Crypto, r: Record)
    ensures HashOf(c, r) == if Seal(c, r).None? then None else Some(Seal(c, r).value.obsHash)
    ensures Canon(r, false) == Canon(r.(obsHash := []), true)
  {
    SameBlank(r);
    hide Canon, HexText;
  }

  lemma SameBlank(r: Record)
    ensures Canon(r, false) == Canon(r.(obsHash := []), true)
  {
    var t := r.(obsHash := []);
    assert HeadText(t, []) == HeadText(r, []);
    assert TextWith(t, []) == TextWith(r, []);
  }

  /** The return code of `ax_obs_validate`, refusal by refusal and in their order: in the end the
      stored hash must be the commitment to the record. */
  lemma ValidateCodes(c: Crypto, r: Record)
    ensures ValidateRc(c, r)
      == if r.schemaVersion != Some(Ascii("AX:OBS:v1")) then AX_ERR_SCHEMA
         else if r.output.Some? && r.outputSize > 0 && !GoodOutput(r.output.value) then AX_ERR_ENCODING
         else if r.output.Some? && !GoodSize(r) then AX_ERR_SCHEMA
         else if |Canon(r.(obsHash := []), true)| >= 131072 then AX_ERR_BUFFER
         else if HashOf(c, r) != Some(r.obsHash) then AX_ERR_HASH
         else AX_OK
  {
    hide Canon, HexText, ValidUtf8, NfcScan, GoodOutput, Ascii, HashOf;
    HashIs(c, r);
    if r.output.Some? {
      GoodOutputExact(r.output.value);
      SizeExact(r);
    }
    hide SizeFits, GoodSize;
  }

  lemma SizeExact(r: Record)
    requires r.output.Some?
    ensures SizeFits(r) <==> GoodSize(r)
  {
  }

  /** A record validates only if hashing it again gives the record itself. */
  lemma ValidIsSealed(c: Crypto, r: Record)
    requires ValidateRc(c, r) == AX_OK
    ensures Seal(c, r) == Some(r)
  {
    hide Canon, HexText, ValidUtf8, NfcScan;
  }

  /** What every admitted record keeps when one part of it is altered afterwards: another hash is
      AX_ERR_HASH, another schema name AX_ERR_SCHEMA, another size AX_ERR_SCHEMA unless it is one
      the state allows, an output that is not a stored output AX_ERR_ENCODING. */
  lemma AlteredIsRefused(c: Crypto, r: Record, hash: bytes, schema: Option<bytes>, size: nat, output: bytes)
    requires WellRecorded(c, r)
    ensures hash != r.obsHash ==> ValidateRc(c, r.(obsHash := hash)) == AX_ERR_HASH
    ensures schema != Some(Ascii("AX:OBS:v1")) ==> ValidateRc(c, r.(schemaVersion := schema)) == AX_ERR_SCHEMA
    ensures !GoodSize(r.(outputSize := size)) ==> ValidateRc(c, r.(outputSize := size)) == AX_ERR_SCHEMA
    ensures r.outputSize > 0 && !GoodOutput(output) ==> ValidateRc(c, r.(output := Some(output))) == AX_ERR_ENCODING
  {
    hide Canon, HexText, GoodOutput, Ascii, ValidateRc, WellRecorded, Schema, Readable, GoodSize;
    WellRecordedRules(c, r);
    if hash != r.obsHash {
      AlteredHash(c, r, hash);
    }
    ValidateCodes(c, r.(schemaVersion := schema));
    ValidateCodes(c, r.(outputSize := size));
    ValidateCodes(c, r.(output := Some(output)));
  }

  lemma AlteredHash(c: Crypto, r: Record, hash: bytes)
    requires WellRecorded(c, r) && hash != r.obsHash
    ensures ValidateRc(c, r.(obsHash := hash)) == AX_ERR_HASH
  {
    hide Canon, HexText, GoodOutput, Ascii, ValidateRc, WellRecorded, Schema, Readable;
    WellRecordedRules(c, r);
    ValidateCodes(c, r.(obsHash := hash));
    assert r.(obsHash := hash).(obsHash := []) == r.(obsHash := []);
  }

  lemma WellRecordedRules(c: Crypto, r: Record)
    requires WellRecorded(c, r)
    ensures r.schemaVersion == Some(Ascii("AX:OBS:v1")) && r.output.Some? && GoodOutput(r.output.value) && GoodSize(r)
    ensures HashOf(c, r) == Some(r.obsHash) && |r.obsHash| == 64 && |Canon(r.(obsHash := []), true)| < 131072
    ensures Readable(r)
  {
    hide Canon, ValidUtf8, NfcScan, GoodOutput, IdOk, HashOf, Ascii, Readable;
    HashIs(c, r);
    GoodOutputExact(r.output.value);
    ShorterBlank(r);
    WellRecordedReadable(c, r);
  }

  lemma WellRecordedReadable(c: Crypto, r: Record)
    requires WellRecorded(c, r)
    ensures Readable(r) && |r.obsHash| == 64
  {
    hide Canon, ValidUtf8, NfcScan, Schema;
  }

  lemma ShorterBlank(r: Record)
    ensures |Canon(r, false)| <= |Canon(r, true)|
  {
    hide TextWith;
    HashLength(r, r.obsHash);
  }

  /** Whatever part of an admitted record is altered under its hash: if the result still validates,
      it is the record itself or two different texts have the same commitment. */
  lemma TamperEvident(c: Crypto, r: Record, t: Record)
    requires WellRecorded(c, r) && Readable(t) && t.obsHash == r.obsHash && t != r
    requires ValidateRc(c, t) == AX_OK
    ensures Canon(t, false) != Canon(r, false)
    ensures c.commit(Schema(), Canon(t, false)).Some?
    ensures c.commit(Schema(), Canon(t, false)) == c.commit(Schema(), Canon(r, false))
  {
    hide *;
    WellRecordedReadable(c, r);
    ValidIsSealed(c, t);
    SealedBy(c, t);
    AdmittedSealed(c, r);
    if Canon(t, false) == Canon(r, false) {
      BlankInjective(t, r);
      assert false;
    }
    HexTextInjective(c.commit(Schema(), Canon(t, false)).value, c.commit(Schema(), Canon(r, false)).value);
  }

  lemma AdmittedSealed(c: Crypto, r: Record)
    requires WellRecorded(c, r)
    ensures c.commit(Schema(), Canon(r, false)).Some?
    ensures r.obsHash == HexText(c.commit(Schema(), Canon(r, false)).value)
  {
    hide Canon, ValidUtf8, NfcScan, Schema, IdOk, HexText;
  }

  lemma SealedBy(c: Crypto, t: Record)
    requires Seal(c, t) == Some(t)
    ensures c.commit(Schema(), Canon(t, false)).Some?
    ensures t.obsHash == HexText(c.commit(Schema(), Canon(t, false)).value)
  {
    hide Canon, HexText;
  }
}
