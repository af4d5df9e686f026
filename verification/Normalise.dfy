/** The rest of src/validate.c: control characters, line endings, the combining-mark
    test and the combined validation of prompts and outputs. */
module Normalise {
  import opened Bytes
  import opened Utf8
  import opened Faults

  predicate ForbiddenByte(b: byte) {
    (b < 0x20 && b != LF) || b == 0x7F
  }

  predicate HasForbidden(s: bytes) {
    exists i :: 0 <= i < |s| && ForbiddenByte(s[i])
  }

  /** `ax_contains_forbidden_control`. */
  method ContainsForbiddenControl(data: bytes) returns (found: bool)
    ensures found <==> HasForbidden(data)
  {
    for i := 0 to |data|
      invariant forall k :: 0 <= k < i ==> !ForbiddenByte(data[k])
    {
      if ForbiddenByte(data[i]) {
        return true;
      }
    }
    return false;
  }

  // ---- line endings --------------------------------------------------------

  /** CRLF and lone CR become LF. */
  function Lines(s: bytes): (r: bytes)
    ensures |r| <= |s| && (s != [] ==> r != [])
    ensures CR !in r
    decreases |s|
  {
    if s == [] then []
    else if s[0] == CR then [LF] + Lines(if |s| > 1 && s[1] == LF then s[2..] else s[1..])
    else [s[0]] + Lines(s[1..])
  }

  /** The same rule on code points. */
  function LinesCp(s: seq<scalar>): (r: seq<scalar>)
    decreases |s|
  {
    if s == [] then []
    else if s[0] == 13 then [10] + LinesCp(if |s| > 1 && s[1] == 10 then s[2..] else s[1..])
    else [s[0]] + LinesCp(s[1..])
  }

  lemma {:induction false} LinesSkip(a: bytes, rest: bytes)
    requires CR !in a
    ensures Lines(a + rest) == a + Lines(rest)
  {
    if a == [] {
      assert a + rest == rest;
    } else {
      assert (a + rest)[1..] == a[1..] + rest;
      LinesSkip(a[1..], rest);
    }
  }

  lemma NoCrIn(cp: scalar)
    requires cp != 13
    ensures CR !in Encode(cp)
  {
  }

  /** The byte-level rewriting is the code-point-level one. */
  lemma {:induction false} LinesOnCodePoints(cps: seq<scalar>)
    ensures Lines(EncodeAll(cps)) == EncodeAll(LinesCp(cps))
    decreases |cps|
  {
    if cps == [] {
    } else if cps[0] != 13 {
      NoCrIn(cps[0]);
      LinesSkip(Encode(cps[0]), EncodeAll(cps[1..]));
      LinesOnCodePoints(cps[1..]);
    } else {
      var tail := cps[1..];
      var s := EncodeAll(cps);
      assert s == [13] + EncodeAll(tail);
      assert s[1..] == EncodeAll(tail);
      if tail != [] {
        StepComplete(tail[0], EncodeAll(tail[1..]));
        assert EncodeAll(tail)[0] == 10 ==> tail[0] == 10;
      }
      if tail != [] && tail[0] == 10 {
        assert EncodeAll(tail) == [10] + EncodeAll(tail[1..]);
        assert s[2..] == EncodeAll(tail[1..]) && cps[2..] == tail[1..];
        LinesOnCodePoints(cps[2..]);
      } else {
        LinesOnCodePoints(tail);
      }
    }
  }

  /** Normalisation keeps well-formed UTF-8 well-formed. */
  lemma LinesKeepsUtf8(s: bytes)
    requires IsUtf8(s)
    ensures IsUtf8(Lines(s))
  {
    var cps: seq<scalar> :| EncodeAll(cps) == s;
    LinesOnCodePoints(cps);
  }

  /** Without CR there is nothing to do, so normalising twice is normalising once. */
  lemma LinesIdempotent(s: bytes)
    ensures Lines(Lines(s)) == Lines(s)
  {
    LinesSkip(Lines(s), []);
    assert Lines(s) + [] == Lines(s);
  }

  /** `ax_normalise_line_endings`: `dst` is the caller's buffer. */
  method NormaliseLineEndings(dst: array<byte>, src: bytes) returns (n: int)
    requires dst.Length >= 1
    modifies dst
    ensures n >= 0 <==> |Lines(src)| <= dst.Length - 1
    ensures n < 0 ==> n == AX_ERR_BUFFER
    ensures n >= 0 ==> n == |Lines(src)| && dst[..n] == Lines(src) && dst[n] == 0
  {
    var di, si := 0, 0;
    while si < |src| && di < dst.Length - 1
      invariant 0 <= di <= dst.Length - 1 && 0 <= si <= |src|
      invariant dst[..di] + Lines(src[si..]) == Lines(src)
    {
      var c := src[si];
      ghost var done, rest := dst[..di], src[si..];
      if c == CR {
        dst[di] := LF;
        if si + 1 < |src| && src[si + 1] == LF {
          assert rest[2..] == src[si + 2..];
          si := si + 2;
        } else {
          assert rest[1..] == src[si + 1..];
          si := si + 1;
        }
        assert Lines(rest) == [LF] + Lines(src[si..]);
      } else {
        dst[di] := c;
        assert rest[1..] == src[si + 1..];
        si := si + 1;
        assert Lines(rest) == [c] + Lines(src[si..]);
      }
      di := di + 1;
      assert dst[..di] == done + [dst[di - 1]];
      Assoc(done, [dst[di - 1]], Lines(src[si..]));
    }
    if si < |src| {
      return AX_ERR_BUFFER;
    }
    dst[di] := 0;
    assert dst[..di] == Lines(src);
    return di;
  }

  // ---- combining marks -----------------------------------------------------

  /** The four blocks that `ax_is_nfc` refuses; this is not Unicode NFC. */
  predicate Combining(cp: int) {
    || 0x0300 <= cp <= 0x036F
    || 0x1DC0 <= cp <= 0x1DFF
    || 0x20D0 <= cp <= 0x20FF
    || 0xFE20 <= cp <= 0xFE2F
  }

  /** One turn of the loop of `ax_is_nfc`: bytes to advance, 0 for a refusal.  A
      four-byte lead advances without looking, so the step may pass the end. */
  function NfcStep(s: bytes): (n: nat)
    requires s != []
  {
    var c := s[0];
    if c < 0x80 then 1
    else if c / 32 == 6 then
      if |s| < 2 || 0x0300 <= Cp2(c, s[1]) <= 0x036F then 0 else 2
    else if c / 16 == 14 then
      if |s| < 3 then 0
      else
        var cp := Cp3(c, s[1], s[2]);
        if 0x1DC0 <= cp <= 0x1DFF || 0x20D0 <= cp <= 0x20FF || 0xFE20 <= cp <= 0xFE2F then 0 else 3
    else if c / 8 == 30 then 4
    else 0
  }

  predicate NfcScan(s: bytes)
    decreases |s|
  {
    s == [] || (NfcStep(s) > 0 && (NfcStep(s) >= |s| || NfcScan(s[NfcStep(s)..])))
  }

  /** `ax_is_nfc`. */
  method IsNfc(data: bytes) returns (ok: bool)
    ensures ok == NfcScan(data)
  {
    var p := 0;
    while p < |data|
      invariant 0 <= p
      invariant NfcScan(data) == (p >= |data| || NfcScan(data[p..]))
    {
      var n := NfcStep(data[p..]);
      if n == 0 {
        return false;
      }
      if p + n < |data| {
        assert data[p..][n..] == data[p + n..];
      }
      p := p + n;
    }
    return true;
  }

  lemma NfcStepMeaning(s: bytes)
    requires s != [] && CodePointLen(s) > 0
    ensures NfcStep(s) == if Combining(FirstCodePoint(s)) then 0 else CodePointLen(s)
  {
  }

  /** On well-formed text the scan refuses exactly the texts with a listed mark. */
  lemma {:induction false} NfcMeaning(cps: seq<scalar>)
    ensures NfcScan(EncodeAll(cps)) <==> forall i :: 0 <= i < |cps| ==> !Combining(cps[i])
  {
    if cps != [] {
      var s := EncodeAll(cps);
      StepComplete(cps[0], EncodeAll(cps[1..]));
      NfcStepMeaning(s);
      assert s[|Encode(cps[0])|..] == EncodeAll(cps[1..]);
      NfcMeaning(cps[1..]);
      assert cps[1..] != [] ==> |EncodeAll(cps[1..])| >= |Encode(cps[1..][0])| > 0;
      assert forall i :: 1 <= i < |cps| ==> cps[i] == cps[1..][i - 1];
    }
  }

  // ---- combined ------------------------------------------------------------

  /** `ax_validate_encoding`. */
  method ValidateEncoding(data: bytes) returns (rc: int)
    ensures rc == AX_OK <==> IsUtf8(data) && NfcScan(data)
    ensures rc != AX_OK ==> rc == AX_ERR_ENCODING
  {
    var ok := ValidateUtf8(data);
    if !ok {
      return AX_ERR_ENCODING;
    }
    ok := IsNfc(data);
    return if ok then AX_OK else AX_ERR_ENCODING;
  }

  /** What a text must be to come out of `ax_validate_and_normalise`. */
  predicate CleanText(src: bytes) {
    ValidUtf8(src) && !HasForbidden(Lines(src)) && NfcScan(Lines(src))
  }

  /** The value of `ax_validate_and_normalise` for a buffer of `size` bytes. */
  function NormaliseRc(src: bytes, size: int): (rc: int)
    ensures rc >= 0 <==> CleanText(src) && |Lines(src)| <= size - 1
    ensures rc >= 0 ==> rc == |Lines(src)|
  {
    if !ValidUtf8(src) then AX_ERR_ENCODING
    else if |Lines(src)| > size - 1 then AX_ERR_BUFFER
    else if HasForbidden(Lines(src)) || !NfcScan(Lines(src)) then AX_ERR_ENCODING
    else |Lines(src)|
  }

  /** Clean text holds no NUL, so `strlen` of the buffer is the length returned. */
  lemma CleanHasNoNul(src: bytes)
    requires CleanText(src)
    ensures NoNul(Lines(src)) && ValidUtf8(Lines(src))
  {
    forall i | 0 <= i < |Lines(src)|
      ensures Lines(src)[i] != 0
    {
      assert !ForbiddenByte(Lines(src)[i]);
    }
    ValidUtf8Exact(src);
    LinesKeepsUtf8(src);
    ValidUtf8Exact(Lines(src));
  }

  /** `ax_validate_and_normalise`. */
  method ValidateAndNormalise(dst: array<byte>, src: bytes, faults: FaultFlags) returns (rc: int)
    requires dst.Length >= 1
    modifies dst, faults`encoding, faults`size
    ensures rc == NormaliseRc(src, dst.Length)
    ensures rc >= 0 ==> dst[..rc] == Lines(src) && dst[rc] == 0
    ensures faults.encoding == (old(faults.encoding) || rc == AX_ERR_ENCODING)
    ensures faults.size == (old(faults.size) || rc == AX_ERR_BUFFER)
  {
    ValidUtf8Exact(src);
    var ok := ValidateUtf8(src);
    if !ok {
      faults.encoding := true;
      return AX_ERR_ENCODING;
    }
    rc := NormaliseLineEndings(dst, src);
    if rc < 0 {
      faults.size := true;
      return;
    }
    var bad := ContainsForbiddenControl(dst[..rc]);
    if bad {
      faults.encoding := true;
      return AX_ERR_ENCODING;
    }
    ok := IsNfc(dst[..rc]);
    if !ok {
      faults.encoding := true;
      return AX_ERR_ENCODING;
    }
  }
}
