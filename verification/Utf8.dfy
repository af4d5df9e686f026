/** UTF-8 as sections 3 and 4 of RFC 3629 define it, and the two validators of the
    repository: the code-point validator of src/validate.c and the byte-table
    validator of gateway/src/gw_json.c.  C's bit masks are written as the division
    and remainder they stand for. */
module Utf8 {
  import opened Bytes

  /** Unicode scalar values: the code points that are not surrogates. */
  type scalar = cp: int | 0 <= cp < 0xD800 || 0xDFFF < cp <= 0x10FFFF

  predicate Cont(b: int) {
    b / 64 == 2
  }

  /** The code point assembled from the payload bits of two, three or four bytes. */
  function Cp2(a: int, b: int): int { a % 32 * 64 + b % 64 }
  function Cp3(a: int, b: int, c: int): int { (a % 16 * 64 + b % 64) * 64 + c % 64 }
  function Cp4(a: int, b: int, c: int, d: int): int { ((a % 8 * 64 + b % 64) * 64 + c % 64) * 64 + d % 64 }

  /** `put_utf8` before its capacity test. */
  function Encode(cp: int): (r: bytes)
    requires 0 <= cp <= 0x10FFFF
    ensures 1 <= |r| <= 4
  {
    if cp < 0x80 then [cp]
    else if cp < 0x800 then [0xC0 + cp / 64, 0x80 + cp % 64]
    else if cp < 0x10000 then [0xE0 + cp / 64 / 64, 0x80 + cp / 64 % 64, 0x80 + cp % 64]
    else [0xF0 + cp / 64 / 64 / 64, 0x80 + cp / 64 / 64 % 64, 0x80 + cp / 64 % 64, 0x80 + cp % 64]
  }

  function EncodeAll(cps: seq<scalar>): (r: bytes) {
    if cps == [] then [] else Encode(cps[0]) + EncodeAll(cps[1..])
  }

  /** The reference: a concatenation of encodings of scalar values. */
  ghost predicate IsUtf8(s: bytes) {
    exists cps: seq<scalar> :: EncodeAll(cps) == s
  }

  /** One turn of the loop of `ax_validate_utf8`: the length accepted, 0 for a refusal. */
  function CodePointLen(s: bytes): (n: nat)
    requires s != []
    ensures n <= |s|
  {
    var c := s[0];
    if c < 0x80 then 1
    else if c / 32 == 6 then
      if |s| < 2 || !Cont(s[1]) || c / 2 % 16 == 0 then 0 else 2
    else if c / 16 == 14 then
      if |s| < 3 || !Cont(s[1]) || !Cont(s[2]) then 0
      else
        var cp := Cp3(c, s[1], s[2]);
        if cp < 0x800 || 0xD800 <= cp <= 0xDFFF then 0 else 3
    else if c / 8 == 30 then
      if |s| < 4 || !Cont(s[1]) || !Cont(s[2]) || !Cont(s[3]) then 0
      else
        var cp := Cp4(c, s[1], s[2], s[3]);
        if cp < 0x10000 || cp > 0x10FFFF then 0 else 4
    else 0
  }

  /** `utf8_seq_len`: the byte table. */
  function TableLen(s: bytes): (n: nat)
    requires s != []
    ensures n <= |s|
  {
    var c := s[0];
    if c < 0x80 then 1
    else if 0xC2 <= c <= 0xDF then
      if |s| >= 2 && Cont(s[1]) then 2 else 0
    else if 0xE0 <= c <= 0xEF then
      var lo := if c == 0xE0 then 0xA0 else 0x80;
      var hi := if c == 0xED then 0x9F else 0xBF;
      if |s| >= 3 && lo <= s[1] <= hi && Cont(s[2]) then 3 else 0
    else if 0xF0 <= c <= 0xF4 then
      var lo := if c == 0xF0 then 0x90 else 0x80;
      var hi := if c == 0xF4 then 0x8F else 0xBF;
      if |s| >= 4 && lo <= s[1] <= hi && Cont(s[2]) && Cont(s[3]) then 4 else 0
    else 0
  }

  lemma LenAgree(s: bytes)
    requires s != []
    ensures CodePointLen(s) == TableLen(s)
  {
  }

  /** The code point that the accepted first sequence of `s` encodes. */
  function FirstCodePoint(s: bytes): (cp: int)
    requires s != [] && CodePointLen(s) > 0
  {
    match CodePointLen(s)
    case 1 => s[0]
    case 2 => Cp2(s[0], s[1])
    case 3 => Cp3(s[0], s[1], s[2])
    case _ => Cp4(s[0], s[1], s[2], s[3])
  }

  lemma Split64(x: int, y: int)
    requires 0 <= y < 64
    ensures (x * 64 + y) / 64 == x && (x * 64 + y) % 64 == y
  {
  }

  lemma Sound3(a: byte, b: byte, c: byte)
    requires a / 16 == 14 && Cont(b) && Cont(c) && 0x800 <= Cp3(a, b, c)
    ensures Cp3(a, b, c) < 0x10000 && Encode(Cp3(a, b, c)) == [a, b, c]
  {
    var x: int, y: int, z: int := a % 16, b % 64, c % 64;
    Split64(x, y);
    Split64(x * 64 + y, z);
    assert a == 0xE0 + x && b == 0x80 + y && c == 0x80 + z;
  }

  lemma Sound4(a: byte, b: byte, c: byte, d: byte)
    requires a / 8 == 30 && Cont(b) && Cont(c) && Cont(d) && 0x10000 <= Cp4(a, b, c, d) <= 0x10FFFF
    ensures Encode(Cp4(a, b, c, d)) == [a, b, c, d]
  {
    var x: int, y: int, z: int, w: int := a % 8, b % 64, c % 64, d % 64;
    Split64(x, y);
    Split64(x * 64 + y, z);
    Split64((x * 64 + y) * 64 + z, w);
    assert a == 0xF0 + x && b == 0x80 + y && c == 0x80 + z && d == 0x80 + w;
  }

  lemma StepSound(s: bytes)
    requires s != [] && CodePointLen(s) > 0
    ensures var cp := FirstCodePoint(s);
      (0 <= cp < 0xD800 || 0xDFFF < cp <= 0x10FFFF) && Encode(cp) == s[..CodePointLen(s)]
  {
    match CodePointLen(s)
    case 1 =>
    case 2 =>
      var x: int, y: int := s[0] % 32, s[1] % 64;
      Split64(x, y);
      assert s[..2] == [s[0], s[1]];
    case 3 =>
      hide Encode, Cp3;
      Sound3(s[0], s[1], s[2]);
      assert s[..3] == [s[0], s[1], s[2]];
    case _ =>
      hide Encode, Cp4;
      Sound4(s[0], s[1], s[2], s[3]);
      assert s[..4] == [s[0], s[1], s[2], s[3]];
  }

  lemma Join3(cp: int)
    requires 0x800 <= cp < 0x10000
    ensures Cp3(0xE0 + cp / 64 / 64, 0x80 + cp / 64 % 64, 0x80 + cp % 64) == cp
  {
    assert (0xE0 + cp / 64 / 64) % 16 == cp / 64 / 64;
    assert (0x80 + cp / 64 % 64) % 64 == cp / 64 % 64;
    assert (0x80 + cp % 64) % 64 == cp % 64;
  }

  lemma Join4(cp: int)
    requires 0x10000 <= cp <= 0x10FFFF
    ensures Cp4(0xF0 + cp / 64 / 64 / 64, 0x80 + cp / 64 / 64 % 64, 0x80 + cp / 64 % 64, 0x80 + cp % 64) == cp
  {
    assert (0xF0 + cp / 64 / 64 / 64) % 8 == cp / 64 / 64 / 64;
    assert (0x80 + cp / 64 / 64 % 64) % 64 == cp / 64 / 64 % 64;
    assert (0x80 + cp / 64 % 64) % 64 == cp / 64 % 64;
    assert (0x80 + cp % 64) % 64 == cp % 64;
  }

  lemma StepComplete(cp: scalar, rest: bytes)
    ensures var s := Encode(cp) + rest;
      CodePointLen(s) == |Encode(cp)| && FirstCodePoint(s) == cp
  {
    var e, s := Encode(cp), Encode(cp) + rest;
    assert forall i :: 0 <= i < |e| ==> s[i] == e[i];
    if 0x800 <= cp < 0x10000 {
      hide Cp3;
      Join3(cp);
      assert (0xE0 + cp / 64 / 64) / 16 == 14;
    } else if cp >= 0x10000 {
      hide Cp4;
      Join4(cp);
      assert (0xF0 + cp / 64 / 64 / 64) / 8 == 30;
    }
  }

  /** Both validators are this recursion; `ValidUtf8Exact` says what it decides. */
  predicate ValidUtf8(s: bytes)
    decreases |s|
  {
    s == [] || (CodePointLen(s) > 0 && ValidUtf8(s[CodePointLen(s)..]))
  }

  function CodePoints(s: bytes): (cps: seq<scalar>)
    requires ValidUtf8(s)
    decreases |s|
  {
    if s == [] then []
    else
      StepSound(s);
      [FirstCodePoint(s)] + CodePoints(s[CodePointLen(s)..])
  }

  lemma {:induction false} EncodeCodePoints(s: bytes)
    requires ValidUtf8(s)
    ensures EncodeAll(CodePoints(s)) == s
    decreases |s|
  {
    if s != [] {
      StepSound(s);
      EncodeCodePoints(s[CodePointLen(s)..]);
    }
  }

  lemma {:induction false} EncodedIsValid(cps: seq<scalar>)
    ensures ValidUtf8(EncodeAll(cps))
    ensures CodePoints(EncodeAll(cps)) == cps
  {
    if cps != [] {
      StepComplete(cps[0], EncodeAll(cps[1..]));
      EncodedIsValid(cps[1..]);
      assert EncodeAll(cps)[|Encode(cps[0])|..] == EncodeAll(cps[1..]);
    }
  }

  /** Acceptance is exactly RFC 3629 well-formedness. */
  lemma ValidUtf8Exact(s: bytes)
    ensures ValidUtf8(s) <==> IsUtf8(s)
  {
    if ValidUtf8(s) {
      EncodeCodePoints(s);
    }
    if IsUtf8(s) {
      var cps: seq<scalar> :| EncodeAll(cps) == s;
      EncodedIsValid(cps);
    }
  }

  /** `put_utf8` of a scalar value is accepted by both validators. */
  lemma PutUtf8Accepted(cp: scalar)
    ensures ValidUtf8(Encode(cp)) && TableLen(Encode(cp)) == |Encode(cp)|
  {
    StepComplete(cp, []);
    assert Encode(cp) + [] == Encode(cp);
    LenAgree(Encode(cp));
  }

  lemma {:induction false} ValidConcat(a: bytes, b: bytes)
    requires ValidUtf8(a) && ValidUtf8(b)
    ensures ValidUtf8(a + b)
    decreases |a|
  {
    if a == [] {
      assert a + b == b;
    } else {
      var n := CodePointLen(a);
      assert CodePointLen(a + b) == n;
      assert (a + b)[n..] == a[n..] + b;
      ValidConcat(a[n..], b);
    }
  }

  /** `ax_validate_utf8` (src/validate.c). */
  method ValidateUtf8(data: bytes) returns (ok: bool)
    ensures ok <==> IsUtf8(data)
  {
    hide CodePointLen, IsUtf8;
    ValidUtf8Exact(data);
    var p := 0;
    while p < |data|
      invariant 0 <= p <= |data|
      invariant ValidUtf8(data) <==> ValidUtf8(data[p..])
    {
      var n := CodePointLen(data[p..]);
      if n == 0 {
        return false;
      }
      assert data[p..][n..] == data[p + n..];
      p := p + n;
    }
    return true;
  }

  /** The validation loop of `gwj_escape_utf8` (gateway/src/gw_json.c). */
  method TableValidate(data: bytes) returns (ok: bool)
    ensures ok <==> IsUtf8(data)
  {
    hide CodePointLen, TableLen, IsUtf8;
    ValidUtf8Exact(data);
    var i := 0;
    while i < |data|
      invariant 0 <= i <= |data|
      invariant ValidUtf8(data) <==> ValidUtf8(data[i..])
    {
      LenAgree(data[i..]);
      var n := TableLen(data[i..]);
      if n == 0 {
        return false;
      }
      assert data[i..][n..] == data[i + n..];
      i := i + n;
    }
    return true;
  }
}
