/** Decimal and hexadecimal text: the formatters of src/canonical.c and readers that
    invert them. */
module Numbers {
  import opened Bytes
  import opened Faults

  const MINUS: byte := 45

  predicate IsDigit(b: int) {
    48 <= b <= 57
  }

  predicate AllDigits(s: bytes) {
    forall i :: 0 <= i < |s| ==> IsDigit(s[i])
  }

  /** Decimal digits, most significant first, no leading zero. */
  function Digits(n: nat): (r: bytes)
    ensures r != [] && AllDigits(r)
  {
    if n < 10 then [48 + n] else Digits(n / 10) + [48 + n % 10]
  }

  function IntText(v: int): (r: bytes)
    ensures r != []
  {
    if v < 0 then [MINUS] + Digits(-v) else Digits(v)
  }

  function NatOf(s: bytes): (n: nat)
    requires AllDigits(s)
  {
    if s == [] then 0 else NatOf(s[..|s| - 1]) * 10 + (s[|s| - 1] - 48)
  }

  lemma {:induction false} NatOfDigits(n: nat)
    ensures NatOf(Digits(n)) == n
  {
    if n >= 10 {
      NatOfDigits(n / 10);
      assert Digits(n)[..|Digits(n)| - 1] == Digits(n / 10);
    } else {
      assert NatOf([]) == 0;
      assert Digits(n)[..0] == [];
    }
  }

  /** How many leading bytes are digits. */
  function DigitSpan(s: bytes): (n: nat)
    ensures n <= |s| && AllDigits(s[..n])
  {
    if s == [] || !IsDigit(s[0]) then 0 else 1 + DigitSpan(s[1..])
  }

  predicate NoDigitAhead(k: bytes) {
    k == [] || !IsDigit(k[0])
  }

  lemma {:induction false} DigitSpanOf(d: bytes, k: bytes)
    requires AllDigits(d) && NoDigitAhead(k)
    ensures DigitSpan(d + k) == |d|
  {
    if d == [] {
      assert d + k == k;
    } else {
      assert (d + k)[1..] == d[1..] + k;
      DigitSpanOf(d[1..], k);
    }
  }

  /** Read an optionally signed integer off the front. */
  function TakeInt(s: bytes): (r: Option<(int, bytes)>) {
    var neg := s != [] && s[0] == MINUS;
    var t := if neg then s[1..] else s;
    var n := DigitSpan(t);
    if n == 0 then None
    else
      var v: int := NatOf(t[..n]);
      Some((if neg then -v else v, t[n..]))
  }

  lemma TakeIntOf(v: int, k: bytes)
    requires NoDigitAhead(k)
    ensures TakeInt(IntText(v) + k) == Some((v, k))
  {
    var d := Digits(if v < 0 then -v else v);
    var s := IntText(v) + k;
    NatOfDigits(if v < 0 then -v else v);
    DigitSpanOf(d, k);
    assert (d + k)[..|d|] == d && (d + k)[|d|..] == k;
    if v < 0 {
      assert s[1..] == d + k;
    } else {
      assert s == d + k;
    }
  }

  function Pow10(k: nat): (p: nat)
    ensures p >= 1
  {
    if k == 0 then 1 else 10 * Pow10(k - 1)
  }

  lemma {:induction false} DigitsBound(n: nat, k: nat)
    requires k >= 1 && n < Pow10(k)
    ensures |Digits(n)| <= k
  {
    if n >= 10 {
      assert k >= 2 by { assert k == 1 ==> Pow10(k) == 10; }
      DigitsBound(n / 10, k - 1);
    }
  }

  /** Every 64-bit number fits the 24-byte buffers, sign and NUL included. */
  lemma IntTextBound(v: int)
    requires -0x8000_0000_0000_0000 <= v < 0x1_0000_0000_0000_0000
    ensures |IntText(v)| <= 20
  {
    assert Pow10(4) == 1_0000;
    assert Pow10(8) == 1_0000_0000;
    assert Pow10(12) == 1_0000_0000_0000;
    assert Pow10(16) == 1_0000_0000_0000_0000;
    assert Pow10(19) == 1000_0000_0000_0000_0000;
    if v < 0 {
      DigitsBound(-v, 19);
    } else {
      DigitsBound(v, 20);
    }
  }

  lemma IntTextNoNul(v: int)
    ensures NoNul(IntText(v))
  {
  }

  // ---- the formatting loops --------------------------------------------------

  function Reversed(s: bytes): (r: bytes)
    ensures |r| == |s|
    ensures forall i :: 0 <= i < |s| ==> r[i] == s[|s| - 1 - i]
  {
    seq(|s|, i requires 0 <= i < |s| => s[|s| - 1 - i])
  }

  lemma ReversedSnoc(s: bytes, x: byte)
    ensures Reversed(s + [x]) == [x] + Reversed(s)
    ensures Reversed([]) == []
  {
  }

  /** The digits still to be produced when the running value is `u`. */
  function DigitsLeft(u: nat): (r: bytes) {
    if u == 0 then [] else Digits(u)
  }

  lemma DigitsLeftStep(u: nat, done: bytes)
    requires u > 0
    ensures DigitsLeft(u) + done == DigitsLeft(u / 10) + ([48 + u % 10] + done)
  {
    Assoc(DigitsLeft(u / 10), [48 + u % 10], done);
  }

  /** The loop shared by `ax_format_int64` and `ax_format_uint64`: least significant
      digit first into a temporary. */
  method ReverseDigits(temp: array<byte>, value: nat) returns (i: nat)
    requires temp.Length == 24 && value < 0x1_0000_0000_0000_0000
    modifies temp
    ensures i <= 20 && Reversed(temp[..i]) == Digits(value)
  {
    hide Reversed;
    IntTextBound(value);
    ReversedSnoc([], 48);
    i := 0;
    if value == 0 {
      temp[0] := 48;
      i := 1;
    } else {
      var u: nat := value;
      while u > 0
        invariant i + |DigitsLeft(u)| <= 20
        invariant DigitsLeft(u) + Reversed(temp[..i]) == Digits(value)
      {
        ghost var done := temp[..i];
        var d := 48 + u % 10;
        DigitsLeftStep(u, Reversed(done));
        ReversedSnoc(done, d);
        temp[i] := d;
        assert temp[..i + 1] == done + [d];
        i, u := i + 1, u / 10;
      }
    }
  }

  /** The second half: copy out backwards and terminate. */
  method CopyReversed(dst: array<byte>, temp: array<byte>, len: nat) returns (n: int)
    requires len <= temp.Length && dst != temp
    modifies dst
    ensures n == if len >= dst.Length then AX_ERR_BUFFER else len
    ensures n >= 0 ==> dst[..len] == Reversed(temp[..len]) && dst[len] == 0
  {
    if len >= dst.Length {
      return AX_ERR_BUFFER;
    }
    var i, j := len, 0;
    while i > 0
      invariant 0 <= i <= len && j == len - i
      invariant forall k :: 0 <= k < j ==> dst[k] == temp[len - 1 - k]
    {
      i := i - 1;
      dst[j] := temp[i];
      j := j + 1;
    }
    dst[j] := 0;
    return len;
  }

  /** `ax_format_int64`; `ax_format_q16` is the same call. */
  method FormatInt64(dst: array<byte>, value: int) returns (n: int)
    requires -0x8000_0000_0000_0000 <= value < 0x8000_0000_0000_0000
    modifies dst
    ensures n == if |IntText(value)| >= dst.Length then AX_ERR_BUFFER else |IntText(value)|
    ensures n >= 0 ==> dst[..n] == IntText(value) && dst[n] == 0
  {
    var temp := new byte[24];
    var neg := value < 0;
    var uval := if neg then -(value + 1) + 1 else value;
    var i := ReverseDigits(temp, uval);
    if neg {
      ghost var done := temp[..i];
      temp[i] := MINUS;
      i := i + 1;
      assert temp[..i] == done + [MINUS];
      assert Reversed(temp[..i]) == [MINUS] + Digits(uval);
    }
    n := CopyReversed(dst, temp, i);
  }

  /** `ax_format_uint64`. */
  method FormatUint64(dst: array<byte>, value: nat) returns (n: int)
    requires value < 0x1_0000_0000_0000_0000
    modifies dst
    ensures n == if |Digits(value)| >= dst.Length then AX_ERR_BUFFER else |Digits(value)|
    ensures n >= 0 ==> dst[..n] == Digits(value) && dst[n] == 0
  {
    var temp := new byte[24];
    var i := ReverseDigits(temp, value);
    n := CopyReversed(dst, temp, i);
  }

  // ---- hexadecimal -----------------------------------------------------------

  function HexDigit(n: int): (b: byte)
    requires 0 <= n < 16
  {
    if n < 10 then 48 + n else 87 + n
  }

  /** `hexval` of gateway/src/gw_json.c. */
  function HexVal(b: byte): (v: int)
    ensures -1 <= v < 16
  {
    if 48 <= b <= 57 then b - 48
    else if 97 <= b <= 102 then b - 87
    else if 65 <= b <= 70 then b - 55
    else -1
  }

  lemma HexValOf(n: int)
    requires 0 <= n < 16
    ensures HexVal(HexDigit(n)) == n
  {
  }

  /** Lower-case hexadecimal, two characters a byte. */
  function HexText(d: bytes): (r: bytes)
    ensures |r| == 2 * |d|
  {
    if d == [] then [] else [HexDigit(d[0] / 16), HexDigit(d[0] % 16)] + HexText(d[1..])
  }

  /** Read `n` bytes of hexadecimal off the front. */
  function TakeHex(s: bytes, n: nat): (r: Option<(bytes, bytes)>)
    ensures r.Some? ==> |r.value.0| == n
    decreases n
  {
    if n == 0 then Some(([], s))
    else if |s| < 2 || HexVal(s[0]) < 0 || HexVal(s[1]) < 0 then None
    else
      match TakeHex(s[2..], n - 1)
      case None => None
      case Some((d, k)) => Some(([HexVal(s[0]) * 16 + HexVal(s[1])] + d, k))
  }

  lemma {:induction false} TakeHexOf(d: bytes, k: bytes)
    ensures TakeHex(HexText(d) + k, |d|) == Some((d, k))
  {
    if d == [] {
      assert HexText(d) + k == k;
    } else {
      var s := HexText(d) + k;
      HexValOf(d[0] / 16);
      HexValOf(d[0] % 16);
      assert s[2..] == HexText(d[1..]) + k;
      TakeHexOf(d[1..], k);
      assert [d[0]] + d[1..] == d;
    }
  }

  /** Two byte strings with the same hexadecimal text are equal. */
  lemma HexTextInjective(a: bytes, b: bytes)
    requires HexText(a) == HexText(b)
    ensures a == b
  {
    TakeHexOf(a, []);
    TakeHexOf(b, []);
  }

  /** A lower-case hexadecimal digit. */
  predicate HexByte(b: byte) {
    48 <= b <= 57 || 97 <= b <= 102
  }

  lemma {:induction false} HexTextIsHex(d: bytes)
    ensures forall i :: 0 <= i < |HexText(d)| ==> HexByte(HexText(d)[i])
  {
    if d != [] {
      HexTextIsHex(d[1..]);
      var r := HexText(d);
      forall i | 0 <= i < |r|
        ensures HexByte(r[i])
      {
        if i >= 2 {
          assert r[i] == HexText(d[1..])[i - 2];
        }
      }
    }
  }

  /** `ax_format_hash_hex` (and `hex32` of gateway/src/gw_main.c). */
  method FormatHashHex(dst: array<byte>, hash: bytes) returns (n: int)
    modifies dst
    ensures n == if dst.Length < 2 * |hash| + 1 then AX_ERR_BUFFER else 2 * |hash|
    ensures n >= 0 ==> dst[..n] == HexText(hash) && dst[n] == 0
  {
    if dst.Length < |hash| * 2 + 1 {
      return AX_ERR_BUFFER;
    }
    var i := 0;
    while i < |hash|
      invariant 0 <= i <= |hash|
      invariant dst[..2 * i] + HexText(hash[i..]) == HexText(hash)
    {
      ghost var done := dst[..2 * i];
      dst[i * 2] := HexDigit(hash[i] / 16);
      dst[i * 2 + 1] := HexDigit(hash[i] % 16);
      ghost var two := [HexDigit(hash[i] / 16), HexDigit(hash[i] % 16)];
      assert dst[..2 * (i + 1)] == done + two;
      assert hash[i..][1..] == hash[i + 1..];
      Assoc(done, two, HexText(hash[i + 1..]));
      i := i + 1;
    }
    dst[|hash| * 2] := 0;
    return |hash| * 2;
  }
}
