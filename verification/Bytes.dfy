/** Byte strings, C strings and the few sequence facts that every other module uses. */
module Bytes {

  datatype Option<+T> = None | Some(value: T) {
    predicate IsFailure() { None? }
    function PropagateFailure<U>(): Option<U> requires None? { None }
    function Extract(): T requires Some? { value }
  }

  type byte = b: int | 0 <= b < 256
  type bytes = seq<byte>

  const QUOTE: byte := 34
  const BACKSLASH: byte := 92
  const LF: byte := 10
  const CR: byte := 13
  const COMMA: byte := 44

  /** The bytes of an ASCII literal. */
  function Ascii(s: string): (r: bytes)
    ensures |r| == |s|
  {
    seq(|s|, i requires 0 <= i < |s| => s[i] as int % 256)
  }

  /** No NUL byte: what a C string can hold. */
  predicate NoNul(s: bytes) {
    forall i :: 0 <= i < |s| ==> s[i] != 0
  }

  /** What `strlen`, `strcmp` and `%s` see of a buffer: everything before the first NUL. */
  function CStr(s: bytes): (r: bytes)
    ensures NoNul(r) && |r| <= |s| && r == s[..|r|]
    ensures |r| < |s| ==> s[|r|] == 0
  {
    if s == [] || s[0] == 0 then [] else [s[0]] + CStr(s[1..])
  }

  lemma {:induction false} CStrOf(s: bytes, junk: bytes)
    requires NoNul(s)
    ensures CStr(s + [0] + junk) == s
    ensures CStr(s) == s
  {
    if s != [] {
      assert (s + [0] + junk)[1..] == s[1..] + [0] + junk;
      CStrOf(s[1..], junk);
    }
  }

  /** `needle` occurs in `hay` as a contiguous block. */
  predicate Contains(hay: bytes, needle: bytes) {
    exists i {:trigger hay[i..]} :: 0 <= i <= |hay| && needle <= hay[i..]
  }

  lemma HeadTail(s: bytes)
    requires s != []
    ensures s == [s[0]] + s[1..] && [] + s[1..] == s[1..]
  {
  }

  lemma Assoc(a: bytes, b: bytes, c: bytes)
    ensures (a + b) + c == a + (b + c)
  {
  }
}
