/** The durable chain of gateway/src/gw_ledger.c: replay on open, append with its mirror to
    the export, and the last-payload probe.  What the disk does to a write is a parameter. */
module DurableLedger {
  import opened Bytes
  import opened Canonical
  import opened Substrate
  import opened Frames

  /** The state of the translation unit and of the two files, as a value. */
  datatype Ledger = Ledger(file: bytes, chain: Chain, last: bytes, exportOn: bool, exported: bytes)

  /** How one append fares: how many bytes the primary takes, whether fsync succeeds, and how
      many bytes the export takes. */
  datatype Io = Io(n: nat, synced: bool, mirror: nat)

  function Min(a: nat, b: nat): nat {
    if a <= b then a else b
  }

  /** The export after a frame `e` is mirrored. */
  function Mirror(l: Ledger, e: bytes, io: Io): Ledger {
    if l.exportOn then l.(exported := l.exported + e[..Min(io.mirror, |e|)], exportOn := io.mirror >= |e|) else l
  }

  /** `gwl_append` once the frame is made up. */
  function AppendFrame(c: Crypto, l: Ledger, f: Frame, io: Io): (r: (Ledger, bool)) {
    var e := EncodeFrame(f, []);
    if io.n < |e| || !io.synced then (l.(file := l.file + e[..Min(io.n, |e|)]), false)
    else
      var m := Mirror(l.(file := l.file + e), e, io);
      match c.link(l.chain.head, f.commit)
      case None => (m, false)
      case Some(h) => (m.(chain := Chain(h, l.chain.seq_ + 1), last := f.payload), true)
  }

  /** `gwl_append`. */
  function Append(c: Crypto, l: Ledger, tag: bytes, payload: bytes, io: Io): (r: (Ledger, bool)) {
    if |tag| == 0 || |tag| > TAG_MAX || |payload| == 0 || |payload| > PAYLOAD_MAX then (l, false)
    else
      match c.evidence(tag, payload)
      case None => (l, false)
      case Some(d) => AppendFrame(c, l, Frame(tag, payload, d), io)
  }

  /** `gwl_open`: the ledger and whether the tail was cut, or a refusal. */
  function Open(c: Crypto, l: Ledger, tornOk: bool): (r: Option<(Ledger, bool)>) {
    var (a, torn) :- Replay(c, l.file, tornOk);
    var file := if a.end <= |l.file| then l.file[..a.end] else l.file;
    Some((l.(file := file, chain := a.chain, last := a.last, exportOn := false), torn))
  }

  /** `gwl_export_enable`: truncate, unless the file cannot be opened, and copy; `n` bytes get
      through. */
  function EnableExport(l: Ledger, made: bool, n: nat, synced: bool): (r: (Ledger, bool)) {
    var ok := made && n >= |l.file| && synced;
    (l.(exported := if made then l.file[..Min(n, |l.file|)] else l.exported, exportOn := ok), ok)
  }

  /** `gwl_last_payload_contains`. */
  predicate Probe(last: bytes, needle: bytes) {
    needle != [] && Contains(last, needle)
  }

  /** `gw_ledger.c` itself. */
  class LedgerUnit {
    var isOpen: bool
    var file: bytes
    var chain: Chain
    var last: bytes
    var exportOn: bool
    var exported: bytes

    ghost function Value(): Ledger
      reads this
    {
      Ledger(file, chain, last, exportOn, exported)
    }

    /** A fresh process over the files on disk. */
    constructor (file: bytes, exported: bytes)
      ensures !isOpen && Value() == Ledger(file, Chain(ZeroDigest(), 0), [], false, exported)
    {
      this.file, this.exported, isOpen, exportOn := file, exported, false, false;
      chain, last := Chain(ZeroDigest(), 0), [];
    }

    /** The replay loop of `gwl_open`, with the torn-tail rule. */
    method GwlOpen(c: Crypto, tornOk: bool) returns (ok: bool, truncated: bool)
      requires !exportOn
      modifies this
      ensures ok == isOpen == Open(c, old(Value()), tornOk).Some?
      ensures ok ==> (Value(), truncated) == Open(c, old(Value()), tornOk).value
      ensures !ok ==> file == old(file) && exported == old(exported)
    {
      hide ParseFrame, EncodeFrame, EncodeFrames;
      ghost var a := Genesis(c);
      chain, isOpen := Chain(c.genesis, 0), true;
      var goodEnd := 0;
      // A new process starts with an empty last payload.
      last := [];
      assert file[0..] == file;
      while true
        invariant 0 <= goodEnd <= |file| && file == old(file) && exported == old(exported) && !exportOn && isOpen
        invariant a == Replayed(chain, last, a.frames, goodEnd)
        invariant ReplayFrom(c, file[goodEnd..], tornOk, a) == Replay(c, file, tornOk)
        decreases |file| - goodEnd
      {
        match ParseFrame(c, file[goodEnd..]) {
          case Eof =>
            assert goodEnd == |file| by { EofAtEnd(c, file[goodEnd..]); }
            assert file[..goodEnd] == file;
            return true, false;
          case Torn =>
            if !tornOk {
              isOpen := false;
              return false, false;
            }
            file := file[..goodEnd];
            return true, true;
          case Bad =>
            isOpen := false;
            return false, false;
          case Good(f, rest) =>
            ConsumedFrame(c, file, goodEnd);
            match c.link(chain.head, f.commit) {
              case None =>
                isOpen := false;
                return false, false;
              case Some(h) =>
                a := Advance(c, a, f).value;
                chain := Chain(h, chain.seq_ + 1);
                last := f.payload;
                goodEnd := |file| - |rest|;
            }
        }
      }
    }

    /** `write_all` on the primary, where `left0` bytes still fit: `done` is already there
        and `rest` is still to come. */
    method WritePart(ghost base: bytes, ghost done: bytes, buf: bytes, ghost rest: bytes, left0: nat)
      returns (ok: bool, left: nat)
      requires file == base + done
      modifies this`file
      ensures ok == (left0 >= |buf|) && left == (if ok then left0 - |buf| else 0)
      ensures ok ==> file == base + (done + buf) && done + (buf + rest) == (done + buf) + rest
      ensures !ok ==> file == base + (done + (buf + rest))[..|done| + left0]
    {
      var k := Min(left0, |buf|);
      file := file + buf[..k];
      assert base + done + buf[..k] == base + (done + buf[..k]);
      assert done + buf[..k] == (done + (buf + rest))[..|done| + k];
      return left0 >= |buf|, if left0 >= |buf| then left0 - |buf| else 0;
    }

    /** The five writes of a frame. */
    method WriteFrame(f: Frame, n: nat) returns (ok: bool)
      modifies this`file
      ensures ok == (n >= |EncodeFrame(f, [])|)
      ensures file == old(file) + EncodeFrame(f, [])[..Min(n, |EncodeFrame(f, [])|)]
    {
      var left;
      var h4, h8 := Le(|f.tag|, 4), Le(|f.payload|, 8);
      ghost var base := file;
      ghost var t2 := f.payload + (f.commit + []);
      ghost var t1 := h8 + t2;
      ghost var e := h4 + (f.tag + t1);
      assert e == EncodeFrame(f, []);
      hide Le, EncodeFrame;
      assert [] + e == e && base + [] == base && [] + h4 == h4;
      ok, left := WritePart(base, [], h4, f.tag + t1, n);
      if !ok { return; }
      ok, left := WritePart(base, h4, f.tag, t1, left);
      if !ok { return; }
      ok, left := WritePart(base, h4 + f.tag, h8, t2, left);
      if !ok { return; }
      ok, left := WritePart(base, h4 + f.tag + h8, f.payload, f.commit + [], left);
      if !ok { return; }
      ok, left := WritePart(base, h4 + f.tag + h8 + f.payload, f.commit, [], left);
      if !ok { return; }
      assert h4 + f.tag + h8 + f.payload + f.commit + [] == h4 + f.tag + h8 + f.payload + f.commit;
      assert e[..|e|] == e;
    }

    /** `gwl_append`. */
    method GwlAppend(c: Crypto, tag: bytes, payload: bytes, io: Io) returns (ok: bool)
      requires NoNul(tag)
      modifies this
      ensures (Value(), ok) == if isOpen then Append(c, old(Value()), tag, payload, io) else (old(Value()), false)
      ensures isOpen == old(isOpen)
    {
      hide EncodeFrame;
      if !isOpen {
        return false;
      }
      if |tag| == 0 || |tag| > TAG_MAX || |payload| == 0 || |payload| > PAYLOAD_MAX {
        return false;
      }
      match c.evidence(tag, payload) {
        case None => return false;
        case Some(d) =>
          var f := Frame(tag, payload, d);
          ok := WriteFrame(f, io.n);
          var e := EncodeFrame(f, []);
          if !ok {
            return;
          }
          assert e[..Min(io.n, |e|)] == e;
          if !io.synced {
            return false;
          }
          if exportOn {
            exported := exported + e[..Min(io.mirror, |e|)];
            if io.mirror < |e| {
              exportOn := false;
            }
          }
          match c.link(chain.head, d) {
            case None => return false;
            case Some(h) =>
              chain := Chain(h, chain.seq_ + 1);
              last := payload;
              return true;
          }
      }
    }

    /** `gwl_export_enable`: the copy loop, in blocks of at most 64 KiB, `n` bytes in all. */
    method GwlExportEnable(made: bool, n: nat, synced: bool) returns (ok: bool)
      modifies this`exported, this`exportOn
      ensures (Value(), ok) == if isOpen then EnableExport(old(Value()), made, n, synced) else (old(Value()), false)
    {
      if !isOpen {
        return false;
      }
      exportOn := false;
      if !made {
        return false;
      }
      exported, exportOn := [], true;
      var off := 0;
      while off < |file|
        invariant 0 <= off <= |file| && off <= n && exported == file[..off] && exportOn
      {
        var r := Min(64 * 1024, |file| - off);
        if off + r > n {
          exported := exported + file[off..n];
          assert exported == file[..n];
          exportOn := false;
          return false;
        }
        exported := exported + file[off..off + r];
        off := off + r;
      }
      assert file[..off] == file == file[..Min(n, |file|)];
      if !synced {
        exportOn := false;
        return false;
      }
      return true;
    }

    /** `gwl_last_payload_contains`. */
    method GwlLastPayloadContains(needle: bytes) returns (found: bool)
      ensures found == Probe(last, needle)
    {
      if needle == [] || |needle| > |last| {
        return false;
      }
      var i := 0;
      while i + |needle| <= |last|
        invariant 0 <= i <= |last|
        invariant forall j :: 0 <= j < i ==> !(needle <= last[j..])
      {
        if last[i..i + |needle|] == needle {
          assert needle <= last[i..];
          return true;
        }
        assert last[i..][..|needle|] == last[i..i + |needle|];
        i := i + 1;
      }
      return false;
    }
  }

  lemma EofAtEnd(c: Crypto, data: bytes)
    requires ParseFrame(c, data).Eof?
    ensures data == []
  {
  }

  lemma ConsumedFrame(c: Crypto, file: bytes, at: nat)
    requires at <= |file| && ParseFrame(c, file[at..]).Good?
    ensures var r := ParseFrame(c, file[at..]);
      at + |EncodeFrame(r.f, [])| == |file| - |r.rest| && at < |file| - |r.rest| && file[|file| - |r.rest|..] == r.rest
  {
    var r := ParseFrame(c, file[at..]);
    hide ParseFrame;
    ParseSound(c, file[at..]);
    EncodeFrameAppend(r.f, r.rest);
    var e := EncodeFrame(r.f, []);
    hide EncodeFrame;
    assert file[at..] == e + r.rest;
    assert file[at..][|e|..] == file[at + |e|..];
  }
}
