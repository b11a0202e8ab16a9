// Files under modification as byte strings (vfs crate, file.rs): what writing at an offset
// and setting the length do to a staging file, and the content a write handle stands for.
module Drafts {
  import opened Base

  function Zeros(n: nat): seq<byte> {
    seq(n, i => 0)
  }

  function Padded(data: seq<byte>, n: nat): seq<byte> {
    if |data| < n then data + Zeros(n - |data|) else data
  }

  /** Setting a file's length: trimmed, or extended with zeros. */
  function SetLen(data: seq<byte>, n: nat): seq<byte> {
    Padded(data, n)[..n]
  }

  /** `content` with `bytes` put at `at`, the gap before them filled with zeros. */
  function Overlay(content: seq<byte>, at: nat, bytes: seq<byte>): seq<byte> {
    var base := Padded(content, at);
    base[..at] + bytes + base[Min(|base|, at + |bytes|)..]
  }

  /** Writing to a file at an offset: writing nothing does not extend it. */
  function FileWrite(data: seq<byte>, at: nat, bytes: seq<byte>): seq<byte> {
    if bytes == [] then data else Overlay(data, at, bytes)
  }

  function ByteAt(data: seq<byte>, k: nat): byte {
    if k < |data| then data[k] else 0
  }

  /** An overlay byte by byte. */
  lemma OverlayAt(content: seq<byte>, at: nat, bytes: seq<byte>, k: nat)
    ensures |Overlay(content, at, bytes)| == Max(|content|, at + |bytes|)
    ensures ByteAt(Overlay(content, at, bytes), k) ==
            if at <= k < at + |bytes| then bytes[k - at] else ByteAt(content, k)
  {
  }

  lemma SetLenAt(data: seq<byte>, n: nat, k: nat)
    ensures |SetLen(data, n)| == n
    ensures ByteAt(SetLen(data, n), k) == if k < n then ByteAt(data, k) else 0
  {
  }

  lemma SameBytes(a: seq<byte>, b: seq<byte>)
    requires |a| == |b| && forall k: nat :: ByteAt(a, k) == ByteAt(b, k)
    ensures a == b
  {
    forall k: nat | k < |a| ensures a[k] == b[k] {
      assert ByteAt(a, k) == ByteAt(b, k);
    }
  }

  lemma OverlayTwiceAt(data: seq<byte>, at: nat, a: seq<byte>, b: seq<byte>, k: nat)
    ensures var twice, joined := Overlay(Overlay(data, at, a), at + |a|, b), Overlay(data, at, a + b);
      |twice| == |joined| && ByteAt(twice, k) == ByteAt(joined, k)
  {
    OverlayAt(data, at, a, k);
    OverlayAt(Overlay(data, at, a), at + |a|, b, k);
    OverlayAt(data, at, a + b, k);
  }

  lemma OverlayTwice(data: seq<byte>, at: nat, a: seq<byte>, b: seq<byte>)
    ensures Overlay(Overlay(data, at, a), at + |a|, b) == Overlay(data, at, a + b)
  {
    OverlayTwiceAt(data, at, a, b, 0);
    forall k: nat
      ensures ByteAt(Overlay(Overlay(data, at, a), at + |a|, b), k) == ByteAt(Overlay(data, at, a + b), k)
    {
      OverlayTwiceAt(data, at, a, b, k);
    }
    SameBytes(Overlay(Overlay(data, at, a), at + |a|, b), Overlay(data, at, a + b));
  }

  /** Writing piece after piece is writing the pieces joined. */
  lemma FileWriteConcat(data: seq<byte>, at: nat, a: seq<byte>, b: seq<byte>)
    ensures FileWrite(FileWrite(data, at, a), at + |a|, b) == FileWrite(data, at, a + b)
  {
    if a == [] {
      assert a + b == b;
    } else if b == [] {
      assert a + b == a;
    } else {
      OverlayTwice(data, at, a, b);
    }
  }

  /** No stray byte between the logical length `len` and the offset `at`. */
  predicate GapIsZero(temp: seq<byte>, len: nat, at: nat) {
    forall k :: len <= k < at ==> ByteAt(temp, k) == 0
  }

  /** A write to the staging file acts as an overlay of the logical content exactly when the
      staging file holds no stray bytes in the gap that the write jumps over. */
  lemma WriteIsOverlayIff(temp: seq<byte>, len: nat, at: nat, bytes: seq<byte>)
    ensures SetLen(FileWrite(temp, at, bytes), Max(len, at + |bytes|)) == Overlay(SetLen(temp, len), at, bytes)
            <==> GapIsZero(temp, len, at)
  {
    var physical := SetLen(FileWrite(temp, at, bytes), Max(len, at + |bytes|));
    var logical := Overlay(SetLen(temp, len), at, bytes);
    WriteBytewise(temp, len, at, bytes, 0);
    if GapIsZero(temp, len, at) {
      forall k: nat ensures ByteAt(physical, k) == ByteAt(logical, k) {
        WriteBytewise(temp, len, at, bytes, k);
      }
      SameBytes(physical, logical);
    }
    if physical == logical {
      forall k | len <= k < at ensures ByteAt(temp, k) == 0 {
        WriteBytewise(temp, len, at, bytes, k);
      }
    }
  }

  lemma WriteBytewise(temp: seq<byte>, len: nat, at: nat, bytes: seq<byte>, k: nat)
    ensures var physical := SetLen(FileWrite(temp, at, bytes), Max(len, at + |bytes|));
      var logical := Overlay(SetLen(temp, len), at, bytes);
      && |physical| == |logical|
      && (len <= k < at ==> ByteAt(physical, k) == ByteAt(temp, k) && ByteAt(logical, k) == 0)
      && (!(len <= k < at) ==> ByteAt(physical, k) == ByteAt(logical, k))
  {
    OverlayAt(temp, at, bytes, k);
    SetLenAt(temp, len, k);
    SetLenAt(FileWrite(temp, at, bytes), Max(len, at + |bytes|), k);
    OverlayAt(SetLen(temp, len), at, bytes, k);
  }

  /** A successful write leaves no stray bytes past the new length, if there were none. */
  lemma WriteStaysClean(temp: seq<byte>, len: nat, at: nat, bytes: seq<byte>)
    requires |temp| <= len
    ensures |FileWrite(temp, at, bytes)| <= Max(len, at + |bytes|)
  {
    OverlayAt(temp, at, bytes, 0);
  }
}
