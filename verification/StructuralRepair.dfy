/**
  Rewriting length and checksum fields after a mutation, and the packet gates that the repaired
  buffer has to pass.
 */
module StructuralRepair {
  import opened Wrappers
  import opened Recipes

  /** Conversion to, and arithmetic in, 32 unsigned bits. */
  function U32(x: nat): (r: nat)
    ensures r <= x && (x < TWO_32 ==> r == x)
  {
    x % TWO_32
  }

  function Xor(s: seq<bv8>): bv8 {
    if s == [] then 0 else Xor(s[..|s| - 1]) ^ s[|s| - 1]
  }

  predicate Fits(f: Field, size: nat) {
    f.size != 0 && f.offset < size && f.offset + f.size <= size
  }

  // ---------- length fields ----------

  function LengthValue(f: Field, size: nat): nat
    requires Fits(f, size)
  {
    if f.targetEnd > f.targetBegin && f.targetEnd <= size then f.targetEnd - f.targetBegin
    else if f.targetBegin > 0 && f.targetBegin < size then U32(size - f.targetBegin)
    else U32(size - (f.offset + f.size))
  }

  function Word(n: nat): bv32 { U32(n) as bv32 }

  function ByteOf(len: bv32, k: nat): bv8
    requires k < 4
  {
    if k == 0 then (len & 0xff) as bv8
    else if k == 1 then ((len >> 8) & 0xff) as bv8
    else if k == 2 then ((len >> 16) & 0xff) as bv8
    else ((len >> 24) & 0xff) as bv8
  }

  /** The bytes a length field gets: none unless its size is 2 or 4. */
  function LengthBytes(f: Field, size: nat): (bytes: seq<bv8>)
    requires Fits(f, size)
    ensures |bytes| <= f.size
    ensures f.size == 4 ==> |bytes| == 4
  {
    var len := Word(LengthValue(f, size));
    if f.size == 4 then
      if f.bigEndian then [ByteOf(len, 3), ByteOf(len, 2), ByteOf(len, 1), ByteOf(len, 0)]
      else [ByteOf(len, 0), ByteOf(len, 1), ByteOf(len, 2), ByteOf(len, 3)]
    else if f.size == 2 then
      if f.bigEndian then [ByteOf(len, 1), ByteOf(len, 0)] else [ByteOf(len, 0), ByteOf(len, 1)]
    else []
  }

  /** A length field measures its target, without an end what comes from its begin on, else what comes after it. */
  predicate Measures(f: Field, i: nat, size: nat) {
    && i < size
    && (f.targetBegin < f.targetEnd <= size ==> f.targetBegin <= i < f.targetEnd)
    && (!(f.targetBegin < f.targetEnd <= size) && 0 < f.targetBegin < size ==> f.targetBegin <= i)
    && (!(f.targetBegin < f.targetEnd <= size) && !(0 < f.targetBegin < size) ==> f.offset + f.size <= i)
  }

  function MeasuredBelow(f: Field, size: nat, n: nat): nat {
    if n == 0 then 0 else MeasuredBelow(f, size, n - 1) + if Measures(f, n - 1, size) then 1 else 0
  }

  lemma {:induction false} MeasuredInterval(f: Field, size: nat, lo: nat, hi: nat, n: nat)
    requires lo <= hi && forall i: nat :: Measures(f, i, size) <==> lo <= i < hi
    ensures MeasuredBelow(f, size, n) == if n <= lo then 0 else if n <= hi then n - lo else hi - lo
  {
    hide Measures;
    if n > 0 {
      MeasuredInterval(f, size, lo, hi, n - 1);
    }
  }

  /** The length written is the number of positions that the field measures. */
  lemma LengthCountsPositions(f: Field, size: nat)
    requires Fits(f, size) && size < TWO_32
    ensures LengthValue(f, size) == MeasuredBelow(f, size, size)
  {
    if f.targetBegin < f.targetEnd <= size {
      MeasuredInterval(f, size, f.targetBegin, f.targetEnd, size);
    } else if 0 < f.targetBegin < size {
      MeasuredInterval(f, size, f.targetBegin, size, size);
    } else {
      MeasuredInterval(f, size, f.offset + f.size, size, size);
    }
  }

  /** Bytes written one after the other, at 32-bit positions. */
  function Put(out: seq<bv8>, offset: nat, bytes: seq<bv8>): (r: seq<bv8>)
    requires offset + |bytes| <= |out|
    ensures |r| == |out|
    decreases |bytes|
  {
    if bytes == [] then out else Put(out[U32(offset) := bytes[0]], offset + 1, bytes[1..])
  }

  // ---------- fields ----------

  /** The exclusive or of the positions from `begin` while below `end`. */
  function XorRange(out: seq<bv8>, begin: nat, end: nat): bv8
    requires end <= |out|
  {
    if begin < end then Xor(out[begin..end]) else 0
  }

  function RepairField(out: seq<bv8>, f: Field): (r: seq<bv8>)
    ensures |r| == |out|
  {
    if !Fits(f, |out|) then out
    else if f.kind.Length? then Put(out, f.offset, LengthBytes(f, |out|))
    else if f.kind.Checksum? && f.size == 1 then
      out[f.offset := Xor(out) ^ XorRange(out, f.offset, U32(f.offset + f.size))]
    else out
  }

  function RepairAll(out: seq<bv8>, fields: seq<Field>): (r: seq<bv8>)
    ensures |r| == |out|
    decreases |fields|
  {
    if fields == [] then out else RepairAll(RepairField(out, fields[0]), fields[1..])
  }

  /** `apply_structural_repairs` on a buffer. */
  method ApplyStructuralRepairs(buffer: seq<bv8>, fields: seq<Field>) returns (out: seq<bv8>)
    ensures out == RepairAll(buffer, fields)
  {
    hide RepairField;
    out := buffer;
    for n := 0 to |fields|
      invariant RepairAll(out, fields[n..]) == RepairAll(buffer, fields)
    {
      assert fields[n..][1..] == fields[n + 1..];
      out := ApplyField(out, fields[n]);
    }
    assert fields[|fields|..] == [];
  }

  /** One turn of the loop over the fields. */
  method ApplyField(buffer: seq<bv8>, f: Field) returns (out: seq<bv8>)
    ensures out == RepairField(buffer, f)
  {
    hide Xor, LengthBytes, Put;
    out := buffer;
    if f.size == 0 || f.offset >= |out| || f.offset + f.size > |out| {
      return;
    }
    if f.kind.Length? {
      out := WriteLength(out, f);
    } else if f.kind.Checksum? {
      var whole := XorLoop(out, 0, |out|);
      assert out[0..|out|] == out;
      var field := XorLoop(out, f.offset, U32(f.offset + f.size));
      if f.size == 1 {
        out := out[f.offset := whole ^ field];
      }
    }
  }

  method XorLoop(out: seq<bv8>, begin: nat, end: nat) returns (x: bv8)
    requires end <= |out|
    ensures x == XorRange(out, begin, end)
  {
    x := 0;
    var i := begin;
    while i < end
      invariant begin <= i && (begin < end ==> i <= end && x == Xor(out[begin..i]))
      invariant begin >= end ==> x == 0
    {
      assert out[begin..i + 1][..i - begin] == out[begin..i];
      x := x ^ out[i];
      i := i + 1;
    }
  }

  method WriteLength(buffer: seq<bv8>, f: Field) returns (out: seq<bv8>)
    requires Fits(f, |buffer|)
    ensures out == Put(buffer, f.offset, LengthBytes(f, |buffer|))
  {
    hide ByteOf, U32;
    var len := Word(LengthValue(f, |buffer|));
    var bytes := LengthBytes(f, |buffer|);
    out := buffer;
    for k := 0 to |bytes|
      invariant |out| == |buffer|
      invariant Put(out, f.offset + k, bytes[k..]) == Put(buffer, f.offset, bytes)
    {
      assert bytes[k..][1..] == bytes[k + 1..];
      out := out[U32(f.offset + k) := bytes[k]];
    }
  }

  // ---------- what a field changes ----------

  lemma {:induction false} PutAt(out: seq<bv8>, offset: nat, bytes: seq<bv8>, i: nat)
    requires offset + |bytes| <= |out| < TWO_32 && i < |out|
    ensures Put(out, offset, bytes)[i] == if offset <= i < offset + |bytes| then bytes[i - offset] else out[i]
    decreases |bytes|
  {
    if bytes != [] {
      PutAt(out[U32(offset) := bytes[0]], offset + 1, bytes[1..], i);
    }
  }

  function Join(high: bv32, low: bv8): bv32 { (high << 8) | low as bv32 }

  /** The number that bytes in memory order stand for. */
  function ReadWord(bytes: seq<bv8>, bigEndian: bool): bv32
    decreases |bytes|
  {
    if bytes == [] then 0
    else if bigEndian then Join(ReadWord(bytes[..|bytes| - 1], true), bytes[|bytes| - 1])
    else Join(ReadWord(bytes[1..], false), bytes[0])
  }

  lemma ReadMore(bytes: seq<bv8>, b: bv8)
    ensures ReadWord(bytes + [b], true) == Join(ReadWord(bytes, true), b)
    ensures ReadWord([b] + bytes, false) == Join(ReadWord(bytes, false), b)
  {
    hide Join;
    assert (bytes + [b])[..|bytes|] == bytes && ([b] + bytes)[1..] == bytes;
  }

  lemma ReadTwo(high: bv8, low: bv8)
    ensures ReadWord([high, low], true) == ReadWord([low, high], false) == Join(Join(0, high), low)
  {
    hide Join;
    ReadMore([], high);
    ReadMore([high], low);
    assert [] + [high] == [high] == [high] + [] && [high] + [low] == [high, low] && [low] + [high] == [low, high];
  }

  lemma ReadFour(b3: bv8, b2: bv8, b1: bv8, b0: bv8)
    ensures ReadWord([b3, b2, b1, b0], true) == ReadWord([b0, b1, b2, b3], false)
            == Join(Join(Join(Join(0, b3), b2), b1), b0)
  {
    hide Join, ReadWord;
    ReadTwo(b3, b2);
    ReadMore([b3, b2], b1);
    ReadMore([b2, b3], b1);
    ReadMore([b3, b2, b1], b0);
    ReadMore([b1, b2, b3], b0);
    assert [b3, b2] + [b1] == [b3, b2, b1] && [b3, b2, b1] + [b0] == [b3, b2, b1, b0];
    assert [b1] + [b2, b3] == [b1, b2, b3] && [b0] + [b1, b2, b3] == [b0, b1, b2, b3];
  }

  lemma BytesOfWord(w: bv32)
    ensures Join(Join(Join(Join(0, ByteOf(w, 3)), ByteOf(w, 2)), ByteOf(w, 1)), ByteOf(w, 0)) == w
    ensures Join(Join(0, ByteOf(w, 1)), ByteOf(w, 0)) == w & 0xffff
  {
  }

  lemma LengthBytesRead(f: Field, size: nat)
    requires Fits(f, size) && (f.size == 2 || f.size == 4)
    ensures var len := Word(LengthValue(f, size));
            ReadWord(LengthBytes(f, size), f.bigEndian) == if f.size == 4 then len else len & 0xffff
  {
    hide ByteOf, ReadWord, LengthValue, U32, Word, Join;
    var w := Word(LengthValue(f, size));
    BytesOfWord(w);
    if f.size == 4 {
      ReadFour(ByteOf(w, 3), ByteOf(w, 2), ByteOf(w, 1), ByteOf(w, 0));
    } else {
      ReadTwo(ByteOf(w, 1), ByteOf(w, 0));
    }
  }

  /** A repaired length field, read back in its byte order, holds the length cut to its width. */
  lemma LengthReadsBack(out: seq<bv8>, f: Field)
    requires |out| < TWO_32 && Fits(f, |out|) && f.kind.Length? && (f.size == 2 || f.size == 4)
    ensures var len := Word(LengthValue(f, |out|));
            ReadWord(RepairField(out, f)[f.offset..f.offset + f.size], f.bigEndian)
            == if f.size == 4 then len else len & 0xffff
  {
    hide ReadWord, Word, LengthValue, ByteOf;
    var bytes := LengthBytes(f, |out|);
    LengthBytesRead(f, |out|);
    forall i: nat | i < |out|
      ensures RepairField(out, f)[i] == if Inside(f, i) then bytes[i - f.offset] else out[i]
    {
      PutAt(out, f.offset, bytes, i);
    }
    assert RepairField(out, f)[f.offset..f.offset + f.size] == bytes;
  }

  predicate Inside(f: Field, i: nat) { f.offset <= i < f.offset + f.size }

  /** Repair keeps the size and every byte that lies in no field. */
  lemma {:induction false} RepairKeepsOutside(out: seq<bv8>, fields: seq<Field>, i: nat)
    requires |out| < TWO_32 && i < |out|
    requires forall n :: 0 <= n < |fields| ==> !Inside(fields[n], i)
    ensures RepairAll(out, fields)[i] == out[i]
    decreases |fields|
  {
    if fields != [] {
      var f := fields[0];
      if Fits(f, |out|) && f.kind.Length? {
        PutAt(out, f.offset, LengthBytes(f, |out|), i);
      }
      RepairKeepsOutside(RepairField(out, f), fields[1..], i);
    }
  }

  lemma {:induction false} RepairAppend(out: seq<bv8>, a: seq<Field>, b: seq<Field>)
    ensures RepairAll(out, a + b) == RepairAll(RepairAll(out, a), b)
    decreases |a|
  {
    if a == [] {
      assert a + b == b;
    } else {
      assert (a + b)[1..] == a[1..] + b;
      RepairAppend(RepairField(out, a[0]), a[1..], b);
    }
  }

  // ---------- exclusive or ----------

  lemma {:induction false} XorAppend(a: seq<bv8>, b: seq<bv8>)
    ensures Xor(a + b) == Xor(a) ^ Xor(b)
  {
    if b == [] {
      assert a + b == a;
    } else {
      var n := |b| - 1;
      assert (a + b)[..|a| + n] == a + b[..n];
      XorAppend(a, b[..n]);
    }
  }

  lemma XorOne(b: bv8)
    ensures Xor([b]) == b
  {
    assert [b][..0] == [];
  }

  /** The whole minus the field is the exclusive or of the bytes outside the field. */
  lemma XorOutside(out: seq<bv8>, begin: nat, end: nat)
    requires begin <= end <= |out|
    ensures Xor(out) ^ XorRange(out, begin, end) == Xor(out[..begin] + out[end..])
  {
    hide Xor;
    var before, field, after := out[..begin], out[begin..end], out[end..];
    XorDropsMiddle(Xor(before), Xor(field), Xor(after));
    assert out == before + (field + after);
    XorAppend(before, field + after);
    XorAppend(field, after);
    XorAppend(before, after);
    if begin == end {
      XorNone();
      assert field == [];
    }
  }

  lemma XorNone()
    ensures Xor([]) == 0
  {
  }

  lemma XorDropsMiddle(b: bv8, f: bv8, a: bv8)
    ensures (b ^ (f ^ a)) ^ f == b ^ a
    ensures (b ^ (0 ^ a)) ^ 0 == b ^ a
  {
  }

  lemma XorUpdate(out: seq<bv8>, i: nat, b: bv8)
    requires i < |out|
    ensures Xor(out[i := b]) == Xor(out) ^ out[i] ^ b
  {
    var before, after := out[..i], out[i + 1..];
    assert out == before + ([out[i]] + after);
    assert out[i := b] == before + ([b] + after);
    XorAppend(before, [out[i]] + after);
    XorAppend([out[i]], after);
    XorAppend(before, [b] + after);
    XorAppend([b], after);
    XorOne(out[i]);
    XorOne(b);
  }

  /** A one-byte checksum in the buffer makes the exclusive or of everything 0, and then changes nothing. */
  lemma ChecksumBalances(out: seq<bv8>, f: Field)
    requires |out| < TWO_32 && f.kind.Checksum? && f.size == 1 && Fits(f, |out|)
    ensures Xor(RepairField(out, f)) == 0
    ensures Xor(out) == 0 ==> RepairField(out, f) == out
    ensures forall i :: 0 <= i < |out| && i != f.offset ==> RepairField(out, f)[i] == out[i]
  {
    hide Xor;
    var o := f.offset;
    assert out[o..o + 1] == [out[o]];
    XorOne(out[o]);
    XorCancels(Xor(out), out[o]);
    XorUpdate(out, o, Xor(out) ^ out[o]);
  }

  lemma XorCancels(x: bv8, y: bv8)
    ensures x ^ y ^ (x ^ y) == 0
    ensures 0 ^ y == y
  {
  }

  predicate OneByteChecksums(fields: seq<Field>, size: nat) {
    forall n :: 0 <= n < |fields| ==> fields[n].kind.Checksum? && fields[n].size == 1 && Fits(fields[n], size)
  }

  lemma {:induction false} ChecksumsBalance(out: seq<bv8>, checksums: seq<Field>)
    requires |out| < TWO_32 && OneByteChecksums(checksums, |out|)
    ensures checksums != [] ==> Xor(RepairAll(out, checksums)) == 0
    ensures Xor(out) == 0 ==> RepairAll(out, checksums) == out
    ensures forall i :: 0 <= i < |out| && (forall n :: 0 <= n < |checksums| ==> checksums[n].offset != i)
              ==> RepairAll(out, checksums)[i] == out[i]
    decreases |checksums|
  {
    if checksums != [] {
      ChecksumBalances(out, checksums[0]);
      ChecksumsBalance(RepairField(out, checksums[0]), checksums[1..]);
      assert |checksums| == 1 ==> checksums[1..] == [];
    }
  }

  // ---------- fields that are no checksums write constants ----------

  predicate NoChecksums(fields: seq<Field>) {
    forall n :: 0 <= n < |fields| ==> !fields[n].kind.Checksum?
  }

  /** Some length field that lies in a buffer of this size writes position `i`. */
  predicate Written(fields: seq<Field>, size: nat, i: nat) {
    exists n :: 0 <= n < |fields| && Writes(fields[n], size, i)
  }

  predicate Writes(f: Field, size: nat, i: nat) {
    Fits(f, size) && f.kind.Length? && f.offset <= i < f.offset + |LengthBytes(f, size)|
  }

  lemma {:induction false} LengthsWriteConstants(a: seq<bv8>, b: seq<bv8>, fields: seq<Field>, i: nat)
    requires |a| == |b| < TWO_32 && i < |a| && NoChecksums(fields)
    ensures a[i] == b[i] || Written(fields, |a|, i) ==> RepairAll(a, fields)[i] == RepairAll(b, fields)[i]
    ensures !Written(fields, |a|, i) ==> RepairAll(a, fields)[i] == a[i]
    decreases |fields|
  {
    if fields != [] {
      var f := fields[0];
      if Fits(f, |a|) && f.kind.Length? {
        PutAt(a, f.offset, LengthBytes(f, |a|), i);
        PutAt(b, f.offset, LengthBytes(f, |a|), i);
      }
      LengthsWriteConstants(RepairField(a, f), RepairField(b, f), fields[1..], i);
      if Written(fields, |a|, i) && !Writes(f, |a|, i) {
        var n :| 0 <= n < |fields| && Writes(fields[n], |a|, i);
        assert Writes(fields[1..][n - 1], |a|, i);
      }
      if Written(fields[1..], |a|, i) {
        var n :| 0 <= n < |fields[1..]| && Writes(fields[1..][n], |a|, i);
        assert Writes(fields[n + 1], |a|, i);
      }
      assert !Written(fields, |a|, i) ==> !Writes(fields[0], |a|, i);
    }
  }

  predicate NoOverlap(fields: seq<Field>, checksums: seq<Field>) {
    forall m, n :: 0 <= m < |fields| && 0 <= n < |checksums| ==> !Inside(fields[m], checksums[n].offset)
  }

  /**
    Length fields first, then one-byte checksums that lie in the buffer and overlap none of them:
    afterwards the exclusive or of the whole buffer is 0, and repairing again changes nothing.
   */
  lemma RepairBalancesAndStays(out: seq<bv8>, lengths: seq<Field>, checksums: seq<Field>)
    requires |out| < TWO_32 && NoChecksums(lengths)
    requires checksums != [] && OneByteChecksums(checksums, |out|) && NoOverlap(lengths, checksums)
    ensures var repaired := RepairAll(out, lengths + checksums);
      Xor(repaired) == 0 && RepairAll(repaired, lengths + checksums) == repaired
  {
    var measured := RepairAll(out, lengths);
    var repaired := RepairAll(measured, checksums);
    RepairAppend(out, lengths, checksums);
    RepairAppend(repaired, lengths, checksums);
    ChecksumsBalance(measured, checksums);
    forall i | 0 <= i < |out|
      ensures RepairAll(repaired, lengths)[i] == repaired[i]
    {
      LengthsWriteConstants(repaired, out, lengths, i);
      if Written(lengths, |out|, i) {
        var m :| 0 <= m < |lengths| && Writes(lengths[m], |out|, i);
        assert Inside(lengths[m], i);
      }
    }
    assert RepairAll(repaired, lengths) == repaired;
    ChecksumsBalance(repaired, checksums);
  }

  // ---------- the packet target ----------

  datatype Verdict = TooShort | BadMagic | BadLength | BadChecksum | Passed

  function Claimed(b: seq<bv8>): bv32
    requires |b| >= 9
  {
    (b[4] as bv32 << 24) | (b[5] as bv32 << 16) | (b[6] as bv32 << 8) | b[7] as bv32
  }

  predicate LengthGate(b: seq<bv8>)
    requires |b| >= 9
  {
    Claimed(b) == Word(|b| - 9)
  }

  predicate ChecksumGate(b: seq<bv8>)
    requires |b| >= 9
  {
    b[8] == Xor(b[..8] + b[9..])
  }

  predicate MagicGate(b: seq<bv8>)
    requires |b| >= 9
  {
    b[0] == 0x46 && b[1] == 0x50 && b[2] == 0x39 && b[3] == 0x33
  }

  /** The gates of the packet parser, tested in order. */
  method ProcessPacket(b: seq<bv8>) returns (verdict: Verdict)
    ensures verdict.TooShort? <==> |b| < 9
    ensures |b| >= 9 ==> (verdict.Passed? <==> MagicGate(b) && LengthGate(b) && ChecksumGate(b))
    ensures verdict.BadLength? ==> MagicGate(b) && !LengthGate(b)
    ensures verdict.BadChecksum? ==> MagicGate(b) && LengthGate(b) && !ChecksumGate(b)
  {
    if |b| < 9 {
      return TooShort;
    }
    if b[0] != 0x46 || b[1] != 0x50 || b[2] != 0x39 || b[3] != 0x33 {
      return BadMagic;
    }
    if Claimed(b) != Word(|b| - 9) {
      return BadLength;
    }
    var sum: bv8 := 0;
    for i := 0 to |b|
      invariant sum == Xor(if i <= 8 then b[..i] else b[..8] + b[9..i])
    {
      if i == 8 {
        assert b[..8] + b[9..9] == b[..8];
        continue;
      }
      if i < 8 {
        assert b[..i + 1][..i] == b[..i];
      } else {
        var s := b[..8] + b[9..i + 1];
        assert s[..|s| - 1] == b[..8] + b[9..i];
      }
      sum := sum ^ b[i];
    }
    assert b[9..|b|] == b[9..];
    if b[8] != sum {
      return BadChecksum;
    }
    verdict := Passed;
  }

  const PACKET_LENGTH := Field(4, 4, Length, true, 9, 0)

  const PACKET_CHECKSUM := Field(8, 1, Checksum, true, 0, 0)

  lemma ClaimedBytes(w: bv32)
    ensures var high := (ByteOf(w, 3) as bv32 << 24) | (ByteOf(w, 2) as bv32 << 16);
      high | (ByteOf(w, 1) as bv32 << 8) | ByteOf(w, 0) as bv32 == w
  {
  }

  /**
    Repairing the packet fields of a buffer that has room for a header leaves every byte outside
    4..8 alone and satisfies the checksum gate; it satisfies the length gate exactly when a payload
    follows the header.  On a bare header the field's fallback measures from its own end.
   */
  lemma RepairedPacketPasses(out: seq<bv8>)
    requires 9 <= |out| < TWO_32
    ensures var repaired := RepairAll(out, [PACKET_LENGTH, PACKET_CHECKSUM]);
      && (forall i :: 0 <= i < |out| && !(4 <= i <= 8) ==> repaired[i] == out[i])
      && ChecksumGate(repaired)
      && (LengthGate(repaired) <==> |out| > 9)
  {
    hide Xor, LengthBytes, LengthGate, Claimed, Word;
    var measured := RepairField(out, PACKET_LENGTH);
    var repaired := RepairField(measured, PACKET_CHECKSUM);
    var fields := [PACKET_LENGTH, PACKET_CHECKSUM];
    assert fields[1..] == [PACKET_CHECKSUM] && fields[1..][1..] == [];
    assert RepairAll(measured, fields[1..]) == RepairAll(repaired, []);
    forall i | 0 <= i < |out|
      ensures measured[i] == if 4 <= i < 8 then LengthBytes(PACKET_LENGTH, |out|)[i - 4] else out[i]
    {
      PutAt(out, 4, LengthBytes(PACKET_LENGTH, |out|), i);
    }
    ChecksumBalances(measured, PACKET_CHECKSUM);
    XorOutside(measured, 8, 9);
    assert repaired[..8] == measured[..8] && repaired[9..] == measured[9..];
    PacketLength(out, repaired);
  }

  lemma PacketLength(out: seq<bv8>, repaired: seq<bv8>)
    requires 9 <= |out| == |repaired| < TWO_32
    requires forall i :: 4 <= i < 8 ==> repaired[i] == LengthBytes(PACKET_LENGTH, |out|)[i - 4]
    ensures LengthGate(repaired) <==> |out| > 9
  {
    var value := LengthValue(PACKET_LENGTH, |out|);
    ClaimedBytes(Word(value));
    assert Claimed(repaired) == Word(value);
    if |out| > 9 {
      assert value == |out| - 9;
    } else {
      assert value == 1;
      assert Word(1) == 1 && Word(0) == 0;
    }
  }
}
