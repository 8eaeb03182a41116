/** The CFDP modular checksum (section 4.2 of CCSDS 727.0-B-5) as `CFDPChecksum.update` accumulates it: piece by piece,
    at any offset. */
module Checksum {
  import opened Bytes

  const MODULUS := 0x1_0000_0000

  /** Bytes of a file at their offset. */
  datatype Piece = Piece(offset: nat, data: bytes)

  /** The place value of a file byte in the big-endian word that holds it. */
  function Weight(i: nat): nat {
    match i % 4
    case 0 => 0x100_0000
    case 1 => 0x1_0000
    case 2 => 256
    case _ => 1
  }

  /** The sum of bytes, each at the place value of its position in the file. */
  function Weighted(data: bytes, offset: nat): nat {
    if data == [] then 0 else data[0] as int * Weight(offset) + Weighted(data[1..], offset + 1)
  }

  lemma {:induction false} WeightedSplit(a: bytes, b: bytes, offset: nat)
    ensures Weighted(a + b, offset) == Weighted(a, offset) + Weighted(b, offset + |a|)
  {
    if a == [] {
      assert a + b == b;
    } else {
      assert (a + b)[1..] == a[1..] + b;
      WeightedSplit(a[1..], b, offset + 1);
    }
  }

  /** At most four bytes, written out. */
  lemma WeightedWord(data: bytes, offset: nat)
    requires 0 < |data| <= 4
    ensures Weighted(data, offset) == data[0] as int * Weight(offset)
      + (if |data| > 1 then data[1] as int * Weight(offset + 1) else 0)
      + (if |data| > 2 then data[2] as int * Weight(offset + 2) else 0)
      + (if |data| > 3 then data[3] as int * Weight(offset + 3) else 0)
  {
    if |data| > 1 {
      WeightedWord(data[1..], offset + 1);
    }
  }

  /** One padded word reads as the weighted sum of the bytes it takes from the data. */
  lemma WordIsWeighted(data: bytes, offset: nat, padding: nat)
    requires padding == offset % 4 && 0 < |data| <= 4 - padding
    ensures U32At(seq(padding, _ => 0) + data + [0, 0, 0, 0], 0) == Weighted(data, offset)
  {
    var word := seq(padding, _ => 0) + data + [0, 0, 0, 0];
    PaddedAt(data, padding);
    WeightedWord(data, offset);
    match padding
    case 0 =>
      assert Weight(offset) == 0x100_0000 && Weight(offset + 1) == 0x1_0000;
      assert Weight(offset + 2) == 256 && Weight(offset + 3) == 1;
    case 1 => assert Weight(offset) == 0x1_0000 && Weight(offset + 1) == 256 && Weight(offset + 2) == 1;
    case 2 => assert Weight(offset) == 256 && Weight(offset + 1) == 1;
    case _ => assert Weight(offset) == 1;
  }

  lemma PaddedAt(data: bytes, padding: nat)
    requires padding < 4 && |data| <= 4 - padding
    ensures var word: bytes := seq(padding, _ => 0) + data + [0, 0, 0, 0];
      forall k | 0 <= k < 4 :: word[k] == if padding <= k < padding + |data| then data[k - padding] else 0
  {
  }

  /** `data[k:]`, empty past the end */
  function Drop(data: bytes, k: nat): (rest: bytes)
    ensures |rest| <= |data| && (0 < k && data != [] ==> |rest| < |data|)
  {
    if k < |data| then data[k..] else []
  }

  /** The first bytes of the data as one big-endian word: zeros in front up to the alignment, zeros behind. */
  function PaddedWord(data: bytes, padding: nat): u32
    requires padding < 4
  {
    var take := if |data| < 4 - padding then |data| else 4 - padding;
    U32At(seq(padding, _ => 0) + data[..take] + [0, 0, 0, 0], 0)
  }

  class CFDPChecksum {
    var value: u32

    constructor ()
      ensures value == 0
    {
      value := 0;
    }

    /** `update`: whatever the alignment of the offset, the register gains the weighted sum of the data. */
    method Update(input: bytes, at: nat)
      modifies this
      ensures value == (old(value) + Weighted(input, at)) % MODULUS
    {
      var data, offset := input, at;
      ghost var total: nat := value;
      while data != []
        invariant value == total % MODULUS
        invariant total + Weighted(data, offset) == old(value) as int + Weighted(input, at)
        decreases |data|
      {
        var padding := offset % 4;
        var word := PaddedWord(data, padding);
        TakeWord(data, offset);
        AddWord(total, word);
        total := total + word;
        value := (value as int + word as int) % MODULUS;
        data := Drop(data, 4 - padding);
        offset := offset + (4 - padding);
      }
    }
  }

  lemma AddWord(total: nat, word: nat)
    ensures (total % MODULUS + word) % MODULUS == (total + word) % MODULUS
  {
  }

  lemma TakeWord(data: bytes, offset: nat)
    requires data != []
    ensures Weighted(data, offset) ==
      PaddedWord(data, offset % 4) + Weighted(Drop(data, 4 - offset % 4), offset + (4 - offset % 4))
  {
    var take := if |data| < 4 - offset % 4 then |data| else 4 - offset % 4;
    WordIsWeighted(data[..take], offset, offset % 4);
    assert data == data[..take] + data[take..];
    WeightedSplit(data[..take], data[take..], offset);
  }

  // ---------------------------------------------------------------- a register fed piece by piece

  /** The register after the pieces, in order. */
  function Register(pieces: seq<Piece>): u32 {
    if pieces == [] then 0
    else
      var last := pieces[|pieces| - 1];
      (Register(pieces[..|pieces| - 1]) as int + Weighted(last.data, last.offset)) % MODULUS
  }

  function Total(pieces: seq<Piece>): nat {
    if pieces == [] then 0
    else
      var last := pieces[|pieces| - 1];
      Total(pieces[..|pieces| - 1]) + Weighted(last.data, last.offset)
  }

  lemma {:induction false} RegisterIsTotal(pieces: seq<Piece>)
    ensures Register(pieces) == Total(pieces) % MODULUS
  {
    if pieces != [] {
      RegisterIsTotal(pieces[..|pieces| - 1]);
    }
  }

  predicate Covers(p: Piece, i: nat) {
    p.offset <= i < p.offset + |p.data|
  }

  /** The piece holds the file's own bytes at its offset. */
  predicate CutFrom(p: Piece, file: bytes) {
    p.offset + |p.data| <= |file| && file[p.offset..p.offset + |p.data|] == p.data
  }

  /** How many pieces hold file byte i. */
  function Multiplicity(pieces: seq<Piece>, i: nat): nat {
    if pieces == [] then 0
    else Multiplicity(pieces[..|pieces| - 1], i) + (if Covers(pieces[|pieces| - 1], i) then 1 else 0)
  }

  /** What byte i adds to a total when `count` pieces hold it. */
  function Term(file: bytes, i: nat, count: nat): nat
    requires i < |file|
  {
    count * (file[i] as int * Weight(i))
  }

  lemma TermAdds(file: bytes, i: nat, a: nat, b: nat)
    requires i < |file|
    ensures Term(file, i, a + b) == Term(file, i, a) + Term(file, i, b)
    ensures Term(file, i, 0) == 0 && Term(file, i, 1) == file[i] as int * Weight(i)
  {
    var x := file[i] as int * Weight(i);
    assert (a + b) * x == a * x + b * x;
  }

  /** The first n file bytes summed with the multiplicity the pieces give them. */
  function Counted(file: bytes, pieces: seq<Piece>, n: nat): nat
    requires n <= |file|
  {
    if n == 0 then 0 else Counted(file, pieces, n - 1) + Term(file, n - 1, Multiplicity(pieces, n - 1))
  }

  lemma MultiplicitySplits(pieces: seq<Piece>, i: nat)
    requires pieces != []
    ensures Multiplicity(pieces, i) == Multiplicity(pieces[..|pieces| - 1], i) + Multiplicity([pieces[|pieces| - 1]], i)
  {
    assert [pieces[|pieces| - 1]][..0] == [];
  }

  lemma {:induction false} CountedSplits(file: bytes, pieces: seq<Piece>, n: nat)
    requires n <= |file| && pieces != []
    ensures Counted(file, pieces, n) ==
      Counted(file, pieces[..|pieces| - 1], n) + Counted(file, [pieces[|pieces| - 1]], n)
  {
    if n > 0 {
      CountedSplits(file, pieces, n - 1);
      MultiplicitySplits(pieces, n - 1);
      TermAdds(file, n - 1, Multiplicity(pieces[..|pieces| - 1], n - 1), Multiplicity([pieces[|pieces| - 1]], n - 1));
    }
  }

  /** How many of the first n file bytes the piece holds. */
  function Held(p: Piece, n: nat): (k: nat)
    ensures k <= |p.data|
  {
    if n <= p.offset then 0 else if n <= p.offset + |p.data| then n - p.offset else |p.data|
  }

  lemma {:induction false} CountedPiece(file: bytes, p: Piece, n: nat)
    requires n <= |file| && CutFrom(p, file)
    ensures Counted(file, [p], n) == Weighted(p.data[..Held(p, n)], p.offset)
  {
    if n > 0 {
      CountedPiece(file, p, n - 1);
      HeldGrows(file, p, n - 1);
    }
  }

  lemma HeldGrows(file: bytes, p: Piece, i: nat)
    requires i < |file| && CutFrom(p, file)
    ensures Weighted(p.data[..Held(p, i + 1)], p.offset)
      == Weighted(p.data[..Held(p, i)], p.offset) + Term(file, i, Multiplicity([p], i))
  {
    assert [p][..0] == [];
    TermAdds(file, i, 0, 1);
    if Covers(p, i) {
      OneMoreByte(p.data, i - p.offset, p.offset);
      assert p.data[i - p.offset] == file[i];
    }
  }

  lemma OneMoreByte(data: bytes, k: nat, offset: nat)
    requires k < |data|
    ensures Weighted(data[..k + 1], offset) == Weighted(data[..k], offset) + data[k] as int * Weight(offset + k)
  {
    assert data[..k + 1] == data[..k] + [data[k]];
    WeightedSplit(data[..k], [data[k]], offset);
  }

  lemma {:induction false} CountedNothing(file: bytes, n: nat)
    requires n <= |file|
    ensures Counted(file, [], n) == 0
  {
    if n > 0 {
      CountedNothing(file, n - 1);
    }
  }

  /** Pieces of a file, in any order, at any alignment, overlapping or repeated: their total is the file's own sum with
      every byte counted as often as pieces hold it. */
  lemma {:induction false} TotalCountsBytes(file: bytes, pieces: seq<Piece>)
    requires forall p | p in pieces :: CutFrom(p, file)
    ensures Total(pieces) == Counted(file, pieces, |file|)
  {
    if pieces == [] {
      CountedNothing(file, |file|);
    } else {
      var last := pieces[|pieces| - 1];
      TotalCountsBytes(file, pieces[..|pieces| - 1]);
      CountedSplits(file, pieces, |file|);
      CountedPiece(file, last, |file|);
      assert last.data[..|last.data|] == last.data;
    }
  }

  lemma {:induction false} CountedOnce(file: bytes, pieces: seq<Piece>, n: nat)
    requires n <= |file|
    requires forall i: nat | i < n :: Multiplicity(pieces, i) == 1
    ensures Counted(file, pieces, n) == Weighted(file[..n], 0)
  {
    if n > 0 {
      CountedOnce(file, pieces, n - 1);
      OneMoreByte(file, n - 1, 0);
      TermAdds(file, n - 1, 0, 1);
    }
  }

  /** The checksum of a whole file. */
  function FileChecksum(file: bytes): u32 {
    Weighted(file, 0) % MODULUS
  }

  /** Any partition of a file into pieces, fed in any order, leaves the checksum of one update over the whole file. */
  lemma PartitionIndependent(file: bytes, pieces: seq<Piece>)
    requires forall p | p in pieces :: CutFrom(p, file)
    requires forall i: nat | i < |file| :: Multiplicity(pieces, i) == 1
    ensures Register(pieces) == FileChecksum(file)
    ensures Register([Piece(0, file)]) == FileChecksum(file)
  {
    RegisterIsTotal(pieces);
    TotalCountsBytes(file, pieces);
    CountedOnce(file, pieces, |file|);
    assert file[..|file|] == file;
    assert [Piece(0, file)][..0] == [];
  }
}
