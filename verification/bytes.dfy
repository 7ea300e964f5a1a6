/** File contents: positioned writes and resizes, in memory and on disk. */
module Bytes {
  import opened Wrappers

  newtype Byte = x: int | 0 <= x < 256
  type Data = seq<Byte>

  const MAX_INT64: int := 0x7FFF_FFFF_FFFF_FFFF

  datatype RangeError = Negative | Overflow | TooLarge

  /** Two's complement wrap-around of a 64-bit signed sum. */
  function Wrap64(x: int): (r: int)
    ensures -MAX_INT64 - 1 <= r <= MAX_INT64
    ensures (r - x) % 0x1_0000_0000_0000_0000 == 0
  {
    (x + MAX_INT64 + 1) % 0x1_0000_0000_0000_0000 - MAX_INT64 - 1
  }

  function Max(a: int, b: int): int { if a < b then b else a }

  function Min(a: int, b: int): int { if a < b then a else b }

  function Zeros(n: nat): (z: Data)
    ensures |z| == n
  {
    seq(n, _ => 0 as Byte)
  }

  // ---------- the buffer the server builds in memory ----------

  /** base with data laid over it from offset on; a gap reads as zero bytes. */
  function Spliced(base: Data, offset: nat, data: Data): (out: Data)
    ensures |out| == Max(|base|, offset + |data|)
  {
    seq(Max(|base|, offset + |data|), i requires 0 <= i =>
      if offset <= i < offset + |data| then data[i - offset]
      else if i < |base| then base[i] else 0)
  }

  /** base cut or zero-extended to the given size. */
  function Resized(base: Data, size: nat): (out: Data)
    ensures |out| == size
  {
    seq(size, i requires 0 <= i => if i < |base| then base[i] else 0)
  }

  /** Go's copy: as many bytes as fit, from position at on. */
  method CopyInto(dst: array<Byte>, at: nat, src: Data)
    requires at <= dst.Length
    modifies dst
    ensures forall i :: 0 <= i < dst.Length ==>
      dst[i] == if at <= i < at + |src| then src[i - at] else old(dst[i])
  {
    var n := Min(dst.Length - at, |src|);
    var j := 0;
    while j < n
      invariant 0 <= j <= n
      invariant forall i :: 0 <= i < dst.Length ==>
        dst[i] == if at <= i < at + j then src[i - at] else old(dst[i])
    {
      dst[at + j] := src[j];
      j := j + 1;
    }
  }

  /** Every 64-bit offset is answered: the call fails exactly when the offset is negative
      or the result would not fit a slice, and no index leaves its buffer. */
  method ApplyRangeMutation(baseData: Data, offset: int, data: Data, maxSlice: int)
    returns (r: Result<Data, RangeError>)
    requires -MAX_INT64 - 1 <= offset <= MAX_INT64
    requires |baseData| <= maxSlice && |data| <= maxSlice <= MAX_INT64
    ensures r.Err? <==> offset < 0 || offset + |data| > maxSlice
    ensures r.Ok? ==> r.value == Spliced(baseData, offset, data)
  {
    if offset < 0 {
      return Err(Negative);
    }
    var end := Wrap64(offset + |data|);
    if end < offset {
      return Err(Overflow);
    }
    var size := |baseData|;
    if end > size {
      size := end;
    }
    if size > maxSlice {
      return Err(TooLarge);
    }
    var out := new Byte[size](_ => 0);
    CopyInto(out, 0, baseData);
    CopyInto(out, offset, data);
    assert out[..] == Spliced(baseData, offset, data);
    return Ok(out[..]);
  }

  method ResizeFileData(baseData: Data, size: int, maxSlice: int) returns (r: Result<Data, RangeError>)
    requires |baseData| <= maxSlice
    ensures r.Err? <==> size < 0 || size > maxSlice
    ensures r.Ok? ==> r.value == Resized(baseData, size)
  {
    if size < 0 {
      return Err(Negative);
    }
    if size > maxSlice {
      return Err(TooLarge);
    }
    var out := new Byte[size](_ => 0);
    CopyInto(out, 0, baseData);
    assert out[..] == Resized(baseData, size);
    return Ok(out[..]);
  }

  // ---------- the disk, one byte at a time ----------

  /** Storing one byte; writing past the end first fills the gap with zeros. */
  function PutByte(file: Data, at: nat, b: Byte): Data
  {
    if at < |file| then file[at := b] else file + Zeros(at - |file|) + [b]
  }

  /** A positioned write: the bytes in order; writing nothing changes nothing. */
  function DiskWriteAt(file: Data, offset: nat, data: Data): Data
    decreases |data|
  {
    if data == [] then file
    else DiskWriteAt(PutByte(file, offset, data[0]), offset + 1, data[1..])
  }

  /** Truncation drops trailing bytes one by one, extension appends zeros. */
  function DiskTruncate(file: Data, size: nat): Data
    decreases if |file| > size then |file| - size else 0
  {
    if |file| > size then DiskTruncate(file[..|file| - 1], size)
    else file + Zeros(size - |file|)
  }

  lemma {:induction false} NonEmptyWriteSplices(file: Data, offset: nat, data: Data)
    requires data != []
    ensures DiskWriteAt(file, offset, data) == Spliced(file, offset, data)
    decreases |data|
  {
    var first := PutByte(file, offset, data[0]);
    if |data| == 1 {
      assert first == Spliced(file, offset, data);
    } else {
      NonEmptyWriteSplices(first, offset + 1, data[1..]);
      assert Spliced(first, offset + 1, data[1..]) == Spliced(file, offset, data);
    }
  }

  /** The buffer the server builds for a stale range write is what the disk would hold,
      unless the write is empty and starts past the end. */
  lemma SpliceAgreesWithDisk(file: Data, offset: nat, data: Data)
    ensures Spliced(file, offset, data) == DiskWriteAt(file, offset, data)
      <==> data != [] || offset <= |file|
  {
    if data != [] {
      NonEmptyWriteSplices(file, offset, data);
    } else if offset <= |file| {
      assert Spliced(file, offset, data) == file;
    }
  }

  lemma {:induction false} ResizeAgreesWithDisk(file: Data, size: nat)
    ensures Resized(file, size) == DiskTruncate(file, size)
    decreases |file|
  {
    if |file| > size {
      ResizeAgreesWithDisk(file[..|file| - 1], size);
      assert Resized(file[..|file| - 1], size) == Resized(file, size);
    } else {
      assert Resized(file, size) == file + Zeros(size - |file|);
    }
  }
}
