/** Byte access over a block device: reads and writes of any offset and length turned
    into whole-block transfers, against a flat byte array. */
module BlockBuffer {
  import opened Common
  import opened PowersOfTwo

  datatype Status = Done | OutOfBounds

  /** A disk of whole blocks in memory.  Transfers start at a block, move whole blocks,
      and are checked against the number of blocks. */
  class Ramdisk {
    const blockSize: nat
    const numBlocks: nat
    const data: array<Byte>

    ghost predicate Valid()
      reads this
    {
      blockSize > 0 && data.Length == numBlocks * blockSize
    }

    constructor (size: nat, blocks: nat, backing: array<Byte>)
      requires size > 0 && backing.Length == blocks * size
      ensures Valid() && blockSize == size && numBlocks == blocks && data == backing
    {
      blockSize, numBlocks, data := size, blocks, backing;
    }

    method Read(block: nat, buf: array<Byte>, ghost count: nat, ghost base: nat) returns (r: Status)
      requires Valid() && buf != data && buf.Length == count * blockSize && base == block * blockSize
      modifies buf
      ensures r == if block + count > numBlocks then OutOfBounds else Done
      ensures r.Done? ==> base + buf.Length <= data.Length
      ensures r.Done? ==> buf[..] == data[base..base + buf.Length]
      ensures r.OutOfBounds? ==> buf[..] == old(buf[..])
    {
      var n := buf.Length / blockSize;
      CountBlocks(n, count, blockSize, buf.Length);
      if block + n > numBlocks {
        return OutOfBounds;
      }
      var at := block * blockSize;
      WholeBlocksFit(block, n, numBlocks, blockSize);
      forall i | 0 <= i < buf.Length { buf[i] := data[at + i]; }
      return Done;
    }

    method Write(block: nat, buf: array<Byte>, ghost count: nat, ghost base: nat) returns (r: Status)
      requires Valid() && buf != data && buf.Length == count * blockSize && base == block * blockSize
      modifies data
      ensures r == if block + count > numBlocks then OutOfBounds else Done
      ensures r.Done? ==> base + buf.Length <= data.Length
      ensures r.Done? ==> data[..] == Overwrite(old(data[..]), base, buf[..])
      ensures r.OutOfBounds? ==> data[..] == old(data[..])
    {
      var n := buf.Length / blockSize;
      CountBlocks(n, count, blockSize, buf.Length);
      if block + n > numBlocks {
        return OutOfBounds;
      }
      var at := block * blockSize;
      WholeBlocksFit(block, n, numBlocks, blockSize);
      forall i | 0 <= i < buf.Length { data[at + i] := buf[i]; }
      return Done;
    }
  }

  /** `disk` with `bytes` from `at` on. */
  function Overwrite(disk: seq<Byte>, at: nat, bytes: seq<Byte>): seq<Byte>
    requires at + |bytes| <= |disk|
  {
    disk[..at] + bytes + disk[at + |bytes|..]
  }

  lemma CountBlocks(n: nat, count: nat, size: nat, length: nat)
    requires size > 0 && length == count * size && n == length / size
    ensures n == count
  {
    ModUnique(length, size, count, 0);
  }

  lemma WholeBlocksFit(block: nat, n: nat, numBlocks: nat, size: nat)
    requires block + n <= numBlocks
    ensures block * size + n * size <= numBlocks * size
  {
    assert block * size + n * size == (block + n) * size;
    if block + n < numBlocks { MulApart(size, block + n, numBlocks); }
  }

  /** The blocks an access touches: the first one, how many, and where the access starts
      in the first. */
  function FirstBlock(offset: nat, size: nat): nat
    requires size > 0
  {
    offset / size
  }

  function BlockCount(offset: nat, len: nat, size: nat): nat
    requires size > 0 && len > 0
  {
    var n := (offset + len - 1) / size - offset / size + 1;
    BlocksAscend(offset, offset + len - 1, size);
    n
  }

  lemma BlocksAscend(a: nat, b: nat, size: nat)
    requires size > 0 && a <= b
    ensures a / size <= b / size
  {
    Split(a, size);
    Split(b, size);
    if b / size < a / size { MulApart(size, b / size, a / size); }
  }

  lemma Split(a: nat, size: nat)
    requires size > 0
    ensures a == a / size * size + a % size && 0 <= a % size < size
  {
  }

  /** The touched blocks contain the access, and lie on the disk exactly when it does. */
  lemma TouchedBlocks(offset: nat, len: nat, size: nat, numBlocks: nat)
    requires size > 0 && len > 0
    ensures var first, count := FirstBlock(offset, size), BlockCount(offset, len, size);
      && first * size + offset % size == offset
      && offset % size + len <= count * size
      && (first + count <= numBlocks <==> offset + len <= numBlocks * size)
  {
    var first, count, last := FirstBlock(offset, size), BlockCount(offset, len, size), (offset + len - 1) / size;
    Split(offset, size);
    Split(offset + len - 1, size);
    assert count * size == last * size - first * size + size by {
      assert (last - first + 1) * size == last * size - first * size + size;
    }
    if last < numBlocks { MulApart(size, last, numBlocks); }
    if numBlocks < last { MulApart(size, numBlocks, last); }
  }

  /** Reads bytes at any offset: exactly the disk's bytes, or an error that leaves the
      buffer alone when a non-empty access does not fit. */
  method ReadAt(dev: Ramdisk, offset: nat, buf: array<Byte>) returns (r: Status)
    requires dev.Valid() && buf != dev.data
    modifies buf
    ensures r.Done? <==> buf.Length == 0 || offset + buf.Length <= dev.data.Length
    ensures r.Done? && buf.Length > 0 ==> buf[..] == dev.data[offset..offset + buf.Length]
    ensures r.OutOfBounds? ==> buf[..] == old(buf[..])
  {
    var len := buf.Length;
    if len == 0 {
      return Done;
    }
    var size := dev.blockSize;
    var first, count := FirstBlock(offset, size), BlockCount(offset, len, size);
    TouchedBlocks(offset, len, size, dev.numBlocks);
    var temp := new Byte[count * size](_ => 0);
    r := dev.Read(first, temp, count, first * size);
    if r.OutOfBounds? {
      return r;
    }
    var at := offset % size;
    forall i | 0 <= i < len { buf[i] := temp[at + i]; }
  }

  /** Writes bytes at any offset by reading, changing and writing back whole blocks:
      exactly those bytes of the disk change, or nothing does. */
  method WriteAt(dev: Ramdisk, offset: nat, buf: array<Byte>) returns (r: Status)
    requires dev.Valid() && buf != dev.data
    modifies dev.data
    ensures r.Done? <==> buf.Length == 0 || offset + buf.Length <= dev.data.Length
    ensures dev.data[..] == if r.Done? && buf.Length > 0 then Overwrite(old(dev.data[..]), offset, buf[..])
                            else old(dev.data[..])
  {
    var len := buf.Length;
    if len == 0 {
      return Done;
    }
    var size := dev.blockSize;
    var first, count := FirstBlock(offset, size), BlockCount(offset, len, size);
    TouchedBlocks(offset, len, size, dev.numBlocks);
    r := ChangeBlocks(dev, first, count, first * size, offset % size, buf);
  }

  method ChangeBlocks(dev: Ramdisk, first: nat, count: nat, ghost base: nat, at: nat, buf: array<Byte>)
    returns (r: Status)
    requires dev.Valid() && buf != dev.data && base == first * dev.blockSize && at + buf.Length <= count * dev.blockSize
    modifies dev.data
    ensures r == if first + count > dev.numBlocks then OutOfBounds else Done
    ensures r.Done? ==> base + at + buf.Length <= dev.data.Length
    ensures dev.data[..] == if r.Done? then Overwrite(old(dev.data[..]), base + at, buf[..]) else old(dev.data[..])
  {
    var bytes := count * dev.blockSize;
    var temp := new Byte[bytes](_ => 0);
    r := dev.Read(first, temp, count, base);
    if r.OutOfBounds? {
      return r;
    }
    forall i | 0 <= i < buf.Length { temp[at + i] := buf[i]; }
    ghost var disk, blocks, bytesGiven := dev.data[..], temp[..], buf[..];
    OverwriteInBlocks(disk, base, blocks, at, bytesGiven);
    r := dev.Write(first, temp, count, base);
    assert dev.data[..] == Overwrite(disk, base, blocks);
    assert buf[..] == bytesGiven && disk == old(dev.data[..]);
  }

  /** Writing back whole blocks changed at `at` overwrites just those bytes. */
  lemma OverwriteInBlocks(disk: seq<Byte>, base: nat, blocks: seq<Byte>, at: nat, bytes: seq<Byte>)
    requires base + |blocks| <= |disk| && at + |bytes| <= |blocks|
    requires forall i | 0 <= i < |blocks| ::
      blocks[i] == if at <= i < at + |bytes| then bytes[i - at] else disk[base + i]
    ensures Overwrite(disk, base, blocks) == Overwrite(disk, base + at, bytes)
  {
  }
}
