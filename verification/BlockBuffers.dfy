/**
 Buffer transfers through the block cache, one caller at a time: IoBlockCacheRead,
 IoBlockCacheUnlock, IoBlockCacheReadBuffer and IoBlockCacheWriteBuffer of kernel/src/io/bcache.c.

 The device is a flat sequence of bytes. Its calls may fail at will; a failed write leaves anything
 in the range it was given. The table of blocks is the finite map that the hash table refines.
 */
module BlockBuffers {
  import opened Common
  import opened Blocks
  import opened Masks

  const WORD64 := WORD * WORD

  datatype Block = Block(data: Data, state: BlockState, refCount: nat)

  /** Zero, -ENOSYS, -EIO or a device's own error, and -EFAULT. */
  datatype Status = Done | NoSys | IoError | Fault

  // ----- Bytes -----

  /** Only bytes from `lo` on, `count` of them, may differ. */
  ghost predicate OnlyChanged(before: Data, after: Data, lo: nat, count: nat) {
    |after| == |before| && forall i :: 0 <= i < |before| && !(lo <= i < lo + count) ==> after[i] == before[i]
  }

  lemma SliceOfSlice(d: Data, from: nat, to: nat, lo: nat, hi: nat)
    requires from <= to <= |d| && lo <= hi <= to - from
    ensures d[from..to][lo..hi] == d[from + lo..from + hi]
  {
    var a, b := d[from..to][lo..hi], d[from + lo..from + hi];
    assert forall i :: 0 <= i < |a| ==> a[i] == b[i];
  }

  // ----- Agreement -----

  /** Block data at offset `k` equals the device. */
  ghost predicate AgreesAt(data: Data, device: Data, k: nat) {
    k + |data| <= |device| && data == device[k..k + |data|]
  }

  /** Blocks are aligned, below 2^32, of the right length, and none is in the middle of a transfer. */
  ghost predicate WellFormed(table: map<nat, Block>, size: nat) {
    forall k :: k in table ==>
      size > 0 && InBlock(k, size) == 0 && k + size <= WORD && |table[k].data| == size && table[k].state == Ok
  }

  /** Every cached block equals the device. */
  ghost predicate Agrees(table: map<nat, Block>, device: Data) {
    forall k :: k in table ==> AgreesAt(table[k].data, device, k)
  }

  lemma ApartAgrees(data: Data, before: Data, after: Data, k: nat, lo: nat, count: nat)
    requires AgreesAt(data, before, k) && OnlyChanged(before, after, lo, count)
    requires k + |data| <= lo || lo + count <= k
    ensures AgreesAt(data, after, k)
  {
    assert after[k..k + |data|] == before[k..k + |data|];
  }

  /** A change inside one block's range leaves the other blocks right. */
  lemma OthersAgree(table: map<nat, Block>, before: Data, after: Data, size: nat, key: nat, lo: nat, count: nat)
    requires WellFormed(table, size) && Agrees(table, before) && OnlyChanged(before, after, lo, count)
    requires BlockSize(size) && size > 0 && InBlock(key, size) == 0 && key <= lo && lo + count <= key + size
    ensures forall k :: k in table && k != key ==> AgreesAt(table[k].data, after, k)
  {
    forall k | k in table && k != key
      ensures AgreesAt(table[k].data, after, k)
    {
      if k < key {
        BlocksApart(k, key, size);
      } else {
        BlocksApart(key, k, size);
      }
      ApartAgrees(table[k].data, before, after, k, lo, count);
    }
  }

  /** Writing the same bytes to the device and to its block keeps them equal. */
  lemma BothSpliced(device: Data, block: Data, key: nat, lo: nat, bytes: Data)
    requires AgreesAt(block, device, key) && lo + |bytes| <= |block|
    ensures AgreesAt(Splice(block, lo, bytes), Splice(device, key + lo, bytes), key)
  {
  }

  lemma WholeSpliced(device: Data, key: nat, bytes: Data)
    requires key + |bytes| <= |device|
    ensures AgreesAt(bytes, Splice(device, key, bytes), key)
  {
  }

  /**
   Past 32 bits the cache is given the bytes at one place and the device at another: then the block
   still agrees if and only if the device already had those bytes there.
   */
  lemma HighWriteAgreesIff(device: Data, block: Data, key: nat, lo: nat, off: nat, bytes: Data)
    requires AgreesAt(block, device, key) && key + |block| <= WORD <= off && off + |bytes| <= |device|
    requires lo + |bytes| <= |block|
    ensures AgreesAt(Splice(block, lo, bytes), Splice(device, off, bytes), key) <==>
      bytes == device[key + lo..key + lo + |bytes|]
  {
    assert Splice(device, off, bytes)[key..key + |block|] == block;
    SliceOfSlice(device, key, key + |block|, lo, lo + |bytes|);
    var now := Splice(block, lo, bytes);
    assert now[lo..lo + |bytes|] == bytes;
    assert block == block[..lo] + block[lo..lo + |bytes|] + block[lo + |bytes|..];
  }

  /** One byte written at 2^32 to a device of zeros makes the block at 0 wrong. */
  lemma HighWriteExample() returns (device: Data)
    ensures |device| == WORD + 1 && AgreesAt([0], device, 0)
    ensures !AgreesAt(Splice([0], 0, [1]), Splice(device, WORD, [1]), 0)
  {
    device := seq(WORD + 1, _ => 0);
    assert device[0..1] == [0];
    HighWriteAgreesIff(device, [0], 0, 0, WORD, [1]);
  }

  // ----- Turns of the loops -----

  /** IoBlockCacheUnlock: the block with one reference less, and whether it is freed. */
  function Unlock(b: Block): (Block, bool) {
    if b.refCount > 0 then
      var less := b.(refCount := b.refCount - 1);
      (less, less.state == Error && less.refCount == 0)
    else
      (b, false)
  }

  /** A write of `count` bytes at `lo` covers a whole block, and so skips the read and the reference. */
  predicate Whole(lo: nat, count: nat, size: nat) {
    lo == 0 && count == size
  }

  /** The references the block counts while the device is written. */
  function HeldDuring(table: map<nat, Block>, key: nat, whole: bool): nat {
    if key !in table then 1 else table[key].refCount + if whole then 0 else 1
  }

  /** A block's data once the bytes are in it. */
  ghost predicate NewData(table: map<nat, Block>, device: Data, size: nat, key: nat, lo: nat, bytes: Data, data: Data)
    requires lo + |bytes| <= size && WellFormed(table, size)
  {
    if Whole(lo, |bytes|, size) then data == bytes
    else if key in table then data == Splice(table[key].data, lo, bytes)
    else key + size <= |device| && data == Splice(device[key..key + size], lo, bytes)
  }

  /** What a completed turn of IoBlockCacheWriteBuffer's loop does. */
  ghost predicate WriteTurn(table: map<nat, Block>, device: Data, size: nat, key: nat, lo: nat, off: nat, bytes: Data,
                            now: map<nat, Block>, after: Data)
    requires lo + |bytes| <= size && WellFormed(table, size)
  {
    && off + |bytes| <= |device| && after == Splice(device, off, bytes)
    && key in now && now == table[key := now[key]] && NewData(table, device, size, key, lo, bytes, now[key].data)
  }

  /** Below 2^32 a completed turn keeps cache and device in agreement. */
  lemma WriteTurnAgrees(table: map<nat, Block>, device: Data, size: nat, key: nat, lo: nat, bytes: Data,
                        now: map<nat, Block>, after: Data)
    requires BlockSize(size) && size > 0 && WellFormed(table, size) && InBlock(key, size) == 0 && lo + |bytes| <= size
    requires Agrees(table, device) && WriteTurn(table, device, size, key, lo, key + lo, bytes, now, after)
    ensures Agrees(now, after)
  {
    SpliceChangesOnly(device, key + lo, bytes);
    OthersAgree(table, device, after, size, key, key + lo, |bytes|);
    NewDataAgrees(table, device, size, key, lo, bytes, now[key].data);
  }

  lemma SpliceChangesOnly(device: Data, off: nat, bytes: Data)
    requires off + |bytes| <= |device|
    ensures OnlyChanged(device, Splice(device, off, bytes), off, |bytes|)
  {
  }

  lemma NewDataAgrees(table: map<nat, Block>, device: Data, size: nat, key: nat, lo: nat, bytes: Data, data: Data)
    requires WellFormed(table, size) && Agrees(table, device) && lo + |bytes| <= size && key + lo + |bytes| <= |device|
    requires NewData(table, device, size, key, lo, bytes, data)
    ensures AgreesAt(data, Splice(device, key + lo, bytes), key)
  {
    if Whole(lo, |bytes|, size) {
      WholeSpliced(device, key, bytes);
    } else if key in table {
      BothSpliced(device, table[key].data, key, lo, bytes);
    } else {
      BothSpliced(device, device[key..key + size], key, lo, bytes);
    }
  }

  /** A turn whose device call fails takes the block out and leaves the others right. */
  lemma FailedTurnAgrees(table: map<nat, Block>, device: Data, size: nat, key: nat, lo: nat, count: nat, after: Data)
    requires BlockSize(size) && size > 0 && WellFormed(table, size) && InBlock(key, size) == 0 && lo + count <= size
    requires Agrees(table, device) && OnlyChanged(device, after, key + lo, count)
    ensures Agrees(table - {key}, after)
  {
    OthersAgree(table, device, after, size, key, key + lo, count);
  }

  /** Exactly the bytes from `off` on have been replaced. */
  ghost predicate Replaced(before: Data, after: Data, off: nat, bytes: Data) {
    if bytes == [] then after == before
    else off + |bytes| <= |before| && after == Splice(before, off, bytes)
  }

  /** The first `written` bytes of the buffer have been written, and nothing else. */
  ghost predicate Progress(before: Data, after: Data, off: nat, buffer: Data, written: nat) {
    written <= |buffer| && Replaced(before, after, off, buffer[..written])
  }

  /** The first `written` bytes have been written, and in the block after them anything may be. */
  ghost predicate Torn(before: Data, after: Data, off: nat, buffer: Data, written: nat, size: nat) {
    exists reached ::
      Progress(before, reached, off, buffer, written) && OnlyChanged(reached, after, off + written, size)
  }

  lemma TornBy(before: Data, reached: Data, after: Data, off: nat, buffer: Data, written: nat, count: nat, size: nat)
    requires Progress(before, reached, off, buffer, written)
    requires OnlyChanged(reached, after, off + written, count) && count <= size
    ensures Torn(before, after, off, buffer, written, size)
  {
    assert OnlyChanged(reached, after, off + written, size);
  }

  lemma ProgressMore(before: Data, reached: Data, after: Data, off: nat, buffer: Data, written: nat, count: nat)
    requires count > 0 && written + count <= |buffer| && Progress(before, reached, off, buffer, written)
    requires off + written + count <= |reached|
    requires after == Splice(reached, off + written, buffer[written..written + count])
    ensures Progress(before, after, off, buffer, written + count)
  {
    assert buffer[..written + count] == buffer[..written] + buffer[written..written + count];
  }

  lemma ProgressEnd(before: Data, after: Data, off: nat, buffer: Data)
    ensures Progress(before, before, off, buffer, 0)
    ensures Progress(before, after, off, buffer, |buffer|) ==> Replaced(before, after, off, buffer)
  {
    assert buffer[..|buffer|] == buffer;
  }

  /**
   A failed turn frees the block exactly if nobody else holds it, unless it was a whole-block write
   of a cached block with at most one holder: that loses the block, or frees it under its holder.
   */
  lemma FreedByLastHolderIff(table: map<nat, Block>, key: nat, whole: bool)
    ensures
      var holders := if key in table then table[key].refCount else 0;
      var freed := Unlock(Block([], Error, HeldDuring(table, key, whole))).1;
      (freed <==> holders == 0) <==> !(whole && key in table && holders <= 1)
  {
  }

  /** A failed whole-block write of a cached block: with no holder it is never freed, with one it is freed under it. */
  lemma FreedByLastHolderExample()
    ensures !Unlock(Block([], Error, HeldDuring(map[0 := Block([], Ok, 0)], 0, true))).1
    ensures Unlock(Block([], Error, HeldDuring(map[0 := Block([], Ok, 1)], 0, true))).1
  {
    FreedByLastHolderIff(map[0 := Block([], Ok, 0)], 0, true);
    FreedByLastHolderIff(map[0 := Block([], Ok, 1)], 0, true);
  }

  // ----- Offsets of a read -----

  /** Advancing a 64-bit offset. */
  function Advance(off: nat, count: nat): nat {
    (off + count) % WORD64
  }

  lemma AdvancePlain(off: nat, count: nat)
    requires off + count < WORD64
    ensures Advance(off, count) == off + count
  {
  }

  lemma AdvanceTwice(off: nat, a: nat, b: nat)
    ensures Advance(Advance(off, a), b) == Advance(off, a + b)
  {
  }

  /** The low 32 bits of the offset `i` bytes on. */
  function LowAt(off: nat, i: nat): nat {
    (off + i) % WORD
  }

  lemma LowOf(n: nat, m: nat, l: nat)
    requires n == WORD * m + l && l < WORD
    ensures n % WORD == l
  {
  }

  lemma LowAdvance(off: nat, d: nat, j: nat)
    requires Advance(off, d) % WORD + j < WORD
    ensures LowAt(off, d + j) == Advance(off, d) % WORD + j
  {
    var n := off + d;
    var at := n % WORD64;
    var q, m := n / WORD64, at / WORD;
    assert n == WORD64 * q + at;
    assert at == WORD * m + at % WORD;
    LowOf(n + j, WORD * q + m, at % WORD + j);
  }

  // ----- Writes past 2^32 -----

  /** Which byte of a transfer from `off` on has `p` as the low 32 bits of its offset. */
  function Back(off: nat, p: nat): nat {
    (p + WORD - off % WORD) % WORD
  }

  lemma BackIs(off: nat, i: nat)
    requires i < WORD
    ensures Back(off, LowAt(off, i)) == i
  {
    var l := off % WORD;
    LowOf(off + i, off / WORD + (l + i) / WORD, (l + i) % WORD);
    assert LowAt(off, i) == (l + i) % WORD;
    if l + i < WORD {
      assert LowAt(off, i) + WORD - l == WORD + i;
    } else {
      assert LowAt(off, i) + WORD - l == i;
    }
  }

  lemma LowBack(off: nat, p: nat)
    requires p < WORD
    ensures LowAt(off, Back(off, p)) == p
  {
    var l := off % WORD;
    var q := off / WORD;
    assert off == WORD * q + l;
    if l <= p {
      assert Back(off, p) == p - l;
      LowOf(off + (p - l), q, p);
    } else {
      assert Back(off, p) == p + WORD - l;
      LowOf(off + (p + WORD - l), q + 1, p);
    }
  }

  /** What the cache holds at `p` after the first `written` bytes: the one whose offset was cut to `p`, if any. */
  ghost function Want(device: Data, off: nat, buffer: Data, written: nat, p: nat): bv8
    requires p < |device| && written <= |buffer|
  {
    var i := Back(off, p);
    if i < written && off + i >= WORD then buffer[i] else device[p]
  }

  ghost predicate Pictured(table: map<nat, Block>, device: Data, off: nat, buffer: Data, written: nat)
    requires written <= |buffer|
  {
    forall k, j :: k in table && 0 <= j < |table[k].data| ==>
      k + j < |device| && table[k].data[j] == Want(device, off, buffer, written, k + j)
  }

  lemma PictureAt(table: map<nat, Block>, device: Data, off: nat, buffer: Data, written: nat, k: nat, j: nat)
    requires written <= |buffer| && Pictured(table, device, off, buffer, written) && k in table && j < |table[k].data|
    ensures k + j < |device| && table[k].data[j] == Want(device, off, buffer, written, k + j)
  {
    var byte := table[k].data[j];
  }

  lemma AgreesByte(data: Data, device: Data, k: nat, j: nat)
    requires AgreesAt(data, device, k) && j < |data|
    ensures data[j] == device[k + j]
  {
    assert data[j] == device[k..k + |data|][j];
  }

  ghost predicate InSome(table: map<nat, Block>, size: nat, p: nat) {
    exists k :: k in table && k <= p < k + size
  }

  /** Every byte whose offset was cut short is in a block. */
  ghost predicate Cached(table: map<nat, Block>, size: nat, off: nat, written: nat) {
    forall i :: 0 <= i < written && off + i >= WORD ==> InSome(table, size, LowAt(off, i))
  }

  /** A turn of the loop that writes `count` bytes from byte `written` of the buffer on. */
  ghost predicate TurnFrom(table: map<nat, Block>, device: Data, size: nat, off: nat, buffer: Data, written: nat,
                           count: nat, key: nat, lo: nat, now: map<nat, Block>, after: Data)
  {
    && BlockSize(size) && size > 0 && WellFormed(table, size) && InBlock(key, size) == 0 && key + size <= WORD
    && lo + count <= size && written + count <= |buffer| < WORD && key + lo == (off + written) % WORD
    && WriteTurn(table, device, size, key, lo, off + written, buffer[written..written + count], now, after)
  }

  lemma LowInTurn(off: nat, written: nat, start: nat, j: nat)
    requires start == (off + written) % WORD && start + j < WORD
    ensures LowAt(off, written + j) == start + j
  {
    LowOf(off + written + j, (off + written) / WORD, start + j);
  }

  /** The bytes of a turn are those whose cut offsets it writes to. */
  lemma BackInTurn(off: nat, written: nat, count: nat, start: nat, p: nat)
    requires start == (off + written) % WORD && start + count <= WORD && written + count <= WORD && p < WORD
    ensures start <= p < start + count ==> Back(off, p) == written + (p - start)
    ensures written <= Back(off, p) < written + count ==> start <= p < start + count
  {
    if start <= p < start + count {
      LowInTurn(off, written, start, p - start);
      BackIs(off, written + (p - start));
    }
    var i := Back(off, p);
    if written <= i < written + count {
      LowInTurn(off, written, start, i - written);
      LowBack(off, p);
    }
  }

  lemma DeviceInTurn(device: Data, off: nat, written: nat, start: nat, bytes: Data, p: nat)
    requires start == (off + written) % WORD && off + written + |bytes| <= |device| && start + |bytes| <= WORD
    requires p < WORD && p < |device|
    ensures
      var after := Splice(device, off + written, bytes);
      after[p] == if off + written < WORD && start <= p < start + |bytes| then bytes[p - start] else device[p]
  {
  }

  /** A turn puts its bytes where it writes and leaves the rest of the picture as it was. */
  lemma WantAfterTurn(device: Data, off: nat, buffer: Data, written: nat, count: nat, start: nat, p: nat)
    requires start == (off + written) % WORD && start + count <= WORD && written + count <= |buffer| < WORD
    requires off + written + count <= |device| && p < WORD && p < |device|
    ensures
      var after := Splice(device, off + written, buffer[written..written + count]);
      Want(after, off, buffer, written + count, p)
      == if start <= p < start + count then buffer[written + (p - start)] else Want(device, off, buffer, written, p)
  {
    BackInTurn(off, written, count, start, p);
    DeviceInTurn(device, off, written, start, buffer[written..written + count], p);
  }

  lemma NewBytes(table: map<nat, Block>, device: Data, size: nat, key: nat, lo: nat, bytes: Data, data: Data, j: nat)
    requires WellFormed(table, size) && lo + |bytes| <= size && NewData(table, device, size, key, lo, bytes, data)
    requires j < size && key + size <= |device|
    ensures |data| == size
    ensures data[j] == if lo <= j < lo + |bytes| then bytes[j - lo]
                       else if key in table then table[key].data[j] else device[key + j]
  {
  }

  /** Where no block is, nothing has been written to a cut offset. */
  lemma WantOutside(table: map<nat, Block>, device: Data, size: nat, off: nat, buffer: Data, written: nat,
                    key: nat, j: nat)
    requires BlockSize(size) && size > 0 && WellFormed(table, size) && Cached(table, size, off, written)
    requires InBlock(key, size) == 0 && key + size <= WORD && key !in table && j < size
    requires key + j < |device| && written <= |buffer|
    ensures Want(device, off, buffer, written, key + j) == device[key + j]
  {
    var p, i := key + j, Back(off, key + j);
    if i < written && off + i >= WORD {
      LowBack(off, p);
      assert InSome(table, size, LowAt(off, i));
      var k :| k in table && k <= p < k + size;
      if k < key {
        BlocksApart(k, key, size);
      } else if key < k {
        BlocksApart(key, k, size);
      }
    }
  }

  lemma OtherBlockApart(table: map<nat, Block>, size: nat, key: nat, k: nat, j: nat)
    requires BlockSize(size) && size > 0 && WellFormed(table, size) && InBlock(key, size) == 0
    requires k in table && k != key && j < size
    ensures !(key <= k + j < key + size)
  {
    if k < key {
      BlocksApart(k, key, size);
    } else {
      BlocksApart(key, k, size);
    }
  }

  lemma TurnRoom(table: map<nat, Block>, device: Data, size: nat, off: nat, buffer: Data, written: nat, count: nat,
                 key: nat, lo: nat, now: map<nat, Block>, after: Data)
    requires TurnFrom(table, device, size, off, buffer, written, count, key, lo, now, after)
    requires Pictured(table, device, off, buffer, written)
    ensures key + size <= |device| && |after| == |device|
  {
    if key in table {
      PictureAt(table, device, off, buffer, written, key, size - 1);
    }
  }

  /** The block a turn writes is as pictured. */
  lemma TurnPicturesKey(table: map<nat, Block>, device: Data, size: nat, off: nat, buffer: Data, written: nat,
                        count: nat, key: nat, lo: nat, now: map<nat, Block>, after: Data, j: nat)
    requires TurnFrom(table, device, size, off, buffer, written, count, key, lo, now, after) && j < size
    requires Pictured(table, device, off, buffer, written) && Cached(table, size, off, written)
    requires key + size <= |device| && |after| == |device|
    ensures |now[key].data| == size && now[key].data[j] == Want(after, off, buffer, written + count, key + j)
  {
    WantAfterTurn(device, off, buffer, written, count, key + lo, key + j);
    NewBytes(table, device, size, key, lo, buffer[written..written + count], now[key].data, j);
    if key in table {
      PictureAt(table, device, off, buffer, written, key, j);
    } else {
      WantOutside(table, device, size, off, buffer, written, key, j);
    }
  }

  lemma TurnPicturesOther(table: map<nat, Block>, device: Data, size: nat, off: nat, buffer: Data, written: nat,
                          count: nat, key: nat, lo: nat, now: map<nat, Block>, after: Data, k: nat, j: nat)
    requires TurnFrom(table, device, size, off, buffer, written, count, key, lo, now, after)
    requires Pictured(table, device, off, buffer, written) && |after| == |device|
    requires k in table && k != key && j < size
    ensures k + j < |after| && table[k].data[j] == Want(after, off, buffer, written + count, k + j)
  {
    PictureAt(table, device, off, buffer, written, k, j);
    OtherBlockApart(table, size, key, k, j);
    WantAfterTurn(device, off, buffer, written, count, key + lo, k + j);
  }

  lemma TurnPictures(table: map<nat, Block>, device: Data, size: nat, off: nat, buffer: Data, written: nat, count: nat,
                     key: nat, lo: nat, now: map<nat, Block>, after: Data)
    requires TurnFrom(table, device, size, off, buffer, written, count, key, lo, now, after)
    requires Pictured(table, device, off, buffer, written) && Cached(table, size, off, written)
    ensures Pictured(now, after, off, buffer, written + count)
  {
    TurnRoom(table, device, size, off, buffer, written, count, key, lo, now, after);
    forall k, j | k in now && 0 <= j < |now[k].data|
      ensures k + j < |after| && now[k].data[j] == Want(after, off, buffer, written + count, k + j)
    {
      if k == key {
        NewBytes(table, device, size, key, lo, buffer[written..written + count], now[key].data, 0);
        TurnPicturesKey(table, device, size, off, buffer, written, count, key, lo, now, after, j);
      } else {
        TurnPicturesOther(table, device, size, off, buffer, written, count, key, lo, now, after, k, j);
      }
    }
  }

  lemma TurnCaches(table: map<nat, Block>, device: Data, size: nat, off: nat, buffer: Data, written: nat, count: nat,
                   key: nat, lo: nat, now: map<nat, Block>, after: Data)
    requires TurnFrom(table, device, size, off, buffer, written, count, key, lo, now, after)
    requires Cached(table, size, off, written)
    ensures Cached(now, size, off, written + count)
  {
    forall i | 0 <= i < written + count && off + i >= WORD
      ensures InSome(now, size, LowAt(off, i))
    {
      if i < written {
        var k :| k in table && k <= LowAt(off, i) < k + size;
        assert k in now;
      } else {
        LowInTurn(off, written, key + lo, i - written);
        assert key in now && key <= LowAt(off, i) < key + size;
      }
    }
  }

  /** The bytes whose offsets are cut short are what the device has at the cut offsets. */
  ghost predicate CutRight(device: Data, off: nat, buffer: Data) {
    forall i :: 0 <= i < |buffer| && off + i >= WORD ==>
      LowAt(off, i) < |device| && buffer[i] == device[LowAt(off, i)]
  }

  lemma AgreedIsPictured(table: map<nat, Block>, device: Data, off: nat, buffer: Data)
    requires Agrees(table, device)
    ensures Pictured(table, device, off, buffer, 0)
  {
  }

  /** The picture agrees with the device exactly if the bytes at cut offsets do. */
  lemma PicturedAgreesIff(table: map<nat, Block>, device: Data, size: nat, off: nat, buffer: Data)
    requires WellFormed(table, size) && Pictured(table, device, off, buffer, |buffer|)
    requires Cached(table, size, off, |buffer|) && |buffer| < WORD
    ensures Agrees(table, device) <==> CutRight(device, off, buffer)
  {
    if CutRight(device, off, buffer) {
      forall k | k in table
        ensures AgreesAt(table[k].data, device, k)
      {
        CutRightAgrees(table, device, size, off, buffer, k);
      }
    } else {
      var i :| 0 <= i < |buffer| && off + i >= WORD
               && !(LowAt(off, i) < |device| && buffer[i] == device[LowAt(off, i)]);
      assert InSome(table, size, LowAt(off, i));
      var k :| k in table && k <= LowAt(off, i) < k + size;
      CutWrong(table, device, size, off, buffer, i, k);
    }
  }

  lemma CutWrong(table: map<nat, Block>, device: Data, size: nat, off: nat, buffer: Data, i: nat, k: nat)
    requires WellFormed(table, size) && Pictured(table, device, off, buffer, |buffer|) && |buffer| < WORD
    requires i < |buffer| && off + i >= WORD && k in table && k <= LowAt(off, i) < k + size
    requires !(LowAt(off, i) < |device| && buffer[i] == device[LowAt(off, i)])
    ensures !AgreesAt(table[k].data, device, k)
  {
    var j := LowAt(off, i) - k;
    BackIs(off, i);
    PictureAt(table, device, off, buffer, |buffer|, k, j);
    if AgreesAt(table[k].data, device, k) {
      AgreesByte(table[k].data, device, k, j);
    }
  }

  lemma CutRightAgrees(table: map<nat, Block>, device: Data, size: nat, off: nat, buffer: Data, k: nat)
    requires WellFormed(table, size) && Pictured(table, device, off, buffer, |buffer|)
    requires |buffer| < WORD && CutRight(device, off, buffer) && k in table
    ensures AgreesAt(table[k].data, device, k)
  {
    var data := table[k].data;
    forall j | 0 <= j < size
      ensures k + j < |device| && data[j] == device[k + j]
    {
      PictureAt(table, device, off, buffer, |buffer|, k, j);
      LowBack(off, k + j);
    }
    PictureAt(table, device, off, buffer, |buffer|, k, size - 1);
    assert data == device[k..k + size];
  }

  /** A transfer does not write to the offsets its own bytes are cut to. */
  lemma CutElsewhere(before: Data, off: nat, buffer: Data)
    requires off + |buffer| <= |before| && |buffer| < WORD
    ensures CutRight(Splice(before, off, buffer), off, buffer) <==> CutRight(before, off, buffer)
  {
    var after := Splice(before, off, buffer);
    forall i | 0 <= i < |buffer| && off + i >= WORD && LowAt(off, i) < |before|
      ensures after[LowAt(off, i)] == before[LowAt(off, i)]
    {
      var p := LowAt(off, i);
      if off <= p < off + |buffer| {
        LowOf(p, 0, p);
        BackIs(off, p - off);
        BackIs(off, i);
      }
    }
  }

  lemma CutIsOld(before: Data, after: Data, off: nat, buffer: Data)
    requires Replaced(before, after, off, buffer) && |buffer| < WORD
    ensures CutRight(after, off, buffer) <==> CutRight(before, off, buffer)
  {
    if buffer != [] {
      CutElsewhere(before, off, buffer);
    }
  }

  /** The bytes are the device's from `off` on, with offsets taken to 32 bits. */
  ghost predicate Mirrors(device: Data, off: nat, data: Data) {
    forall i :: 0 <= i < |data| ==> LowAt(off, i) < |device| && data[i] == device[LowAt(off, i)]
  }

  lemma MirrorsMore(device: Data, off: nat, data: Data, low: nat, part: Data)
    requires Mirrors(device, off, data) && low == Advance(off, |data|) % WORD
    requires low + |part| <= WORD && AgreesAt(part, device, low)
    ensures Mirrors(device, off, data + part)
  {
    forall i | 0 <= i < |data + part|
      ensures LowAt(off, i) < |device| && (data + part)[i] == device[LowAt(off, i)]
    {
      if i >= |data| {
        LowAdvance(off, |data|, i - |data|);
      }
    }
  }

  /** Below 2^32 the bytes read are exactly the device's range. */
  lemma LowReadIsExact(device: Data, off: nat, data: Data)
    requires Mirrors(device, off, data) && off + |data| <= WORD && |data| > 0
    ensures off + |data| <= |device| && data == device[off..off + |data|]
  {
    assert LowAt(off, |data| - 1) == off + |data| - 1;
    forall i | 0 <= i < |data|
      ensures data[i] == device[off..off + |data|][i]
    {
      assert LowAt(off, i) == off + i;
    }
  }

  /** The part of an agreeing block is the device's. */
  lemma PartAgrees(block: Data, device: Data, key: nat, lo: nat, count: nat)
    requires AgreesAt(block, device, key) && lo + count <= |block|
    ensures AgreesAt(block[lo..lo + count], device, key + lo)
  {
    SliceOfSlice(device, key, key + |block|, lo, lo + count);
  }

  /** Blocks already there are untouched, and new ones are held by nobody. */
  ghost predicate Grew(before: map<nat, Block>, table: map<nat, Block>) {
    && (forall k :: k in before ==> k in table && table[k] == before[k])
    && (forall k :: k in table && k !in before ==> table[k].refCount == 0)
  }

  class BlockCache {
    const blockSize: nat
    const canRead: bool
    const canWrite: bool
    var device: Data
    var table: map<nat, Block>

    /** Blocks allocated that are neither in the table nor freed. */
    var loose: nat

    /** How many device calls have failed. */
    var failures: nat

    ghost predicate Valid()
      reads this
    {
      BlockSize(blockSize) && 0 < blockSize <= WORD / 4 && WellFormed(table, blockSize) && |device| < WORD64
    }

    constructor (size: nat, contents: Data, readable: bool, writable: bool)
      requires BlockSize(size) && |contents| < WORD64
      ensures Valid() && Agrees(table, device) && table == map[]
      ensures blockSize == size && device == contents && canRead == readable && canWrite == writable && loose == 0
      ensures failures == 0
    {
      BlockSizeBounds(size);
      blockSize, device, canRead, canWrite := size, contents, readable, writable;
      table, loose, failures := map[], 0, 0;
    }

    /** The device's read call. */
    method DeviceRead(off: nat, count: nat) returns (r: Option<Data>)
      modifies this`failures
      ensures r.Some? ==> |r.value| == count && AgreesAt(r.value, device, off)
      ensures failures == old(failures) + if r.None? then 1 else 0
    {
      var works: bool := *;
      if works && off + count <= |device| {
        return Some(device[off..off + count]);
      }
      failures := failures + 1;
      return None;
    }

    /** The device's write call. */
    method DeviceWrite(off: nat, bytes: Data) returns (ok: bool)
      modifies this`device, this`failures
      ensures failures == old(failures) + if ok then 0 else 1
      ensures ok ==> off + |bytes| <= |old(device)| && device == Splice(old(device), off, bytes)
      ensures OnlyChanged(old(device), device, off, |bytes|)
    {
      if off + |bytes| > |device| {
        failures := failures + 1;
        return false;
      }
      var works: bool := *;
      if works {
        device := Splice(device, off, bytes);
        return true;
      }
      var junk: Data := *;
      if |junk| == |bytes| {
        device := Splice(device, off, junk);
      }
      failures := failures + 1;
      return false;
    }

    /**
     IoBlockCacheRead of the block at `key`: a reference to it, which is read in if it is not there. A
     block whose read fails is created, taken out and freed within the call.
     */
    method Read(key: nat) returns (status: Status)
      requires Valid() && InBlock(key, blockSize) == 0 && key + blockSize <= WORD
      modifies this`table, this`failures
      ensures Valid() && status != Fault && (status == NoSys <==> key !in old(table) && !canRead)
      ensures failures == old(failures) + if status == IoError then 1 else 0
      ensures status != Done ==> table == old(table)
      ensures status == Done ==> key in table && table == old(table)[key := table[key]]
      ensures status == Done && key in old(table) ==>
        table[key] == old(table)[key].(refCount := old(table)[key].refCount + 1)
      ensures status == Done && key !in old(table) ==>
        table[key].refCount == 1 && AgreesAt(table[key].data, device, key)
    {
      if key !in table {
        if !canRead {
          return NoSys;
        }
        var bytes := DeviceRead(key, blockSize);
        if bytes.None? {
          return IoError;
        }
        table := table[key := Block(bytes.value, Ok, 1)];
      } else {
        table := table[key := table[key].(refCount := table[key].refCount + 1)];
      }
      return Done;
    }

    /** IoBlockCacheUnlock on a block in the table. */
    method Release(key: nat)
      requires Valid() && key in table
      modifies this`table
      ensures Valid() && table == old(table)[key := Unlock(old(table)[key]).0]
    {
      var unlocked := Unlock(table[key]);
      table := table[key := unlocked.0];
    }

    /** IoBlockCacheUnlock on a block that has been taken out of the table. */
    method ReleaseErrored(b: Block)
      requires b.state == Error
      modifies this`loose
      ensures loose == old(loose) + if Unlock(b).1 then 0 else 1
    {
      var unlocked := Unlock(b);
      if !unlocked.1 {
        loose := loose + 1;
      }
    }

    /** How much of the transfer falls into the block of `at`, which starts at `key`. */
    method Locate(at: nat, left: nat) returns (key: nat, lo: nat, count: nat)
      requires BlockSize(blockSize) && left > 0
      ensures blockSize > 0 && InBlock(key, blockSize) == 0 && key + blockSize <= WORD && key + lo == at % WORD
      ensures 0 < count <= left && lo + count <= blockSize && (count < left ==> lo + count == blockSize)
    {
      BlockOf(at, blockSize);
      key := Align(at, blockSize);
      lo := InBlock(at, blockSize);
      count := blockSize - lo;
      if count > left {
        count := left;
      }
    }

    /** One turn of IoBlockCacheReadBuffer's loop. */
    method ReadPart(key: nat, lo: nat, count: nat) returns (status: Status, part: Data)
      requires Valid() && InBlock(key, blockSize) == 0 && key + blockSize <= WORD && lo + count <= blockSize
      modifies this`table, this`failures
      ensures Valid() && Grew(old(table), table) && status != Fault && (status == NoSys ==> !canRead)
      ensures failures == old(failures) + if status == IoError then 1 else 0
      ensures Agrees(old(table), device) ==> Agrees(table, device)
      ensures status == Done ==> |part| == count
      ensures status == Done && Agrees(old(table), device) ==> AgreesAt(part, device, key + lo)
    {
      status := Read(key);
      if status != Done {
        return status, [];
      }
      part := table[key].data[lo..lo + count];
      if Agrees(old(table), device) {
        PartAgrees(table[key].data, device, key, lo, count);
      }
      Release(key);
    }

    /**
     IoBlockCacheReadBuffer, with what it copied. `accessible` stands for the checks of the caller's
     buffer, one for each turn.
     */
    method ReadBuffer(off: nat, length: nat, accessible: nat -> bool) returns (status: Status, data: Data)
      requires Valid() && off < WORD64 && length < WORD
      modifies this`table, this`failures
      ensures Valid() && Grew(old(table), table)
      ensures failures == old(failures) + if status == IoError then 1 else 0
      ensures (status == NoSys ==> !canRead) && (status == Fault ==> !accessible(|data|))
      ensures Agrees(old(table), device) ==> Agrees(table, device) && Mirrors(device, off, data)
      ensures |data| <= length && (status == Done ==> |data| == length)
    {
      data := [];
      if length == 0 {
        return Done, [];
      }
      var at, left := off, length;
      while left > 0
        invariant Valid() && Grew(old(table), table) && failures == old(failures)
        invariant 0 <= left && |data| + left == length && at == Advance(off, |data|)
        invariant Agrees(old(table), device) ==> Agrees(table, device) && Mirrors(device, off, data)
        decreases left
      {
        var key, lo, count := Locate(at, left);
        var part: Data;
        status, part := ReadPart(key, lo, count);
        if status != Done {
          return status, data;
        }
        if !accessible(|data|) {
          return Fault, data;
        }
        if Agrees(old(table), device) {
          MirrorsMore(device, off, data, key + lo, part);
        }
        AdvanceTwice(off, |data|, count);
        data := data + part;
        at := Advance(at, count);
        left := left - count;
      }
      return Done, data;
    }

    /** The first half of a turn of IoBlockCacheWriteBuffer's loop: the block to write to. */
    method Obtain(key: nat, whole: bool) returns (status: Status)
      requires Valid() && InBlock(key, blockSize) == 0 && key + blockSize <= WORD
      modifies this`table, this`failures
      ensures Valid() && status != Fault && (status == NoSys ==> !canRead)
      ensures failures == old(failures) + if status == IoError then 1 else 0
      ensures status != Done ==> table == old(table)
      ensures status == Done ==>
        && key in table && table == old(table)[key := table[key]]
        && table[key].refCount == HeldDuring(old(table), key, whole)
      ensures status == Done && key in old(table) ==> table[key].data == old(table)[key].data
      ensures status == Done && key !in old(table) && !whole ==> AgreesAt(table[key].data, device, key)
    {
      if !whole {
        status := Read(key);
        return;
      }
      if key !in table {
        var contents: Data := *;
        if |contents| != blockSize {
          contents := seq(blockSize, _ => 0);
        }
        table := table[key := Block(contents, Ok, 1)];
      }
      status := Done;
    }

    /** The second half: the block is overwritten, the device written, and the reference given up. */
    method Commit(key: nat, lo: nat, off: nat, bytes: Data) returns (status: Status)
      requires Valid() && key in table && lo + |bytes| <= blockSize
      modifies this`table, this`device, this`loose, this`failures
      ensures Valid() && OnlyChanged(old(device), device, off, |bytes|) && (status == Done || status == IoError)
      ensures failures == old(failures) + if status == IoError then 1 else 0
      ensures status == Done ==>
        && off + |bytes| <= |old(device)| && device == Splice(old(device), off, bytes) && loose == old(loose)
        && key in table && table == old(table)[key := table[key]]
        && table[key].data == Splice(old(table)[key].data, lo, bytes)
        && table[key].refCount == Unlock(old(table)[key]).0.refCount
      ensures status == IoError ==>
        && table == old(table) - {key}
        && loose == old(loose) + if old(table)[key].refCount == 1 then 0 else 1
    {
      var block := table[key];
      block := block.(state := Writing, data := Splice(block.data, lo, bytes));
      var ok := DeviceWrite(off, bytes);
      if ok {
        table := table[key := block.(state := Ok)];
        Release(key);
        return Done;
      }
      table := table - {key};
      ReleaseErrored(block.(state := Error));
      return IoError;
    }

    /** One turn of IoBlockCacheWriteBuffer's loop; `tried` says that it got as far as the device. */
    method WritePart(key: nat, lo: nat, off: nat, bytes: Data) returns (status: Status, ghost tried: bool)
      requires Valid() && InBlock(key, blockSize) == 0 && key + blockSize <= WORD && lo + |bytes| <= blockSize
      modifies this`table, this`device, this`loose, this`failures
      ensures Valid() && status != Fault && OnlyChanged(old(device), device, off, |bytes|)
      ensures (status == NoSys ==> !canRead) && failures == old(failures) + if status == IoError then 1 else 0
      ensures status == Done ==>
        tried && WriteTurn(old(table), old(device), blockSize, key, lo, off, bytes, table, device)
      ensures status == Done ==> loose == old(loose)
      ensures status == Done ==>
        table[key].refCount + 1 == Max(HeldDuring(old(table), key, Whole(lo, |bytes|, blockSize)), 1)
      ensures !tried ==> status != Done && device == old(device) && table == old(table) && loose == old(loose)
      ensures tried && status != Done ==>
        && table == old(table) - {key}
        && loose == old(loose) + if HeldDuring(old(table), key, Whole(lo, |bytes|, blockSize)) == 1 then 0 else 1
    {
      status := Obtain(key, Whole(lo, |bytes|, blockSize));
      tried := status == Done;
      if status == Done {
        status := Commit(key, lo, off, bytes);
      }
    }

    /** The part of the buffer from byte `written` on that falls into one block, and how many bytes that is. */
    method WriteNext(at: nat, buffer: Data, written: nat)
      returns (status: Status, count: nat, ghost key: nat, ghost lo: nat)
      requires Valid() && written < |buffer|
      modifies this`table, this`device, this`loose, this`failures
      ensures Valid() && status != Fault && 0 < count <= blockSize && written + count <= |buffer|
      ensures (status == NoSys ==> !canRead) && failures == old(failures) + if status == IoError then 1 else 0
      ensures OnlyChanged(old(device), device, at, count)
      ensures status == Done ==>
        at + count <= |old(device)| && device == Splice(old(device), at, buffer[written..written + count])
      ensures Agrees(old(table), old(device)) && at < WORD ==> Agrees(table, device)
      ensures InBlock(key, blockSize) == 0 && key + blockSize <= WORD
      ensures key + lo == at % WORD && lo + count <= blockSize
      ensures status == Done ==>
        WriteTurn(old(table), old(device), blockSize, key, lo, at, buffer[written..written + count], table, device)
    {
      var block, place;
      block, place, count := Locate(at, |buffer| - written);
      key, lo := block, place;
      var bytes := buffer[written..written + count];
      ghost var tried;
      status, tried := WritePart(block, place, at, bytes);
      if Agrees(old(table), old(device)) && at < WORD {
        TurnAgrees(old(table), old(device), blockSize, key, lo, at, bytes, table, device, status == Done);
      }
    }

    /** The cache holds the bytes written so far, those past 2^32 where the device does not. */
    ghost predicate Shown(off: nat, buffer: Data, written: nat)
      requires written <= |buffer|
      reads this
    {
      Pictured(table, device, off, buffer, written) && Cached(table, blockSize, off, written)
    }

    /** A turn of the loop and where it leaves the whole transfer. */
    method WriteTurnAt(off: nat, buffer: Data, written: nat, at: nat, ghost before: Data)
      returns (status: Status, count: nat)
      requires Valid() && written < |buffer| < WORD && at == off + written
      requires Progress(before, device, off, buffer, written)
      modifies this`table, this`device, this`loose, this`failures
      ensures Valid() && status != Fault && 0 < count && written + count <= |buffer|
      ensures (status == NoSys ==> !canRead) && failures == old(failures) + if status == IoError then 1 else 0
      ensures status == Done ==> at + count < WORD64 && Progress(before, device, off, buffer, written + count)
      ensures status != Done ==> Torn(before, device, off, buffer, written, blockSize)
      ensures Agrees(old(table), old(device)) && at < WORD ==> Agrees(table, device)
      ensures status == Done && old(Shown(off, buffer, written)) ==> Shown(off, buffer, written + count)
    {
      ghost var key, lo;
      status, count, key, lo := WriteNext(at, buffer, written);
      if status == Done && old(Shown(off, buffer, written)) {
        TurnPictures(old(table), old(device), blockSize, off, buffer, written, count, key, lo, table, device);
        TurnCaches(old(table), old(device), blockSize, off, buffer, written, count, key, lo, table, device);
      }
      if status == Done {
        ProgressMore(before, old(device), device, off, buffer, written, count);
      } else {
        TornBy(before, old(device), device, off, buffer, written, count, blockSize);
      }
    }

    /** The loop of IoBlockCacheWriteBuffer. */
    method WriteAll(off: nat, buffer: Data) returns (status: Status, written: nat)
      requires Valid() && off < WORD64 && |buffer| < WORD
      modifies this`table, this`device, this`loose, this`failures
      ensures Valid() && status != Fault && written <= |buffer|
      ensures (status == NoSys ==> !canRead) && failures == old(failures) + if status == IoError then 1 else 0
      ensures status == Done ==> written == |buffer| && Replaced(old(device), device, off, buffer)
      ensures status != Done ==> Torn(old(device), device, off, buffer, written, blockSize)
      ensures Agrees(old(table), old(device)) && off + |buffer| <= WORD ==> Agrees(table, device)
      ensures status == Done && Agrees(old(table), old(device)) ==>
        (Agrees(table, device) <==> CutRight(old(device), off, buffer))
    {
      var at := off;
      written := 0;
      if Agrees(table, device) {
        AgreedIsPictured(table, device, off, buffer);
      }
      ProgressEnd(device, device, off, buffer);
      while written < |buffer|
        invariant Valid() && written <= |buffer| && at == off + written < WORD64 && failures == old(failures)
        invariant Progress(old(device), device, off, buffer, written)
        invariant Agrees(old(table), old(device)) && off + |buffer| <= WORD ==> Agrees(table, device)
        invariant Agrees(old(table), old(device)) ==> Shown(off, buffer, written)
        decreases |buffer| - written
      {
        var count: nat;
        status, count := WriteTurnAt(off, buffer, written, at, old(device));
        if status != Done {
          return;
        }
        AdvancePlain(at, count);
        written := written + count;
        at := Advance(at, count);
      }
      ProgressEnd(old(device), device, off, buffer);
      if Agrees(old(table), old(device)) {
        PicturedAgreesIff(table, device, blockSize, off, buffer);
        CutIsOld(old(device), device, off, buffer);
      }
      status := Done;
    }

    /**
     IoBlockCacheWriteBuffer, with how much of the buffer reached the device. The memory check in the
     loop is of the block's own kernel address, which always passes.
     */
    method WriteBuffer(off: nat, buffer: Data) returns (status: Status, ghost written: nat)
      requires Valid() && off < WORD64 && |buffer| < WORD
      modifies this`table, this`device, this`loose, this`failures
      ensures Valid() && status != Fault
      ensures status == NoSys ==> !canRead || !canWrite
      ensures failures == old(failures) + if status == IoError then 1 else 0
      ensures buffer != [] && !canWrite ==> status == NoSys && device == old(device) && table == old(table)
      ensures written <= |buffer|
      ensures status == Done ==> written == |buffer| && Replaced(old(device), device, off, buffer)
      ensures status != Done ==> Torn(old(device), device, off, buffer, written, blockSize)
      ensures Agrees(old(table), old(device)) && off + |buffer| <= WORD ==> Agrees(table, device)
      ensures status == Done && Agrees(old(table), old(device)) ==>
        (Agrees(table, device) <==> CutRight(old(device), off, buffer))
    {
      if |buffer| == 0 {
        return Done, 0;
      }
      if !canWrite {
        ProgressEnd(device, device, off, buffer);
        TornBy(device, device, device, off, buffer, 0, 0, blockSize);
        return NoSys, 0;
      }
      status, written := WriteAll(off, buffer);
    }
  }

  /** IoBlockCacheCreate: NULL unless the block size is a power of two. */
  method CreateCache(size: nat, contents: Data, readable: bool, writable: bool) returns (cache: BlockCache?)
    requires size < WORD / 2 && |contents| < WORD64
    ensures cache == null <==> !exists k :: Pow2(k) == size
    ensures cache != null ==> cache.Valid() && cache.blockSize == size && cache.table == map[]
  {
    if size == 0 || And(size, size - 1) != 0 {
      if size > 0 {
        PowerOfTwoIff(size);
      }
      return null;
    }
    PowerOfTwoIff(size);
    SmallPower(size);
    cache := new BlockCache(size, contents, readable, writable);
  }

  lemma SmallPower(size: nat)
    requires size < WORD / 2 && exists k :: Pow2(k) == size
    ensures BlockSize(size)
  {
    var k: nat :| Pow2(k) == size;
    Pow2Values();
    if k >= 31 {
      Pow2Monotone(31, k);
    }
  }

  function Max(a: nat, b: nat): nat {
    if a < b then b else a
  }

  /** Below 2^32 a turn keeps cache and device in agreement, whether its device calls fail or not. */
  lemma TurnAgrees(table: map<nat, Block>, device: Data, size: nat, key: nat, lo: nat, at: nat, bytes: Data,
                   now: map<nat, Block>, after: Data, done: bool)
    requires BlockSize(size) && size > 0 && WellFormed(table, size) && InBlock(key, size) == 0 && lo + |bytes| <= size
    requires key + lo == at % WORD && at < WORD && Agrees(table, device) && OnlyChanged(device, after, at, |bytes|)
    requires done ==> WriteTurn(table, device, size, key, lo, at, bytes, now, after)
    requires !done ==> (now == table && after == device) || now == table - {key}
    ensures Agrees(now, after)
  {
    assert at == key + lo;
    if done {
      WriteTurnAgrees(table, device, size, key, lo, bytes, now, after);
    } else {
      FailedTurnAgrees(table, device, size, key, lo, |bytes|, after);
    }
  }
}
