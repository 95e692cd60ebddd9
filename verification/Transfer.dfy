/** Where slots lie on the device, and the loops that move a chunk to and from it. */
module Transfer {
  import opened Types

  const TWO64: int := 0x1_0000_0000_0000_0000
  const ALIGNMENT := 4096
  const READ_TRIES := 5
  const WRITE_TRIES := 8

  datatype Geometry = Geometry(zoneSize: nat, chunkSize: nat, maxChunks: nat, numZones: nat, ioSize: nat)
  {
    /** Chunks fit in their zones, and byte addresses fit in 64 bits. */
    ghost predicate Valid() {
      && 4 <= chunkSize && 1 <= ioSize
      && maxChunks * chunkSize <= zoneSize
      && zoneSize * numZones <= TWO64
    }

    predicate Has(l: Loc) {
      l.zone < numZones && l.chunk < maxChunks
    }

    /** The slot's first byte. */
    ghost function Start(l: Loc): nat {
      zoneSize * l.zone + l.chunk * chunkSize
    }
  }

  /** `CHUNK_POINTER`, in 64-bit arithmetic. */
  function ChunkPointer(g: Geometry, l: Loc): nat {
    (g.zoneSize * l.zone % TWO64 + l.chunk * g.chunkSize % TWO64) % TWO64
  }

  /** A slot ends inside its own zone. */
  lemma SlotInZone(g: Geometry, l: Loc)
    requires g.Valid() && g.Has(l)
    ensures g.zoneSize * l.zone <= g.Start(l)
    ensures g.Start(l) + g.chunkSize <= g.zoneSize * (l.zone + 1) <= g.zoneSize * g.numZones
  {
    MulMono(l.chunk + 1, g.maxChunks, g.chunkSize);
    MulMono(l.zone + 1, g.numZones, g.zoneSize);
    assert (l.chunk + 1) * g.chunkSize == l.chunk * g.chunkSize + g.chunkSize;
    assert g.zoneSize * (l.zone + 1) == g.zoneSize * l.zone + g.zoneSize;
  }

  lemma SmallMod(x: nat)
    requires x < TWO64
    ensures x % TWO64 == x
  {
  }

  /** The address arithmetic never wraps for a slot of the device: it gives the slot's first byte. */
  lemma PointerExact(g: Geometry, l: Loc)
    requires g.Valid() && g.Has(l)
    ensures ChunkPointer(g, l) == g.Start(l) == l.zone * g.zoneSize + l.chunk * g.chunkSize
    ensures ChunkPointer(g, l) == (l.zone * g.zoneSize + l.chunk * g.chunkSize) % 18446744073709551616
  {
    SlotInZone(g, l);
    var a, b := g.zoneSize * l.zone, l.chunk * g.chunkSize;
    assert a + b < TWO64;
    SmallMod(a);
    SmallMod(b);
    SmallMod(a + b);
  }

  /** Distinct slots occupy disjoint byte ranges. */
  lemma SlotsDisjoint(g: Geometry, a: Loc, b: Loc)
    requires g.Valid() && g.Has(a) && g.Has(b) && a != b
    ensures g.Start(a) + g.chunkSize <= g.Start(b) || g.Start(b) + g.chunkSize <= g.Start(a)
  {
    if a.zone != b.zone {
      var p, q := if a.zone < b.zone then a else b, if a.zone < b.zone then b else a;
      NextMultiple(p.zone, q.zone, g.zoneSize);
      NextMultiple(p.chunk, g.maxChunks, g.chunkSize);
      assert g.Start(p) + g.chunkSize <= g.zoneSize * q.zone;
    } else {
      var p, q := if a.chunk < b.chunk then a else b, if a.chunk < b.chunk then b else a;
      NextMultiple(p.chunk, q.chunk, g.chunkSize);
      assert g.Start(p) + g.chunkSize <= g.Start(q);
    }
  }

  /** A slot of another zone lies outside zone `z`'s bytes. */
  lemma SlotOutsideZone(g: Geometry, l: Loc, z: nat)
    requires g.Valid() && g.Has(l) && l.zone != z
    ensures g.Start(l) + g.chunkSize <= g.zoneSize * z || g.zoneSize * z + g.zoneSize <= g.Start(l)
  {
    if l.zone < z {
      NextMultiple(l.zone, z, g.zoneSize);
      NextMultiple(l.chunk, g.maxChunks, g.chunkSize);
    } else {
      NextMultiple(z, l.zone, g.zoneSize);
    }
  }

  /** A zone's bytes are within the device. */
  lemma ZoneInDevice(g: Geometry, z: nat)
    requires z < g.numZones
    ensures g.zoneSize * z + g.zoneSize <= g.zoneSize * g.numZones
  {
    NextMultiple(z, g.numZones, g.zoneSize);
  }

  /** The bytes with `d` written over them at `off`. */
  function Splice(b: Bytes, off: nat, d: Bytes): (r: Bytes)
    requires off + |d| <= |b|
    ensures |r| == |b| && r[off..off + |d|] == d
    ensures forall i :: 0 <= i < off || off + |d| <= i < |b| ==> r[i] == b[i]
  {
    b[..off] + d + b[off + |d|..]
  }

  /** `b` and `r` agree except within `[lo, hi)`. */
  ghost predicate SameOutside(b: Bytes, r: Bytes, lo: nat, hi: nat) {
    |r| == |b| && forall i :: 0 <= i < |b| && !(lo <= i < hi) ==> r[i] == b[i]
  }

  lemma Widen(a: Bytes, b: Bytes, r: Bytes, lo: nat, hi: nat, from: nat, to: nat)
    requires SameOutside(a, b, lo, hi) && SameOutside(b, r, from, to) && lo <= from <= to <= hi
    ensures SameOutside(a, r, lo, hi)
  {
  }

  /**
   * The block device. Its `tick`-th transfer returns `outcome(tick)`, any integer: an
   * error, a short count or the full one. A write that is not full, and a zone reset,
   * leave arbitrary bytes in their range.
   */
  class Device {
    var bytes: Bytes
    var tick: nat              // transfers so far
    var scrambles: nat         // ranges left with arbitrary bytes so far
    const outcome: nat -> int
    const noise: (nat, nat) -> Byte

    constructor (bytes: Bytes, outcome: nat -> int, noise: (nat, nat) -> Byte)
      ensures this.bytes == bytes && this.outcome == outcome && this.noise == noise && tick == 0
    {
      this.bytes, this.outcome, this.noise, tick, scrambles := bytes, outcome, noise, 0, 0;
    }

    method Scramble(off: nat, len: nat)
      requires off + len <= |bytes|
      modifies this`bytes, this`scrambles
      ensures SameOutside(old(bytes), bytes, off, off + len)
    {
      var now, left := scrambles, noise;
      var d: Bytes := seq(len, i requires 0 <= i < len => left(now, i));
      bytes := Splice(bytes, off, d);
      scrambles := scrambles + 1;
    }

    method Pwrite(d: Bytes, off: nat) returns (r: int)
      requires off + |d| <= |bytes|
      modifies this
      ensures tick == old(tick) + 1 && r == outcome(old(tick))
      ensures SameOutside(old(bytes), bytes, off, off + |d|)
      ensures r == |d| ==> bytes[off..off + |d|] == d
    {
      r := outcome(tick);
      tick := tick + 1;
      if r == |d| {
        bytes := Splice(bytes, off, d);
      } else {
        Scramble(off, |d|);
      }
    }

    method Pread(len: nat, off: nat) returns (r: int, d: Bytes)
      requires off + len <= |bytes|
      modifies this`tick
      ensures tick == old(tick) + 1 && r == outcome(old(tick))
      ensures r == len ==> d == bytes[off..off + len]
    {
      r := outcome(tick);
      d := if r == len then bytes[off..off + len] else [];
      tick := tick + 1;
    }
  }

  function Min(a: nat, b: nat): nat {
    if a < b then a else b
  }

  /** The tick after the first of `tries` attempts that moves exactly `n` bytes, if any does. */
  ghost function FirstFull(outcome: nat -> int, t: nat, n: nat, tries: nat): Option<nat>
    decreases tries
  {
    if tries == 0 then None
    else if outcome(t) == n then Some(t + 1)
    else FirstFull(outcome, t + 1, n, tries - 1)
  }

  /** The tick after moving `left` bytes in pieces of at most `size`, each tried so many times. */
  ghost function Moved(outcome: nat -> int, t: nat, left: nat, size: nat, tries: nat): Option<nat>
    requires 1 <= size
    decreases left
  {
    if left == 0 then Some(t)
    else
      match FirstFull(outcome, t, Min(left, size), tries)
      case None => None
      case Some(t') => Moved(outcome, t', left - Min(left, size), size, tries)
  }

  /** The attempt at tick `at` is the first since `from` to move exactly `n` bytes, and within the tries. */
  ghost predicate PieceMoved(outcome: nat -> int, from: nat, n: int, tries: nat, at: nat) {
    from <= at < from + tries && outcome(at) == n && forall k: nat :: from <= k < at ==> outcome(k) != n
  }

  /** `left` bytes make `n` pieces of `size`, the last one perhaps smaller. */
  ghost predicate Pieces(left: nat, size: nat, n: nat) {
    left <= n * size && (n > 0 ==> (n - 1) * size < left)
  }

  /** The size of piece `i`. */
  function PieceSize(left: nat, size: nat, i: nat): int {
    if left - i * size < size then left - i * size else size
  }

  /**
   * All `left` bytes are moved in pieces of `size`: `at` holds the tick at which each piece
   * goes through, the attempts at a piece beginning just after the piece before went through.
   */
  ghost predicate AllMoved(outcome: nat -> int, t: nat, left: nat, size: nat, tries: nat, at: seq<nat>) {
    Pieces(left, size, |at|) && forall i :: 0 <= i < |at| ==> PieceAt(outcome, t, left, size, tries, at, i)
  }

  ghost predicate PieceAt(outcome: nat -> int, t: nat, left: nat, size: nat, tries: nat, at: seq<nat>, i: nat)
    requires i < |at|
  {
    PieceMoved(outcome, if i == 0 then t else at[i - 1] + 1, PieceSize(left, size, i), tries, at[i])
  }

  lemma {:induction false} FirstFullMeaning(outcome: nat -> int, t: nat, n: nat, tries: nat, at: nat)
    ensures FirstFull(outcome, t, n, tries) == Some(at + 1) <==> PieceMoved(outcome, t, n, tries, at)
    decreases tries
  {
    if tries > 0 && outcome(t) != n {
      FirstFullMeaning(outcome, t + 1, n, tries - 1, at);
    }
  }

  lemma PieceAfter(left: nat, size: nat, i: nat)
    requires size <= left && 1 <= i
    ensures PieceSize(left, size, i) == PieceSize(left - size, size, i - 1)
  {
    assert i * size == (i - 1) * size + size;
  }

  lemma PiecesNext(left: nat, size: nat, n: nat)
    requires 1 <= size && 1 <= left
    ensures Pieces(left - Min(left, size), size, n) <==> Pieces(left, size, n + 1)
  {
    assert (n + 1) * size == n * size + size;
    if n > 0 {
      assert n * size == (n - 1) * size + size;
      MulMono(0, n - 1, size);
    }
  }

  /** One piece and then the rest. */
  lemma MovedCons(outcome: nat -> int, t: nat, left: nat, size: nat, tries: nat, first: nat, rest: seq<nat>)
    requires 1 <= size && 1 <= left && PieceMoved(outcome, t, Min(left, size), tries, first)
    requires AllMoved(outcome, first + 1, left - Min(left, size), size, tries, rest)
    ensures AllMoved(outcome, t, left, size, tries, [first] + rest)
  {
    var at := [first] + rest;
    PiecesNext(left, size, |rest|);
    forall i | 0 <= i < |at| ensures PieceAt(outcome, t, left, size, tries, at, i) {
      if i > 0 {
        assert PieceAt(outcome, first + 1, left - Min(left, size), size, tries, rest, i - 1);
        RestPiece(outcome, t, left, size, tries, at, i);
      }
    }
  }

  /** A piece after the first, seen with the first and without it. */
  lemma RestPiece(outcome: nat -> int, t: nat, left: nat, size: nat, tries: nat, at: seq<nat>, i: nat)
    requires 1 <= i < |at| && 1 <= left && Pieces(left, size, |at|)
    ensures PieceAt(outcome, t, left, size, tries, at, i)
       <==> PieceAt(outcome, at[0] + 1, left - Min(left, size), size, tries, at[1..], i - 1)
  {
    if left <= size {
      MulMono(1, |at| - 1, size);
    } else {
      PieceAfter(left, size, i);
    }
  }

  lemma MovedUncons(outcome: nat -> int, t: nat, left: nat, size: nat, tries: nat, at: seq<nat>)
    requires 1 <= size && 1 <= left && AllMoved(outcome, t, left, size, tries, at)
    ensures at != [] && PieceMoved(outcome, t, Min(left, size), tries, at[0])
    ensures AllMoved(outcome, at[0] + 1, left - Min(left, size), size, tries, at[1..])
  {
    assert |at| == 0 ==> |at| * size == 0;
    assert PieceAt(outcome, t, left, size, tries, at, 0);
    PiecesNext(left, size, |at| - 1);
    var rest, from, less := at[1..], at[0] + 1, left - Min(left, size);
    forall i | 0 <= i < |rest| ensures PieceAt(outcome, from, less, size, tries, rest, i) {
      assert PieceAt(outcome, t, left, size, tries, at, i + 1);
      RestPiece(outcome, t, left, size, tries, at, i + 1);
    }
  }

  /** `Moved` succeeds exactly when there are such ticks. */
  lemma {:induction false} MovedMeaning(outcome: nat -> int, t: nat, left: nat, size: nat, tries: nat)
    requires 1 <= size
    ensures Moved(outcome, t, left, size, tries).Some? <==> exists at :: AllMoved(outcome, t, left, size, tries, at)
    decreases left
  {
    if left == 0 {
      assert AllMoved(outcome, t, 0, size, tries, []);
    } else {
      var n := Min(left, size);
      var next := FirstFull(outcome, t, n, tries);
      if next.Some? {
        FirstFullLater(outcome, t, n, tries);
        FirstFullMeaning(outcome, t, n, tries, next.value - 1);
        var from, less := next.value, left - n;
        MovedMeaning(outcome, from, less, size, tries);
        if rest :| AllMoved(outcome, from, less, size, tries, rest) {
          MovedCons(outcome, t, left, size, tries, next.value - 1, rest);
        }
      }
      if at :| AllMoved(outcome, t, left, size, tries, at) {
        MovedUncons(outcome, t, left, size, tries, at);
        FirstFullMeaning(outcome, t, n, tries, at[0]);
      }
    }
  }

  lemma {:induction false} FirstFullLater(outcome: nat -> int, t: nat, n: nat, tries: nat)
    ensures FirstFull(outcome, t, n, tries).Some? ==> FirstFull(outcome, t, n, tries).value > t
    decreases tries
  {
    if tries > 0 && outcome(t) != n {
      FirstFullLater(outcome, t + 1, n, tries - 1);
    }
  }

  /** The retry loop of `zn_write_out`: one piece, tried up to `tries` times. */
  method WritePiece(dev: Device, piece: Bytes, off: nat, tries: nat) returns (ok: bool)
    requires 1 <= tries && off + |piece| <= |dev.bytes|
    modifies dev
    ensures SameOutside(old(dev.bytes), dev.bytes, off, off + |piece|)
    ensures ok ==> dev.bytes[off..off + |piece|] == piece
    ensures FirstFull(dev.outcome, old(dev.tick), |piece|, tries) == if ok then Some(dev.tick) else None
  {
    var attempts := 0;
    while true
      invariant attempts < tries
      invariant SameOutside(old(dev.bytes), dev.bytes, off, off + |piece|)
      invariant FirstFull(dev.outcome, dev.tick, |piece|, tries - attempts)
             == FirstFull(dev.outcome, old(dev.tick), |piece|, tries)
      decreases tries - attempts
    {
      var r := dev.Pwrite(piece, off);
      if r == |piece| {
        return true;
      }
      attempts := attempts + 1;
      if attempts >= tries {
        return false;
      }
    }
  }

  /** The first `n` bytes of the buffer are on the device at `wp`. */
  ghost predicate Stored(b: Bytes, wp: nat, buffer: Bytes, n: nat) {
    wp + n <= |b| && n <= |buffer| && forall i :: 0 <= i < n ==> b[wp + i] == buffer[i]
  }

  lemma PieceAppended(b: Bytes, r: Bytes, buffer: Bytes, wp: nat, total: nat, n: nat)
    requires Stored(b, wp, buffer, total) && wp + total + n <= |b| && total + n <= |buffer|
    requires SameOutside(b, r, wp + total, wp + total + n)
    requires r[wp + total..wp + total + n] == buffer[total..total + n]
    ensures Stored(r, wp, buffer, total + n)
  {
    forall i | total <= i < total + n ensures r[wp + i] == buffer[i] {
      assert r[wp + total..wp + total + n][i - total] == buffer[total..total + n][i - total];
    }
  }

  /** The outer loop of `zn_write_out`, piece by piece. */
  method WriteAll(dev: Device, toWrite: nat, buffer: Bytes, writeSize: nat, wp: nat, tries: nat) returns (ret: int)
    requires 1 <= tries && 1 <= writeSize && toWrite <= |buffer| && wp + toWrite <= |dev.bytes|
    modifies dev
    ensures ret in {0, -1}
    ensures ret == 0 <==> Moved(dev.outcome, old(dev.tick), toWrite, writeSize, tries).Some?
    ensures SameOutside(old(dev.bytes), dev.bytes, wp, wp + toWrite)
    ensures ret == 0 ==> dev.bytes[wp..wp + toWrite] == buffer[..toWrite]
  {
    ghost var goal := Moved(dev.outcome, dev.tick, toWrite, writeSize, tries);
    var total := 0;
    while total < toWrite
      invariant total <= toWrite
      invariant SameOutside(old(dev.bytes), dev.bytes, wp, wp + toWrite)
      invariant Stored(dev.bytes, wp, buffer, total)
      invariant Moved(dev.outcome, dev.tick, toWrite - total, writeSize, tries) == goal
    {
      var n := Min(toWrite - total, writeSize);
      ghost var before := dev.bytes;
      var ok := WritePiece(dev, buffer[total..total + n], wp + total, tries);
      Widen(old(dev.bytes), before, dev.bytes, wp, wp + toWrite, wp + total, wp + total + n);
      if !ok {
        return -1;
      }
      PieceAppended(before, dev.bytes, buffer, wp, total, n);
      total := total + n;
    }
    assert dev.bytes[wp..wp + toWrite] == buffer[..toWrite];
    return 0;
  }

  /**
   * `zn_write_out`: returns 0 exactly when every piece went through within its eight tries,
   * and then the buffer is on the device; either way only the target range was touched.
   */
  method WriteOut(dev: Device, toWrite: nat, buffer: Bytes, writeSize: nat, wp: nat) returns (ret: int)
    requires 1 <= writeSize && toWrite <= |buffer| && wp + toWrite <= |dev.bytes|
    modifies dev
    ensures ret in {0, -1}
    ensures ret == 0 <==> exists at :: AllMoved(dev.outcome, old(dev.tick), toWrite, writeSize, 8, at)
    ensures ret == 0 <==> Moved(dev.outcome, old(dev.tick), toWrite, writeSize, WRITE_TRIES).Some?
    ensures SameOutside(old(dev.bytes), dev.bytes, wp, wp + toWrite)
    ensures ret == 0 ==> dev.bytes[wp..wp + toWrite] == buffer[..toWrite]
  {
    MovedMeaning(dev.outcome, dev.tick, toWrite, writeSize, WRITE_TRIES);
    ret := WriteAll(dev, toWrite, buffer, writeSize, wp, WRITE_TRIES);
  }

  /** `zn_read_from_disk`'s alignment checks for direct I/O. */
  predicate Aligned(g: Geometry, l: Loc) {
    g.chunkSize % ALIGNMENT == 0 && g.ioSize % ALIGNMENT == 0 && ChunkPointer(g, l) % ALIGNMENT == 0
  }

  /** The retry loop of `zn_read_from_disk`: one piece, tried up to `tries` times. */
  method ReadPiece(dev: Device, n: nat, off: nat, tries: nat) returns (piece: Option<Bytes>)
    requires 1 <= tries && off + n <= |dev.bytes|
    modifies dev`tick
    ensures piece.Some? ==> piece.value == dev.bytes[off..off + n]
    ensures FirstFull(dev.outcome, old(dev.tick), n, tries) == if piece.Some? then Some(dev.tick) else None
  {
    var attempts := 0;
    while true
      invariant attempts < tries
      invariant FirstFull(dev.outcome, dev.tick, n, tries - attempts)
             == FirstFull(dev.outcome, old(dev.tick), n, tries)
      decreases tries - attempts
    {
      var r, d := dev.Pread(n, off);
      if r == n {
        return Some(d);
      }
      attempts := attempts + 1;
      if attempts >= tries {
        return None;
      }
    }
  }

  /** The outer loop of `zn_read_from_disk`, piece by piece. */
  method ReadAll(dev: Device, toRead: nat, readSize: nat, wp: nat, tries: nat) returns (data: Option<Bytes>)
    requires 1 <= tries && 1 <= readSize && wp + toRead <= |dev.bytes|
    modifies dev`tick
    ensures data.Some? <==> Moved(dev.outcome, old(dev.tick), toRead, readSize, tries).Some?
    ensures data.Some? ==> data.value == dev.bytes[wp..wp + toRead]
  {
    var buffer: Bytes := [];
    ghost var goal := Moved(dev.outcome, dev.tick, toRead, readSize, tries);
    while |buffer| < toRead
      invariant |buffer| <= toRead
      invariant buffer == dev.bytes[wp..wp + |buffer|]
      invariant Moved(dev.outcome, dev.tick, toRead - |buffer|, readSize, tries) == goal
    {
      var n := Min(toRead - |buffer|, readSize);
      var piece := ReadPiece(dev, n, wp + |buffer|, tries);
      if piece.None? {
        return None;
      }
      assert dev.bytes[wp..wp + |buffer| + n] == buffer + piece.value;
      buffer := buffer + piece.value;
    }
    return Some(buffer);
  }

  /**
   * `zn_read_from_disk`: a buffer exactly when sizes are aligned and every piece was read
   * within its five tries, and then it is the slot's content.
   */
  method ReadFromDisk(dev: Device, g: Geometry, l: Loc) returns (data: Option<Bytes>)
    requires g.Valid() && g.Has(l) && |dev.bytes| == g.zoneSize * g.numZones
    modifies dev`tick
    ensures data.Some? <==>
            && g.chunkSize % 4096 == g.ioSize % 4096 == 0 && (l.zone * g.zoneSize + l.chunk * g.chunkSize) % 4096 == 0
            && exists at :: AllMoved(dev.outcome, old(dev.tick), g.chunkSize, g.ioSize, 5, at)
    ensures data.Some? <==>
            Aligned(g, l) && Moved(dev.outcome, old(dev.tick), g.chunkSize, g.ioSize, READ_TRIES).Some?
    ensures g.Start(l) + g.chunkSize <= |dev.bytes|
    ensures data.Some? ==> data.value == dev.bytes[g.Start(l)..g.Start(l) + g.chunkSize]
  {
    SlotInZone(g, l);
    PointerExact(g, l);
    MovedMeaning(dev.outcome, dev.tick, g.chunkSize, g.ioSize, READ_TRIES);
    if g.chunkSize % ALIGNMENT != 0 || g.ioSize % ALIGNMENT != 0 {
      return None;
    }
    var wp := ChunkPointer(g, l);
    if wp % ALIGNMENT != 0 {
      return None;
    }
    data := ReadAll(dev, g.chunkSize, g.ioSize, wp, READ_TRIES);
  }

  /** Round trip: what a successful write put in a slot, a successful read gets back. */
  method WriteThenRead(dev: Device, g: Geometry, l: Loc, data: Bytes) returns (ret: int, back: Option<Bytes>)
    requires g.Valid() && g.Has(l) && |dev.bytes| == g.zoneSize * g.numZones && |data| == g.chunkSize
    modifies dev
    ensures ret == 0 && back.Some? ==> back.value == data
    ensures SameOutside(old(dev.bytes), dev.bytes, g.Start(l), g.Start(l) + g.chunkSize)
  {
    SlotInZone(g, l);
    PointerExact(g, l);
    ret := WriteOut(dev, g.chunkSize, data, g.ioSize, ChunkPointer(g, l));
    back := ReadFromDisk(dev, g, l);
    assert data[..g.chunkSize] == data;
  }
}
