/** Writing a firmware image in pieces (fs/ota.c). */
module Ota {
  import opened Basics
  import opened Bytes
  import opened Crc32

  type Flash = map<int, byte>

  /** hal_storage_write: consecutive bytes from `off`. */
  function StoreAt(m: Flash, off: int, d: seq<byte>): Flash
    decreases |d|
  {
    if d == [] then m else StoreAt(m[off := d[0]], off + 1, d[1..])
  }

  lemma {:induction false} StoreConcat(m: Flash, off: int, a: seq<byte>, b: seq<byte>)
    ensures StoreAt(m, off, a + b) == StoreAt(StoreAt(m, off, a), off + |a|, b)
    decreases |a|
  {
    if a == [] {
      assert a + b == b;
    } else {
      assert (a + b)[1..] == a[1..] + b;
      StoreConcat(m[off := a[0]], off + 1, a[1..], b);
    }
  }

  /** What was stored can be read back, and nothing else has changed. */
  lemma {:induction false} StoreReads(m: Flash, off: int, d: seq<byte>, k: int)
    ensures var r := StoreAt(m, off, d);
            if off <= k < off + |d| then k in r && r[k] == d[k - off]
            else (k in r <==> k in m) && (k in m ==> r[k] == m[k])
    decreases |d|
  {
    if d != [] { StoreReads(m[off := d[0]], off + 1, d[1..], k); }
  }

  const PARTITIONS := 3

  datatype Progress = Progress(offset: nat, expected: nat, written: nat, crc: bv32, flash: Flash)

  /** ota_begin */
  function Begin(flash: Flash, partition: nat, expected: nat): (r: Option<Progress>)
    ensures r.Some? <==> partition < PARTITIONS
    ensures r.Some? ==> Written(r.value, flash, [])
  {
    if partition >= PARTITIONS then None
    else Some(Progress(0x10000 + partition * 0x100000, expected, 0, 0, flash))
  }

  /** The part of a piece that still fits. */
  function Clip(u: Progress, data: seq<byte>): (d: seq<byte>)
    requires u.written <= u.expected
    ensures u.written + |d| <= u.expected && d <= data
    ensures u.written + |data| <= u.expected ==> d == data
    ensures u.written + |data| > u.expected ==> u.written + |d| == u.expected
  {
    if u.written + |data| > u.expected then data[..u.expected - u.written] else data
  }

  /** ota_write; `ok` says that the storage accepted the bytes. */
  function Write(u: Progress, data: seq<byte>, ok: bool): (r: Progress)
    requires u.written <= u.expected
    ensures r.written <= r.expected
  {
    if data == [] || !ok then u
    else
      var d := Clip(u, data);
      u.(flash := StoreAt(u.flash, u.offset + u.written, d), crc := Crc32.Update(u.crc, d), written := u.written + |d|)
  }

  /** `u` is what writing `image` to the flash contents `flash` leaves: the bytes, their number and their checksum. */
  ghost predicate Written(u: Progress, flash: Flash, image: seq<byte>) {
    && |image| == u.written <= u.expected && u.crc == Crc32.Update(0, image)
    && u.flash == StoreAt(flash, u.offset, image)
  }

  /** One accepted piece extends the image written so far. */
  lemma WriteExtends(u: Progress, flash: Flash, image: seq<byte>, data: seq<byte>, ok: bool)
    requires Written(u, flash, image)
    ensures Written(Write(u, data, ok), flash, if data == [] || !ok then image else image + Clip(u, data))
  {
    hide Crc32.Update;
    if data != [] && ok {
      var d := Clip(u, data);
      UpdateConcat(0, image, d);
      StoreConcat(flash, u.offset, image, d);
    }
  }

  datatype Attempt = Attempt(data: seq<byte>, ok: bool)

  function WriteAll(u: Progress, calls: seq<Attempt>): (r: Progress)
    requires u.written <= u.expected
    ensures r.written <= r.expected
    decreases |calls|
  {
    if calls == [] then u else WriteAll(Write(u, calls[0].data, calls[0].ok), calls[1..])
  }

  /** The bytes of the calls the storage accepted, in order. */
  function Accepted(calls: seq<Attempt>): seq<byte>
    decreases |calls|
  {
    if calls == [] then [] else (if calls[0].ok then calls[0].data else []) + Accepted(calls[1..])
  }

  function Take(s: seq<byte>, n: nat): (r: seq<byte>)
    ensures |r| <= n && r <= s
  {
    if |s| <= n then s else s[..n]
  }

  lemma TakeStep(image: seq<byte>, data: seq<byte>, rest: seq<byte>, n: nat)
    requires |image| <= n
    ensures var d := if |image| + |data| > n then data[..n - |image|] else data;
            Take(image + (data + rest), n) == Take(image + d + rest, n)
  {
    var d := if |image| + |data| > n then data[..n - |image|] else data;
    if |image| + |data| > n {
      assert (image + (data + rest))[..n] == image + d;
      assert (image + d + rest)[..n] == image + d;
    } else {
      assert image + (data + rest) == image + d + rest;
    }
  }

  lemma {:induction false} WriteAllExtends(u: Progress, flash: Flash, image: seq<byte>, calls: seq<Attempt>)
    requires Written(u, flash, image)
    ensures Written(WriteAll(u, calls), flash, Take(image + Accepted(calls), u.expected))
    decreases |calls|
  {
    hide Written;
    if calls == [] {
      WrittenFits(u, flash, image);
      assert image + [] == image;
    } else {
      WrittenFits(u, flash, image);
      var c := calls[0];
      WriteExtends(u, flash, image, c.data, c.ok);
      var now := if c.data == [] || !c.ok then image else image + Clip(u, c.data);
      WriteAllExtends(Write(u, c.data, c.ok), flash, now, calls[1..]);
      if c.ok && c.data != [] {
        TakeStep(image, c.data, Accepted(calls[1..]), u.expected);
      } else {
        assert Accepted(calls) == Accepted(calls[1..]);
      }
    }
  }

  lemma WrittenFits(u: Progress, flash: Flash, image: seq<byte>)
    requires Written(u, flash, image)
    ensures |image| == u.written <= u.expected
  {
  }

  /**
   * However an image is cut into calls, and whichever calls fail, the flash, the byte count and the checksum are
   * those of the accepted bytes, cut off at the expected size.
   */
  lemma ImageWritten(flash: Flash, partition: nat, expected: nat, calls: seq<Attempt>)
    requires partition < PARTITIONS
    ensures Written(WriteAll(Begin(flash, partition, expected).value, calls), flash, Take(Accepted(calls), expected))
  {
    hide Written;
    WriteAllExtends(Begin(flash, partition, expected).value, flash, [], calls);
    assert [] + Accepted(calls) == Accepted(calls);
  }

  lemma {:induction false} OffsetKept(u: Progress, calls: seq<Attempt>)
    requires u.written <= u.expected
    ensures WriteAll(u, calls).offset == u.offset && WriteAll(u, calls).expected == u.expected
    decreases |calls|
  {
    if calls != [] { OffsetKept(Write(u, calls[0].data, calls[0].ok), calls[1..]); }
  }

  /** Two ways of cutting up the same bytes leave the same state. */
  lemma ChunkingIrrelevant(flash: Flash, partition: nat, expected: nat, a: seq<Attempt>, b: seq<Attempt>)
    requires partition < PARTITIONS && Accepted(a) == Accepted(b)
    ensures var u := Begin(flash, partition, expected).value; WriteAll(u, a) == WriteAll(u, b)
  {
    var u := Begin(flash, partition, expected).value;
    ImageWritten(flash, partition, expected, a);
    ImageWritten(flash, partition, expected, b);
    OffsetKept(u, a);
    OffsetKept(u, b);
    hide WriteAll, Crc32.Update, StoreAt;
  }

  /** The handle as the calls update it; the storage driver's verdict is an argument. */
  class Handle {
    const table: Table
    const offset: nat
    const expected: nat
    var written: nat
    var crc: bv32
    var flash: Flash

    ghost function State(): Progress
      reads this
    {
      Progress(offset, expected, written, crc, flash)
    }

    ghost predicate Valid()
      reads this, table, table.entries
    {
      table.Valid() && written <= expected
    }

    constructor (storage: Flash, partition: nat, size: nat)
      requires partition < PARTITIONS
      ensures Valid() && State() == Begin(storage, partition, size).value && fresh(table) && fresh(table.entries)
    {
      table := new Table();
      offset, expected, written, crc, flash := 0x10000 + partition * 0x100000, size, 0, 0, storage;
    }

    /** ota_write; the result is negative when nothing was written. */
    method WritePiece(data: seq<byte>, ok: bool) returns (rc: int)
      requires Valid()
      modifies this, table, table.entries
      ensures Valid() && State() == Write(old(State()), data, ok)
      ensures rc == if data == [] || !ok then -1 else |Clip(old(State()), data)|
    {
      hide Crc32.Update, StoreAt;
      if |data| == 0 { return -1; }
      var size := |data|;
      if written + size > expected { size := expected - written; }
      if !ok { return -1; }
      flash := StoreAt(flash, offset + written, data[..size]);
      crc := table.UpdateWith(crc, data[..size]);
      assert data[..|data|] == data;
      written := written + size;
      return size;
    }
  }
}
