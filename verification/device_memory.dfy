/** The buffer manager behind the loader, and the reader it loads from. */
module DeviceMemory {
  import opened Bytes
  import opened Errors
  import opened Options
  import opened ElfCodec
  import opened LoaderModel
  import opened LoaderFacts

  /** The contract the loader has with the driver: allocations are new regions of the exact size with unspecified
      contents, and a buffer's lock counter, 0 when it is created, may only go from 0 to 1 and back. The counter is
      1 for the regions in `locked`; a buffer is written only while it is locked. */
  class BufferManager {
    var mem: Memory
    var locked: set<nat>
    var next: nat

    ghost predicate Valid()
      reads this
    {
      BLOB in mem && locked <= mem.Keys && forall r :: r in mem ==> r < next
    }

    constructor (blob: seq<byte>)
      ensures Valid() && mem == map[BLOB := blob] && locked == {}
    {
      mem := map[BLOB := blob];
      locked := {};
      next := BLOB + 1;
    }

    /** A new region, or no buffer at all when the driver may share scratch buffers and does. */
    method Allocate(size: nat, mayBeEmpty: bool) returns (b: DeviceBuffer)
      requires Valid()
      modifies this
      ensures Valid() && locked == old(locked)
      ensures b.cpu.None? ==> mayBeEmpty && mem == old(mem)
      ensures b.cpu.Some? ==>
        b.size == size && b.cpu.value.region !in old(mem) && WholeRegion(mem, b) &&
        mem == old(mem)[b.cpu.value.region := mem[b.cpu.value.region]]
    {
      var vpu: bv64 := *;
      var empty: bool := *;
      if mayBeEmpty && empty {
        b := DeviceBuffer(None, vpu, size);
      } else {
        assert |seq(size, _ => 0 as byte)| == size;
        var contents: seq<byte> :| |contents| == size;
        b := DeviceBuffer(Some(Location(next, 0)), vpu, size);
        mem := mem[next := contents];
        next := next + 1;
      }
    }

    method Lock(b: DeviceBuffer)
      requires Valid() && b.cpu.Some? && b.cpu.value.region in mem
      requires b.cpu.value.region !in locked
      modifies this`locked
      ensures Valid() && locked == old(locked) + {b.cpu.value.region}
    {
      locked := locked + {b.cpu.value.region};
    }

    method Unlock(b: DeviceBuffer)
      requires Valid() && b.cpu.Some? && b.cpu.value.region in locked
      modifies this`locked
      ensures Valid() && locked == old(locked) - {b.cpu.value.region}
    {
      locked := locked - {b.cpu.value.region};
    }

    /** Writes bytes at an offset of a locked buffer. */
    method Write(b: DeviceBuffer, at: nat, bytes: seq<byte>)
      requires Valid() && WholeRegion(mem, b) && at + |bytes| <= b.size && b.cpu.value.region in locked
      modifies this`mem
      ensures Valid() && mem == old(mem)[b.cpu.value.region := Splice(old(mem)[b.cpu.value.region], at, bytes)]
    {
      var r := b.cpu.value.region;
      mem := mem[r := Splice(mem[r], at, bytes)];
    }

    /** Locks, overwrites the whole buffer, unlocks. */
    method LoadWithLock(b: DeviceBuffer, bytes: seq<byte>)
      requires Valid() && WholeRegion(mem, b) && |bytes| == b.size && b.cpu.value.region !in locked
      modifies this
      ensures Valid() && locked == old(locked) && mem == old(mem)[b.cpu.value.region := bytes]
    {
      Lock(b);
      Write(b, 0, bytes);
      Unlock(b);
      assert Splice(old(mem)[b.cpu.value.region], 0, bytes) == bytes;
    }
  }

  /** A buffer as the reader hands it out. */
  datatype ReadBuffer = ReadBuffer(buffer: DeviceBuffer, managed: bool)

  /** The reader that all clones of a loader share: it keeps the sections it has read, each in a buffer, and counts how
      often it had to go to the access manager. */
  class Reader {
    const elf: Elf
    var cache: Cache
    var accesses: nat

    constructor (elf: Elf)
      ensures this.elf == elf && cache == map[] && accesses == 0
    {
      this.elf := elf;
      cache := map[];
      accesses := 0;
    }

    /** Makes a section's data available, from the cache if it was read before. */
    method GetData(mgr: BufferManager, i: nat) returns (status: Status)
      requires i < |elf.headers| && mgr.Valid() && mgr.mem[BLOB] == elf.blob && CacheOk(elf, mgr.mem, cache)
      modifies this, mgr
      ensures mgr.Valid() && mgr.locked == old(mgr.locked) && Extends(old(mgr.mem), mgr.mem)
      ensures CacheOk(elf, mgr.mem, cache) && CacheGrows(old(mgr.mem), old(cache), cache)
      ensures status == elf.ReadStatus(i)
      ensures cache.Keys == if status.Ok? then old(cache).Keys + {i} else old(cache).Keys
      ensures i in old(cache) ==> accesses == old(accesses) && cache == old(cache) && mgr.mem == old(mgr.mem)
    {
      if i in cache {
        assert CachedRight(elf, mgr.mem, i, cache[i]);
        return Ok;
      }
      hide CacheOk, CacheGrows;
      var found;
      status, found := GetDataBuffer(mgr, i);
      if status.Ok? {
        NewInCache(elf, old(mgr.mem), mgr.mem, cache, i, found.buffer);
        cache := cache[i := found.buffer];
      } else {
        NothingCached(mgr.mem, cache);
      }
    }

    /** Entry k of a table that was read, from the buffer that holds it. */
    function Entry(mem: Memory, i: nat, k: nat): (bs: seq<byte>)
      requires i in cache && CachedRight(elf, mem, i, cache[i]) && elf.HasEntry(i, k)
      reads this
      ensures bs == elf.EntryBytes(i, k)
    {
      BytesOf(mem, cache[i])[k * ENTRY_SIZE..k * ENTRY_SIZE + ENTRY_SIZE]
    }

    /** A buffer with a section's bytes: in place inside the file when its address allows that, else a copy. */
    method GetDataBuffer(mgr: BufferManager, i: nat) returns (status: Status, r: ReadBuffer)
      requires i < |elf.headers| && mgr.Valid() && mgr.mem[BLOB] == elf.blob
      modifies this`accesses, mgr
      ensures mgr.Valid() && mgr.locked == old(mgr.locked)
      ensures status == elf.ReadStatus(i)
      ensures status.Err? ==> mgr.mem == old(mgr.mem)
      ensures status.Ok? ==> elf.InBlob(i) && Placed(mgr.mem, r.buffer) && BytesOf(mgr.mem, r.buffer) == elf.Pristine(i)
      ensures status.Ok? ==> r.buffer.size == elf.headers[i].size && Extends(old(mgr.mem), mgr.mem)
      ensures status.Ok? ==>
        var region := r.buffer.cpu.value.region;
        mgr.mem.Keys == old(mgr.mem.Keys) + {region} &&
        ((region == BLOB && !r.managed) || region !in old(mgr.mem))
    {
      accesses := accesses + 1;
      r := ReadBuffer(NO_BUFFER, false);
      var h := elf.headers[i];
      status := elf.ReadStatus(i);
      if status.Err? {
        return status, r;
      }
      var emplace: bool := *;
      if emplace {
        var vpu: bv64 := *;
        r := ReadBuffer(DeviceBuffer(Some(Location(BLOB, h.offset)), vpu, h.size), false);
      } else {
        var managed: bool := *;
        var b := mgr.Allocate(h.size, false);
        mgr.LoadWithLock(b, elf.Pristine(i));
        r := ReadBuffer(b, managed);
      }
    }
  }
}
