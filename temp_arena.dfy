/** The temporary bump allocator of cbuild.h (`cbuild_temp_*`): a static
    buffer of CBUILD_TEMP_ARENA_SIZE bytes and the count of bytes used. An
    allocation is an offset into the buffer. */
module TempArenas {
  import opened Wrappers
  import opened Bytes

  /** CBUILD_TEMP_ARENA_SIZE: 8 MiB. */
  const TEMP_ARENA_SIZE: nat := 8 * 1024 * 1024

  class TempArena {
    /** `__cbuild_int_temp` */
    const mem: array<Byte>
    /** `__cbuild_int_temp_size` */
    var used: nat

    ghost predicate Valid()
      reads this
    {
      mem.Length == TEMP_ARENA_SIZE && used <= TEMP_ARENA_SIZE
    }

    constructor ()
      ensures Valid() && used == 0 && fresh(mem)
    {
      mem := new Byte[TEMP_ARENA_SIZE];
      used := 0;
    }

    /** `cbuild_temp_alloc`: NULL when fewer than `size` bytes are left;
        otherwise the next `size` bytes. */
    method Alloc(size: nat) returns (r: Option<nat>)
      requires Valid()
      modifies this`used
      ensures Valid()
      ensures r.None? <==> size > TEMP_ARENA_SIZE - old(used)
      ensures r.None? ==> used == old(used)
      ensures r.Some? ==> r.value == old(used) && used == old(used) + size
    {
      if size > TEMP_ARENA_SIZE - used {
        return None;
      }
      r := Some(used);
      used := used + size;
    }

    /** `cbuild_temp_memdup`: a copy of `m` in fresh arena bytes. */
    method MemDup(m: Bytes) returns (r: Option<nat>)
      requires Valid()
      modifies this`used, mem
      ensures Valid()
      ensures r.None? <==> |m| > TEMP_ARENA_SIZE - old(used)
      ensures r.None? ==> used == old(used) && mem[..] == old(mem[..])
      ensures r.Some? ==> (r.value == old(used) && used == old(used) + |m|
                           && mem[r.value..used] == m
                           && mem[..r.value] == old(mem[..r.value]) && mem[used..] == old(mem[..])[used..])
    {
      r := Alloc(|m|);
      if r.Some? {
        var off := r.value;
        ghost var before := mem[..];
        forall i | 0 <= i < |m| {
          mem[off + i] := m[i];
        }
        assert forall i | 0 <= i < |m| :: mem[off..used][i] == m[i];
        assert forall j | 0 <= j < off :: mem[..off][j] == before[j];
        assert forall j | used <= j < mem.Length :: mem[used..][j - used] == before[j];
      }
    }

    /** `cbuild_temp_strdup`: the string and its terminating NUL. */
    method StrDup(s: Bytes) returns (r: Option<nat>)
      requires Valid() && '\0' !in s
      modifies this`used, mem
      ensures Valid()
      ensures r.None? <==> |s| + 1 > TEMP_ARENA_SIZE - old(used)
      ensures r.None? ==> used == old(used) && mem[..] == old(mem[..])
      ensures r.Some? ==> (r.value == old(used) && used == old(used) + |s| + 1
                           && mem[r.value..used] == s + ['\0']
                           && mem[..r.value] == old(mem[..r.value]) && mem[used..] == old(mem[..])[used..])
    {
      r := MemDup(s + ['\0']);
    }

    /** `cbuild_temp_checkpoint`. */
    function Checkpoint(): (cp: nat)
      reads this
      requires Valid()
      ensures cp <= TEMP_ARENA_SIZE
    {
      used
    }

    /** `cbuild_temp_reset`: back to a checkpoint (or 0); everything
        allocated after it is free again. */
    method Reset(cp: nat)
      requires Valid() && cp <= TEMP_ARENA_SIZE
      modifies this`used
      ensures Valid() && used == cp
    {
      used := cp;
    }
  }

  /** After a checkpoint, an allocation and a reset to the checkpoint, the
      same request is served at the same offset again. */
  method ResetReuses(a: TempArena, size: nat) returns (first: Option<nat>, second: Option<nat>)
    requires a.Valid()
    modifies a
    ensures a.Valid() && first == second
    ensures first.Some? <==> size <= TEMP_ARENA_SIZE - old(a.used)
  {
    var cp := a.Checkpoint();
    first := a.Alloc(size);
    a.Reset(cp);
    second := a.Alloc(size);
  }
}
