/** The block cache all tables share (sstable/src/cache.rs, `gen_cache_key` in sstable/src/table_reader.rs). */
module Caches {
  import opened Bytes
  import opened Coding

  /** The 16-byte key of a block: cache id of its table, offset in its file. */
  function CacheKey(id: nat, offset: nat): seq<byte> {
    EncodeFixed64(id) + EncodeFixed64(offset)
  }

  /** Different tables or different offsets never share a key. */
  lemma CacheKeyInjective(id: nat, off: nat, id': nat, off': nat)
    requires id < TWO64 && off < TWO64 && id' < TWO64 && off' < TWO64
    requires CacheKey(id, off) == CacheKey(id', off')
    ensures id == id' && off == off'
  {
    hide EncodeFixed64;
    assert CacheKey(id, off)[..8] == EncodeFixed64(id) && CacheKey(id, off)[8..] == EncodeFixed64(off);
    assert CacheKey(id', off')[..8] == EncodeFixed64(id') && CacheKey(id', off')[8..] == EncodeFixed64(off');
    Fixed64Injective(id, id');
    Fixed64Injective(off, off');
  }

  /** What the blocks of a table are, by offset. */
  type Directory = map<nat, seq<byte>>

  /** The tables known before are still known. */
  ghost predicate Extends(dirs: map<nat, Directory>, more: map<nat, Directory>) {
    forall i :: i in dirs ==> i in more && more[i] == dirs[i]
  }

  ghost predicate Holds(dirs: map<nat, Directory>, key: seq<byte>, block: seq<byte>) {
    exists id, off :: id in dirs && off in dirs[id] && off < TWO64 && key == CacheKey(id, off) && block == dirs[id][off]
  }

  class Cache {
    var inner: map<seq<byte>, seq<byte>>
    var id: nat
    /** The directory of every table that was opened, by cache id. */
    ghost var dirs: map<nat, Directory>

    ghost predicate Valid()
      reads this
    {
      && id < TWO64
      && (forall i :: i in dirs ==> 0 < i <= id)
      && (forall key :: key in inner ==> Holds(dirs, key, inner[key]))
    }

    constructor ()
      ensures Valid() && dirs == map[] && inner == map[] && id == 0
    {
      inner, id := map[], 0;
      dirs := map[];
    }

    /** A cache id no other table has. */
    method NewCacheId(ghost dir: Directory) returns (r: nat)
      requires Valid() && id + 1 < TWO64
      modifies this
      ensures Valid() && inner == old(inner) && id == old(id) + 1
      ensures r !in old(dirs) && r < TWO64 && dirs == old(dirs)[r := dir]
    {
      id := id + 1;
      r := id;
      dirs := dirs[r := dir];
      forall key | key in inner ensures Holds(dirs, key, inner[key]) {
        var i, off :| i in old(dirs) && off in old(dirs)[i] && off < TWO64 && key == CacheKey(i, off) &&
            inner[key] == old(dirs)[i][off];
        assert i in dirs && dirs[i] == old(dirs)[i];
      }
    }

    /** Stores a block; the cache may drop any other blocks to make room. */
    method Insert(key: seq<byte>, block: seq<byte>)
      requires Valid() && Holds(dirs, key, block)
      modifies `inner
      ensures Valid() && key in inner && inner[key] == block
      ensures forall k :: k in inner && k != key ==> k in old(inner) && inner[k] == old(inner)[k]
    {
      var kept: set<seq<byte>> :| kept <= inner.Keys;
      inner := (map k | k in inner && k in kept :: inner[k])[key := block];
    }

    method Get(key: seq<byte>) returns (r: Option<seq<byte>>)
      requires Valid()
      ensures r == if key in inner then Some(inner[key]) else None
      ensures r.Some? ==> Holds(dirs, key, r.value)
    {
      if key in inner {
        r := Some(inner[key]);
      } else {
        r := None;
      }
    }
  }
}
