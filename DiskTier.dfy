/**
 * The disk tier: a DiskLruCache seen as a map from entry key to the bytes of
 * its single value slot. `delete()` closes the cache and removes its files;
 * DiskLruCache refuses every later get, edit or remove on a closed cache
 * (IllegalStateException). Those operations require an open store here;
 * ImageCache checks the store first and reports the exception as escaped.
 */
module DiskTier {
  import opened Wrappers
  import opened Graphics

  datatype DiskStore = DiskStore(
    directory: string,
    appVersion: int,
    valueCount: int,
    maxSize: int,
    entries: map<string, Bytes>,
    closed: bool)
  {
    /** `get(key)`: the snapshot's stream contents, or null when there is no entry. */
    function Get(key: string): (r: Option<Bytes>)
      requires !closed
      ensures r.Some? <==> key in entries
      ensures r.Some? ==> r.value == entries[key]
    {
      if key in entries then Some(entries[key]) else None
    }

    /** `edit(key)`, write, `commit()`: the entry now holds `bytes`, nothing else changes. */
    function Commit(key: string, bytes: Bytes): (r: DiskStore)
      requires !closed
      ensures !r.closed && r.Get(key) == Some(bytes)
      ensures forall k :: k != key ==> r.Get(k) == Get(k)
      ensures r.entries.Keys == entries.Keys + {key}
    {
      this.(entries := entries[key := bytes])
    }

    /** `remove(key)`: the entry is gone, nothing else changes. */
    function Remove(key: string): (r: DiskStore)
      requires !closed
      ensures !r.closed && r.Get(key) == None
      ensures forall k :: k != key ==> r.Get(k) == Get(k)
    {
      this.(entries := entries - {key})
    }

    /** `delete()`: close the cache and delete everything in its directory. */
    function Delete(): (r: DiskStore)
      ensures r.closed && r.entries == map[]
      ensures r.directory == directory
    {
      this.(entries := map[], closed := true)
    }
  }

  /** `DiskLruCache.open(directory, appVersion, valueCount, maxSize)` over the entries its journal lists. */
  function Open(directory: string, appVersion: int, valueCount: int, maxSize: int,
                journal: map<string, Bytes>): (store: DiskStore)
    requires maxSize > 0 && valueCount > 0
    ensures !store.closed && store.entries == journal && store.directory == directory
  {
    DiskStore(directory, appVersion, valueCount, maxSize, journal, false)
  }
}
