/**
 * ImageCache: a memory tier keyed by the raw URL and a disk tier keyed by
 * the URL's formatted key, plus the `diskCacheStarting` flag that disk
 * readers wait on until the disk tier has been opened.
 */
module Caching {
  import opened Wrappers
  import opened Graphics
  import opened UrlKey
  import opened MemoryCache
  import opened DiskTier

  const DiskCacheSize: int := 1024 * 1024 * 10
  const DiskCacheSubdir: string := "employee_thumbnails"
  const DiskAppVersion: int := 1
  const DiskCacheEntryAmt: int := 1

  const LongMaxValue: int := 0x7FFF_FFFF_FFFF_FFFF
  const MediaMounted: string := "mounted"
  const Separator: string := "/"

  // ----- memory tier capacity -----

  /** Kotlin's `Long.toInt()`: keep the low 32 bits, two's complement. */
  function ToInt(x: int): (r: int)
    ensures -0x8000_0000 <= r < 0x8000_0000
    ensures (x - r) % 0x1_0000_0000 == 0
    ensures -0x8000_0000 <= x < 0x8000_0000 ==> r == x
  {
    var m := x % 0x1_0000_0000;
    if m >= 0x8000_0000 then m - 0x1_0000_0000 else m
  }

  /** Kotlin's `Int / Int`: the quotient rounded toward zero. */
  function DivTruncated(a: int, b: int): int
    requires b > 0
  {
    if a >= 0 then a / b else -((-a) / b)
  }

  /** `(maxMemory / 1024).toInt() / 8`: the memory tier's bound in KiB. */
  function MemoryCacheCapacity(maxMemory: int): int
    requires 0 <= maxMemory <= LongMaxValue
  {
    DivTruncated(ToInt(maxMemory / 1024), 8)
  }

  /** For any heap below 2 TiB the bound is one eighth of the heap, in whole KiB. */
  lemma CapacityIsEighthOfHeap(maxMemory: int)
    requires 0 <= maxMemory < 0x200_0000_0000
    ensures MemoryCacheCapacity(maxMemory) == maxMemory / 8192
    ensures MemoryCacheCapacity(maxMemory) > 0 <==> maxMemory >= 8192
  {
    var kib := maxMemory / 1024;
    assert kib < 0x8000_0000;
    assert ToInt(kib) == kib;
    assert kib / 8 == maxMemory / 8192;
  }

  /**
   * Without a heap limit `maxMemory()` is Long.MAX_VALUE: the KiB count wraps
   * to -1 and the bound is 0, which the LruCache constructor rejects.
   */
  lemma UnlimitedHeapGivesNoCapacity()
    ensures MemoryCacheCapacity(LongMaxValue) == 0
  {
    assert LongMaxValue / 1024 == 0x1F_FFFF_FFFF_FFFF;
    assert ToInt(0x1F_FFFF_FFFF_FFFF) == -1;
  }

  // ----- disk tier location -----

  /** What getDiskCacheDir reads from Environment and Context. */
  datatype StorageEnv = StorageEnv(
    externalStorageState: string,
    externalStorageRemovable: bool,
    externalCacheDir: Option<string>,
    cacheDir: string)

  /** Kotlin string templates render a null path as "null". */
  function PathOrNull(path: Option<string>): string {
    if path.Some? then path.value else "null"
  }

  /**
   * The external cache directory when external storage is mounted or built
   * in, else the internal one, followed by the separator and `uniqueName`.
   */
  function GetDiskCacheDir(env: StorageEnv, uniqueName: string): (path: string)
    ensures env.externalStorageState == MediaMounted || !env.externalStorageRemovable ==>
      path == PathOrNull(env.externalCacheDir) + Separator + uniqueName
    ensures env.externalStorageState != MediaMounted && env.externalStorageRemovable ==>
      path == env.cacheDir + Separator + uniqueName
    ensures |path| > |uniqueName| && path[|path| - |uniqueName| - 1..] == Separator + uniqueName
  {
    var cachePath :=
      if env.externalStorageState == MediaMounted || !env.externalStorageRemovable
      then PathOrNull(env.externalCacheDir)
      else env.cacheDir;
    PathEndsWithName(cachePath, uniqueName);
    cachePath + Separator + uniqueName
  }

  lemma PathEndsWithName(dir: string, name: string)
    ensures (dir + Separator + name)[|dir|..] == Separator + name
  {
    assert dir + Separator + name == dir + (Separator + name);
  }

  // ----- what the tiers answer -----

  /** `getImageFromMemoryCache`'s answer: null while the memory tier is not initialised. */
  function MemoryLookup(memory: Option<LruTier>, url: string): Option<Bitmap> {
    if memory.Some? then memory.value.Get(url) else None
  }

  /** The memory tier after a `get`: a hit becomes the most recently used entry. */
  function AfterMemoryGet(memory: Option<LruTier>, url: string): Option<LruTier> {
    if memory.Some? then Some(memory.value.Touched(url)) else None
  }

  /** A `get` keeps the memory tier valid and every key's value; a miss changes nothing. */
  lemma MemoryGetKeepsContents(memory: Option<LruTier>, url: string)
    requires memory.Some? ==> memory.value.Valid()
    ensures AfterMemoryGet(memory, url).Some? == memory.Some?
    ensures memory.Some? ==>
      AfterMemoryGet(memory, url).value.Valid() && AfterMemoryGet(memory, url).value.maxSize == memory.value.maxSize
    ensures forall k :: MemoryLookup(AfterMemoryGet(memory, url), k) == MemoryLookup(memory, k)
    ensures MemoryLookup(memory, url).None? ==> AfterMemoryGet(memory, url) == memory
  {
    if memory.Some? {
      TouchPreservesContents(memory.value, url);
    }
  }

  /** `getImageFromDiskCache`'s answer: the decoded bytes stored under the URL's formatted key. */
  function DiskLookup(disk: Option<DiskStore>, url: string, decode: Bytes -> Option<Bitmap>): (r: Option<Bitmap>)
    requires disk.Some? ==> !disk.value.closed
    ensures r.Some? ==> disk.Some? && FormatUrlKey(url) in disk.value.entries
  {
    if disk.None? then None
    else match disk.value.Get(FormatUrlKey(url))
      case None => None
      case Some(bytes) => decode(bytes)
  }

  /** The disk tier answers alike for every URL with the same first byte. */
  lemma DiskLookupByFirstByte(disk: Option<DiskStore>, a: string, b: string, decode: Bytes -> Option<Bitmap>)
    requires disk.Some? ==> !disk.value.closed
    requires FirstByte(a) == FirstByte(b)
    ensures DiskLookup(disk, a, decode) == DiskLookup(disk, b, decode)
  {
    SameKeyIffSameFirstByte(a, b);
  }

  /**
   * Removing one URL from the disk tier removes every URL that shares its
   * first byte, while the memory tier forgets only that URL.
   */
  lemma RemovalSpreadsToKeySharers(store: DiskStore, a: string, b: string, decode: Bytes -> Option<Bitmap>)
    requires !store.closed && FirstByte(a) == FirstByte(b)
    ensures DiskLookup(Some(store.Remove(FormatUrlKey(a))), b, decode) == None
  {
    SameKeyIffSameFirstByte(a, b);
  }

  /**
   * addImageToCache's effect on the disk tier: the entry under the formatted
   * key is rewritten only when it already exists and the JPEG compression
   * succeeded; a failed compression aborts the edit.
   */
  function DiskAfterAdd(disk: Option<DiskStore>, formattedKey: string, compressed: Option<Bytes>): (r: Option<DiskStore>)
    requires disk.Some? ==> !disk.value.closed
    ensures r.Some? <==> disk.Some?
    ensures r.Some? ==> !r.value.closed && r.value.entries.Keys == disk.value.entries.Keys
    ensures r.Some? ==> r.value.(entries := disk.value.entries) == disk.value
    ensures r.Some? ==> forall k :: k != formattedKey ==> r.value.Get(k) == disk.value.Get(k)
    ensures r.Some? ==> (r.value.Get(formattedKey) ==
      if formattedKey in disk.value.entries && compressed.Some? then compressed else disk.value.Get(formattedKey))
  {
    if disk.None? then None
    else if disk.value.Get(formattedKey).Some? && compressed.Some?
    then Some(disk.value.Commit(formattedKey, compressed.value))
    else disk
  }

  /** An image that reaches the disk tier reads back through its URL, decoded. */
  lemma AddedImageReadsBack(disk: Option<DiskStore>, url: string, bytes: Bytes, decode: Bytes -> Option<Bitmap>)
    requires disk.Some? && !disk.value.closed
    requires FormatUrlKey(url) in disk.value.entries
    ensures DiskLookup(DiskAfterAdd(disk, FormatUrlKey(url), Some(bytes)), url, decode) == decode(bytes)
  {
  }

  /** An empty disk tier stays empty under any sequence of adds. */
  lemma {:induction false} AddsNeverFillEmptyDisk(disk: Option<DiskStore>, adds: seq<(string, Option<Bytes>)>)
    requires disk.Some? && !disk.value.closed && disk.value.entries == map[]
    ensures DiskAfterAdds(disk, adds) == disk
    decreases |adds|
  {
    if adds != [] {
      AddsNeverFillEmptyDisk(DiskAfterAdd(disk, adds[0].0, adds[0].1), adds[1..]);
    }
  }

  /** The disk tier after a sequence of addImageToCache calls. */
  function DiskAfterAdds(disk: Option<DiskStore>, adds: seq<(string, Option<Bytes>)>): (r: Option<DiskStore>)
    requires disk.Some? ==> !disk.value.closed
    ensures r.Some? ==> !r.value.closed
    decreases |adds|
  {
    if adds == [] then disk
    else DiskAfterAdds(DiskAfterAdd(disk, adds[0].0, adds[0].1), adds[1..])
  }

  // ----- the cache object -----

  class ImageCache {
    var diskLruCache: Option<DiskStore>
    var diskCacheStarting: bool
    var memoryCache: Option<LruTier>

    /** The memory tier keeps LruCache's invariant; the flag drops only once the disk tier is open. */
    ghost predicate Valid()
      reads this
    {
      (memoryCache.Some? ==> memoryCache.value.Valid())
      && (!diskCacheStarting ==> diskLruCache.Some?)
    }

    /** DiskLruCache throws IllegalStateException on every read or write once it is closed. */
    predicate DiskUsable()
      reads this
    {
      diskLruCache.Some? ==> !diskLruCache.value.closed
    }

    constructor()
      ensures Valid() && DiskUsable()
      ensures diskLruCache == None && diskCacheStarting && memoryCache == None
    {
      diskLruCache := None;
      diskCacheStarting := true;
      memoryCache := None;
    }

    /**
     * `initializeCache`: a new memory tier, then an attempt to open the disk
     * tier. `journal` is what DiskLruCache.open finds on disk, or None when
     * open throws the IOException initializeCache swallows; the disk tier and
     * the flag are then as before.
     */
    method InitializeCache(maxMemory: int, env: StorageEnv, journal: Option<map<string, Bytes>>)
      requires Valid()
      requires 0 <= maxMemory <= LongMaxValue && MemoryCacheCapacity(maxMemory) > 0
      modifies this
      ensures Valid()
      ensures memoryCache == Some(NewTier(MemoryCacheCapacity(maxMemory)))
      ensures journal.Some? ==> !diskCacheStarting && DiskUsable() && diskLruCache == Some(Open(
        GetDiskCacheDir(env, DiskCacheSubdir), DiskAppVersion, DiskCacheEntryAmt, DiskCacheSize, journal.value))
      ensures journal.None? ==> diskLruCache == old(diskLruCache) && diskCacheStarting == old(diskCacheStarting)
    {
      InitializeMemoryCache(maxMemory);
      if journal.Some? {
        InitializeDiskCache(env, journal.value);
      }
    }

    method InitializeMemoryCache(maxMemory: int)
      requires Valid()
      requires 0 <= maxMemory <= LongMaxValue && MemoryCacheCapacity(maxMemory) > 0
      modifies this
      ensures Valid()
      ensures memoryCache == Some(NewTier(MemoryCacheCapacity(maxMemory)))
      ensures diskLruCache == old(diskLruCache) && diskCacheStarting == old(diskCacheStarting)
    {
      var cacheSize := MemoryCacheCapacity(maxMemory);
      memoryCache := Some(NewTier(cacheSize));
    }

    /** The part of `initializeDiskCache` that runs once DiskLruCache.open has returned. */
    method InitializeDiskCache(env: StorageEnv, journal: map<string, Bytes>)
      requires Valid()
      modifies this
      ensures Valid() && DiskUsable() && !diskCacheStarting
      ensures diskLruCache == Some(Open(
        GetDiskCacheDir(env, DiskCacheSubdir), DiskAppVersion, DiskCacheEntryAmt, DiskCacheSize, journal))
      ensures memoryCache == old(memoryCache)
    {
      var cacheDir := GetDiskCacheDir(env, DiskCacheSubdir);
      diskLruCache := Some(Open(cacheDir, DiskAppVersion, DiskCacheEntryAmt, DiskCacheSize, journal));
      diskCacheStarting := false;
    }

    /**
     * `addImageToCache`: put into the memory tier (followed by the logging
     * `get`), then rewrite the disk entry under the formatted key if there is
     * one. `compress` stands for `Bitmap.compress(JPEG, 70, …)`: the bytes it
     * produces, or None when it reports failure. On a closed disk tier the
     * `get` throws IllegalStateException after the memory put: `escaped`.
     */
    method AddImageToCache(key: string, bitmap: Bitmap, compress: Bitmap -> Option<Bytes>) returns (escaped: bool)
      requires Valid()
      modifies this
      ensures Valid() && DiskUsable() == old(DiskUsable())
      ensures escaped <==> !old(DiskUsable())
      ensures memoryCache == (if old(memoryCache).Some? then Some(old(memoryCache).value.Put(key, bitmap)) else None)
      ensures !escaped ==> diskLruCache == DiskAfterAdd(old(diskLruCache), FormatUrlKey(key), compress(bitmap))
      ensures escaped ==> diskLruCache == old(diskLruCache)
      ensures diskCacheStarting == old(diskCacheStarting)
    {
      var formattedKey := FormatUrlKey(key);
      AddImageToMemoryCache(key, bitmap);
      escaped := false;
      if diskLruCache.Some? {
        var store := diskLruCache.value;
        if store.closed {
          return true;
        }
        if store.Get(formattedKey).Some? {
          var compressed := compress(bitmap);
          if compressed.Some? {
            diskLruCache := Some(store.Commit(formattedKey, compressed.value));
          }
        }
      }
    }

    /**
     * `addImageToMemoryCache`: `memoryCache.put`, then the `get` inside the
     * log message, which leaves the entry just put where it is.
     */
    method AddImageToMemoryCache(key: string, bitmap: Bitmap)
      requires Valid()
      modifies this
      ensures Valid()
      ensures memoryCache == (if old(memoryCache).Some? then Some(old(memoryCache).value.Put(key, bitmap)) else None)
      ensures diskLruCache == old(diskLruCache) && diskCacheStarting == old(diskCacheStarting)
    {
      if memoryCache.Some? {
        ghost var tier := memoryCache.value;
        PutIntoMemoryCache(key, bitmap);
        GetAfterPutKeepsOrder(tier, key, bitmap);
        var _ := GetImageFromMemoryCache(key);
      }
    }

    /** `memoryCache.put(key, bitmap)` on an initialised memory tier. */
    method PutIntoMemoryCache(key: string, bitmap: Bitmap)
      requires Valid() && memoryCache.Some?
      modifies this
      ensures Valid()
      ensures memoryCache == Some(old(memoryCache).value.Put(key, bitmap))
      ensures diskLruCache == old(diskLruCache) && diskCacheStarting == old(diskCacheStarting)
    {
      PutSemantics(memoryCache.value, key, bitmap);
      memoryCache := Some(memoryCache.value.Put(key, bitmap));
    }

    /** `getImageFromMemoryCache`: a hit also becomes the most recently used entry. */
    method GetImageFromMemoryCache(key: string) returns (r: Option<Bitmap>)
      modifies this
      ensures r == MemoryLookup(old(memoryCache), key)
      ensures memoryCache == AfterMemoryGet(old(memoryCache), key)
      ensures diskLruCache == old(diskLruCache) && diskCacheStarting == old(diskCacheStarting)
    {
      r := None;
      if memoryCache.Some? {
        var tier := memoryCache.value;
        r := tier.Get(key);
        memoryCache := Some(tier.Touched(key));
      }
    }

    /**
     * `getImageFromDiskCache`, once no wait on the start-up flag is needed:
     * the snapshot under the formatted key, decoded by `decode`
     * (BitmapFactory.decodeStream). On a closed disk tier the `get` throws
     * IllegalStateException: `escaped`, and `r` is then None.
     */
    method GetImageFromDiskCache(key: string, decode: Bytes -> Option<Bitmap>) returns (r: Option<Bitmap>, escaped: bool)
      requires !diskCacheStarting
      ensures escaped <==> !DiskUsable()
      ensures !escaped ==> r == DiskLookup(diskLruCache, key, decode)
      ensures r.Some? ==> !escaped && diskLruCache.Some? && FormatUrlKey(key) in diskLruCache.value.entries
    {
      var formattedKey := FormatUrlKey(key);
      r, escaped := None, false;
      if diskLruCache.Some? {
        if diskLruCache.value.closed {
          return None, true;
        }
        var snapshot := diskLruCache.value.Get(formattedKey);
        if snapshot.Some? {
          r := decode(snapshot.value);
        }
      }
    }

    /**
     * `removeImageFromCaches`: the URL leaves the memory tier, its formatted
     * key the disk tier. `diskIoFails` stands for the IOException
     * removeImageFromDiskCache catches; the disk tier is then as before. On a
     * closed disk tier `remove` throws IllegalStateException, which that
     * catch does not take: `escaped`, after the memory removal.
     */
    method RemoveImageFromCaches(key: string, diskIoFails: bool) returns (escaped: bool)
      requires Valid()
      modifies this
      ensures Valid() && DiskUsable() == old(DiskUsable())
      ensures escaped <==> !old(DiskUsable())
      ensures memoryCache == (if old(memoryCache).Some? then Some(old(memoryCache).value.Remove(key)) else None)
      ensures diskLruCache ==
        if old(diskLruCache).Some? && !escaped && !diskIoFails then Some(old(diskLruCache).value.Remove(FormatUrlKey(key)))
        else old(diskLruCache)
      ensures diskCacheStarting == old(diskCacheStarting)
    {
      if memoryCache.Some? {
        RemoveSemantics(memoryCache.value, key);
        memoryCache := Some(memoryCache.value.Remove(key));
      }
      var formattedKey := FormatUrlKey(key);
      escaped := !DiskUsable();
      if diskLruCache.Some? && !escaped && !diskIoFails {
        diskLruCache := Some(diskLruCache.value.Remove(formattedKey));
      }
    }

    /**
     * `clearAllCaches`: the memory tier is emptied, the disk tier deleted and
     * closed. `diskIoFails` stands for the IOException clearDiskCache catches;
     * the disk tier is then as before.
     */
    method ClearAllCaches(diskIoFails: bool)
      requires Valid()
      modifies this
      ensures Valid()
      ensures memoryCache == (if old(memoryCache).Some? then Some(old(memoryCache).value.EvictAll()) else None)
      ensures diskLruCache ==
        if old(diskLruCache).Some? && !diskIoFails then Some(old(diskLruCache).value.Delete()) else old(diskLruCache)
      ensures diskCacheStarting == old(diskCacheStarting)
    {
      if memoryCache.Some? {
        EvictAllSemantics(memoryCache.value);
        memoryCache := Some(memoryCache.value.EvictAll());
      }
      if diskLruCache.Some? && !diskIoFails {
        diskLruCache := Some(diskLruCache.value.Delete());
      }
    }
  }
}
