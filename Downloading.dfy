/**
 * ImageDownloader: look the URL up in both cache tiers, otherwise fetch it
 * with a bounds-only decode and, while the reported size exceeds the target
 * box, raise `inSampleSize` by 2 and start over; then decode fully. The
 * network and BitmapFactory are an oracle `net` giving, for a URL and a
 * sample size, what one attempt observes.
 */
module Downloading {
  import opened Wrappers
  import opened Graphics
  import opened DataModel
  import opened UrlKey
  import opened MemoryCache
  import opened DiskTier
  import opened Caching

  /** The second, full decode: it throws, or it returns a bitmap or null. */
  datatype FullDecode = DecodeThrew(error: Exception) | Decoded(bitmap: Option<Bitmap>)

  /**
   * One attempt: opening the connection or the bounds-only decode throws,
   * or the decode reports `outWidth`/`outHeight` (-1 when the stream is no
   * image) and the full decode that would follow has the given outcome.
   */
  datatype Probe = Unreachable(error: Exception) | Bounds(outWidth: int, outHeight: int, full: FullDecode)

  type Network = (string, int) -> Probe

  /** A connection opened by downloadImage: bounds-only or full decode, at a sample size. */
  datatype Connection = Connection(url: string, sampleSize: int, justDecodeBounds: bool)

  /** A callback delivered to the ImageResultListener. */
  datatype Event = OnError(error: Exception) | OnSuccess(image: Bitmap)

  /** The attempt made after `j` retries, starting from sample size `s`. */
  function AttemptAt(net: Network, url: string, s: int, j: nat): Probe {
    net(url, s + 2 * j)
  }

  /** The decoded bounds exceed the target box, so downloadImage retries. */
  predicate Oversized(p: Probe, width: int, height: int) {
    p.Bounds? && (p.outWidth > width || p.outHeight > height)
  }

  /**
   * How many times downloadImage raises the sample size before an attempt
   * settles: the least `n` whose attempt is not oversized. `budget` is any
   * number of retries after which the oracle is known to settle.
   */
  function RetryCount(net: Network, url: string, s: int, width: int, height: int, budget: nat): (n: nat)
    requires !Oversized(AttemptAt(net, url, s, budget), width, height)
    ensures n <= budget
    ensures !Oversized(AttemptAt(net, url, s, n), width, height)
    decreases budget
  {
    if !Oversized(AttemptAt(net, url, s, 0), width, height) then 0
    else
      assert AttemptAt(net, url, s + 2, budget - 1) == AttemptAt(net, url, s, budget);
      var m := RetryCount(net, url, s + 2, width, height, budget - 1);
      assert AttemptAt(net, url, s + 2, m) == AttemptAt(net, url, s, 1 + m);
      1 + m
  }

  /** Every attempt before the settling one was oversized: downloadImage retries exactly while the bounds exceed the box. */
  lemma {:induction false} RetriesOnlyWhileOversized(net: Network, url: string, s: int, width: int, height: int, budget: nat)
    requires !Oversized(AttemptAt(net, url, s, budget), width, height)
    ensures forall j :: 0 <= j < RetryCount(net, url, s, width, height, budget) ==>
      Oversized(AttemptAt(net, url, s, j), width, height)
    decreases budget
  {
    if Oversized(AttemptAt(net, url, s, 0), width, height) {
      assert AttemptAt(net, url, s + 2, budget - 1) == AttemptAt(net, url, s, budget);
      RetriesOnlyWhileOversized(net, url, s + 2, width, height, budget - 1);
      forall j | 1 <= j < RetryCount(net, url, s, width, height, budget)
        ensures Oversized(AttemptAt(net, url, s, j), width, height)
      {
        assert AttemptAt(net, url, s, j) == AttemptAt(net, url, s + 2, j - 1);
      }
    }
  }

  /** The bitmap a settled attempt leaves in `img`. */
  function SettledImage(p: Probe): Option<Bitmap> {
    match p
    case Unreachable(_) => None
    case Bounds(_, _, DecodeThrew(_)) => None
    case Bounds(_, _, Decoded(b)) => b
  }

  /** The exception a settled attempt reports through `onError`, if any. */
  function SettledError(p: Probe): Option<Exception> {
    match p
    case Unreachable(e) => Some(e)
    case Bounds(_, _, DecodeThrew(e)) => Some(e)
    case Bounds(_, _, Decoded(_)) => None
  }

  /** The callbacks actually delivered: none while no listener is set. */
  function Notify(listening: bool, error: Option<Exception>): seq<Event> {
    if listening && error.Some? then [OnError(error.value)] else []
  }

  /**
   * The connections of `n` retries from sample size `s`: one bounds-only
   * connection per attempt, then the full decode's connection when the last
   * attempt got as far as decoding bounds.
   */
  function Attempts(url: string, s: int, n: nat, last: Probe): seq<Connection>
    decreases n
  {
    if n == 0 then [Connection(url, s, true)] + (if last.Bounds? then [Connection(url, s, false)] else [])
    else [Connection(url, s, true)] + Attempts(url, s + 2, n - 1, last)
  }

  /**
   * Sample sizes grow by 2 per retry; the full decode, if any, runs last, at
   * the final sample size, and only when the last attempt decoded bounds.
   */
  lemma {:induction false} AttemptsShape(url: string, s: int, n: nat, last: Probe)
    ensures |Attempts(url, s, n, last)| == n + 1 + (if last.Bounds? then 1 else 0)
    ensures forall i :: 0 <= i <= n ==> Attempts(url, s, n, last)[i] == Connection(url, s + 2 * i, true)
    ensures last.Bounds? ==> Attempts(url, s, n, last)[n + 1] == Connection(url, s + 2 * n, false)
    decreases n
  {
    if n > 0 {
      AttemptsShape(url, s + 2, n - 1, last);
      var rest := Attempts(url, s + 2, n - 1, last);
      assert Attempts(url, s, n, last) == [Connection(url, s, true)] + rest;
      forall i | 1 <= i <= n ensures Attempts(url, s, n, last)[i] == Connection(url, s + 2 * i, true) {
        assert Attempts(url, s, n, last)[i] == rest[i - 1];
      }
    }
  }

  /** The only full-decode connection of a retry sequence is the last one, at its final sample size. */
  lemma {:induction false} FullDecodeComesLast(url: string, s: int, n: nat, last: Probe, c: Connection)
    requires c in Attempts(url, s, n, last) && !c.justDecodeBounds
    ensures c == Connection(url, s + 2 * n, false) && last.Bounds?
    decreases n
  {
    if n > 0 {
      FullDecodeComesLast(url, s + 2, n - 1, last, c);
    }
  }

  /**
   * The full decode never runs on an image whose bounds exceed the box:
   * downloadImage's retry sequence ends in a full decode only if that
   * attempt's bounds fit.
   */
  lemma FullDecodeOnlyWithinBounds(net: Network, url: string, s: int, width: int, height: int, budget: nat, c: Connection)
    requires !Oversized(AttemptAt(net, url, s, budget), width, height)
    requires var n := RetryCount(net, url, s, width, height, budget);
      c in Attempts(url, s, n, AttemptAt(net, url, s, n)) && !c.justDecodeBounds
    ensures var n := RetryCount(net, url, s, width, height, budget);
      var last := AttemptAt(net, url, s, n);
      c.sampleSize == s + 2 * n && last.Bounds? && last.outWidth <= width && last.outHeight <= height
  {
    var n := RetryCount(net, url, s, width, height, budget);
    FullDecodeComesLast(url, s, n, AttemptAt(net, url, s, n), c);
  }

  lemma AppendAssociates<T>(a: seq<T>, b: seq<T>, c: seq<T>)
    ensures (a + b) + c == a + (b + c)
  {
  }

  /** One retry: an oversized first attempt leaves the rest of the sequence to start two sample sizes up. */
  lemma RetryStep(net: Network, url: string, s: int, width: int, height: int, budget: nat)
    requires !Oversized(AttemptAt(net, url, s, budget), width, height)
    requires Oversized(AttemptAt(net, url, s, 0), width, height)
    ensures budget > 0
    ensures !Oversized(AttemptAt(net, url, s + 2, budget - 1), width, height)
    ensures var m := RetryCount(net, url, s + 2, width, height, budget - 1);
      RetryCount(net, url, s, width, height, budget) == 1 + m
      && AttemptAt(net, url, s + 2, m) == AttemptAt(net, url, s, 1 + m)
      && Attempts(url, s, 1 + m, AttemptAt(net, url, s, 1 + m))
         == [Connection(url, s, true)] + Attempts(url, s + 2, m, AttemptAt(net, url, s, 1 + m))
  {
    assert AttemptAt(net, url, s + 2, budget - 1) == AttemptAt(net, url, s, budget);
  }

  /** An image that fits the box first time is fetched at the initial sample size. */
  lemma FittingImageIsNotDownsampled(net: Network, url: string, s: int, width: int, height: int)
    requires !Oversized(net(url, s), width, height)
    ensures RetryCount(net, url, s, width, height, 0) == 0
  {
  }

  /**
   * A stream that is no image reports bounds -1 x -1 and decodes to null:
   * downloadImage settles on that first attempt, with a null result and no
   * onError.
   */
  lemma NonImageGivesNullWithoutError(net: Network, url: string, s: int, width: int, height: int, budget: nat)
    requires width >= 0 && height >= 0
    requires net(url, s) == Bounds(-1, -1, Decoded(None))
    requires !Oversized(AttemptAt(net, url, s, budget), width, height)
    ensures RetryCount(net, url, s, width, height, budget) == 0
    ensures SettledImage(AttemptAt(net, url, s, RetryCount(net, url, s, width, height, budget))) == None
    ensures SettledError(AttemptAt(net, url, s, RetryCount(net, url, s, width, height, budget))) == None
  {
    assert AttemptAt(net, url, s, 0) == net(url, s);
  }

  class ImageDownloader {
    const mImgCache: ImageCache
    const mWidth: int
    const mHeight: int
    var inSampleSize: int
    var img: Option<Bitmap>
    /** Whether `setListener` has been called. */
    var listening: bool
    /** The listener callbacks delivered so far, in order. */
    var events: seq<Event>
    /** The connections opened so far, in order. */
    ghost var connections: seq<Connection>

    constructor(imgCache: ImageCache, width: int, height: int)
      ensures mImgCache == imgCache && mWidth == width && mHeight == height
      ensures inSampleSize == 0 && img == None && !listening && events == [] && connections == []
    {
      mImgCache := imgCache;
      mWidth := width;
      mHeight := height;
      inSampleSize := 0;
      img := None;
      listening := false;
      events := [];
      connections := [];
    }

    method SetListener()
      modifies this
      ensures listening
      ensures inSampleSize == old(inSampleSize) && img == old(img)
      ensures events == old(events) && connections == old(connections)
    {
      listening := true;
    }

    /** The disk tier's start-up is over, so no reader waits on the flag. */
    predicate DiskReady()
      reads mImgCache
    {
      !mImgCache.diskCacheStarting
    }

    /** What checkCachesForImage answers on an open disk tier: the memory tier's bitmap, else the disk tier's. */
    ghost function Cached(url: string, decode: Bytes -> Option<Bitmap>): Option<Bitmap>
      requires DiskReady() && mImgCache.DiskUsable()
      reads mImgCache
    {
      var memory := MemoryLookup(mImgCache.memoryCache, url);
      if memory.Some? then memory else DiskLookup(mImgCache.diskLruCache, url, decode)
    }

    /** The attempt at which downloadImage settles from the current sample size. */
    ghost function Settled(url: string, net: Network, budget: nat): Probe
      requires !Oversized(AttemptAt(net, url, inSampleSize, budget), mWidth, mHeight)
      reads this
    {
      AttemptAt(net, url, inSampleSize, RetryCount(net, url, inSampleSize, mWidth, mHeight, budget))
    }

    /** What downloadImage returns from the current state. */
    ghost function Downloaded(url: string, decode: Bytes -> Option<Bitmap>, net: Network, budget: nat): Option<Bitmap>
      requires DiskReady() && mImgCache.DiskUsable() && !Oversized(AttemptAt(net, url, inSampleSize, budget), mWidth, mHeight)
      reads this, mImgCache
    {
      var cached := Cached(url, decode);
      if cached.Some? then cached else SettledImage(Settled(url, net, budget))
    }

    /** The callbacks downloadImage delivers from the current state. */
    ghost function DownloadEvents(url: string, decode: Bytes -> Option<Bitmap>, net: Network, budget: nat): seq<Event>
      requires DiskReady() && mImgCache.DiskUsable() && !Oversized(AttemptAt(net, url, inSampleSize, budget), mWidth, mHeight)
      reads this, mImgCache
    {
      if Cached(url, decode).Some? then [] else Notify(listening, SettledError(Settled(url, net, budget)))
    }

    /**
     * `checkCachesForImage`: the disk tier is queried first, then the memory
     * tier; a memory hit wins. Only a memory hit changes the memory tier, and
     * only its order. A closed disk tier throws from the first query, before
     * the memory tier is read: `escaped`.
     */
    method CheckCachesForImage(url: string, decode: Bytes -> Option<Bitmap>) returns (r: Option<Bitmap>, escaped: bool)
      requires DiskReady()
      modifies mImgCache
      ensures DiskReady()
      ensures escaped <==> !old(mImgCache.DiskUsable())
      ensures !escaped ==> r == old(Cached(url, decode))
      ensures !escaped ==> mImgCache.memoryCache == AfterMemoryGet(old(mImgCache.memoryCache), url)
      ensures escaped ==> r == None && mImgCache.memoryCache == old(mImgCache.memoryCache)
      ensures mImgCache.diskLruCache == old(mImgCache.diskLruCache)
      ensures mImgCache.diskCacheStarting == old(mImgCache.diskCacheStarting)
    {
      var diskCacheBitmap;
      diskCacheBitmap, escaped := mImgCache.GetImageFromDiskCache(url, decode);
      if escaped {
        return None, true;
      }
      var memoryCachedImage := mImgCache.GetImageFromMemoryCache(url);
      if memoryCachedImage.Some? {
        return memoryCachedImage, false;
      }
      if diskCacheBitmap.Some? {
        return diskCacheBitmap, false;
      }
      return None, false;
    }

    /**
     * `downloadImage`. The ghost `budget` is a number of retries after which
     * the oracle's attempt is known not to be oversized: the source itself
     * retries without bound, so its termination rests on the network.
     * The cache check runs outside the try block, so the exception a closed
     * disk tier throws leaves downloadImage before anything changes: `escaped`.
     */
    method DownloadImage(imageUrl: string, decode: Bytes -> Option<Bitmap>, net: Network, ghost budget: nat)
      returns (r: Option<Bitmap>, escaped: bool)
      requires DiskReady()
      requires !Oversized(AttemptAt(net, imageUrl, inSampleSize, budget), mWidth, mHeight)
      modifies this, mImgCache
      decreases budget, 2
      ensures DiskReady()
      ensures escaped <==> !old(mImgCache.DiskUsable())
      ensures escaped ==> (r == None && img == old(img) && inSampleSize == old(inSampleSize)
        && events == old(events) && connections == old(connections)
        && mImgCache.memoryCache == old(mImgCache.memoryCache))
      ensures !escaped ==> r == img
      ensures listening == old(listening)
      ensures !escaped ==> mImgCache.memoryCache == AfterMemoryGet(old(mImgCache.memoryCache), imageUrl)
      ensures mImgCache.diskLruCache == old(mImgCache.diskLruCache)
      ensures mImgCache.diskCacheStarting == old(mImgCache.diskCacheStarting)
      ensures !escaped && old(Cached(imageUrl, decode)).Some? ==>
        r == old(Cached(imageUrl, decode)) && inSampleSize == old(inSampleSize)
        && events == old(events) && connections == old(connections)
      ensures !escaped && old(Cached(imageUrl, decode)).None? ==>
        inSampleSize == old(inSampleSize) + 2 * RetryCount(net, imageUrl, old(inSampleSize), mWidth, mHeight, budget)
      ensures !escaped && old(Cached(imageUrl, decode)).None? ==>
        r == SettledImage(old(Settled(imageUrl, net, budget)))
      ensures !escaped && old(Cached(imageUrl, decode)).None? ==>
        events == old(events) + Notify(listening, SettledError(old(Settled(imageUrl, net, budget))))
      ensures !escaped && old(Cached(imageUrl, decode)).None? ==>
        connections == old(connections) + old(Attempts(imageUrl, inSampleSize,
          RetryCount(net, imageUrl, inSampleSize, mWidth, mHeight, budget), Settled(imageUrl, net, budget)))
    {
      var cached;
      cached, escaped := CheckCachesForImage(imageUrl, decode);
      if escaped {
        return None, true;
      }
      img := cached;
      if img.None? {
        FetchImage(imageUrl, decode, net, budget);
      }
      r := img;
    }

    /**
     * The block downloadImage runs on the IO dispatcher after both tiers
     * missed: one attempt, then either a retry at a sample size two higher
     * or the end of the download. It is reached only after the cache check
     * found the disk tier open, and nothing here closes it.
     */
    method FetchImage(imageUrl: string, decode: Bytes -> Option<Bitmap>, net: Network, ghost budget: nat)
      requires DiskReady() && mImgCache.DiskUsable() && Cached(imageUrl, decode).None?
      requires !Oversized(AttemptAt(net, imageUrl, inSampleSize, budget), mWidth, mHeight)
      modifies this, mImgCache
      decreases budget, 1
      ensures DiskReady() && mImgCache.DiskUsable()
      ensures listening == old(listening)
      ensures mImgCache.memoryCache == old(mImgCache.memoryCache)
      ensures mImgCache.diskLruCache == old(mImgCache.diskLruCache)
      ensures mImgCache.diskCacheStarting == old(mImgCache.diskCacheStarting)
      ensures inSampleSize == old(inSampleSize) + 2 * RetryCount(net, imageUrl, old(inSampleSize), mWidth, mHeight, budget)
      ensures img == SettledImage(old(Settled(imageUrl, net, budget)))
      ensures events == old(events) + Notify(listening, SettledError(old(Settled(imageUrl, net, budget))))
      ensures connections == old(connections) + old(Attempts(imageUrl, inSampleSize,
        RetryCount(net, imageUrl, inSampleSize, mWidth, mHeight, budget), Settled(imageUrl, net, budget)))
    {
      ghost var s := inSampleSize;
      ghost var before := connections;
      ghost var n := RetryCount(net, imageUrl, s, mWidth, mHeight, budget);
      ghost var settled := AttemptAt(net, imageUrl, s, n);
      assert settled == Settled(imageUrl, net, budget);
      var probe := net(imageUrl, inSampleSize);
      connections := connections + [Connection(imageUrl, inSampleSize, true)];
      if Oversized(probe, mWidth, mHeight) {
        RetryStep(net, imageUrl, s, mWidth, mHeight, budget);
        ghost var m := RetryCount(net, imageUrl, s + 2, mWidth, mHeight, budget - 1);
        assert n == 1 + m && settled == AttemptAt(net, imageUrl, s + 2, m);
        Retry(imageUrl, decode, net, budget);
        AppendAssociates(before, [Connection(imageUrl, s, true)], Attempts(imageUrl, s + 2, m, settled));
      } else {
        assert n == 0 && settled == probe;
        SettleAttempt(imageUrl, probe);
        AppendAssociates(before, [Connection(imageUrl, s, true)],
          if probe.Bounds? then [Connection(imageUrl, s, false)] else []);
      }
    }

    /**
     * The retry after an oversized attempt: `inSampleSize += 2`, then
     * downloadImage again, whose own result is discarded (the shared `img`
     * carries the outcome).
     */
    method Retry(imageUrl: string, decode: Bytes -> Option<Bitmap>, net: Network, ghost budget: nat)
      requires DiskReady() && mImgCache.DiskUsable() && Cached(imageUrl, decode).None?
      requires budget > 0 && !Oversized(AttemptAt(net, imageUrl, inSampleSize + 2, budget - 1), mWidth, mHeight)
      modifies this, mImgCache
      decreases budget, 0
      ensures DiskReady() && mImgCache.DiskUsable()
      ensures listening == old(listening)
      ensures mImgCache.memoryCache == old(mImgCache.memoryCache)
      ensures mImgCache.diskLruCache == old(mImgCache.diskLruCache)
      ensures mImgCache.diskCacheStarting == old(mImgCache.diskCacheStarting)
      ensures var m := RetryCount(net, imageUrl, old(inSampleSize) + 2, mWidth, mHeight, budget - 1);
        inSampleSize == old(inSampleSize) + 2 + 2 * m
      ensures var m := RetryCount(net, imageUrl, old(inSampleSize) + 2, mWidth, mHeight, budget - 1);
        img == SettledImage(AttemptAt(net, imageUrl, old(inSampleSize) + 2, m))
      ensures var m := RetryCount(net, imageUrl, old(inSampleSize) + 2, mWidth, mHeight, budget - 1);
        events == old(events) + Notify(listening, SettledError(AttemptAt(net, imageUrl, old(inSampleSize) + 2, m)))
      ensures var m := RetryCount(net, imageUrl, old(inSampleSize) + 2, mWidth, mHeight, budget - 1);
        connections == old(connections) + Attempts(imageUrl, old(inSampleSize) + 2, m, AttemptAt(net, imageUrl, old(inSampleSize) + 2, m))
    {
      img := None;
      inSampleSize := inSampleSize + 2;
      assert Cached(imageUrl, decode).None?;
      var _, _ := DownloadImage(imageUrl, decode, net, budget - 1);
    }

    /**
     * The end of an attempt whose bounds did not exceed the box: the
     * exception it met goes to `onError`, otherwise the full decode runs
     * and its bitmap (a bounds-only decode leaves null) is kept.
     */
    method SettleAttempt(imageUrl: string, probe: Probe)
      requires !Oversized(probe, mWidth, mHeight)
      modifies this
      ensures img == SettledImage(probe)
      ensures events == old(events) + Notify(listening, SettledError(probe))
      ensures connections == old(connections) + (if probe.Bounds? then [Connection(imageUrl, inSampleSize, false)] else [])
      ensures inSampleSize == old(inSampleSize) && listening == old(listening)
    {
      match probe
      case Unreachable(e) =>
        img := None;
        if listening {
          events := events + [OnError(e)];
        }
      case Bounds(_, _, full) =>
        img := None;
        connections := connections + [Connection(imageUrl, inSampleSize, false)];
        match full
        case DecodeThrew(e) =>
          if listening {
            events := events + [OnError(e)];
          }
        case Decoded(b) =>
          img := b;
    }

    /**
     * `getImageResult`: download (or find) the image; a non-null result is
     * added to both tiers and reported through `onSuccess`. The exception a
     * closed disk tier throws from the cache check escapes without a
     * callback and without changing anything: `escaped`.
     */
    method GetImageResult(url: string, decode: Bytes -> Option<Bitmap>, net: Network,
                          compress: Bitmap -> Option<Bytes>, ghost budget: nat)
      returns (r: Option<Bitmap>, escaped: bool)
      requires DiskReady() && mImgCache.Valid()
      requires !Oversized(AttemptAt(net, url, inSampleSize, budget), mWidth, mHeight)
      modifies this, mImgCache
      ensures DiskReady() && mImgCache.Valid()
      ensures escaped <==> !old(mImgCache.DiskUsable())
      ensures escaped ==> (r == None && img == old(img) && inSampleSize == old(inSampleSize)
        && events == old(events) && connections == old(connections)
        && mImgCache.memoryCache == old(mImgCache.memoryCache) && mImgCache.diskLruCache == old(mImgCache.diskLruCache))
      ensures listening == old(listening)
      ensures !escaped ==> r == old(Downloaded(url, decode, net, budget)) && img == r
      ensures !escaped && old(Cached(url, decode)).Some? ==>
        inSampleSize == old(inSampleSize) && connections == old(connections)
      ensures !escaped && old(Cached(url, decode)).None? ==>
        inSampleSize == old(inSampleSize) + 2 * RetryCount(net, url, old(inSampleSize), mWidth, mHeight, budget)
      ensures !escaped && old(Cached(url, decode)).None? ==>
        connections == old(connections) + old(Attempts(url, inSampleSize,
          RetryCount(net, url, inSampleSize, mWidth, mHeight, budget), Settled(url, net, budget)))
      ensures !escaped ==> (events == old(events) + old(DownloadEvents(url, decode, net, budget))
        + (if r.Some? && listening then [OnSuccess(r.value)] else []))
      ensures r.None? ==> mImgCache.memoryCache == old(mImgCache.memoryCache)
      ensures r.None? ==> mImgCache.diskLruCache == old(mImgCache.diskLruCache)
      ensures r.Some? ==> (mImgCache.memoryCache ==
        if old(mImgCache.memoryCache).Some?
        then Some(AfterMemoryGet(old(mImgCache.memoryCache), url).value.Put(url, r.value))
        else None)
      ensures r.Some? ==> (MemoryLookup(mImgCache.memoryCache, url) ==
        if old(mImgCache.memoryCache).Some? && SizeOf(r) <= old(mImgCache.memoryCache).value.maxSize then r else None)
      ensures r.Some? ==> mImgCache.diskLruCache == DiskAfterAdd(old(mImgCache.diskLruCache), FormatUrlKey(url), compress(r.value))
    {
      MemoryGetKeepsContents(mImgCache.memoryCache, url);
      var imageBitmapResult;
      imageBitmapResult, escaped := DownloadImage(url, decode, net, budget);
      if escaped {
        return None, true;
      }
      if imageBitmapResult.Some? {
        CacheAndReport(url, imageBitmapResult.value, compress);
      }
      r := imageBitmapResult;
    }

    /**
     * The part of `getImageResult` after a non-null download: add the image
     * to both tiers, then `onSuccess`.
     */
    method CacheAndReport(url: string, image: Bitmap, compress: Bitmap -> Option<Bytes>)
      requires mImgCache.Valid() && mImgCache.DiskUsable()
      modifies this, mImgCache
      ensures mImgCache.Valid() && mImgCache.DiskUsable()
      ensures mImgCache.memoryCache ==
        if old(mImgCache.memoryCache).Some? then Some(old(mImgCache.memoryCache).value.Put(url, image)) else None
      ensures MemoryLookup(mImgCache.memoryCache, url) ==
        if old(mImgCache.memoryCache).Some? && SizeOf(Some(image)) <= old(mImgCache.memoryCache).value.maxSize
        then Some(image) else None
      ensures mImgCache.diskLruCache == DiskAfterAdd(old(mImgCache.diskLruCache), FormatUrlKey(url), compress(image))
      ensures mImgCache.diskCacheStarting == old(mImgCache.diskCacheStarting)
      ensures events == old(events) + (if listening then [OnSuccess(image)] else [])
      ensures listening == old(listening) && img == old(img) && inSampleSize == old(inSampleSize)
      ensures connections == old(connections)
    {
      ghost var before := mImgCache.memoryCache;
      if before.Some? {
        PutSemantics(before.value, url, image);
      }
      var _ := mImgCache.AddImageToCache(url, image, compress);
      if listening {
        events := events + [OnSuccess(image)];
      }
    }
  }
}
