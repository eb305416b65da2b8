/**
 * The memory tier: the `LruCache<String, Bitmap>` subclass that
 * ImageCache.initializeMemoryCache creates, with its `sizeOf` override.
 * android.util.LruCache keeps its entries in access order (eldest first),
 * counts `size` in sizeOf units, and after every put evicts eldest entries
 * until `size <= maxSize` or nothing is left. The tier is a value here;
 * ImageCache holds it in a field that its methods reassign.
 */
module MemoryCache {
  import opened Wrappers
  import opened Graphics

  /** The `sizeOf` override: `(value?.byteCount ?: 0) / 1024`, whole KiB rounded down. */
  function SizeOf(value: Option<Bitmap>): (units: nat)
    ensures value.None? ==> units == 0
    ensures value.Some? ==> units * 1024 <= value.value.byteCount < (units + 1) * 1024
  {
    (if value.Some? then value.value.byteCount else 0) / 1024
  }

  datatype Entry = Entry(key: string, value: Bitmap)

  function Cost(e: Entry): nat {
    SizeOf(Some(e.value))
  }

  /** LruCache's `size`: the sum of the entries' costs. */
  function TotalSize(es: seq<Entry>): nat {
    if es == [] then 0 else Cost(es[0]) + TotalSize(es[1..])
  }

  predicate DistinctKeys(es: seq<Entry>) {
    forall i, j :: 0 <= i < j < |es| ==> es[i].key != es[j].key
  }

  /** The value stored under `key`, if any. */
  function Lookup(es: seq<Entry>, key: string): Option<Bitmap> {
    if es == [] then None
    else if es[0].key == key then Some(es[0].value)
    else Lookup(es[1..], key)
  }

  /** The entries without the one stored under `key`. */
  function Without(es: seq<Entry>, key: string): seq<Entry> {
    if es == [] then []
    else if es[0].key == key then Without(es[1..], key)
    else [es[0]] + Without(es[1..], key)
  }

  /** `trimToSize(maxSize)`: evict eldest entries while the size exceeds `maxSize`. */
  function TrimToSize(es: seq<Entry>, maxSize: int): (r: seq<Entry>)
    ensures |r| <= |es| && r == es[|es| - |r|..]
    ensures r == [] || TotalSize(r) <= maxSize
  {
    if es == [] || TotalSize(es) <= maxSize then es else TrimToSize(es[1..], maxSize)
  }

  datatype LruTier = LruTier(maxSize: int, entries: seq<Entry>) {

    /** LruCache's invariant: positive bound, one entry per key, size within the bound. */
    ghost predicate Valid() {
      maxSize > 0 && DistinctKeys(entries) && TotalSize(entries) <= maxSize
    }

    function Get(key: string): Option<Bitmap> {
      Lookup(entries, key)
    }

    /** The access-order side effect of `get`: a hit becomes the most recent entry. */
    function Touched(key: string): LruTier {
      match Lookup(entries, key)
      case None => this
      case Some(v) => this.(entries := Without(entries, key) + [Entry(key, v)])
    }

    /** `put(key, value)`: replace or add as most recent, then trim. */
    function Put(key: string, value: Bitmap): LruTier {
      this.(entries := TrimToSize(Without(entries, key) + [Entry(key, value)], maxSize))
    }

    /** `remove(key)`. */
    function Remove(key: string): LruTier {
      this.(entries := Without(entries, key))
    }

    /** `evictAll()`: `trimToSize(-1)`. */
    function EvictAll(): LruTier {
      this.(entries := TrimToSize(entries, -1))
    }
  }

  /** A new `LruCache(maxSize)`. */
  function NewTier(maxSize: int): (t: LruTier)
    requires maxSize > 0
    ensures t.Valid() && forall k :: t.Get(k) == None
  {
    LruTier(maxSize, [])
  }

  // ----- facts about the entry list -----

  lemma {:induction false} WithoutFacts(es: seq<Entry>, key: string)
    requires DistinctKeys(es)
    ensures DistinctKeys(Without(es, key))
    ensures Lookup(Without(es, key), key) == None
    ensures forall k :: k != key ==> Lookup(Without(es, key), k) == Lookup(es, k)
    ensures TotalSize(Without(es, key)) + SizeOf(Lookup(es, key)) == TotalSize(es)
    ensures forall e :: e in Without(es, key) ==> e in es
  {
    if es != [] {
      WithoutFacts(es[1..], key);
      if es[0].key == key {
        assert Lookup(es[1..], key) == None by {
          LookupAbsent(es[1..], key);
        }
      } else {
        var w := Without(es[1..], key);
        assert Without(es, key) == [es[0]] + w;
        forall e | e in w ensures e.key != es[0].key {
          assert e in es[1..];
        }
        assert ([es[0]] + w)[1..] == w;
      }
    }
  }

  /** With distinct keys, a key held by the first entry is held by no other. */
  lemma LookupAbsent(es: seq<Entry>, key: string)
    requires DistinctKeys(es) && (forall e :: e in es ==> e.key != key)
    ensures Lookup(es, key) == None
  {
  }

  lemma {:induction false} LookupAppend(a: seq<Entry>, b: seq<Entry>, key: string)
    ensures Lookup(a + b, key) == if Lookup(a, key).Some? then Lookup(a, key) else Lookup(b, key)
  {
    if a != [] {
      assert (a + b)[0] == a[0] && (a + b)[1..] == a[1..] + b;
      LookupAppend(a[1..], b, key);
    } else {
      assert a + b == b;
    }
  }

  lemma {:induction false} TotalSizeAppend(a: seq<Entry>, b: seq<Entry>)
    ensures TotalSize(a + b) == TotalSize(a) + TotalSize(b)
  {
    if a != [] {
      assert (a + b)[1..] == a[1..] + b;
      TotalSizeAppend(a[1..], b);
    } else {
      assert a + b == b;
    }
  }

  lemma {:induction false} LookupSuffix(es: seq<Entry>, d: nat, key: string)
    requires DistinctKeys(es) && d <= |es|
    ensures Lookup(es[d..], key) == None || Lookup(es[d..], key) == Lookup(es, key)
  {
    if d > 0 {
      LookupSuffix(es[1..], d - 1, key);
      assert es[1..][d - 1..] == es[d..];
      if es[0].key == key {
        forall e | e in es[d..] ensures e.key != key {
          var i :| 0 <= i < |es[d..]| && es[d..][i] == e;
          assert es[d + i] == e;
        }
        LookupAbsent(es[d..], key);
      }
    }
  }

  /** A trim of a list whose newest entry fits the bound never evicts that entry. */
  lemma {:induction false} TrimKeepsFittingNewest(es: seq<Entry>, maxSize: int)
    requires es != [] && Cost(es[|es| - 1]) <= maxSize
    ensures TrimToSize(es, maxSize) != []
  {
    if TotalSize(es) > maxSize && |es| > 1 {
      assert es[1..][|es[1..]| - 1] == es[|es| - 1];
      TrimKeepsFittingNewest(es[1..], maxSize);
    }
  }

  /**
   * The trim stops as soon as the rest fits: keeping the last entry it
   * evicted as well would exceed the bound.
   */
  lemma {:induction false} TrimEvictsOnlyWhatItMust(es: seq<Entry>, maxSize: int)
    ensures var r := TrimToSize(es, maxSize);
      |r| < |es| ==> TotalSize(es[|es| - |r| - 1..]) > maxSize
  {
    if es != [] && TotalSize(es) > maxSize {
      var r := TrimToSize(es[1..], maxSize);
      TrimEvictsOnlyWhatItMust(es[1..], maxSize);
      if |r| < |es| - 1 {
        assert es[1..][|es| - 1 - |r| - 1..] == es[|es| - |r| - 1..];
      } else {
        assert es[|es| - |r| - 1..] == es;
      }
    }
  }

  /** A list whose newest entry alone exceeds the bound is trimmed to nothing. */
  lemma {:induction false} TrimDropsOversizedNewest(es: seq<Entry>, maxSize: int)
    requires es != [] && Cost(es[|es| - 1]) > maxSize
    ensures TrimToSize(es, maxSize) == []
  {
    var r := TrimToSize(es, maxSize);
    if r != [] {
      assert r[|r| - 1] == es[|es| - 1];
      NewestCostBoundsSize(r);
      assert false;
    }
  }

  /** A list costs at least as much as its newest entry. */
  lemma NewestCostBoundsSize(es: seq<Entry>)
    requires es != []
    ensures TotalSize(es) >= Cost(es[|es| - 1])
  {
    var last := es[|es| - 1];
    assert es == es[..|es| - 1] + [last];
    TotalSizeAppend(es[..|es| - 1], [last]);
    assert TotalSize([last]) == Cost(last) by {
      assert [last][1..] == [];
    }
  }

  // ----- the properties of the tier -----

  /** The list `put` trims: the other entries, then the new one as most recent. */
  function Grown(es: seq<Entry>, key: string, value: Bitmap): seq<Entry> {
    Without(es, key) + [Entry(key, value)]
  }

  lemma GrownFacts(es: seq<Entry>, key: string, value: Bitmap)
    requires DistinctKeys(es)
    ensures DistinctKeys(Grown(es, key, value))
    ensures forall k :: k != key ==> Lookup(Grown(es, key, value), k) == Lookup(es, k)
  {
    var w := Without(es, key);
    WithoutFacts(es, key);
    forall e | e in w ensures e.key != key {
      if e.key == key {
        var i :| 0 <= i < |w| && w[i] == e;
        LookupHit(w, i);
      }
    }
    forall k | k != key ensures Lookup(Grown(es, key, value), k) == Lookup(es, k) {
      LookupAppend(w, [Entry(key, value)], k);
    }
  }

  /** The new value survives the trim exactly when its own cost fits the bound. */
  lemma PutReadBack(t: LruTier, key: string, value: Bitmap)
    requires t.Valid()
    ensures t.Put(key, value).Get(key) == (if SizeOf(Some(value)) <= t.maxSize then Some(value) else None)
    ensures SizeOf(Some(value)) > t.maxSize ==> t.Put(key, value).entries == []
  {
    if SizeOf(Some(value)) <= t.maxSize {
      PutReadBackWhenFits(t, key, value);
    } else {
      TrimDropsOversizedNewest(Grown(t.entries, key, value), t.maxSize);
    }
  }

  lemma PutReadBackWhenFits(t: LruTier, key: string, value: Bitmap)
    requires t.Valid() && SizeOf(Some(value)) <= t.maxSize
    ensures t.Put(key, value).Get(key) == Some(value)
  {
    var w := Without(t.entries, key);
    var grown := w + [Entry(key, value)];
    var r := TrimToSize(grown, t.maxSize);
    assert t.Put(key, value).entries == r;
    WithoutFacts(t.entries, key);
    TrimKeepsFittingNewest(grown, t.maxSize);
    NewestReadsBack(w, Entry(key, value), |grown| - |r|);
  }

  /** The newest entry reads back from every non-empty suffix, when no older entry has its key. */
  lemma NewestReadsBack(w: seq<Entry>, e: Entry, d: nat)
    requires DistinctKeys(w) && Lookup(w, e.key) == None && d <= |w|
    ensures Lookup((w + [e])[d..], e.key) == Some(e.value)
  {
    assert (w + [e])[d..] == w[d..] + [e];
    LookupSuffix(w, d, e.key);
    LookupAppend(w[d..], [e], e.key);
  }

  /** Every other key keeps its value or has been evicted. */
  lemma PutOtherKeys(t: LruTier, key: string, value: Bitmap, k: string)
    requires t.Valid() && k != key
    ensures t.Put(key, value).Get(k) == None || t.Put(key, value).Get(k) == t.Get(k)
  {
    var grown := Grown(t.entries, key, value);
    GrownFacts(t.entries, key, value);
    var r := TrimToSize(grown, t.maxSize);
    LookupSuffix(grown, |grown| - |r|, k);
  }

  /**
   * `put` keeps the tier valid; the new value is readable back exactly when
   * its own cost fits the bound (otherwise the trim empties the cache); every
   * other key keeps its value or has been evicted; the entries kept are the
   * newest ones, and only as many of the eldest are evicted as the bound needs.
   */
  lemma PutSemantics(t: LruTier, key: string, value: Bitmap)
    requires t.Valid()
    ensures t.Put(key, value).Valid()
    ensures var grown, kept := Grown(t.entries, key, value), t.Put(key, value).entries;
      |kept| <= |grown| && kept == grown[|grown| - |kept|..]
      && (|kept| < |grown| ==> TotalSize(grown[|grown| - |kept| - 1..]) > t.maxSize)
    ensures t.Put(key, value).Get(key) == (if SizeOf(Some(value)) <= t.maxSize then Some(value) else None)
    ensures SizeOf(Some(value)) > t.maxSize ==> t.Put(key, value).entries == []
    ensures forall k :: k != key ==>
      t.Put(key, value).Get(k) == None || t.Put(key, value).Get(k) == t.Get(k)
  {
    PutKeepsValid(t, key, value);
    PutTrimsOnlyEldest(t, key, value);
    PutReadBack(t, key, value);
    forall k | k != key
      ensures t.Put(key, value).Get(k) == None || t.Put(key, value).Get(k) == t.Get(k)
    {
      PutOtherKeys(t, key, value, k);
    }
  }

  /** `put` keeps LruCache's invariant. */
  lemma PutKeepsValid(t: LruTier, key: string, value: Bitmap)
    requires t.Valid()
    ensures t.Put(key, value).Valid()
  {
    var grown := Grown(t.entries, key, value);
    var r := TrimToSize(grown, t.maxSize);
    assert t.Put(key, value).entries == r;
    GrownFacts(t.entries, key, value);
    SuffixKeepsDistinctKeys(grown, |grown| - |r|);
  }

  lemma SuffixKeepsDistinctKeys(es: seq<Entry>, d: nat)
    requires DistinctKeys(es) && d <= |es|
    ensures DistinctKeys(es[d..])
  {
    forall i, j | 0 <= i < j < |es[d..]| ensures es[d..][i].key != es[d..][j].key {
      assert es[d..][i] == es[d + i] && es[d..][j] == es[d + j];
    }
  }

  /** `put` keeps the newest entries and evicts no more of the eldest than the bound needs. */
  lemma PutTrimsOnlyEldest(t: LruTier, key: string, value: Bitmap)
    ensures var grown, kept := Grown(t.entries, key, value), t.Put(key, value).entries;
      |kept| <= |grown| && kept == grown[|grown| - |kept|..]
      && (|kept| < |grown| ==> TotalSize(grown[|grown| - |kept| - 1..]) > t.maxSize)
  {
    var grown := Grown(t.entries, key, value);
    assert t.Put(key, value).entries == TrimToSize(grown, t.maxSize);
    TrimEvictsOnlyWhatItMust(grown, t.maxSize);
  }

  lemma {:induction false} LookupHit(es: seq<Entry>, i: nat)
    requires i < |es|
    ensures Lookup(es, es[i].key).Some?
  {
    if i > 0 && es[0].key != es[i].key {
      assert es[1..][i - 1] == es[i];
      LookupHit(es[1..], i - 1);
    }
  }

  /** `get` only reorders: every key keeps its value, the size is unchanged. */
  lemma TouchPreservesContents(t: LruTier, key: string)
    requires t.Valid()
    ensures t.Touched(key).Valid()
    ensures forall k :: t.Touched(key).Get(k) == t.Get(k)
  {
    match t.Get(key)
    case None =>
    case Some(v) =>
      var w := Without(t.entries, key);
      WithoutFacts(t.entries, key);
      TotalSizeAppend(w, [Entry(key, v)]);
      assert TotalSize([Entry(key, v)]) == Cost(Entry(key, v));
      assert DistinctKeys(w + [Entry(key, v)]) by {
        forall e | e in w ensures e.key != key {
          if e.key == key {
            var i :| 0 <= i < |w| && w[i] == e;
            LookupHit(w, i);
          }
        }
      }
      forall k ensures t.Touched(key).Get(k) == t.Get(k) {
        LookupAppend(w, [Entry(key, v)], k);
      }
  }

  lemma {:induction false} WithoutNewest(es: seq<Entry>)
    requires DistinctKeys(es) && es != []
    ensures Lookup(es, es[|es| - 1].key) == Some(es[|es| - 1].value)
    ensures Without(es, es[|es| - 1].key) == es[..|es| - 1]
  {
    var last := es[|es| - 1];
    if |es| > 1 {
      assert es[0].key != last.key;
      var tail := es[1..];
      assert tail[|tail| - 1] == last;
      WithoutNewest(tail);
      assert [es[0]] + tail[..|tail| - 1] == es[..|es| - 1];
    }
  }

  /**
   * The `get` that follows a `put` (the logging read in addImageToMemoryCache)
   * changes nothing: the entry just put is already the most recent one, or
   * it has been trimmed away.
   */
  lemma GetAfterPutKeepsOrder(t: LruTier, key: string, value: Bitmap)
    requires t.Valid()
    ensures t.Put(key, value).Touched(key) == t.Put(key, value)
    ensures t.Put(key, value).Valid()
  {
    var p := t.Put(key, value);
    PutSemantics(t, key, value);
    if p.entries != [] {
      var grown := Grown(t.entries, key, value);
      assert p.entries == grown[|grown| - |p.entries|..];
      assert p.entries[|p.entries| - 1] == Entry(key, value);
      WithoutNewest(p.entries);
      assert p.entries[..|p.entries| - 1] + [Entry(key, value)] == p.entries;
    }
  }

  /** `remove` forgets the key and nothing else. */
  lemma RemoveSemantics(t: LruTier, key: string)
    requires t.Valid()
    ensures t.Remove(key).Valid()
    ensures t.Remove(key).Get(key) == None
    ensures forall k :: k != key ==> t.Remove(key).Get(k) == t.Get(k)
  {
    WithoutFacts(t.entries, key);
  }

  /** `evictAll` empties the tier. */
  lemma EvictAllSemantics(t: LruTier)
    requires t.Valid()
    ensures t.EvictAll().Valid()
    ensures t.EvictAll().entries == []
  {
  }

  /** With no entry under `key`, removing `key` changes nothing. */
  lemma {:induction false} WithoutAbsent(es: seq<Entry>, key: string)
    requires forall i :: 0 <= i < |es| ==> es[i].key != key
    ensures Without(es, key) == es
  {
    if es != [] {
      assert es[0].key != key;
      assert forall i :: 0 <= i < |es[1..]| ==> es[1..][i] == es[i + 1];
      WithoutAbsent(es[1..], key);
      assert [es[0]] + es[1..] == es;
    }
  }

  /** A put of a new key whose cost fits beside the current size evicts nothing. */
  lemma PutNewKeyFits(t: LruTier, key: string, value: Bitmap)
    requires forall i :: 0 <= i < |t.entries| ==> t.entries[i].key != key
    requires TotalSize(t.entries) + SizeOf(Some(value)) <= t.maxSize
    ensures t.Put(key, value).entries == t.entries + [Entry(key, value)]
  {
    var e := Entry(key, value);
    WithoutAbsent(t.entries, key);
    assert TotalSize([e]) == Cost(e) by {
      assert [e][1..] == [];
    }
    TotalSizeAppend(t.entries, [e]);
  }

  /**
   * A put of a new key that overflows the bound, where evicting the eldest
   * entry is enough to fit, evicts exactly that entry.
   */
  lemma PutNewKeyEvictsEldest(t: LruTier, key: string, value: Bitmap)
    requires t.entries != []
    requires forall i :: 0 <= i < |t.entries| ==> t.entries[i].key != key
    requires TotalSize(t.entries) + SizeOf(Some(value)) > t.maxSize
    requires TotalSize(t.entries[1..]) + SizeOf(Some(value)) <= t.maxSize
    ensures t.Put(key, value).entries == t.entries[1..] + [Entry(key, value)]
  {
    var e := Entry(key, value);
    var grown := t.entries + [e];
    WithoutAbsent(t.entries, key);
    assert TotalSize([e]) == Cost(e) by {
      assert [e][1..] == [];
    }
    TotalSizeAppend(t.entries, [e]);
    TotalSizeAppend(t.entries[1..], [e]);
    assert grown[1..] == t.entries[1..] + [e];
    assert TrimToSize(grown, t.maxSize) == TrimToSize(grown[1..], t.maxSize);
  }

  /**
   * A bound of 100 units: put k1 (50), read k1, put k2 (40), put k3 (40).
   * The size would reach 130, so the least recently used entry, k1, is
   * evicted and k2 and k3 stay.
   */
  lemma EvictsLeastRecentlyUsed()
    ensures var b50, b40 := Bitmap(0, 0, 50 * 1024), Bitmap(0, 0, 40 * 1024);
      var t1 := NewTier(100).Put("k1", b50);
      var t4 := t1.Touched("k1").Put("k2", b40).Put("k3", b40);
      && t1.Get("k1") == Some(b50)
      && t4.Get("k1") == None && t4.Get("k2") == Some(b40) && t4.Get("k3") == Some(b40)
  {
    var b50, b40 := Bitmap(0, 0, 50 * 1024), Bitmap(0, 0, 40 * 1024);
    var e1, e2, e3 := Entry("k1", b50), Entry("k2", b40), Entry("k3", b40);
    var t1 := NewTier(100).Put("k1", b50);
    ScenarioFirstPut(t1);
    var t3 := t1.Touched("k1").Put("k2", b40);
    ScenarioSecondPut(t1, t3);
    var t4 := t3.Put("k3", b40);
    ScenarioThirdPut(t3, t4);
    assert [e1][1..] == [];
    LookupOfTwo(e2, e3, "k1");
    LookupOfTwo(e2, e3, "k2");
    LookupOfTwo(e2, e3, "k3");
  }

  lemma ScenarioFirstPut(t1: LruTier)
    requires t1 == NewTier(100).Put("k1", Bitmap(0, 0, 50 * 1024))
    ensures t1.entries == [Entry("k1", Bitmap(0, 0, 50 * 1024))]
    ensures t1.Touched("k1") == t1
  {
    var t0 := NewTier(100);
    assert SizeOf(Some(Bitmap(0, 0, 50 * 1024))) == 50;
    PutNewKeyFits(t0, "k1", Bitmap(0, 0, 50 * 1024));
    GetAfterPutKeepsOrder(t0, "k1", Bitmap(0, 0, 50 * 1024));
  }

  lemma ScenarioSecondPut(t1: LruTier, t3: LruTier)
    requires t1 == LruTier(100, [Entry("k1", Bitmap(0, 0, 50 * 1024))])
    requires t3 == t1.Put("k2", Bitmap(0, 0, 40 * 1024))
    ensures t3.entries == [Entry("k1", Bitmap(0, 0, 50 * 1024)), Entry("k2", Bitmap(0, 0, 40 * 1024))]
  {
    var e1 := Entry("k1", Bitmap(0, 0, 50 * 1024));
    assert "k1"[1] != "k2"[1];
    assert SizeOf(Some(Bitmap(0, 0, 40 * 1024))) == 40;
    assert TotalSize([e1]) == 50 by {
      assert [e1][1..] == [];
    }
    PutNewKeyFits(t1, "k2", Bitmap(0, 0, 40 * 1024));
  }

  lemma ScenarioThirdPut(t3: LruTier, t4: LruTier)
    requires t3 == LruTier(100, [Entry("k1", Bitmap(0, 0, 50 * 1024)), Entry("k2", Bitmap(0, 0, 40 * 1024))])
    requires t4 == t3.Put("k3", Bitmap(0, 0, 40 * 1024))
    ensures t4.entries == [Entry("k2", Bitmap(0, 0, 40 * 1024)), Entry("k3", Bitmap(0, 0, 40 * 1024))]
  {
    var e1, e2 := Entry("k1", Bitmap(0, 0, 50 * 1024)), Entry("k2", Bitmap(0, 0, 40 * 1024));
    assert "k1"[1] != "k3"[1] && "k2"[1] != "k3"[1];
    assert SizeOf(Some(Bitmap(0, 0, 40 * 1024))) == 40;
    assert [e1, e2][1..] == [e2] && [e2][1..] == [];
    assert TotalSize([e2]) == 40 && TotalSize([e1, e2]) == 90;
    PutNewKeyEvictsEldest(t3, "k3", Bitmap(0, 0, 40 * 1024));
  }

  /** `Lookup` on a list of two entries. */
  lemma LookupOfTwo(a: Entry, b: Entry, key: string)
    ensures Lookup([a, b], key) ==
      if a.key == key then Some(a.value) else if b.key == key then Some(b.value) else None
  {
    assert [a, b][1..] == [b] && [b][1..] == [];
    assert Lookup([b], key) == if b.key == key then Some(b.value) else None;
  }
}
