# Employee directory: image cache, image download and list cleaning in Dafny

This project models the core of the Employee Directory Android app. It covers four parts.

- **ImageCache** (`Caching`, `MemoryCache`, `DiskTier`, `UrlKey`). The class `Caching.ImageCache` has three fields: a memory tier (`android.util.LruCache` keyed by the raw image URL), a disk tier (`DiskLruCache` keyed by the URL's *formatted key*, absent until it opens) and the `diskCacheStarting` flag. Its methods are initialisation, put, get from either tier, remove and clear.
  - The memory tier is an access-ordered list of entries that a put trims from the eldest end. Each entry costs `byteCount / 1024`. The bound is `(maxMemory / 1024).toInt() / 8`, with Kotlin's 32-bit wrap-around and truncating division written out.
  - The disk tier is a map from key to bytes plus a `closed` flag.
  - The formatted key is the decimal value of the URL's first UTF-8 byte, or "-1" for an empty URL. So all URLs sharing a first byte share one disk entry, and every http(s) URL lands on "104". The model keeps this as the code has it.
- **ImageDownloader** (`Downloading`). The class `Downloading.ImageDownloader` keeps the source's mutable fields `inSampleSize` and `img`. It also records the listener callbacks delivered and, as ghost state, the connections opened.
  - `checkCachesForImage` prefers memory over disk.
  - `downloadImage` makes a bounds-only decode and, while the reported width or height exceeds the target, raises `inSampleSize` by 2 and recurses. It then makes a full decode.
  - `getImageResult` caches and reports every non-null result.
- **EmployeeViewModel** (`ViewModel`, `Collections`): the validity filter, the `distinctBy` dedups on uuid and email, and the screen-state transitions of `getEmployees`, as a class whose one method assigns both state fields.
- **EmployeeUiState** (`UiModel`): the UI records, their defaults, the field-by-field conversion and the four screen states.
- **Supporting modules:** `DataModel` holds the `Employee`, `EmployeeType` and `Response` records, with every field optional as in the source. `Wrappers` and `Graphics` hold `Option` and the bitmap and byte types.

**What is not modelled in detail:**
- **Outside systems.** The network, BitmapFactory and `Bitmap.compress` are parameters (oracles). The storage environment is a value, and so is what `DiskLruCache.open` finds on disk (its journal) or the fact that opening it failed.
- **A closed disk tier.** `clearAllCaches` deletes the disk tier and closes it but keeps the reference. Every later get, edit or remove on it throws IllegalStateException. `addImageToCache`, `getImageFromDiskCache` and `removeImageFromCaches` do not catch it. Neither do `checkCachesForImage`, `downloadImage` (the check runs before its try block) or `getImageResult`. Each of these methods returns an `escaped` flag that is true exactly when the disk tier was closed, and its contract says what changed before the throw.
- **Termination of the retry.** The source retries with no bound. The model proves termination only under an explicit assumption about the oracle. A ghost `budget` says how many retries it takes until an attempt's bounds fit (`requires !Oversized(AttemptAt(net, url, inSampleSize, budget), …)`). There is no fuel parameter, so the retry count is never cut short.

**The disk key is one byte of the URL.** The comment above `formatUrlKey` says it formats "GUID (url string) keys" (`app/src/main/java/com/block/employeedirectory/ui/adapter/ImageCache.kt:235`), which suggests one disk entry per image. The code reads only the first byte of the URL (`app/src/main/java/com/block/employeedirectory/ui/adapter/ImageCache.kt:236`). The model follows the code and proves the collisions: `UrlKey.SameKeyIffSameFirstByte`, `UrlKey.HttpsUrlsShareKey104` and `Caching.RemovalSpreadsToKeySharers`.

Paths below are relative to the repository root.

## Model

| member | source | states |
|---|---|---|
| UiModel.ToEmployeeItemUiState | app/src/main/java/com/block/employeedirectory/ui/model/EmployeeUiState.kt:24-34 | the item copies all nine fields of the employee unchanged; `ItemSource` recovers the employee |
| UiModel.ToEmployeeItemUiStateInjective | app/src/main/java/com/block/employeedirectory/ui/model/EmployeeUiState.kt:12-34 | two employees give equal items if and only if they are equal |
| UiModel.DefaultUiStateIsEmpty | app/src/main/java/com/block/employeedirectory/ui/model/EmployeeUiState.kt:6-10 | the default UI state is EMPTY with no items and no error messages |
| UiModel.ScreenStateHasFourValues | app/src/main/java/com/block/employeedirectory/ui/model/EmployeeUiState.kt:37-42 | every screen state is one of LOADING, ERROR, EMPTY, DATA, and these four are distinct |
| UiModel.ToEmployeeItems | app/src/main/java/com/block/employeedirectory/ui/viewmodel/EmployeeViewModel.kt:47 | one item per employee, in order, each made from the employee at the same index |
| Collections.FilterNot | app/src/main/java/com/block/employeedirectory/ui/viewmodel/EmployeeViewModel.kt:76 | `filterNot` keeps an order-preserving subsequence; each element's count is kept when the predicate is false and dropped to 0 when it is true |
| Collections.DistinctBy | app/src/main/java/com/block/employeedirectory/ui/viewmodel/EmployeeViewModel.kt:80-83 | `distinctBy` returns a subsequence no longer than the input, with pairwise distinct keys and exactly the input's set of keys |
| Collections.DistinctByKeepsFirstOccurrences | app/src/main/java/com/block/employeedirectory/ui/viewmodel/EmployeeViewModel.kt:80-83 | `distinctBy` equals the reference list of first occurrences of each key |
| Collections.DistinctByOfDistinct | app/src/main/java/com/block/employeedirectory/ui/viewmodel/EmployeeViewModel.kt:80-83 | a list whose keys are already distinct is returned unchanged |
| Collections.DistinctByIdempotent | app/src/main/java/com/block/employeedirectory/ui/viewmodel/EmployeeViewModel.kt:80-83 | applying `distinctBy` twice gives the same list as applying it once |
| ViewModel.IsNullOrBlank | app/src/main/java/com/block/employeedirectory/ui/viewmodel/EmployeeViewModel.kt:70-74 | Kotlin's `isNullOrBlank`: null, or only whitespace characters |
| ViewModel.MatchesAnyFilter | app/src/main/java/com/block/employeedirectory/ui/viewmodel/EmployeeViewModel.kt:70-74 | the five removal conditions combined by `any`; `RemoveEmployeesThatMatchFilters` proves that the filter keeps exactly the records matching none of them |
| ViewModel.RemoveEmployeesThatMatchFilters | app/src/main/java/com/block/employeedirectory/ui/viewmodel/EmployeeViewModel.kt:66-77 | the result is a subsequence of the input; a record is kept, with all its copies, if and only if uuid, name, email and team are non-null and not blank and the type is non-null |
| ViewModel.FilterIgnoresOtherFields | app/src/main/java/com/block/employeedirectory/ui/viewmodel/EmployeeViewModel.kt:70-76 | records that agree on uuid, name, email, team and type are filtered alike, so phone, bio and photos play no part |
| ViewModel.GetDistinctEmployeeUuid | app/src/main/java/com/block/employeedirectory/ui/viewmodel/EmployeeViewModel.kt:80 | a subsequence, no longer than the input, with pairwise distinct uuids (null included) and the same set of uuids |
| ViewModel.GetDistinctEmployeeEmail | app/src/main/java/com/block/employeedirectory/ui/viewmodel/EmployeeViewModel.kt:83 | a subsequence, no longer than the input, with pairwise distinct emails and the same set of emails |
| ViewModel.DedupsKeepFirstAndAreIdempotent | app/src/main/java/com/block/employeedirectory/ui/viewmodel/EmployeeViewModel.kt:80-83 | each dedup keeps exactly the first record of every uuid (email), and each is idempotent |
| ViewModel.SuccessShowsFilteredRecords | app/src/main/java/com/block/employeedirectory/ui/viewmodel/EmployeeViewModel.kt:41-48 | on Success the screen is EMPTY if and only if the raw list is null or empty, otherwise DATA; for a non-null list the UI state has that screen state, no errors, and exactly the filtered records as items, in order |
| ViewModel.DataEvenWhenAllFiltered | app/src/main/java/com/block/employeedirectory/ui/viewmodel/EmployeeViewModel.kt:42-48 | a non-empty list whose every record is filtered out still shows DATA, with no items |
| ViewModel.ErrorPathsShowOneMessage | app/src/main/java/com/block/employeedirectory/ui/viewmodel/EmployeeViewModel.kt:50-60 | Response.Error and IOException both show ERROR, no items, and the one message, or "Error" when the message is null |
| ViewModel.CompletedRunsAgree | app/src/main/java/com/block/employeedirectory/ui/viewmodel/EmployeeViewModel.kt:36-59 | the UI state's screen state equals the screen-state field exactly when the run completes without an escaping exception |
| ViewModel.DuplicatesStayListed | app/src/main/java/com/block/employeedirectory/ui/viewmodel/EmployeeViewModel.kt:46-48 | the dedups' results are discarded, so a duplicated displayable record is listed twice while the uuid dedup would keep one |
| ViewModel.EmployeeViewModel.constructor | app/src/main/java/com/block/employeedirectory/ui/viewmodel/EmployeeViewModel.kt:24-27 | a new view model shows the default UI state and the EMPTY screen state |
| ViewModel.GetEmployeesOutcome | app/src/main/java/com/block/employeedirectory/ui/viewmodel/EmployeeViewModel.kt:36-59 | the end state of one run for each repository outcome; the lemmas `SuccessShowsFilteredRecords`, `DataEvenWhenAllFiltered`, `ErrorPathsShowOneMessage` and `CompletedRunsAgree` state what it means |
| ViewModel.EmployeeViewModel.GetEmployees | app/src/main/java/com/block/employeedirectory/ui/viewmodel/EmployeeViewModel.kt:31-63 | after one run both fields and the escape flag are those `GetEmployeesOutcome` gives for the repository's outcome |
| UrlKey.IntToStringRoundTrip | app/src/main/java/com/block/employeedirectory/ui/adapter/ImageCache.kt:236 | `Int.toString()` parses back to the same integer, so it is injective |
| UrlKey.FirstByteIsLeadByte | app/src/main/java/com/block/employeedirectory/ui/adapter/ImageCache.kt:236 | the key byte is -1 for the empty URL and otherwise the first UTF-8 byte of the first character; it lies in -1..255 |
| UrlKey.LeadByteRange | app/src/main/java/com/block/employeedirectory/ui/adapter/ImageCache.kt:236 | the first UTF-8 byte of a character is the character itself below 0x80, otherwise 0xC2..0xF4 |
| UrlKey.FormatUrlKey | app/src/main/java/com/block/employeedirectory/ui/adapter/ImageCache.kt:235-236 | the definition: the decimal string of the URL's first UTF-8 byte, or of -1 for the empty URL; its properties are in `FormatUrlKeyRange` and `SameKeyIffSameFirstByte` |
| UrlKey.FormatUrlKeyRange | app/src/main/java/com/block/employeedirectory/ui/adapter/ImageCache.kt:236 | the disk key is a decimal string of at most three characters, parsing to a value in -1..255, and it is "-1" exactly for the empty URL |
| UrlKey.SameKeyIffSameFirstByte | app/src/main/java/com/block/employeedirectory/ui/adapter/ImageCache.kt:236 | two URLs share a disk key if and only if their UTF-8 encodings start with the same byte |
| UrlKey.SameFirstCharSharesKey | app/src/main/java/com/block/employeedirectory/ui/adapter/ImageCache.kt:236 | URLs that start with the same character share one disk key |
| UrlKey.HttpsUrlsShareKey104 | app/src/main/java/com/block/employeedirectory/ui/adapter/ImageCache.kt:236 | every URL starting with 'h' (so every http and https URL) has disk key "104" |
| MemoryCache.SizeOf | app/src/main/java/com/block/employeedirectory/ui/adapter/ImageCache.kt:62-64 | an entry costs its byte count divided by 1024, rounded down, and 0 for a null bitmap |
| MemoryCache.NewTier | app/src/main/java/com/block/employeedirectory/ui/adapter/ImageCache.kt:60-65 | a new memory tier satisfies LruCache's invariant and holds nothing |
| MemoryCache.LruTier.Touched | app/src/main/java/com/block/employeedirectory/ui/adapter/ImageCache.kt:134 | the definition of `get`'s reordering: a hit moves the entry to the most recent end; `TouchPreservesContents` proves that only the order changes |
| MemoryCache.LruTier.Put | app/src/main/java/com/block/employeedirectory/ui/adapter/ImageCache.kt:126 | the definition of `put`: replace or append as most recent, then trim; its properties are in `PutSemantics`, `PutReadBack`, `PutOtherKeys`, `PutNewKeyFits` and `PutNewKeyEvictsEldest` |
| MemoryCache.LruTier.Remove | app/src/main/java/com/block/employeedirectory/ui/adapter/ImageCache.kt:165 | the definition of `remove`; `RemoveSemantics` proves that only that key is forgotten |
| MemoryCache.LruTier.EvictAll | app/src/main/java/com/block/employeedirectory/ui/adapter/ImageCache.kt:189 | the definition of `evictAll` as `trimToSize(-1)`; `EvictAllSemantics` proves that it empties the tier |
| MemoryCache.TrimToSize | app/src/main/java/com/block/employeedirectory/ui/adapter/ImageCache.kt:126 | trimming keeps a suffix (the most recently used entries) whose total size fits the bound, or nothing |
| MemoryCache.TrimEvictsOnlyWhatItMust | app/src/main/java/com/block/employeedirectory/ui/adapter/ImageCache.kt:126 | the trim stops as soon as the rest fits: the suffix one entry longer than the one kept exceeds the bound |
| MemoryCache.PutReadBack | app/src/main/java/com/block/employeedirectory/ui/adapter/ImageCache.kt:126 | after a put the key reads back the new bitmap when its cost fits the bound; a bitmap bigger than the bound empties the tier |
| MemoryCache.PutOtherKeys | app/src/main/java/com/block/employeedirectory/ui/adapter/ImageCache.kt:126 | a put leaves every other key with its old value, or evicts it |
| MemoryCache.PutSemantics | app/src/main/java/com/block/employeedirectory/ui/adapter/ImageCache.kt:126 | a put keeps the invariant (distinct keys, total size within the bound), reads back the new value when it fits, and only evicts other keys; the entries kept are the newest of the grown list, and only as many of the eldest are evicted as the bound needs |
| MemoryCache.PutKeepsValid | app/src/main/java/com/block/employeedirectory/ui/adapter/ImageCache.kt:126 | a put keeps LruCache's invariant: positive bound, distinct keys, size within the bound |
| MemoryCache.PutTrimsOnlyEldest | app/src/main/java/com/block/employeedirectory/ui/adapter/ImageCache.kt:126 | a put keeps the newest entries of the grown list and evicts only as many of the eldest as the bound needs |
| MemoryCache.PutReadBackWhenFits | app/src/main/java/com/block/employeedirectory/ui/adapter/ImageCache.kt:126 | a put whose value's own cost fits the bound leaves that value readable under its key |
| MemoryCache.GetAfterPutKeepsOrder | app/src/main/java/com/block/employeedirectory/ui/adapter/ImageCache.kt:126-127 | the logging get right after a put leaves the tier exactly as the put left it |
| MemoryCache.TouchPreservesContents | app/src/main/java/com/block/employeedirectory/ui/adapter/ImageCache.kt:134 | a get that reorders the tier keeps the invariant and every key's value |
| MemoryCache.RemoveSemantics | app/src/main/java/com/block/employeedirectory/ui/adapter/ImageCache.kt:165 | a remove keeps the invariant, the removed key reads null, and every other key keeps its value |
| MemoryCache.EvictAllSemantics | app/src/main/java/com/block/employeedirectory/ui/adapter/ImageCache.kt:189 | evictAll leaves the tier valid and empty |
| MemoryCache.PutNewKeyFits | app/src/main/java/com/block/employeedirectory/ui/adapter/ImageCache.kt:126 | a put of a key the tier does not hold, whose cost fits beside the current size, appends it as most recent and evicts nothing |
| MemoryCache.PutNewKeyEvictsEldest | app/src/main/java/com/block/employeedirectory/ui/adapter/ImageCache.kt:126 | a put of a new key that overflows the bound, where dropping the eldest entry is enough, evicts exactly that entry and appends the new one |
| MemoryCache.WithoutAbsent | app/src/main/java/com/block/employeedirectory/ui/adapter/ImageCache.kt:126 | removing a key the tier does not hold leaves the entries unchanged |
| MemoryCache.EvictsLeastRecentlyUsed | app/src/main/java/com/block/employeedirectory/ui/adapter/ImageCache.kt:60-65 | with a bound of 100 KiB: put k1 (50), get k1, put k2 (40), put k3 (40) evicts k1 and keeps k2 and k3 |
| MemoryCache.ScenarioFirstPut | app/src/main/java/com/block/employeedirectory/ui/adapter/ImageCache.kt:126 | in that scenario the first put leaves exactly the k1 entry, and a get of k1 does not change it |
| MemoryCache.ScenarioSecondPut | app/src/main/java/com/block/employeedirectory/ui/adapter/ImageCache.kt:126 | in that scenario the second put leaves k1 then k2, with nothing evicted |
| MemoryCache.ScenarioThirdPut | app/src/main/java/com/block/employeedirectory/ui/adapter/ImageCache.kt:126 | in that scenario the third put evicts the eldest entry k1, leaving k2 then k3 |
| DiskTier.DiskStore.Get | app/src/main/java/com/block/employeedirectory/ui/adapter/ImageCache.kt:152 | a snapshot exists exactly when the key has an entry, and it holds that entry's bytes |
| DiskTier.DiskStore.Commit | app/src/main/java/com/block/employeedirectory/ui/adapter/ImageCache.kt:102-112 | after a commit the key reads the new bytes, other keys are unchanged, and the key set gains only that key |
| DiskTier.DiskStore.Remove | app/src/main/java/com/block/employeedirectory/ui/adapter/ImageCache.kt:173 | after a remove the key reads null and other keys are unchanged |
| DiskTier.DiskStore.Delete | app/src/main/java/com/block/employeedirectory/ui/adapter/ImageCache.kt:195 | delete closes the store and removes every entry |
| DiskTier.Open | app/src/main/java/com/block/employeedirectory/ui/adapter/ImageCache.kt:73-78 | the opened store is open, lives in the given directory and holds the entries its journal lists |
| Caching.MemoryCacheCapacity | app/src/main/java/com/block/employeedirectory/ui/adapter/ImageCache.kt:57-58 | the definition of the bound `(maxMemory / 1024).toInt() / 8`, using `ToInt` and truncating division; `CapacityIsEighthOfHeap` and `UnlimitedHeapGivesNoCapacity` state its values |
| Caching.ToInt | app/src/main/java/com/block/employeedirectory/ui/adapter/ImageCache.kt:57 | `Long.toInt()` gives a 32-bit value congruent to its argument modulo 2^32, and the argument itself when it already fits |
| Caching.CapacityIsEighthOfHeap | app/src/main/java/com/block/employeedirectory/ui/adapter/ImageCache.kt:57-58 | for heaps below 2 TiB the memory bound is maxMemory/8192 KiB, and it is positive if and only if the heap is at least 8 KiB |
| Caching.UnlimitedHeapGivesNoCapacity | app/src/main/java/com/block/employeedirectory/ui/adapter/ImageCache.kt:57-60 | a maxMemory of Long.MAX_VALUE wraps to a memory bound of 0 |
| Caching.GetDiskCacheDir | app/src/main/java/com/block/employeedirectory/ui/adapter/ImageCache.kt:203-215 | the external cache path ("null" when it is absent) when storage is mounted or not removable, otherwise the internal one, followed by the separator and the name |
| Caching.MemoryGetKeepsContents | app/src/main/java/com/block/employeedirectory/ui/adapter/ImageCache.kt:132-137 | a memory get keeps the tier valid, with the same bound and every key's value; a miss, or an uninitialised tier, changes nothing |
| Caching.DiskLookup | app/src/main/java/com/block/employeedirectory/ui/adapter/ImageCache.kt:140-153 | a disk hit implies that the URL's formatted key has an entry |
| Caching.DiskLookupByFirstByte | app/src/main/java/com/block/employeedirectory/ui/adapter/ImageCache.kt:140-153 | URLs with the same first byte get the same answer from the disk tier |
| Caching.RemovalSpreadsToKeySharers | app/src/main/java/com/block/employeedirectory/ui/adapter/ImageCache.kt:155-177 | removing one URL from the disk tier makes every URL with the same first byte miss there |
| Caching.DiskAfterAdd | app/src/main/java/com/block/employeedirectory/ui/adapter/ImageCache.kt:92-121 | an add keeps the disk tier open, with the same key set and other keys unchanged; the formatted key's entry is replaced if and only if it already existed and compression succeeded |
| Caching.AddedImageReadsBack | app/src/main/java/com/block/employeedirectory/ui/adapter/ImageCache.kt:96-112 | when the formatted key already had an entry, an image whose compression succeeded reads back, decoded, through its URL |
| Caching.AddsNeverFillEmptyDisk | app/src/main/java/com/block/employeedirectory/ui/adapter/ImageCache.kt:85-121 | since only existing entries are rewritten, an empty disk tier stays empty under any sequence of adds |
| Caching.DiskAfterAdds | app/src/main/java/com/block/employeedirectory/ui/adapter/ImageCache.kt:85-121 | any sequence of adds leaves an open disk tier open |
| Caching.ImageCache.constructor | app/src/main/java/com/block/employeedirectory/ui/adapter/ImageCache.kt:35-39 | no disk tier, no memory tier, and `diskCacheStarting` true |
| Caching.ImageCache.InitializeCache | app/src/main/java/com/block/employeedirectory/ui/adapter/ImageCache.kt:41-54 | the memory tier is replaced by an empty one bounded by the heap-derived capacity; a successful open installs the disk tier and clears the flag, and a failed open leaves the disk tier and the flag as they were |
| Caching.ImageCache.InitializeMemoryCache | app/src/main/java/com/block/employeedirectory/ui/adapter/ImageCache.kt:56-66 | the memory tier is a new empty tier bounded by `(maxMemory/1024).toInt()/8`; nothing else changes |
| Caching.ImageCache.InitializeDiskCache | app/src/main/java/com/block/employeedirectory/ui/adapter/ImageCache.kt:68-83 | the disk tier is the store opened in the chosen directory with version 1, one value and 10 MiB, and the flag is cleared |
| Caching.ImageCache.AddImageToCache | app/src/main/java/com/block/employeedirectory/ui/adapter/ImageCache.kt:85-122 | the memory tier (if initialised) gets the put under the raw URL; the disk tier changes as `DiskAfterAdd` under the formatted key; the flag is unchanged; on a closed disk tier the exception escapes after the memory put and the disk tier is unchanged |
| Caching.ImageCache.AddImageToMemoryCache | app/src/main/java/com/block/employeedirectory/ui/adapter/ImageCache.kt:124-129 | an initialised memory tier ends as the put's result, because the logging get after it changes nothing; an uninitialised one stays absent |
| Caching.ImageCache.PutIntoMemoryCache | app/src/main/java/com/block/employeedirectory/ui/adapter/ImageCache.kt:126 | the initialised memory tier becomes the put's result, and the cache invariant still holds |
| Caching.ImageCache.GetImageFromMemoryCache | app/src/main/java/com/block/employeedirectory/ui/adapter/ImageCache.kt:132-137 | the result is the memory tier's value under the raw URL (null when uninitialised), and a hit becomes the most recently used entry |
| Caching.ImageCache.GetImageFromDiskCache | app/src/main/java/com/block/employeedirectory/ui/adapter/ImageCache.kt:140-153 | once the flag is down, the result is the decoded snapshot under the formatted key, and a hit implies that entry exists; the exception escapes exactly when the disk tier is closed |
| Caching.ImageCache.RemoveImageFromCaches | app/src/main/java/com/block/employeedirectory/ui/adapter/ImageCache.kt:155-177 | the raw URL leaves the memory tier and its formatted key the disk tier; an IOException leaves the disk tier as it was; on a closed disk tier the IllegalStateException escapes the IOException catch, after the memory removal, with the disk tier unchanged |
| Caching.ImageCache.ClearAllCaches | app/src/main/java/com/block/employeedirectory/ui/adapter/ImageCache.kt:179-199 | the memory tier is emptied and the disk tier deleted and closed; an IOException leaves the disk tier as it was |
| Downloading.RetryCount | app/src/main/java/com/block/employeedirectory/ui/adapter/ImageDownloader.kt:72-74 | the number of retries is within the assumed budget, and the attempt it reaches has bounds that fit the box |
| Downloading.RetriesOnlyWhileOversized | app/src/main/java/com/block/employeedirectory/ui/adapter/ImageDownloader.kt:72-74 | every attempt before the settling one reported a width or height over the limit |
| Downloading.RetryStep | app/src/main/java/com/block/employeedirectory/ui/adapter/ImageDownloader.kt:72-74 | an oversized attempt gives one more retry than the sequence starting two sample sizes higher, with its connections following the first one |
| Downloading.AttemptsShape | app/src/main/java/com/block/employeedirectory/ui/adapter/ImageDownloader.kt:60-81 | attempt i opens a bounds-only connection at sample size s+2i; the full-decode connection, if any, comes last at the final sample size |
| Downloading.FullDecodeComesLast | app/src/main/java/com/block/employeedirectory/ui/adapter/ImageDownloader.kt:72-81 | the only full-decode connection is the last one, and it exists only when the last attempt decoded bounds |
| Downloading.FullDecodeOnlyWithinBounds | app/src/main/java/com/block/employeedirectory/ui/adapter/ImageDownloader.kt:72-81 | a full decode runs only at the settling sample size, on bounds within both limits |
| Downloading.FittingImageIsNotDownsampled | app/src/main/java/com/block/employeedirectory/ui/adapter/ImageDownloader.kt:72-81 | an image that fits at the starting sample size is fetched with no retry |
| Downloading.NonImageGivesNullWithoutError | app/src/main/java/com/block/employeedirectory/ui/adapter/ImageDownloader.kt:67-81 | for any network whose first attempt is a stream that is no image (bounds -1 x -1, null decode), the retry count is 0 and the settling attempt gives a null result and no onError |
| Downloading.ImageDownloader.constructor | app/src/main/java/com/block/employeedirectory/ui/adapter/ImageDownloader.kt:21-28 | the cache and target box as given, inSampleSize 0, no image, no listener, nothing delivered or opened |
| Downloading.ImageDownloader.SetListener | app/src/main/java/com/block/employeedirectory/ui/adapter/ImageDownloader.kt:36-38 | a listener is installed; nothing else changes |
| Downloading.ImageDownloader.CheckCachesForImage | app/src/main/java/com/block/employeedirectory/ui/adapter/ImageDownloader.kt:40-51 | the memory hit if there is one, else the disk hit, else null; the disk tier is queried either way and left unchanged, and only the memory tier's order changes; a closed disk tier throws from the first query, before the memory tier is touched |
| Downloading.ImageDownloader.DownloadImage | app/src/main/java/com/block/employeedirectory/ui/adapter/ImageDownloader.kt:54-92 | on a closed disk tier the cache check's exception escapes before anything changes; otherwise a cache hit is returned with no connection, retry or callback; on a miss inSampleSize grows by 2 per retry, the result is the settling attempt's bitmap (the shared `img`), its exception alone reaches onError, and the connections are exactly the retry sequence |
| Downloading.ImageDownloader.FetchImage | app/src/main/java/com/block/employeedirectory/ui/adapter/ImageDownloader.kt:58-88 | after a cache miss: the same retry count, result, callbacks and connections as downloadImage, with both cache tiers untouched |
| Downloading.ImageDownloader.Retry | app/src/main/java/com/block/employeedirectory/ui/adapter/ImageDownloader.kt:72-74 | an oversized attempt leaves null in `img` and raises inSampleSize by 2; the repeated downloadImage then ends with the result, callbacks and connections of the attempts from that sample size on |
| Downloading.ImageDownloader.SettleAttempt | app/src/main/java/com/block/employeedirectory/ui/adapter/ImageDownloader.kt:75-87 | an attempt that fits keeps the full decode's bitmap, or reports its exception to onError and keeps null |
| Downloading.ImageDownloader.GetImageResult | app/src/main/java/com/block/employeedirectory/ui/adapter/ImageDownloader.kt:94-103 | the result is what downloadImage found; only a non-null result, cached ones included, is put into both tiers and reported through onSuccess after the download's own callbacks; the memory tier ends as the put applied to the tier after the download's get; the listener setting is kept, `img` holds the result, and inSampleSize and the connections end as downloadImage leaves them (unchanged on a cache hit, raised by 2 per retry and extended by the retry sequence on a miss); a null result leaves both tiers as they were; on a closed disk tier the exception escapes with no callback and nothing changed |
| Downloading.ImageDownloader.CacheAndReport | app/src/main/java/com/block/employeedirectory/ui/adapter/ImageDownloader.kt:97-100 | after a non-null download: the memory tier gets the put, the disk tier changes as `DiskAfterAdd`, onSuccess is delivered when a listener is set, and the downloader's other fields are unchanged |

## Left out

- Concurrency is not modelled: the `ReentrantLock`, its `Condition` wait and `signalAll`, `synchronized`, `Dispatchers.IO` and the cancellation of `fetchJob`. Every operation runs sequentially. The LOADING state that `getEmployees` shows in passing is visible only to a concurrent observer.
- Caching.ImageCache.GetImageFromDiskCache: the wait loop becomes `requires !diskCacheStarting`, and on the downloader it becomes `DiskReady`. Those preconditions exclude a run where the source never returns. The flag starts up, a failed `DiskLruCache.open` in `initializeCache` leaves it up, and nothing else lowers it. One way `open` can fail is the "null/employee_thumbnails" path that `getDiskCacheDir` builds when the external cache directory is absent. After that, every `getImageFromDiskCache`, `checkCachesForImage`, `downloadImage` and `getImageResult` on that cache waits forever on a condition that nothing signals. The model does not describe those calls.
- Caching.ImageCache.InitializeCache: requires a positive memory bound. `LruCache` throws `IllegalArgumentException` for a bound of 0 or less, which `UnlimitedHeapGivesNoCapacity` shows can happen.
- Caching.ImageCache.InitializeMemoryCache: requires a positive memory bound, for the same reason as `InitializeCache`, its only caller.
- MemoryCache.NewTier: requires a positive bound, because the `LruCache` constructor throws for a bound of 0 or less.
- DiskLruCache's own size-bound eviction, its journal and its files are not modelled. The disk tier is a map with no size limit.
- An IOException part-way through a disk remove or delete is not modelled. `diskIoFails` stands for the IOException, and the disk tier is then taken to be unchanged.
- An IOException while reading a disk snapshot is not modelled. It makes `getImageFromDiskCache` return null, which `decode` returning None covers.
- `addImageToCache` closes its output stream before `compress` writes to it. Closing the `BufferedOutputStream` also closes the editor's stream, so in the program no compressed byte can reach the entry file. The model does not capture this: `compress` is an oracle for the bytes that reach the entry (None when it reports failure). So `Caching.AddedImageReadsBack` and the replace clause of `Caching.DiskAfterAdd` hold for that oracle, not for the program as written. In the library itself (DiskLruCache 2.0.2, which is not part of this model), the editor's stream hides the write failure and sets the editor's error flag. `Editor.commit()` then aborts the edit and removes the key. So where the model rewrites an existing entry, the program drops it from the disk tier. An editor left open after an exception is not modelled either.
- BitmapFactory, `HttpURLConnection` and `Bitmap.compress` are oracles. The network is a fixed function of URL and sample size, so two connections with the same parameters see the same data.
- Downloading.ImageDownloader.DownloadImage: termination rests on the assumption that the oracle settles within `budget` retries. Under an oracle that reports oversized bounds forever, the source recurses without end, but only on a cache miss. On a cache hit the source opens no connection and returns whatever the network would do, yet the precondition still asks the oracle to settle, so the model does not describe a hit under such an oracle.
- Downloading.ImageDownloader.GetImageResult: takes the same settling precondition from `downloadImage`, so it too excludes a cache hit under an oracle that never settles, although the source returns normally there.
- `Bitmap.asImageBitmap()` is the identity here. The listener receives the bitmap itself.
- `getMemoryCacheSize` and `getDiskCacheSize` are left out; they are unused readers of the library's size.
- `File` path normalisation is left out. The directory is the concatenated string that `getDiskCacheDir` builds.
- URLs are sequences of Unicode scalar values. A lone UTF-16 surrogate, which the JVM encodes as '?', is not modelled.
- `Log` calls, `print` in `getEmployees` and the I/O buffer sizes are left out.
- Null elements inside the employee list are not modelled. A null list is modelled: it escapes `getEmployees` as a NullPointerException.
- Exceptions thrown by the repository other than IOException are not modelled. The repository's outcome is a response or an IOException.
- The repository, Retrofit service, remote data source, dependency injection, the Compose activity and the test fake are outside this model.
