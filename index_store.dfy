/**
 * The vector-index store of `utils/faiss_utils.py`: loading with a module
 * cache and recovery from the `.bak` file, a bounded retry on lock
 * timeouts, and saving through a `.tmp` file with a backup that is restored
 * when the save fails.
 *
 * A FAISS index is modelled by its vector count `ntotal` and its vectors,
 * kept opaque.  The file system is the index file, its `.tmp` and its
 * `.bak` siblings, each with the image it holds and its modification time.
 * Lock attempts, the directory's write permission, `faiss.write_index`
 * failures and the clock are parameters of the store.
 */
module IndexStore {
  import opened Common

  /** An embedding; its values are never inspected. */
  type Vector = seq<real>

  /** An in-memory FAISS index.  Adding mutates it, whoever else holds it. */
  class VectorIndex {
    var ntotal: int
    var vectors: seq<Vector>

    /** `_create_new_index`: an empty index. */
    constructor Empty()
      ensures ntotal == 0 && vectors == []
    {
      ntotal := 0;
      vectors := [];
    }

    /** `faiss.read_index` of a readable file. */
    constructor Read(ntotal: int, vectors: seq<Vector>)
      ensures this.ntotal == ntotal && this.vectors == vectors
    {
      this.ntotal := ntotal;
      this.vectors := vectors;
    }

    /** `index.add(vector)`: one more vector, at the end. */
    method Add(v: Vector)
      modifies this
      ensures ntotal == old(ntotal) + 1 && vectors == old(vectors) + [v]
    {
      ntotal := ntotal + 1;
      vectors := vectors + [v];
    }
  }

  /** `FAISS_INDEX_PATH` and its `.tmp` and `.bak` siblings. */
  datatype Slot = Canonical | Temp | Backup

  /** What a file holds: an index image (whose count may claim to be negative), or bytes FAISS cannot read. */
  datatype Image = Stored(ntotal: int, vectors: seq<Vector>) | Unreadable

  datatype IndexFile = IndexFile(image: Image, mtime: int)

  type Disk = map<Slot, IndexFile>

  /** `_cache_metadata`: the file's mtime and the index's count when the cache was filled. */
  datatype CacheMeta = CacheMeta(mtime: int, size: int)

  /** The exceptions that leave these functions. */
  datatype Failure = LockTimeout | RuntimeFailure | PermissionDenied

  datatype LoadResult = Loaded(index: VectorIndex) | LoadFailed(failure: Failure)

  datatype SaveResult = Saved | SaveFailed(failure: Failure)

  /** What reading the index file finds: nothing, something `load_faiss_index` rejects with a `RuntimeError`, or an index. */
  datatype Found = NoFile | Corrupt | Intact(ntotal: int, vectors: seq<Vector>, mtime: int)

  function Find(disk: Disk): (f: Found)
    ensures f.Intact? ==> f.ntotal >= 0
    ensures f.NoFile? <==> Canonical !in disk
  {
    if Canonical !in disk then NoFile
    else
      match disk[Canonical].image
      case Unreadable => Corrupt
      case Stored(n, vs) => if n < 0 then Corrupt else Intact(n, vs, disk[Canonical].mtime)
  }

  /** `os.replace(backup_path, index_path)` when the backup exists. */
  function RestoredBackup(disk: Disk): (r: Disk)
    ensures Backup !in r
    ensures Backup in disk ==> Canonical in r && r[Canonical] == disk[Backup]
    ensures Backup !in disk ==> r == disk
  {
    if Backup in disk then disk[Canonical := disk[Backup]] - {Backup} else disk
  }

  /**
   * The renames that end a successful save: remove the old backup, move the
   * index file to `.bak`, move `.tmp` into its place, remove the backup.
   * What is left is the written file alone.
   */
  function Promoted(disk: Disk): (r: Disk)
    requires Temp in disk
    ensures r == map[Canonical := disk[Temp]]
  {
    var d1 := if Backup in disk then disk - {Backup} else disk;
    var d2 := if Canonical in d1 then d1[Backup := d1[Canonical]] - {Canonical} else d1;
    var d3 := d2[Canonical := d2[Temp]] - {Temp};
    var d4 := if Backup in d3 then d3 - {Backup} else d3;
    assert Temp !in d4 && Backup !in d4 && Canonical in d4 && d4[Canonical] == disk[Temp];
    assert forall k :: k in d4 <==> k.Canonical?;
    d4
  }

  /** A backup is consumed by its restoration, so a second restoration changes nothing. */
  lemma RestoreAtMostOnce(disk: Disk)
    ensures RestoredBackup(RestoredBackup(disk)) == RestoredBackup(disk)
  {
  }

  /** What `load_faiss_index` gives: a lock timeout, the cached object, or a new object with this content. */
  datatype Expected = Fails | Cached | Fresh(ntotal: int, vectors: seq<Vector>)

  /**
   * The outcome of `load_faiss_index` from a disk, given whether the cache
   * short-cut applies and the lock attempts from the `locks`-th on.  A corrupt
   * file with a backup is restored and loaded again without the cache.
   */
  function ExpectedLoad(hit: bool, disk: Disk, lockFree: nat -> bool, locks: nat): (e: Expected)
    ensures e.Cached? <==> hit
    decreases if Backup in disk then 1 else 0
  {
    if hit then Cached
    else
      match Find(disk)
      case NoFile => Fresh(0, [])
      case Intact(n, vs, _) => if lockFree(locks) then Fresh(n, vs) else Fails
      case Corrupt =>
        if !lockFree(locks) then Fails
        else if Backup in disk then ExpectedLoad(false, RestoredBackup(disk), lockFree, locks + 1)
        else Fresh(0, [])
  }

  /**
   * The lock attempts `load_faiss_index` makes, from the `locks`-th on: none
   * on a cache hit or a missing file, one for the read, and after a
   * restoration those of the load again.
   */
  function LocksUsed(hit: bool, disk: Disk, lockFree: nat -> bool, locks: nat): (n: nat)
    ensures n <= 2
    ensures n == 0 <==> hit || Find(disk).NoFile?
    decreases if Backup in disk then 1 else 0
  {
    if hit then 0
    else
      match Find(disk)
      case NoFile => 0
      case Intact(_, _, _) => 1
      case Corrupt =>
        if lockFree(locks) && Backup in disk then
          var d := RestoredBackup(disk);
          assert Backup !in d && !Find(d).NoFile?;
          1 + LocksUsed(false, d, lockFree, locks + 1)
        else 1
  }

  /** `r` is the outcome `e`, where `cache` is the cached object. */
  predicate Matches(r: LoadResult, cache: VectorIndex?, e: Expected)
    reads if r.Loaded? then {r.index} else {}
  {
    match e
    case Fails => r == LoadFailed(LockTimeout)
    case Cached => r.Loaded? && r.index == cache
    case Fresh(n, vs) => r.Loaded? && r.index.ntotal == n && r.index.vectors == vs
  }

  /**
   * A corrupt index is recovered from `.bak` at most once: with both locks
   * free the load gives the backup's index, or a new empty index when the
   * backup is corrupt too, and never fails.
   */
  lemma RecoveredFromBackupOnce(disk: Disk, lockFree: nat -> bool, locks: nat)
    requires Find(disk).Corrupt? && Backup in disk && lockFree(locks) && lockFree(locks + 1)
    ensures ExpectedLoad(false, disk, lockFree, locks) ==
              match Find(RestoredBackup(disk))
              case Intact(n, vs, _) => Fresh(n, vs)
              case _ => Fresh(0, [])
  {
    var d := RestoredBackup(disk);
    assert Backup !in d && !Find(d).NoFile?;
  }

  /** Without a successful lock a load that reaches the file fails; with free locks it never does. */
  lemma FailsOnlyOnTimeout(hit: bool, disk: Disk, lockFree: nat -> bool, locks: nat)
    ensures ExpectedLoad(hit, disk, lockFree, locks).Fails? ==> !lockFree(locks) || !lockFree(locks + 1)
    ensures !hit && !Find(disk).NoFile? && !lockFree(locks) ==> ExpectedLoad(hit, disk, lockFree, locks).Fails?
  {
    if !hit && Find(disk).Corrupt? && lockFree(locks) && Backup in disk {
      var d := RestoredBackup(disk);
      assert Backup !in d && !Find(d).NoFile?;
      assert ExpectedLoad(false, disk, lockFree, locks) == ExpectedLoad(false, d, lockFree, locks + 1);
    }
  }

  /**
   * The files and the lock count a timed-out `load_faiss_index` leaves: the
   * first lock timed out, or the lock of the reload after a restoration did.
   */
  function AfterTimeout(disk: Disk, lockFree: nat -> bool, locks: nat): (Disk, nat)
  {
    if lockFree(locks) then (RestoredBackup(disk), locks + 2) else (disk, locks + 1)
  }

  /** A load that times out has used exactly the locks `AfterTimeout` counts. */
  lemma TimeoutLocksAgree(hit: bool, disk: Disk, lockFree: nat -> bool, locks: nat)
    requires ExpectedLoad(hit, disk, lockFree, locks).Fails?
    ensures locks + LocksUsed(hit, disk, lockFree, locks) == AfterTimeout(disk, lockFree, locks).1
  {
    if lockFree(locks) {
      var d := RestoredBackup(disk);
      assert Backup !in d && !Find(d).NoFile?;
    }
  }

  /** The cache short-cut applies to `disk` when the recorded mtime is `key` and the index file has it. */
  predicate HitsOn(key: Option<int>, disk: Disk)
  {
    key.Some? && Canonical in disk && disk[Canonical].mtime == key.value
  }

  /**
   * The outcome of `load_faiss_index_with_retry` with `n` attempts left: the
   * first load that does not time out ends it; `Fails` is the final
   * `RuntimeError`.  `key` says when the (unchanging) cache applies.
   */
  function RetryLoad(key: Option<int>, disk: Disk, lockFree: nat -> bool, locks: nat, n: int): (e: Expected)
    decreases n
  {
    if n <= 0 then Fails
    else
      var e := ExpectedLoad(HitsOn(key, disk), disk, lockFree, locks);
      if !e.Fails? then e
      else
        var (d, l) := AfterTimeout(disk, lockFree, locks);
        RetryLoad(key, d, lockFree, l, n - 1)
  }

  /** With every lock timing out on an existing index file, and no cache hit, the retries end in the `RuntimeError`. */
  lemma {:induction false} AllTimeoutsRaise(key: Option<int>, disk: Disk, lockFree: nat -> bool, locks: nat, n: int)
    requires Canonical in disk && !HitsOn(key, disk)
    requires forall j :: locks <= j < locks + n ==> !lockFree(j)
    ensures RetryLoad(key, disk, lockFree, locks, n) == Fails
    decreases n
  {
    if n > 0 {
      assert !lockFree(locks);
      AllTimeoutsRaise(key, disk, lockFree, locks + 1, n - 1);
    }
  }

  /** A timeout on the first lock only: the second attempt reads the same file and returns its index. */
  lemma SecondAttemptLoads(key: Option<int>, disk: Disk, lockFree: nat -> bool, locks: nat, n: int)
    requires n >= 2 && !HitsOn(key, disk) && Find(disk).Intact?
    requires !lockFree(locks) && lockFree(locks + 1)
    ensures RetryLoad(key, disk, lockFree, locks, n) == Fresh(Find(disk).ntotal, Find(disk).vectors)
  {
    assert RetryLoad(key, disk, lockFree, locks, n) == RetryLoad(key, disk, lockFree, locks + 1, n - 1);
  }

  class IndexStore {
    var disk: Disk
    /** `_faiss_index_cache`. */
    var cache: VectorIndex?
    /** `_cache_metadata`; `None` while it is the empty dict. */
    var meta: Option<CacheMeta>
    var locksTaken: nat
    var saves: nat
    /** Whether the n-th lock attempt succeeds before its timeout. */
    const lockFree: nat -> bool
    /** Whether the index directory exists and is writable. */
    const dirWritable: bool
    /** Whether `faiss.write_index` succeeds during the n-th save. */
    const writeOk: nat -> bool
    /** The modification time of the files written during the n-th save. */
    const stamp: nat -> int

    constructor (disk: Disk, lockFree: nat -> bool, dirWritable: bool, writeOk: nat -> bool, stamp: nat -> int)
      ensures this.disk == disk && cache == null && meta == None && locksTaken == 0 && saves == 0
      ensures this.lockFree == lockFree && this.dirWritable == dirWritable
      ensures this.writeOk == writeOk && this.stamp == stamp
    {
      this.disk := disk;
      cache := null;
      meta := None;
      locksTaken := 0;
      saves := 0;
      this.lockFree := lockFree;
      this.dirWritable := dirWritable;
      this.writeOk := writeOk;
      this.stamp := stamp;
    }

    /**
     * `_validate_cache`: the index file exists, its mtime is the recorded
     * one, and the recorded size is the cached object's count now (which
     * `add` on a shared cached object changes).
     */
    predicate CacheValid()
      reads this, cache
    {
      && Canonical in disk
      && meta.Some?
      && meta.value.mtime == disk[Canonical].mtime
      && meta.value.size == (if cache != null then cache.ntotal else 0)
    }

    /** The cache short-cut of `load_faiss_index` applies. */
    predicate CacheHit(useCache: bool)
      reads this, cache
    {
      useCache && cache != null && CacheValid()
    }

    /** The mtime the index file must have for the cache short-cut, if the cache can apply at all. */
    function CacheKey(useCache: bool): (key: Option<int>)
      reads this, cache
      ensures CacheHit(useCache) == HitsOn(key, disk)
    {
      if useCache && cache != null && meta.Some? && meta.value.size == cache.ntotal then Some(meta.value.mtime) else None
    }

    method Lock() returns (held: bool)
      modifies this
      ensures held == lockFree(old(locksTaken)) && locksTaken == old(locksTaken) + 1
      ensures disk == old(disk) && cache == old(cache) && meta == old(meta) && saves == old(saves)
    {
      held := lockFree(locksTaken);
      locksTaken := locksTaken + 1;
    }

    /**
     * `load_faiss_index`.  A valid cache is returned as it is; a missing
     * file gives a new empty index; a lock timeout propagates; a readable
     * index is returned (and cached when `useCache`); a `RuntimeError`
     * (unreadable file or negative count) goes to `HandleCorrupted`.
     */
    method Load(useCache: bool) returns (r: LoadResult)
      modifies this
      decreases if Backup in disk then 1 else 0, 1
      ensures Matches(r, old(cache), ExpectedLoad(old(CacheHit(useCache)), old(disk), lockFree, old(locksTaken)))
      ensures r.Loaded? && !old(CacheHit(useCache)) ==> fresh(r.index)
      ensures saves == old(saves) && (cache == old(cache) || fresh(cache))
      ensures disk == old(disk) || (Backup in old(disk) && disk == RestoredBackup(old(disk)))
      ensures old(CacheHit(useCache)) ==>
                disk == old(disk) && cache == old(cache) && meta == old(meta) && locksTaken == old(locksTaken)
      ensures !old(CacheHit(useCache)) && Find(old(disk)).NoFile? ==>
                disk == old(disk) && cache == old(cache) && meta == old(meta)
      ensures !old(CacheHit(useCache)) && !Find(old(disk)).NoFile? && !lockFree(old(locksTaken)) ==>
                disk == old(disk) && cache == old(cache) && meta == old(meta)
      ensures !old(CacheHit(useCache)) && Find(old(disk)).Intact? && lockFree(old(locksTaken)) ==>
                var f := Find(old(disk));
                && r.Loaded? && disk == old(disk)
                && (useCache ==> cache == r.index && meta == Some(CacheMeta(f.mtime, f.ntotal)))
                && (!useCache ==> cache == old(cache) && meta == old(meta))
      ensures !old(CacheHit(useCache)) && Find(old(disk)).Corrupt? && lockFree(old(locksTaken)) ==>
                && cache == old(cache) && meta == old(meta)
                && (Backup !in old(disk) ==> disk == old(disk))
                && (Backup in old(disk) ==> disk == RestoredBackup(old(disk)))
      ensures r.LoadFailed? ==>
                cache == old(cache) && meta == old(meta) && (disk, locksTaken) == AfterTimeout(old(disk), lockFree, old(locksTaken))
      ensures locksTaken == old(locksTaken) + LocksUsed(old(CacheHit(useCache)), old(disk), lockFree, old(locksTaken))
    {
      if useCache && cache != null && CacheValid() {
        return Loaded(cache);
      }
      if Canonical !in disk {
        var empty := new VectorIndex.Empty();
        return Loaded(empty);
      }
      var held := Lock();
      if !held {
        return LoadFailed(LockTimeout);
      }
      var file := disk[Canonical];
      if file.image.Unreadable? || file.image.ntotal < 0 {
        r := HandleCorrupted();
        return;
      }
      var index := new VectorIndex.Read(file.image.ntotal, file.image.vectors);
      if useCache {
        cache := index;
        meta := Some(CacheMeta(file.mtime, index.ntotal));
      }
      return Loaded(index);
    }

    /**
     * `_handle_corrupted_index`: with a backup, restore it and load again
     * without the cache; without one, a new empty index.  The backup is
     * consumed, so this happens at most once per load.
     */
    method HandleCorrupted() returns (r: LoadResult)
      modifies this
      decreases if Backup in disk then 1 else 0, 0
      ensures Matches(r, old(cache),
                      if Backup in old(disk) then ExpectedLoad(false, RestoredBackup(old(disk)), lockFree, old(locksTaken))
                      else Fresh(0, []))
      ensures r.Loaded? ==> fresh(r.index)
      ensures cache == old(cache) && meta == old(meta) && saves == old(saves)
      ensures Backup !in old(disk) ==> disk == old(disk)
      ensures Backup in old(disk) ==> disk == RestoredBackup(old(disk))
      ensures r.LoadFailed? ==> locksTaken == old(locksTaken) + 1
      ensures locksTaken == old(locksTaken) +
                (if Backup in old(disk) then LocksUsed(false, RestoredBackup(old(disk)), lockFree, old(locksTaken)) else 0)
    {
      if Backup in disk {
        disk := RestoredBackup(disk);
        r := Load(false);
        return;
      }
      var empty := new VectorIndex.Empty();
      return Loaded(empty);
    }

    /**
     * `load_faiss_index_with_retry`: at most `maxRetries` loads, retrying
     * only on a lock timeout; when they are used up (at once if
     * `maxRetries <= 0`) a `RuntimeError`.
     */
    method LoadWithRetry(useCache: bool, maxRetries: int) returns (r: LoadResult, ghost attempts: nat)
      modifies this
      ensures attempts <= Max(0, maxRetries)
      ensures r.Loaded? ==> attempts >= 1
      ensures r.LoadFailed? ==> r.failure == RuntimeFailure && attempts == Max(0, maxRetries)
      ensures r.Loaded? ==> r.index == old(cache) || fresh(r.index)
      ensures saves == old(saves) && (cache == old(cache) || fresh(cache))
      ensures maxRetries >= 1 && !ExpectedLoad(old(CacheHit(useCache)), old(disk), lockFree, old(locksTaken)).Fails? ==>
                attempts == 1 && Matches(r, old(cache), ExpectedLoad(old(CacheHit(useCache)), old(disk), lockFree, old(locksTaken)))
      ensures maxRetries >= 1 && ExpectedLoad(old(CacheHit(useCache)), old(disk), lockFree, old(locksTaken)).Fails? ==>
                attempts >= 2 || r == LoadFailed(RuntimeFailure)
      ensures var e := RetryLoad(old(CacheKey(useCache)), old(disk), lockFree, old(locksTaken), maxRetries);
              if e.Fails? then r == LoadFailed(RuntimeFailure) else Matches(r, old(cache), e)
    {
      ghost var key := CacheKey(useCache);
      ghost var first := ExpectedLoad(CacheHit(useCache), disk, lockFree, locksTaken);
      var retries := 0;
      attempts := 0;
      while retries < maxRetries
        invariant attempts == retries
        invariant retries <= Max(0, maxRetries)
        invariant saves == old(saves) && (cache == old(cache) || fresh(cache))
        invariant retries == 0 ==>
                    disk == old(disk) && cache == old(cache) && meta == old(meta) && locksTaken == old(locksTaken)
        invariant retries > 0 ==> first.Fails?
        invariant cache == old(cache) && meta == old(meta) && CacheKey(useCache) == key
        invariant RetryLoad(key, old(disk), lockFree, old(locksTaken), maxRetries) ==
                  RetryLoad(key, disk, lockFree, locksTaken, maxRetries - retries)
        decreases maxRetries - retries
      {
        r := Load(useCache);
        attempts := attempts + 1;
        if r.Loaded? {
          return;
        }
        retries := retries + 1;
      }
      return LoadFailed(RuntimeFailure), attempts;
    }

    /**
     * `save_faiss_index`: check the directory, write the index to `.tmp`
     * under a lock, then drop the old backup, move the index file to `.bak`,
     * move `.tmp` into place and drop the backup.  A lock timeout raises a
     * `RuntimeError` with nothing restored; any other failure restores the
     * backup and re-raises.
     */
    method Save(index: VectorIndex) returns (r: SaveResult)
      modifies this
      ensures saves == old(saves) + 1 && cache == old(cache) && meta == old(meta)
      ensures locksTaken == old(locksTaken) + (if dirWritable then 1 else 0)
      ensures !dirWritable ==> r == SaveFailed(PermissionDenied) && disk == old(disk)
      ensures dirWritable && !lockFree(old(locksTaken)) ==>
                && r == SaveFailed(RuntimeFailure)
                && disk == (if Temp in old(disk) then old(disk)
                            else old(disk)[Temp := IndexFile(Unreadable, stamp(old(saves)))])
      ensures dirWritable && lockFree(old(locksTaken)) && (index.ntotal < 0 || !writeOk(old(saves))) ==>
                && r == SaveFailed(RuntimeFailure)
                && disk == RestoredBackup(old(disk)[Temp := IndexFile(Unreadable, stamp(old(saves)))])
      ensures dirWritable && lockFree(old(locksTaken)) && index.ntotal >= 0 && writeOk(old(saves)) ==>
                && r == Saved
                && disk == map[Canonical := IndexFile(Stored(index.ntotal, index.vectors), stamp(old(saves)))]
    {
      var now := stamp(saves);
      var written := writeOk(saves);
      saves := saves + 1;
      if !dirWritable {
        // The restoration attempted afterwards needs the same write access and fails too.
        return SaveFailed(PermissionDenied);
      }
      ghost var before := disk;
      if Temp !in disk {
        disk := disk[Temp := IndexFile(Unreadable, now)];
      }
      var held := Lock();
      if !held {
        return SaveFailed(RuntimeFailure);
      }
      disk := disk[Temp := IndexFile(Unreadable, now)];
      assert disk == before[Temp := IndexFile(Unreadable, now)];
      if index.ntotal < 0 || !written {
        disk := RestoredBackup(disk);
        return SaveFailed(RuntimeFailure);
      }
      disk := Promoted(disk[Temp := IndexFile(Stored(index.ntotal, index.vectors), now)]);
      return Saved;
    }
  }

  /** After a successful save the index file reads back as the saved index. */
  lemma SavedIndexReadsBack(ntotal: int, vectors: seq<Vector>, mtime: int)
    requires ntotal >= 0
    ensures Find(map[Canonical := IndexFile(Stored(ntotal, vectors), mtime)]) == Intact(ntotal, vectors, mtime)
  {
  }
}
