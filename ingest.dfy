/**
 * The ingestion state of `utils/load.py`: the `FileIndexState` object with
 * its two maps and its index, the loading and saving of the maps, and the
 * per-file pipeline `process_local_file` with `_update_index`.
 *
 * Text extraction, the sentence encoder, Unicode normalisation and MD5 are
 * the parameters bundled in `Environment`; `None` from `extract` or `embed`
 * stands for an exception.  The mapping file is the text at `MAPPING_PATH`,
 * if any; the vector-index store is the `IndexStore` of `faiss_utils`.
 */
module Ingest {
  import opened Common
  import opened TextProcessing
  import opened ContentHash
  import opened Mappings
  import opened IndexStore

  /** The functions the pipeline calls but which are not part of this model. */
  datatype Environment = Environment(
    extract: string -> Option<string>,
    nfc: Normalizer,
    cc: CharClasses,
    md5: Md5Digest,
    embed: string -> Option<Vector>)

  /** `calculate_md5_from_text(content)` with its defaults: NFC, stripping, 4096-byte chunks. */
  function DefaultMd5(env: Environment, content: string): Md5
  {
    ContentMd5(Text(content), env.nfc, env.cc, true, 4096, env.md5)
  }

  /** The call `calculate_md5_from_text(content)` in `process_local_file`, streaming the bytes. */
  method HashContent(env: Environment, content: string) returns (h: Md5)
    ensures h == DefaultMd5(env, content)
  {
    ghost var chunks;
    h, chunks := CalculateMd5(Text(content), env.nfc, env.cc, true, 4096, env.md5);
  }

  /** `os.path.basename`: the text after the last `/`. */
  function Basename(path: string): (name: string)
    ensures |name| <= |path| && path == path[..|path| - |name|] + name
    ensures '/' !in name
    ensures |name| < |path| ==> path[|path| - |name| - 1] == '/'
  {
    path[NameStart(path)..]
  }

  /** Where the last path component starts: just after the last `/`, or at 0. */
  function NameStart(path: string): (k: nat)
    ensures k <= |path| && '/' !in path[k..]
    ensures k > 0 ==> path[k - 1] == '/'
  {
    if path == [] then 0
    else if path[|path| - 1] == '/' then |path|
    else
      var k := NameStart(path[..|path| - 1]);
      assert path[k..] == path[..|path| - 1][k..] + [path[|path| - 1]];
      k
  }

  /** The dictionary `process_local_file` returns. */
  datatype FileResult =
    | Skipped(file: string)
    | Exists(md5: Md5, file: string)
    | Success(md5: Md5, id: int, file: string)
    | Failed(file: string)

  /** How `_update_index` ends: with the new id, by raising in the index load, or by raising in the index save. */
  datatype Update = Updated(docId: int) | LoadRaised | SaveRaised(docId: int)

  /**
   * The maps `FileIndexState.load_mappings` takes from a parsed file: both
   * members must be objects and every id key an integer's text; there is no
   * consistency check.
   */
  function StateMaps(doc: Option<MappingJson>): (r: Option<(IdMap, PathMap)>)
    ensures r.Some? ==> None !in r.value.1
  {
    match doc
    case Some(MappingObject(Members(idEntries), Members(pathEntries))) =>
      (match IntKeyed(idEntries)
       case None => None
       case Some(ids) => Some((ids, PathEntries(pathEntries))))
    case _ => None
  }

  /**
   * The state accepts every file the validating loader of `mapping_utils`
   * accepts, with the same maps, and also the inconsistent ones it rejects.
   */
  lemma StateMapsExtendValidation(doc: Option<MappingJson>)
    ensures DecodeMappings(doc).Accept? ==> StateMaps(doc) == Some((DecodeMappings(doc).ids, DecodeMappings(doc).paths))
    ensures StateMaps(doc).Some? ==>
              (DecodeMappings(doc).Accept? <==> Consistent(StateMaps(doc).value.0, StateMaps(doc).value.1))
  {
    match doc
    case Some(MappingObject(Members(idEntries), Members(pathEntries))) =>
      PathEntriesAsMap(pathEntries);
      DecodeObject(idEntries, pathEntries);
    case _ =>
  }

  /**
   * A `None` hash is written under the key "null" and read back as the hash
   * "null": after a save and a reload, no path-map key is `None`, so an id
   * whose hash is `None` no longer has a path.
   */
  lemma NoneKeyLostOnReload(codec: JsonCodec, ids: IdMap, paths: PathMap, d: int)
    requires RoundTrips(codec)
    requires d in ids && ids[d] == None
    requires StateMaps(codec.loads(codec.dumps(ids, paths))).Some?
    ensures var (ids', paths') := StateMaps(codec.loads(codec.dumps(ids, paths))).value;
            d in ids' && ids'[d] == None && None !in paths' && !Consistent(ids', paths')
  {
    Reread(codec, ids, paths);
    var doc := codec.loads(codec.dumps(ids, paths)).value;
    var ids' := IntKeyed(doc.ids.entries).value;
    IdsRoundTrip(ids, doc.ids.entries);
  }

  /**
   * What `process_local_file` reports about one file, whatever the state:
   * its name, `skipped` exactly for empty content, `error` when extraction
   * fails, and the content's hash with `exists` and `success`.
   */
  predicate Reported(env: Environment, res: FileResult, path: string)
  {
    && res.file == Basename(path)
    && (res.Skipped? <==> env.extract(path) == Some(""))
    && (env.extract(path).None? ==> res.Failed?)
    && (res.Exists? || res.Success? ==> env.extract(path).Some? && res.md5 == DefaultMd5(env, env.extract(path).value))
  }

  /** Each result is the report on the file of the walk at its position. */
  predicate Reports(env: Environment, results: seq<FileResult>, walk: seq<string>)
  {
    |results| <= |walk| && forall i :: 0 <= i < |results| ==> Reported(env, results[i], walk[i])
  }

  /** Every hash reported as existing or added is a key of the path map. */
  predicate Recorded(results: seq<FileResult>, paths: PathMap)
  {
    forall i :: 0 <= i < |results| && (results[i].Exists? || results[i].Success?) ==> results[i].md5 in paths
  }

  /** Every file of the run was skipped or already indexed: nothing was added and nothing failed. */
  predicate NothingAdded(results: seq<FileResult>)
  {
    forall i :: 0 <= i < |results| ==> results[i].Skipped? || results[i].Exists?
  }

  /** Every hash the run added was new: not a key before the run, and no two added files share one. */
  predicate AddedFresh(results: seq<FileResult>, before: PathMap)
  {
    && (forall i :: 0 <= i < |results| && results[i].Success? ==> results[i].md5 !in before)
    && (forall i, j :: 0 <= i < j < |results| && results[i].Success? && results[j].Success? ==>
          results[i].md5 != results[j].md5)
  }

  /**
   * A later file whose non-empty content hashes to the hash of an earlier
   * file that existed or was added is reported as existing.
   */
  predicate Deduplicated(env: Environment, results: seq<FileResult>, walk: seq<string>)
  {
    && |results| <= |walk|
    && forall i, j :: 0 <= i < j < |results| && (results[i].Exists? || results[i].Success?) ==>
         var content := env.extract(walk[j]);
         content.Some? && content.value != "" && DefaultMd5(env, content.value) == results[i].md5 ==>
           results[j].Exists?
  }

  lemma NothingAddedSnoc(results: seq<FileResult>, res: FileResult)
    requires NothingAdded(results + [res])
    ensures NothingAdded(results) && (res.Skipped? || res.Exists?)
  {
    var r := results + [res];
    assert r[|results|] == res;
    forall i | 0 <= i < |results| ensures results[i].Skipped? || results[i].Exists? {
      assert r[i] == results[i];
    }
  }

  /** A run's added hashes stay fresh when the next one is new to the current path map. */
  lemma AddedFreshSnoc(results: seq<FileResult>, res: FileResult, before: PathMap, paths: PathMap)
    requires AddedFresh(results, before) && Recorded(results, paths) && before.Keys <= paths.Keys
    requires res.Success? ==> res.md5 !in paths
    ensures AddedFresh(results + [res], before)
  {
    var r := results + [res];
    forall i | 0 <= i < |r| && r[i].Success? ensures r[i].md5 !in before {
      if i < |results| {
        assert r[i] == results[i];
      }
    }
    forall i, j | 0 <= i < j < |r| && r[i].Success? && r[j].Success? ensures r[i].md5 != r[j].md5 {
      assert r[i] == results[i];
      if j == |results| {
        assert results[i].md5 in paths;
      } else {
        assert r[j] == results[j];
      }
    }
  }

  /** The next file is deduplicated against the run so far when a hash already in the path map makes it exist. */
  lemma DeduplicatedSnoc(env: Environment, results: seq<FileResult>, res: FileResult, walk: seq<string>, paths: PathMap)
    requires Deduplicated(env, results, walk) && Recorded(results, paths) && |results| < |walk|
    requires var content := env.extract(walk[|results|]);
             content.Some? && content.value != "" && DefaultMd5(env, content.value) in paths ==> res.Exists?
    ensures Deduplicated(env, results + [res], walk)
  {
    var r := results + [res];
    forall i, j | 0 <= i < j < |r| && (r[i].Exists? || r[i].Success?)
      ensures var content := env.extract(walk[j]);
              content.Some? && content.value != "" && DefaultMd5(env, content.value) == r[i].md5 ==> r[j].Exists?
    {
      assert r[i] == results[i];
      if j < |results| {
        assert r[j] == results[j];
      } else {
        assert results[i].md5 in paths;
      }
    }
  }

  lemma ReportsSnoc(env: Environment, results: seq<FileResult>, res: FileResult, walk: seq<string>, i: nat)
    requires Reports(env, results, walk) && |results| == i < |walk| && Reported(env, res, walk[i])
    ensures Reports(env, results + [res], walk)
  {
    var r := results + [res];
    assert r[i] == res;
    forall j | 0 <= j < i ensures Reported(env, r[j], walk[j]) {
      assert r[j] == results[j];
    }
  }

  /** Reports stay recorded as the path map grows, and a new one that is recorded joins them. */
  lemma RecordedSnoc(results: seq<FileResult>, res: FileResult, paths: PathMap, paths': PathMap)
    requires Recorded(results, paths) && paths.Keys <= paths'.Keys
    requires res.Exists? || res.Success? ==> res.md5 in paths'
    ensures Recorded(results + [res], paths')
  {
    var r := results + [res];
    forall j | 0 <= j < |r| && (r[j].Exists? || r[j].Success?) ensures r[j].md5 in paths' {
      if j < |results| {
        assert r[j] == results[j];
      } else {
        assert r[j] == res;
      }
    }
  }

  class FileIndexState {
    var idMap: IdMap
    var pathMap: PathMap
    /** `faiss_index`: `None` until the first update loads it. */
    var index: VectorIndex?
    /** The text of the file at `MAPPING_PATH`, if it exists. */
    var mappingFile: Option<string>
    var locksTaken: nat
    /** Whether the n-th lock attempt on the mapping file succeeds before its timeout. */
    const lockFree: nat -> bool
    /** Whether the mapping file is readable (`os.access(..., os.R_OK)`). */
    const readable: bool
    const codec: JsonCodec
    /** The module state of `faiss_utils`. */
    const store: IndexStore

    /** `_initialize` before its call to `load_mappings`: empty maps, no index. */
    constructor (mappingFile: Option<string>, lockFree: nat -> bool, readable: bool, codec: JsonCodec, store: IndexStore)
      ensures idMap == map[] && pathMap == map[] && index == null && locksTaken == 0
      ensures this.mappingFile == mappingFile && this.lockFree == lockFree && this.readable == readable
      ensures this.codec == codec && this.store == store
    {
      idMap := map[];
      pathMap := map[];
      index := null;
      this.mappingFile := mappingFile;
      locksTaken := 0;
      this.lockFree := lockFree;
      this.readable := readable;
      this.codec := codec;
      this.store := store;
    }

    /** Every id the map names is a position the index holds (ids are assigned from the count). */
    predicate Synced()
      reads this, index
    {
      index != null && index.ntotal >= 0 && forall d :: d in idMap ==> 0 <= d < index.ntotal
    }

    /**
     * The store's lock attempt that the index save of `_update_index` will
     * make: the next one, after those of the lazy load when no index is
     * loaded yet.
     */
    function SaveLock(): nat
      reads this, store, store.cache
    {
      store.locksTaken + (if index == null then LocksUsed(store.CacheHit(true), store.disk, store.lockFree, store.locksTaken) else 0)
    }

    /**
     * `save_faiss_index` succeeds on the current index as the store's
     * `saves`-th save with the `lock`-th lock attempt: the directory is
     * writable, the lock is free, the count is not negative and the write
     * succeeds.
     */
    predicate IndexSaves(lock: nat, saves: nat)
      reads this, index
    {
      index != null && index.ntotal >= 0 && store.dirWritable && store.lockFree(lock) && store.writeOk(saves)
    }

    /** The maps a mapping file's text yields, if it exists and parses into them. */
    function Reloaded(file: Option<string>): Option<(IdMap, PathMap)>
    {
      if file.None? then None else StateMaps(codec.loads(file.value))
    }

    /**
     * `save_mappings`: the lock opens the file (creating it) before the
     * attempt and empties it once the lock is held; a timeout is logged and
     * swallowed.
     */
    method SaveMappings()
      modifies this
      ensures locksTaken == old(locksTaken) + 1
      ensures lockFree(old(locksTaken)) ==> mappingFile == Some(codec.dumps(idMap, pathMap))
      ensures !lockFree(old(locksTaken)) ==> mappingFile == if old(mappingFile).None? then Some("") else old(mappingFile)
      ensures idMap == old(idMap) && pathMap == old(pathMap) && index == old(index)
    {
      if mappingFile.None? {
        mappingFile := Some("");
      }
      var held := lockFree(locksTaken);
      locksTaken := locksTaken + 1;
      if held {
        mappingFile := Some(codec.dumps(idMap, pathMap));
      }
    }

    /** `_create_new_mappings`: empty maps, saved over whatever the file held. */
    method CreateNewMappings()
      modifies this
      ensures idMap == map[] && pathMap == map[] && index == old(index)
      ensures locksTaken == old(locksTaken) + 1
      ensures lockFree(old(locksTaken)) ==> mappingFile == Some(codec.dumps(map[], map[]))
      ensures !lockFree(old(locksTaken)) ==> mappingFile == if old(mappingFile).None? then Some("") else old(mappingFile)
    {
      idMap := map[];
      pathMap := map[];
      SaveMappings();
    }

    /**
     * `load_mappings`: a missing file, or one that does not parse into the
     * two maps, is replaced by new empty mappings; an unreadable file raises
     * `PermissionError` (`ok` is false) and changes nothing.
     */
    method LoadMappings() returns (ok: bool)
      modifies this
      ensures index == old(index)
      ensures ok <==> old(mappingFile).None? || readable
      ensures !ok ==> idMap == old(idMap) && pathMap == old(pathMap) && mappingFile == old(mappingFile)
      ensures ok && Reloaded(old(mappingFile)).Some? ==>
                && idMap == Reloaded(old(mappingFile)).value.0 && pathMap == Reloaded(old(mappingFile)).value.1
                && mappingFile == old(mappingFile) && locksTaken == old(locksTaken)
      ensures ok && Reloaded(old(mappingFile)).None? ==>
                && idMap == map[] && pathMap == map[]
                && (lockFree(old(locksTaken)) ==> mappingFile == Some(codec.dumps(map[], map[])))
                && (!lockFree(old(locksTaken)) ==> mappingFile == Some(if old(mappingFile).None? then "" else old(mappingFile).value))
    {
      if mappingFile.Some? && !readable {
        return false;
      }
      // A missing file yields no maps, like one that does not parse.
      var maps := Reloaded(mappingFile);
      if maps.None? {
        CreateNewMappings();
        return true;
      }
      idMap, pathMap := maps.value.0, maps.value.1;
      return true;
    }

    /** The start of `_update_index`: load the index, through the cache, when there is none yet. */
    method LoadIndexIfMissing() returns (loaded: bool)
      modifies this, store
      ensures loaded <==> index != null
      ensures old(index) != null ==> loaded && index == old(index)
      ensures index == old(index) || index == old(store.cache) || fresh(index)
      ensures store.cache == old(store.cache) || fresh(store.cache)
      ensures idMap == old(idMap) && pathMap == old(pathMap) && mappingFile == old(mappingFile)
      ensures locksTaken == old(locksTaken) && store.saves == old(store.saves)
      ensures store.locksTaken == old(SaveLock())
      ensures old(Synced()) ==> Synced()
      ensures old(index) == null ==>
                var e := ExpectedLoad(old(store.CacheHit(true)), old(store.disk), store.lockFree, old(store.locksTaken));
                && (loaded <==> !e.Fails?)
                && (e.Cached? ==> index == old(store.cache))
                && (e.Fresh? ==> index != null && index.ntotal == e.ntotal && index.vectors == e.vectors)
    {
      if index != null {
        return true;
      }
      var r := store.Load(true);
      if r.LoadFailed? {
        return false;
      }
      index := r.index;
      return true;
    }

    /**
     * `_update_index`: load the index if there is none yet, append the
     * vector, take the old count as the document id, record the id and the
     * path, save the maps, then save the index.
     */
    method UpdateIndex(v: Vector, h: Md5, path: string) returns (r: Update)
      modifies this, store, index, store.cache
      ensures r.LoadRaised? ==>
                && old(index) == null && index == null
                && idMap == old(idMap) && pathMap == old(pathMap) && mappingFile == old(mappingFile)
      ensures old(index) != null ==> !r.LoadRaised? && index == old(index)
      ensures index == old(index) || index == old(store.cache) || fresh(index)
      ensures store.cache == old(store.cache) || fresh(store.cache)
      ensures !r.LoadRaised? ==>
                && index != null && r.docId == index.ntotal - 1
                && |index.vectors| > 0 && index.vectors[|index.vectors| - 1] == v
                && idMap == old(idMap)[r.docId := h] && pathMap == old(pathMap)[h := path]
                && (lockFree(old(locksTaken)) ==> mappingFile == Some(codec.dumps(idMap, pathMap)))
                && store.saves == old(store.saves) + 1
                && (r.Updated? ==>
                      store.disk == map[Canonical := IndexFile(Stored(index.ntotal, index.vectors), store.stamp(old(store.saves)))])
      ensures old(index) != null ==>
                index.ntotal == old(index.ntotal) + 1 && index.vectors == old(index.vectors) + [v]
      ensures old(Consistent(idMap, pathMap)) ==> Consistent(idMap, pathMap)
      ensures old(Synced()) ==> !r.LoadRaised? && r.docId !in old(idMap) && Synced()
      ensures r.Updated? <==> IndexSaves(old(SaveLock()), old(store.saves))
      ensures store.locksTaken == old(SaveLock()) + (if index != null && store.dirWritable then 1 else 0)
      ensures old(index) == null ==>
                var e := ExpectedLoad(old(store.CacheHit(true)), old(store.disk), store.lockFree, old(store.locksTaken));
                && (r.LoadRaised? <==> e.Fails?)
                && (e.Cached? ==>
                      index == old(store.cache) && r.docId == old(store.cache.ntotal)
                      && index.vectors == old(store.cache.vectors) + [v])
                && (e.Fresh? ==> r.docId == e.ntotal && index.vectors == e.vectors + [v])
    {
      var loaded := LoadIndexIfMissing();
      if !loaded {
        return LoadRaised;
      }
      r := AppendAndSave(v, h, path);
    }

    /** `_update_index` once an index is loaded: append, record the id and the path, save the maps, then save the index. */
    method AppendAndSave(v: Vector, h: Md5, path: string) returns (r: Update)
      requires index != null
      modifies this, store, index
      ensures index == old(index) && !r.LoadRaised? && r.docId == index.ntotal - 1
      ensures index.ntotal == old(index.ntotal) + 1 && index.vectors == old(index.vectors) + [v]
      ensures idMap == old(idMap)[r.docId := h] && pathMap == old(pathMap)[h := path]
      ensures lockFree(old(locksTaken)) ==> mappingFile == Some(codec.dumps(idMap, pathMap))
      ensures store.saves == old(store.saves) + 1 && store.cache == old(store.cache)
      ensures r.Updated? ==>
                store.disk == map[Canonical := IndexFile(Stored(index.ntotal, index.vectors), store.stamp(old(store.saves)))]
      ensures r.Updated? <==> IndexSaves(old(store.locksTaken), old(store.saves))
      ensures store.locksTaken == old(store.locksTaken) + (if store.dirWritable then 1 else 0)
      ensures old(Consistent(idMap, pathMap)) ==> Consistent(idMap, pathMap)
      ensures old(Synced()) ==> r.docId !in old(idMap) && Synced()
    {
      ghost var synced := Synced();
      index.Add(v);
      var docId := index.ntotal - 1;
      assert synced ==> forall d :: d in idMap ==> 0 <= d < docId;
      idMap := idMap[docId := h];
      pathMap := pathMap[h := path];
      SaveMappings();
      var saved := store.Save(index);
      if saved.SaveFailed? {
        return SaveRaised(docId);
      }
      return Updated(docId);
    }

    /**
     * `process_local_file`: skip empty content, report a hash already in the
     * path map, otherwise embed and add; any exception is the `error`
     * result.  The hash of whitespace-only content is `None`, which is a
     * key like any other.
     */
    method ProcessLocalFile(env: Environment, filePath: string) returns (res: FileResult)
      modifies this, store, index, store.cache
      ensures res.Success? <==>
                && env.extract(filePath).Some?
                && (var content := env.extract(filePath).value;
                    content != "" && DefaultMd5(env, content) !in old(pathMap) && env.embed(content).Some?)
                && IndexSaves(old(SaveLock()), old(store.saves))
      ensures res.file == Basename(filePath)
      ensures index == old(index) || index == old(store.cache) || fresh(index)
      ensures store.cache == old(store.cache) || fresh(store.cache)
      ensures res.Skipped? <==> env.extract(filePath) == Some("")
      ensures res.Exists? <==>
                && env.extract(filePath).Some? && env.extract(filePath).value != ""
                && DefaultMd5(env, env.extract(filePath).value) in old(pathMap)
      ensures res.Exists? ==> res.md5 == DefaultMd5(env, env.extract(filePath).value)
      ensures res.Skipped? || res.Exists? || env.extract(filePath).None? ==>
                && idMap == old(idMap) && pathMap == old(pathMap) && index == old(index)
                && mappingFile == old(mappingFile) && unchanged(store)
                && (index != null ==> index.ntotal == old(index.ntotal) && index.vectors == old(index.vectors))
      ensures res.Success? ==>
                && env.extract(filePath).Some?
                && res.md5 == DefaultMd5(env, env.extract(filePath).value)
                && res.md5 !in old(pathMap)
                && idMap == old(idMap)[res.id := res.md5] && pathMap == old(pathMap)[res.md5 := filePath]
      ensures old(Consistent(idMap, pathMap)) ==> Consistent(idMap, pathMap)
      ensures old(Synced()) && res.Success? ==> res.id !in old(idMap) && Synced()
      ensures old(pathMap).Keys <= pathMap.Keys
      ensures res.Exists? || res.Success? ==> res.md5 in pathMap
      ensures env.extract(filePath).Some? ==>
                var content := env.extract(filePath).value;
                content != "" && DefaultMd5(env, content) !in old(pathMap) && env.embed(content).None? ==>
                  && res.Failed? && idMap == old(idMap) && pathMap == old(pathMap) && index == old(index)
                  && mappingFile == old(mappingFile) && unchanged(store)
                  && (index != null ==> index.ntotal == old(index.ntotal) && index.vectors == old(index.vectors))
      ensures res.Success? ==>
                && env.extract(filePath).Some?
                && var content := env.extract(filePath).value;
                && env.embed(content).Some? && index != null && res.id == index.ntotal - 1
                && |index.vectors| > 0 && index.vectors[|index.vectors| - 1] == env.embed(content).value
      ensures env.extract(filePath).Some? ==>
                var content := env.extract(filePath).value;
                content != "" && DefaultMd5(env, content) !in old(pathMap) && env.embed(content).Some? && old(index) != null ==>
                  index == old(index) && index.vectors == old(index.vectors) + [env.embed(content).value]
      ensures env.extract(filePath).Some? ==>
                var content := env.extract(filePath).value;
                content != "" && DefaultMd5(env, content) !in old(pathMap) && env.embed(content).Some? && old(index) == null ==>
                  var e := ExpectedLoad(old(store.CacheHit(true)), old(store.disk), store.lockFree, old(store.locksTaken));
                  && (e.Fails? ==>
                        res.Failed? && index == null
                        && idMap == old(idMap) && pathMap == old(pathMap) && mappingFile == old(mappingFile))
                  && (e.Cached? ==> index == old(store.cache) && index.vectors == old(store.cache.vectors) + [env.embed(content).value])
                  && (e.Fresh? ==> index != null && index.vectors == e.vectors + [env.embed(content).value])
      ensures env.extract(filePath).Some? ==>
                var content := env.extract(filePath).value;
                content != "" && DefaultMd5(env, content) !in old(pathMap) && env.embed(content).Some? && index != null ==>
                  && idMap == old(idMap)[index.ntotal - 1 := DefaultMd5(env, content)]
                  && pathMap == old(pathMap)[DefaultMd5(env, content) := filePath]
                  && (lockFree(old(locksTaken)) ==> mappingFile == Some(codec.dumps(idMap, pathMap)))
    {
      var content := env.extract(filePath);
      if content.None? {
        return Failed(Basename(filePath));
      }
      res := ProcessContent(env, content.value, filePath);
      assert env.extract(filePath) == content;
    }

    /** The rest of `process_local_file` once the content is extracted. */
    method ProcessContent(env: Environment, content: string, filePath: string) returns (res: FileResult)
      modifies this, store, index, store.cache
      ensures res.Success? <==>
                && content != "" && DefaultMd5(env, content) !in old(pathMap) && env.embed(content).Some?
                && IndexSaves(old(SaveLock()), old(store.saves))
      ensures res.file == Basename(filePath)
      ensures index == old(index) || index == old(store.cache) || fresh(index)
      ensures store.cache == old(store.cache) || fresh(store.cache)
      ensures res.Skipped? <==> content == ""
      ensures res.Exists? <==> content != "" && DefaultMd5(env, content) in old(pathMap)
      ensures res.Exists? || res.Success? ==> res.md5 == DefaultMd5(env, content)
      ensures res.Skipped? || res.Exists? ==>
                && idMap == old(idMap) && pathMap == old(pathMap) && index == old(index)
                && mappingFile == old(mappingFile) && unchanged(store)
                && (index != null ==> index.ntotal == old(index.ntotal) && index.vectors == old(index.vectors))
      ensures res.Success? ==>
                && res.md5 !in old(pathMap)
                && idMap == old(idMap)[res.id := res.md5] && pathMap == old(pathMap)[res.md5 := filePath]
      ensures old(Consistent(idMap, pathMap)) ==> Consistent(idMap, pathMap)
      ensures old(Synced()) && res.Success? ==> res.id !in old(idMap) && Synced()
      ensures old(pathMap).Keys <= pathMap.Keys
      ensures res.Exists? || res.Success? ==> res.md5 in pathMap
      ensures content != "" && DefaultMd5(env, content) !in old(pathMap) && env.embed(content).None? ==>
                && res.Failed? && idMap == old(idMap) && pathMap == old(pathMap) && index == old(index)
                && mappingFile == old(mappingFile) && unchanged(store)
                && (index != null ==> index.ntotal == old(index.ntotal) && index.vectors == old(index.vectors))
      ensures res.Success? ==>
                && env.embed(content).Some? && index != null && res.id == index.ntotal - 1
                && |index.vectors| > 0 && index.vectors[|index.vectors| - 1] == env.embed(content).value
      ensures content != "" && DefaultMd5(env, content) !in old(pathMap) && env.embed(content).Some? && old(index) != null ==>
                index == old(index) && index.vectors == old(index.vectors) + [env.embed(content).value]
      ensures content != "" && DefaultMd5(env, content) !in old(pathMap) && env.embed(content).Some? && old(index) == null ==>
                var e := ExpectedLoad(old(store.CacheHit(true)), old(store.disk), store.lockFree, old(store.locksTaken));
                && (e.Fails? ==>
                      res.Failed? && index == null
                      && idMap == old(idMap) && pathMap == old(pathMap) && mappingFile == old(mappingFile))
                && (e.Cached? ==> index == old(store.cache) && index.vectors == old(store.cache.vectors) + [env.embed(content).value])
                && (e.Fresh? ==> index != null && index.vectors == e.vectors + [env.embed(content).value])
      ensures content != "" && DefaultMd5(env, content) !in old(pathMap) && env.embed(content).Some? && index != null ==>
                && idMap == old(idMap)[index.ntotal - 1 := DefaultMd5(env, content)]
                && pathMap == old(pathMap)[DefaultMd5(env, content) := filePath]
                && (lockFree(old(locksTaken)) ==> mappingFile == Some(codec.dumps(idMap, pathMap)))
    {
      var name := Basename(filePath);
      if content == "" {
        return Skipped(name);
      }
      // The hash `HashContent` streams, taken by value so that no call intervenes.
      var h := DefaultMd5(env, content);
      res := AddIfNew(env, content, h, filePath);
    }

    /** The hash check of `process_local_file`: `exists` for a known hash, else the document is added. */
    method AddIfNew(env: Environment, content: string, h: Md5, filePath: string) returns (res: FileResult)
      modifies this, store, index, store.cache
      ensures res.Success? <==>
                h !in old(pathMap) && env.embed(content).Some? && IndexSaves(old(SaveLock()), old(store.saves))
      ensures res.file == Basename(filePath) && !res.Skipped?
      ensures index == old(index) || index == old(store.cache) || fresh(index)
      ensures store.cache == old(store.cache) || fresh(store.cache)
      ensures res.Exists? <==> h in old(pathMap)
      ensures res.Exists? || res.Success? ==> res.md5 == h
      ensures res.Exists? ==>
                && idMap == old(idMap) && pathMap == old(pathMap) && index == old(index)
                && mappingFile == old(mappingFile) && unchanged(store)
                && (index != null ==> index.ntotal == old(index.ntotal) && index.vectors == old(index.vectors))
      ensures res.Success? ==>
                && h !in old(pathMap)
                && idMap == old(idMap)[res.id := h] && pathMap == old(pathMap)[h := filePath]
      ensures old(Consistent(idMap, pathMap)) ==> Consistent(idMap, pathMap)
      ensures old(Synced()) && res.Success? ==> res.id !in old(idMap) && Synced()
      ensures old(pathMap).Keys <= pathMap.Keys
      ensures res.Exists? || res.Success? ==> res.md5 in pathMap
      ensures h !in old(pathMap) && env.embed(content).None? ==>
                && res.Failed? && idMap == old(idMap) && pathMap == old(pathMap) && index == old(index)
                && mappingFile == old(mappingFile) && unchanged(store)
                && (index != null ==> index.ntotal == old(index.ntotal) && index.vectors == old(index.vectors))
      ensures res.Success? ==>
                && env.embed(content).Some? && index != null && res.id == index.ntotal - 1
                && |index.vectors| > 0 && index.vectors[|index.vectors| - 1] == env.embed(content).value
      ensures h !in old(pathMap) && env.embed(content).Some? && old(index) != null ==>
                index == old(index) && index.vectors == old(index.vectors) + [env.embed(content).value]
      ensures h !in old(pathMap) && env.embed(content).Some? && old(index) == null ==>
                var e := ExpectedLoad(old(store.CacheHit(true)), old(store.disk), store.lockFree, old(store.locksTaken));
                && (e.Fails? ==>
                      res.Failed? && index == null
                      && idMap == old(idMap) && pathMap == old(pathMap) && mappingFile == old(mappingFile))
                && (e.Cached? ==> index == old(store.cache) && index.vectors == old(store.cache.vectors) + [env.embed(content).value])
                && (e.Fresh? ==> index != null && index.vectors == e.vectors + [env.embed(content).value])
      ensures h !in old(pathMap) && env.embed(content).Some? && index != null ==>
                && idMap == old(idMap)[index.ntotal - 1 := h] && pathMap == old(pathMap)[h := filePath]
                && (lockFree(old(locksTaken)) ==> mappingFile == Some(codec.dumps(idMap, pathMap)))
    {
      if h in pathMap {
        return Exists(h, Basename(filePath));
      }
      res := AddDocument(env, content, h, filePath);
    }

    /** The end of `process_local_file` for new content: embed, then `_update_index`. */
    method AddDocument(env: Environment, content: string, h: Md5, filePath: string) returns (res: FileResult)
      modifies this, store, index, store.cache
      ensures res.Success? <==> env.embed(content).Some? && IndexSaves(old(SaveLock()), old(store.saves))
      ensures res.file == Basename(filePath)
      ensures res.Success? || res.Failed?
      ensures index == old(index) || index == old(store.cache) || fresh(index)
      ensures store.cache == old(store.cache) || fresh(store.cache)
      ensures res.Success? ==>
                && res.md5 == h
                && idMap == old(idMap)[res.id := h] && pathMap == old(pathMap)[h := filePath]
      ensures old(Consistent(idMap, pathMap)) ==> Consistent(idMap, pathMap)
      ensures old(pathMap).Keys <= pathMap.Keys
      ensures old(Synced()) && res.Success? ==> res.id !in old(idMap) && Synced()
      ensures env.embed(content).None? ==>
                && res.Failed? && idMap == old(idMap) && pathMap == old(pathMap) && index == old(index)
                && mappingFile == old(mappingFile) && unchanged(store)
                && (index != null ==> index.ntotal == old(index.ntotal) && index.vectors == old(index.vectors))
      ensures res.Success? ==>
                && env.embed(content).Some? && index != null && res.id == index.ntotal - 1
                && |index.vectors| > 0 && index.vectors[|index.vectors| - 1] == env.embed(content).value
      ensures env.embed(content).Some? && old(index) != null ==>
                index == old(index) && index.vectors == old(index.vectors) + [env.embed(content).value]
      ensures env.embed(content).Some? && old(index) == null ==>
                var e := ExpectedLoad(old(store.CacheHit(true)), old(store.disk), store.lockFree, old(store.locksTaken));
                && (e.Fails? ==>
                      res.Failed? && index == null
                      && idMap == old(idMap) && pathMap == old(pathMap) && mappingFile == old(mappingFile))
                && (e.Cached? ==> index == old(store.cache) && index.vectors == old(store.cache.vectors) + [env.embed(content).value])
                && (e.Fresh? ==> index != null && index.vectors == e.vectors + [env.embed(content).value])
      ensures env.embed(content).Some? && index != null ==>
                && idMap == old(idMap)[index.ntotal - 1 := h] && pathMap == old(pathMap)[h := filePath]
                && (lockFree(old(locksTaken)) ==> mappingFile == Some(codec.dumps(idMap, pathMap)))
    {
      var name := Basename(filePath);
      var vector := env.embed(content);
      if vector.None? {
        return Failed(name);
      }
      var u := UpdateIndex(vector.value, h, filePath);
      if !u.Updated? {
        return Failed(name);
      }
      return Success(h, u.docId, name);
    }

    /**
     * One turn of the walk: `process_local_file` on the next file. The run's
     * reports, recorded hashes, fresh additions and deduplication extend to
     * this file's result.
     */
    method ProcessNext(env: Environment, walk: seq<string>, i: nat, ghost results: seq<FileResult>, ghost before: PathMap)
      returns (res: FileResult)
      requires |results| == i < |walk|
      requires Reports(env, results, walk) && Recorded(results, pathMap) && before.Keys <= pathMap.Keys
      requires AddedFresh(results, before) && Deduplicated(env, results, walk)
      modifies this, store, index, store.cache
      ensures Reports(env, results + [res], walk) && Recorded(results + [res], pathMap) && before.Keys <= pathMap.Keys
      ensures AddedFresh(results + [res], before) && Deduplicated(env, results + [res], walk)
      ensures res.Skipped? || res.Exists? ==>
                idMap == old(idMap) && pathMap == old(pathMap) && mappingFile == old(mappingFile) && index == old(index)
      ensures index == old(index) || index == old(store.cache) || fresh(index)
      ensures store.cache == old(store.cache) || fresh(store.cache)
      ensures old(Consistent(idMap, pathMap)) ==> Consistent(idMap, pathMap)
    {
      ghost var paths := pathMap;
      res := ProcessLocalFile(env, walk[i]);
      assert env.extract(walk[i]) == old(env.extract(walk[i]));
      ReportsSnoc(env, results, res, walk, i);
      AddedFreshSnoc(results, res, before, paths);
      DeduplicatedSnoc(env, results, res, walk, paths);
      RecordedSnoc(results, res, paths, pathMap);
    }

    /**
     * `process_files_in_directory`: nothing when the path is not a
     * directory; otherwise every file of the walk, in walk order, one result
     * each.
     */
    method ProcessFilesInDirectory(env: Environment, isDirectory: bool, walk: seq<string>)
      returns (results: seq<FileResult>)
      modifies this, store, index, store.cache
      ensures !isDirectory ==> results == [] && unchanged(this, store)
      ensures isDirectory ==> |results| == |walk| && Reports(env, results, walk)
      ensures Recorded(results, pathMap) && old(pathMap).Keys <= pathMap.Keys
      ensures old(Consistent(idMap, pathMap)) ==> Consistent(idMap, pathMap)
      ensures NothingAdded(results) ==>
                idMap == old(idMap) && pathMap == old(pathMap) && mappingFile == old(mappingFile) && index == old(index)
      ensures AddedFresh(results, old(pathMap))
      ensures isDirectory ==> Deduplicated(env, results, walk)
    {
      results := [];
      if !isDirectory {
        return;
      }
      ghost var consistent := Consistent(idMap, pathMap);
      var i := 0;
      while i < |walk|
        invariant 0 <= i <= |walk| && |results| == i
        invariant Reports(env, results, walk) && Recorded(results, pathMap)
        invariant old(pathMap).Keys <= pathMap.Keys
        invariant index == old(index) || index == old(store.cache) || fresh(index)
        invariant store.cache == old(store.cache) || fresh(store.cache)
        invariant consistent ==> Consistent(idMap, pathMap)
        invariant NothingAdded(results) ==>
                    idMap == old(idMap) && pathMap == old(pathMap) && mappingFile == old(mappingFile) && index == old(index)
        invariant AddedFresh(results, old(pathMap)) && Deduplicated(env, results, walk)
      {
        var res := ProcessNext(env, walk, i, results, old(pathMap));
        if NothingAdded(results + [res]) {
          NothingAddedSnoc(results, res);
        }
        results := results + [res];
        i := i + 1;
      }
    }
  }

  /**
   * Two files whose content is non-empty but blank after normalisation both
   * hash to `None`: once the first is indexed under `None`, the second is
   * reported as existing.
   */
  lemma BlankFilesShareNoneKey(env: Environment, c1: string, c2: string)
    requires env.nfc(c1).Some? && AllSpace(env.cc, env.nfc(c1).value)
    requires env.nfc(c2).Some? && AllSpace(env.cc, env.nfc(c2).value)
    ensures DefaultMd5(env, c1) == None && DefaultMd5(env, c2) == None
  {
    BlankTextHasNoMd5(c1, env.nfc, env.cc, 4096, env.md5);
    BlankTextHasNoMd5(c2, env.nfc, env.cc, 4096, env.md5);
  }
}
