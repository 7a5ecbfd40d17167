/**
 * The mapping file as `utils/mapping_utils.py` manages it: a validating
 * loader with one recovery attempt, a save through a temporary file, and the
 * recovery itself.
 *
 * The file system is the content of three files: the mapping file, its
 * `.tmp` sibling and its `.bak` sibling.  A lock is an attempt that succeeds
 * or times out; the outcome of the n-th attempt is `lockFree(n)`.  Opening a
 * file for writing under a lock creates it before the lock is attempted and
 * empties it only once the lock is held.
 */
module MappingStore {
  import opened Common
  import opened TextProcessing
  import opened ContentHash
  import opened Mappings

  /** `MAPPING_PATH` and its `.tmp` and `.bak` siblings. */
  datatype Slot = Canonical | Temp | Backup

  /** The content of each file that exists. */
  type Files = map<Slot, string>

  /** Opening a file in append mode: created empty if it was absent. */
  function Touched(files: Files, slot: Slot): Files
  {
    if slot in files then files else files[slot := ""]
  }

  /** `os.replace(mapping_path, backup_path)`. */
  function MovedToBackup(files: Files): (r: Files)
    requires Canonical in files
    ensures Canonical !in r && Backup in r && r[Backup] == files[Canonical]
  {
    files[Backup := files[Canonical]] - {Canonical}
  }

  /** Two file systems without a `.tmp` file that agree on the other two files are equal. */
  lemma SameOutsideTemp(f: Files, g: Files)
    requires Temp !in f && Temp !in g
    requires (Canonical in f <==> Canonical in g) && (Canonical in f ==> f[Canonical] == g[Canonical])
    requires (Backup in f <==> Backup in g) && (Backup in f ==> f[Backup] == g[Backup])
    ensures f == g
  {
    forall k ensures (k in f <==> k in g) && (k in f ==> f[k] == g[k]) {
      match k
      case Canonical =>
      case Temp =>
      case Backup =>
    }
  }

  /**
   * The files and the lock count `save_mappings` leaves, writing `text`
   * with the lock attempts from the `locks`-th on: both locks give the new
   * mapping file; a timeout on the second leaves a mapping file created
   * empty if there was none; `.tmp` is gone either way.
   */
  function Saved(files: Files, text: string, lockFree: nat -> bool, locks: nat): (Files, nat)
  {
    if !lockFree(locks) then (files - {Temp}, locks + 1)
    else if !lockFree(locks + 1) then (Touched(files, Canonical) - {Temp}, locks + 2)
    else ((files - {Temp})[Canonical := text], locks + 2)
  }

  /**
   * The files and the lock count `_attempt_mapping_recovery` leaves: a file
   * the repair parse turns into a document is moved to `.bak`, and the
   * document's maps, when they convert, are saved again.
   */
  function Recovery(files: Files, codec: JsonCodec, cc: CharClasses, lockFree: nat -> bool, locks: nat): (Files, nat)
  {
    if Canonical !in files then (files, locks)
    else
      match RepairParse(codec.loads, cc, files[Canonical])
      case Repaired(doc, _) =>
        (match RecoveredMaps(doc)
         case None => (MovedToBackup(files), locks)
         case Some((ids, paths)) => Saved(MovedToBackup(files), codec.dumps(ids, paths), lockFree, locks))
      case _ => (files, locks)
  }

  /**
   * A repairable file whose recovered maps are written as text that
   * validates to them, with the locks free, is read back as those maps by
   * the second pass of `load_mappings`, and the original text is kept in
   * `.bak`.
   */
  lemma RepairedMapsReadBack(files: Files, codec: JsonCodec, cc: CharClasses, lockFree: nat -> bool, locks: nat,
                             ids: IdMap, paths: PathMap)
    requires Canonical in files && RepairParse(codec.loads, cc, files[Canonical]).Repaired?
    requires RecoveredMaps(RepairParse(codec.loads, cc, files[Canonical]).doc) == Some((ids, paths))
    requires DecodeMappings(codec.loads(codec.dumps(ids, paths))) == Accept(ids, paths)
    requires lockFree(locks) && lockFree(locks + 1) && lockFree(locks + 2)
    ensures var (f, l) := Recovery(files, codec, cc, lockFree, locks);
            && l == locks + 2 && Canonical in f && Backup in f && f[Backup] == files[Canonical]
            && forall i, p :: ReadGives(DecodeMappings(codec.loads(f[Canonical])), lockFree(l), i, p) ==> i == ids && p == paths
  {
    var (f, l) := Recovery(files, codec, cc, lockFree, locks);
    assert (f, l) == ((MovedToBackup(files) - {Temp})[Canonical := codec.dumps(ids, paths)], locks + 2);
  }

  /**
   * What one guarded read of the mapping file gives: the validated maps when
   * the read took place under a free lock and the file validates, two empty
   * maps otherwise.
   */
  predicate ReadGives(read: Decoded, held: bool, ids: IdMap, paths: PathMap)
  {
    if held && read.Accept? then Accept(ids, paths) == read else ids == map[] && paths == map[]
  }

  /** How one pass of `load_mappings` gets past reading the file. */
  datatype Pass = Missing | TimedOut | Read(read: Decoded)

  class MappingFiles {
    var files: Files
    var locksTaken: nat
    const codec: JsonCodec
    /** The whitespace of `str.strip()` in the repair check. */
    const cc: CharClasses
    /** Whether the n-th lock attempt succeeds before its timeout. */
    const lockFree: nat -> bool

    constructor (files: Files, codec: JsonCodec, cc: CharClasses, lockFree: nat -> bool)
      ensures this.files == files && this.codec == codec && this.cc == cc && this.lockFree == lockFree
      ensures locksTaken == 0
    {
      this.files := files;
      this.codec := codec;
      this.cc := cc;
      this.lockFree := lockFree;
      locksTaken := 0;
    }

    /** One lock attempt. */
    method Lock() returns (held: bool)
      modifies this
      ensures held == lockFree(old(locksTaken)) && locksTaken == old(locksTaken) + 1
      ensures files == old(files)
    {
      held := lockFree(locksTaken);
      locksTaken := locksTaken + 1;
    }

    /**
     * `save_mappings`: write the JSON text to the `.tmp` file under a lock,
     * then, holding a lock on the mapping file, replace it with the `.tmp`
     * file.  On a lock timeout the `.tmp` file is removed and the error
     * re-raised (`ok` is false).
     */
    method SaveMappings(ids: IdMap, paths: PathMap) returns (ok: bool)
      modifies this
      ensures ok <==> lockFree(old(locksTaken)) && lockFree(old(locksTaken) + 1)
      ensures locksTaken == old(locksTaken) + (if lockFree(old(locksTaken)) then 2 else 1)
      ensures ok ==> files == (old(files) - {Temp})[Canonical := codec.dumps(ids, paths)]
      ensures !ok && !lockFree(old(locksTaken)) ==> files == old(files) - {Temp}
      ensures !ok && lockFree(old(locksTaken)) ==> files == Touched(old(files), Canonical) - {Temp}
      ensures (files, locksTaken) == Saved(old(files), codec.dumps(ids, paths), lockFree, old(locksTaken))
    {
      var text := codec.dumps(ids, paths);
      // The files as the steps leave them; nothing else runs in between.
      var f := Touched(files, Temp);
      var held := Lock();
      if !held {
        SameOutsideTemp(f - {Temp}, old(files) - {Temp});
        files := f - {Temp};
        return false;
      }
      f := Touched(f[Temp := text], Canonical);
      held := Lock();
      if !held {
        SameOutsideTemp(f - {Temp}, Touched(old(files), Canonical) - {Temp});
        files := f - {Temp};
        return false;
      }
      SameOutsideTemp((f - {Temp})[Canonical := text], (old(files) - {Temp})[Canonical := text]);
      files := (f - {Temp})[Canonical := text];
      return true;
    }

    /**
     * `_attempt_mapping_recovery`: parse the raw text, with the one-brace
     * repair; if that yields a document, move the mapping file to `.bak` and
     * save the document's maps again.  Every error is swallowed, including
     * the ones raised after the move.
     */
    method AttemptRecovery()
      modifies this
      ensures locksTaken >= old(locksTaken)
      ensures Canonical !in old(files) ==> files == old(files) && locksTaken == old(locksTaken)
      ensures Canonical in old(files) && !RepairParse(codec.loads, cc, old(files)[Canonical]).Repaired? ==>
                files == old(files) && locksTaken == old(locksTaken)
      ensures Canonical in old(files) && RepairParse(codec.loads, cc, old(files)[Canonical]).Repaired? ==>
                var doc := RepairParse(codec.loads, cc, old(files)[Canonical]).doc;
                && Backup in files && files[Backup] == old(files)[Canonical]
                && (RecoveredMaps(doc).None? ==> files == MovedToBackup(old(files)) && locksTaken == old(locksTaken))
                && (RecoveredMaps(doc).Some? ==>
                      var moved := MovedToBackup(old(files));
                      var (ids, paths) := RecoveredMaps(doc).value;
                      if !lockFree(old(locksTaken)) then files == moved - {Temp}
                      else if !lockFree(old(locksTaken) + 1) then files == Touched(moved, Canonical) - {Temp}
                      else files == (moved - {Temp})[Canonical := codec.dumps(ids, paths)])
      ensures (files, locksTaken) == Recovery(old(files), codec, cc, lockFree, old(locksTaken))
    {
      if Canonical !in files {
        return;
      }
      var raw := files[Canonical];
      var repair := RepairParse(codec.loads, cc, raw);
      if !repair.Repaired? {
        return;
      }
      files := MovedToBackup(files);
      var maps := RecoveredMaps(repair.doc);
      if maps.None? {
        return;
      }
      var _ := SaveMappings(maps.value.0, maps.value.1);
    }

    /**
     * One pass of `load_mappings`'s `try` block up to validation: a missing
     * file, a lock that times out, or the file's text read under the lock
     * and validated.
     */
    method ReadPass() returns (pass: Pass)
      modifies this
      ensures files == old(files)
      ensures Canonical !in old(files) ==> pass == Missing && locksTaken == old(locksTaken)
      ensures Canonical in old(files) ==>
                && locksTaken == old(locksTaken) + 1
                && if lockFree(old(locksTaken)) then pass == Read(DecodeMappings(codec.loads(files[Canonical])))
                   else pass == TimedOut
      ensures pass.TimedOut? ==> locksTaken >= 1 && Canonical in files && !lockFree(locksTaken - 1)
      ensures pass.Read? ==>
                && locksTaken >= 1 && Canonical in files && lockFree(locksTaken - 1)
                && pass.read == DecodeMappings(codec.loads(files[Canonical]))
    {
      if Canonical !in files {
        return Missing;
      }
      var held := Lock();
      if !held {
        return TimedOut;
      }
      var decoded := ValidateDocument(codec.loads(files[Canonical]));
      return Read(decoded);
    }

    /**
     * `load_mappings`: up to three passes; a missing file is two empty maps;
     * a file that fails validation is repaired once, after the first
     * failure, and a second failure, a lock timeout or any other error gives
     * two empty maps.  Whatever is returned is consistent.
     *
     * `attempts` counts the validated reads and `recovered` records whether
     * the recovery ran.
     */
    method LoadMappings() returns (ids: IdMap, paths: PathMap, ghost attempts: nat, ghost recovered: bool)
      modifies this
      ensures Consistent(ids, paths)
      ensures ids != map[] || paths != map[] ==>
                Canonical in files && DecodeMappings(codec.loads(files[Canonical])) == Accept(ids, paths)
      ensures Canonical !in old(files) ==>
                ids == map[] && paths == map[] && files == old(files) && locksTaken == old(locksTaken)
      ensures Canonical in old(files) && lockFree(old(locksTaken)) &&
              DecodeMappings(codec.loads(old(files)[Canonical])).Accept? ==>
                Accept(ids, paths) == DecodeMappings(codec.loads(old(files)[Canonical])) && files == old(files)
      ensures attempts <= 2 && (attempts == 2 ==> recovered)
      ensures recovered ==>
                && Canonical in old(files) && lockFree(old(locksTaken))
                && DecodeMappings(codec.loads(old(files)[Canonical])).Invalid?
      ensures !recovered ==> files == old(files)
      ensures Canonical in old(files) && !lockFree(old(locksTaken)) ==> ids == map[] && paths == map[] && !recovered
      ensures (Canonical in old(files) && lockFree(old(locksTaken)) &&
               DecodeMappings(codec.loads(old(files)[Canonical])).Invalid?) ==> recovered
      ensures recovered ==>
                && locksTaken >= 1
                && (Canonical in files ==>
                      ReadGives(DecodeMappings(codec.loads(files[Canonical])), lockFree(locksTaken - 1), ids, paths))
                && (Canonical !in files ==> ids == map[] && paths == map[])
      ensures recovered ==>
                var (f, l) := Recovery(old(files), codec, cc, lockFree, old(locksTaken) + 1);
                && files == f
                && (Canonical !in f ==> ids == map[] && paths == map[] && locksTaken == l)
                && (Canonical in f ==>
                      locksTaken == l + 1 && ReadGives(DecodeMappings(codec.loads(f[Canonical])), lockFree(l), ids, paths))
    {
      attempts, recovered := 0, false;
      var retry := 0;
      while retry < 3
        invariant retry <= 1 && attempts == retry && recovered == (retry == 1)
        invariant !recovered ==> files == old(files) && locksTaken == old(locksTaken)
        invariant recovered ==>
                    && Canonical in old(files) && lockFree(old(locksTaken))
                    && DecodeMappings(codec.loads(old(files)[Canonical])).Invalid?
                    && locksTaken >= 1
                    && (files, locksTaken) == Recovery(old(files), codec, cc, lockFree, old(locksTaken) + 1)
      {
        var pass := ReadPass();
        if pass.Missing? {
          return map[], map[], attempts, recovered;
        }
        if pass.TimedOut? {
          assert ReadGives(DecodeMappings(codec.loads(files[Canonical])), lockFree(locksTaken - 1), map[], map[]);
          break;
        }
        attempts := attempts + 1;
        var decoded := pass.read;
        if decoded.Accept? {
          assert ReadGives(decoded, lockFree(locksTaken - 1), decoded.ids, decoded.paths);
          return decoded.ids, decoded.paths, attempts, recovered;
        }
        if retry == 0 && Canonical in files {
          AttemptRecovery();
          recovered := true;
        } else {
          assert ReadGives(decoded, lockFree(locksTaken - 1), map[], map[]);
          break;
        }
        retry := retry + 1;
      }
      return map[], map[], attempts, recovered;
    }
  }
}
