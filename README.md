# cognisync ingestion, index and mapping core in Dafny

cognisync indexes local documents for retrieval-augmented question answering. A document's text is hashed (MD5 of its normalised, stripped UTF-8 text) and embedded. The vector is appended to a FAISS index, whose vector count becomes the document id. Two maps tie the pieces together:

- the **id map**: document id → content hash;
- the **path map**: content hash → file path.

Both are persisted as one JSON file. A query embeds the question, searches the index, and resolves the ids through the two maps to file paths. It then reads those files and hands their joined text to a language model.

This project models that core and proves properties of the model:

| module (file) | models |
|---|---|
| `TextProcessing` (text_processing.dfy) | `clean_text`, `extract_keywords`, and the `str.split()`/`str.strip()` they and the hash rely on; `\w` and `\s` are predicates passed in |
| `ContentHash` (content_hash.dfy) | `calculate_md5_from_text`: refusals as `None`, and the chunked feeding of the UTF-8 buffer to the hasher as a loop |
| `Search` (search.dfy) | the score-threshold filter of `search_in_faiss` |
| `Mappings` (mappings.dfy) | the id and path maps and their consistency invariant; the `str(k)`/`int(k)` key conversion; the JSON document; validation; the closing-brace repair; the maps recovery re-saves |
| `MappingStore` (mapping_store.dfy) | `mapping_utils`: the mapping file, its `.tmp` and `.bak` siblings, and `load_mappings`/`save_mappings`/`_attempt_mapping_recovery` as a class |
| `IndexStore` (index_store.dfy) | `faiss_utils`: the index object (a class, since `add` mutates the object the module cache shares); the index file with `.tmp`/`.bak`; load with cache and backup recovery; bounded retry; save with restore-on-failure |
| `Ingest` (ingest.dfy) | `FileIndexState` and its map loading and saving; `_update_index`; `process_local_file`; `process_files_in_directory` |
| `Query` (query.dfy) | the `/query` route: id → hash → path resolution in rank order, the joined context, and the response status |

The code is modelled in its own form:

- Pure code is functions with lemmas.
- Loops are methods with invariants: the hash's chunk loop, the consistency loop, the query's two loops, the retry loops and the directory walk.
- Objects and module state whose fields change are classes whose methods `modify` them.

Everything outside the core is a parameter:

- **Abstracted as plain functions:** JSON (a `dumps`/`loads` pair), MD5, Unicode normalisation, the sentence encoder, text extraction and the language model. Lock timeouts are the outcomes `lockFree(n)` of the n-th attempt.
- **Write failures and the clock:** `writeOk`, `dirWritable` and `stamp`.
- **Query inputs:** `routes/query.py` imports `file_id_map` and `file_path_map` from `routes/upload.py`, which defines neither, so the query takes both maps as arguments.
- **Extraction:** `utils/load.py` imports `extract_file_content` from `utils/text_processing.py`, which does not define it. It is the `extract` parameter.

Behaviour of the code that the model exhibits:

- **Negative chunk size.** The chunk loop runs over an empty range, so every hashable text gets the digest of no bytes (`ContentHash.NegativeChunkSizeCollides`).
- **Blank content.** Content that is non-empty but blank gets the hash `None`, and `None` works as a path-map key. So a second blank file reports `exists` (`Ingest.BlankFilesShareNoneKey` with `Ingest.FileIndexState.ProcessLocalFile`).
- **A `None` hash does not survive a save:**
  - it is written under the key `"null"`;
  - `mapping_utils` then rejects the whole file (`Mappings.NoneHashRejectedAfterSave`);
  - `FileIndexState` reloads it as inconsistent maps (`Ingest.NoneKeyLostOnReload`).
- **`load_mappings` loop.** Of its three passes the third is unreachable: recovery only follows the first failure, and a second failure ends the loop (`MappingStore.MappingFiles.LoadMappings`, `attempts <= 2`).
- **Recovery moves the file first.** Recovery moves the mapping file to `.bak` before converting its keys. When the conversion raises, no mapping file is left (`MappingStore.MappingFiles.AttemptRecovery`).
- **Failed lock during an index save.** It leaves the `.tmp` file behind and restores nothing (`IndexStore.IndexStore.Save`).
- **`.bak` during an index save.** A failed save restores `.bak` onto the index file, even when the index was rejected before anything was written.

## Model

| member | source | states |
|---|---|---|
| TextProcessing.Words | utils/text_processing.py:85 | `str.split()` yields non-empty tokens without whitespace |
| TextProcessing.WordsFlatten | utils/text_processing.py:66 | the tokens of a text concatenate to exactly its non-whitespace characters, in order |
| TextProcessing.CleanTextCharset | utils/text_processing.py:66-69 | every character `clean_text` returns is a word character or a space |
| TextProcessing.CleanTextKeepsWordChars | utils/text_processing.py:66-69 | the word characters of the output are exactly those of the input, in order; deleting the spaces of the output leaves exactly them |
| TextProcessing.CleanTextNoLonger | utils/text_processing.py:66-69 | the output is never longer than the input |
| TextProcessing.CleanTextTidy | utils/text_processing.py:66-69 | on input of only word and whitespace characters the output is the collapsed text, with no leading, trailing or doubled space |
| TextProcessing.ExtractKeywords | utils/text_processing.py:85-86 | every keyword is longer than 4 and has no whitespace; there are no more keywords than tokens |
| TextProcessing.LongWordsExactly | utils/text_processing.py:86 | the filter keeps an ordered subsequence containing every token longer than 4 exactly as often as the input does, and nothing else |
| TextProcessing.ExtractKeywordsExactly | utils/text_processing.py:85-86 | the keywords are exactly the tokens longer than 4, in input order, duplicates kept |
| TextProcessing.Strip | utils/load.py:50-51 | `str.strip()` returns a text no longer than its input that neither starts nor ends with whitespace |
| TextProcessing.StripIgnoresSurroundingSpace | utils/load.py:50-51 | whitespace added around a text does not change its stripped form |
| TextProcessing.StripEmptyIffBlank | utils/load.py:50-55 | the stripped text is empty exactly when the text is all whitespace |
| ContentHash.Utf8 | utils/load.py:59 | the UTF-8 buffer has between one and four bytes per character |
| ContentHash.FeedInChunks | utils/load.py:61-63 | the loop feeds the hasher the whole buffer, in slices that are non-empty, at most `chunk_size` long, and concatenate to the buffer |
| ContentHash.CalculateMd5 | utils/load.py:41-72 | the method's result is the specified hash; for a positive chunk size the slices fed are exactly the encoded processed text |
| ContentHash.BlankTextHasNoMd5 | utils/load.py:49-55 | with stripping, the hash is `None` exactly when the normalised text is blank or the chunk size is zero |
| ContentHash.RefusedArgumentsHaveNoMd5 | utils/load.py:43-47 | a non-string argument or a rejected normalisation form gives `None` |
| ContentHash.SurroundingSpaceIgnored | utils/load.py:47-51 | texts whose normalised forms differ only in surrounding whitespace hash identically |
| ContentHash.ChunkSizeIrrelevant | utils/load.py:58-65 | every positive chunk size gives the same hash |
| ContentHash.NegativeChunkSizeCollides | utils/load.py:61-65 | with a negative chunk size all hashable texts get the same digest |
| Search.HitsFrom | utils/search.py:22 | the hits from a position on: bounded, sound, in strictly increasing position, and complete |
| Search.SearchInFaiss | utils/search.py:22 | every pair is (position in the row, its score) with score ≥ threshold; positions strictly increase; every passing position is present; no more pairs than scores |
| Search.ThresholdExample | utils/search.py:22 | scores 0.9, 0.5, 0.1 at threshold 0.4 give [(0, 0.9), (1, 0.5)] |
| Mappings.ShowNat | utils/mapping_utils.py:63 | `str(k)` of a natural number is a non-empty string of digits |
| Mappings.ParseShowNat | utils/mapping_utils.py:31 | `int()` reads back the decimal text of every natural number |
| Mappings.ParseShowInt | utils/mapping_utils.py:31 | `int(str(k)) == k` for every integer key |
| Mappings.ShowIntInjective | utils/mapping_utils.py:63 | distinct keys are written as distinct texts |
| Mappings.AsMap | utils/mapping_utils.py:31 | every member of a parsed object is a key of the dict it yields (later duplicates win) |
| Mappings.JsonIds | utils/mapping_utils.py:63 | the written id object has exactly the texts of the id map's keys |
| Mappings.JsonPaths | utils/mapping_utils.py:64-66 | every hash is written under its text, `None` under `"null"`, and nothing else |
| Mappings.FromJsonPaths | utils/mapping_utils.py:32 | a read path map has no `None` key, and its keys are exactly the object's keys |
| Mappings.PathEntries | utils/mapping_utils.py:32 | a path map read from the file never has a `None` key |
| Mappings.PathEntriesAsMap | utils/mapping_utils.py:32 | reading the members one by one gives the same path map as the parsed dict |
| Mappings.DecodeMappings | utils/mapping_utils.py:25-39 | whatever the validating load accepts is consistent and has no `None` key |
| Mappings.DecodeMembers | utils/mapping_utils.py:31-39 | the key conversion and consistency check accept only consistent maps |
| Mappings.CheckConsistency | utils/mapping_utils.py:35-37 | the loop succeeds exactly when every id's hash is a path-map key |
| Mappings.ValidateDocument | utils/mapping_utils.py:25-39 | the imperative validation returns the specified decoding |
| Mappings.ValidateMappingsIffConsistent | utils/mapping_utils.py:121-128 | `validate_mappings` is false exactly when some id-map value is not a path-map key |
| Mappings.IdsRoundTrip | utils/mapping_utils.py:31 | reading back the written id object gives the id map |
| Mappings.PathsRoundTrip | utils/mapping_utils.py:32 | reading back the written path object gives a path map without `None` keys |
| Mappings.JsonPathsRoundTrip | utils/mapping_utils.py:32 | rewriting a read path object gives the same object |
| Mappings.SaveLoadRoundTrip | utils/mapping_utils.py:55-66 | saving a consistent pair without a `None` hash and loading it back gives the same pair |
| Mappings.NoneHashRejectedAfterSave | utils/mapping_utils.py:35-37 | a saved id map holding the hash `None` is rejected when read back |
| Mappings.RepairParse | utils/mapping_utils.py:94-104 | the raw text is parsed as it is; only on failure, and only when the stripped text does not end in `}` or `]`, is exactly one `}` appended; a text ending that way is not repaired |
| Mappings.RepairKeepsValidText | utils/mapping_utils.py:94-96 | text that parses is used unchanged |
| Mappings.RecoveryResavesUnchanged | utils/mapping_utils.py:106-112 | a parsed file with `str(k)` keys is re-saved as the same two objects, consistent or not |
| Mappings.LeadingZeroKeyRewritten | utils/mapping_utils.py:110 | a key `"01"` is read as 1 and re-saved as `"1"` |
| MappingStore.MovedToBackup | utils/mapping_utils.py:107-108 | the replace leaves no mapping file and a `.bak` holding its text |
| MappingStore.MappingFiles.SaveMappings | utils/mapping_utils.py:55-81 | the files and lock count afterwards are exactly those of `Saved`: success needs both locks, and then the mapping file holds the written text and no `.tmp` is left; after a failed lock `.tmp` is removed, and the second lock leaves an empty mapping file if there was none |
| MappingStore.MappingFiles.AttemptRecovery | utils/mapping_utils.py:84-118 | the files and lock count afterwards are exactly those of `Recovery`: an absent or unrepairable file changes nothing; a repaired one moves to `.bak`, and the recovered maps are re-saved with the save's exact outcome per lock; a conversion failure leaves no mapping file |
| MappingStore.RepairedMapsReadBack | utils/mapping_utils.py:41-44 | a repairable file whose recovered maps survive the JSON round trip, under free locks, ends recovery with `.bak` holding the old text and a mapping file whose validated read gives exactly the recovered maps |
| MappingStore.MappingFiles.ReadPass | utils/mapping_utils.py:18-39 | one pass either finds no mapping file and takes no lock, or takes one lock; a timeout reads nothing, and under a free lock the result is the validation of the current file; the files are unchanged |
| MappingStore.MappingFiles.LoadMappings | utils/mapping_utils.py:12-52 | the result is always consistent; non-empty maps are the validated content of the current file; a missing file gives empty maps; a valid file read under a free lock is returned untouched; a lock timeout on the first read gives empty maps; a first read under a free lock that fails validation always triggers recovery, which happens at most once; after recovery the files are exactly those `Recovery` leaves from the files before the first read, and the result is the second read of that re-saved file: its validated maps when its lock was free, else empty maps; at most two reads |
| IndexStore.VectorIndex.Add | utils/load.py:204 | `add` appends one vector and raises the count by one |
| IndexStore.Find | utils/faiss_utils.py:34-39 | a readable image with a non-negative count is intact; an unreadable image or a negative count is corrupt |
| IndexStore.RestoredBackup | utils/faiss_utils.py:157-166 | with a backup present, the index file becomes the backup and no `.bak` is left; otherwise nothing changes |
| IndexStore.RestoreAtMostOnce | utils/faiss_utils.py:146-154 | a second restoration changes nothing |
| IndexStore.Promoted | utils/faiss_utils.py:93-101 | the four removals and renames leave the written file as the index file and nothing else |
| IndexStore.ExpectedLoad | utils/faiss_utils.py:18-56 | the outcome `load_faiss_index` promises, as a function of the cache, the files and the lock: the cached index exactly on a cache hit |
| IndexStore.RecoveredFromBackupOnce | utils/faiss_utils.py:146-154 | a corrupt file with a `.bak`, under free locks, yields the backup's index (or an empty one if the backup has no intact image) and no further recovery |
| IndexStore.FailsOnlyOnTimeout | utils/faiss_utils.py:18-56 | a load fails only when one of its two locks times out, and always fails when the first lock times out on an existing file without a cache hit |
| IndexStore.TimeoutLocksAgree | utils/faiss_utils.py:33-56 | a load that times out has used exactly the lock attempts that `AfterTimeout` counts |
| IndexStore.IndexStore.Load | utils/faiss_utils.py:18-56 | the result is the one `ExpectedLoad` gives: a valid cache is returned without touching the disk; a missing file gives a new empty index and leaves the cache alone; a lock timeout propagates, leaving the cache as it was and the files and lock count as `AfterTimeout` gives; an intact file's count and vectors are returned, cached only with `use_cache`; a corrupt file is restored from `.bak` and the backup's index is returned, else an empty index; loaded indexes are fresh objects; the lock attempts used are exactly `LocksUsed`: none on a cache hit or a missing file, one for the read, and those of the reload after a restoration |
| IndexStore.IndexStore.HandleCorrupted | utils/faiss_utils.py:146-154 | with `.bak` the backup is restored and the result is exactly the load of the restored files without the cache; without it a new empty index; cache and metadata untouched; a timeout there has taken exactly one lock; the lock attempts used are those `LocksUsed` gives for the reload, none without `.bak` |
| IndexStore.IndexStore.CacheKey | utils/faiss_utils.py:130-143 | the cache short-cut applies exactly when the index file exists and has the mtime recorded with a count equal to the cached index's |
| IndexStore.IndexStore.LoadWithRetry | utils/faiss_utils.py:59-70 | at most `max(0, max_retries)` loads; the result is exactly that of `RetryLoad`, which repeats the load on the files and lock outcomes each timed-out attempt leaves, and raises `RuntimeError` once `max_retries` attempts have timed out (immediately if `max_retries <= 0`); a first load that does not time out ends the loop after one attempt with exactly that load's result |
| IndexStore.AllTimeoutsRaise | utils/faiss_utils.py:59-70 | when every lock of the retries times out on an existing file without a cache hit, the call raises `RuntimeError` |
| IndexStore.SecondAttemptLoads | utils/faiss_utils.py:59-70 | when the first lock times out and the second is free on an intact file, the second attempt returns that file's count and vectors |
| IndexStore.IndexStore.Save | utils/faiss_utils.py:73-112 | an unwritable directory changes nothing; a lock timeout raises `RuntimeError`, leaves `.tmp` and restores nothing; a negative count or a failed write restores `.bak`; success leaves only the index file, holding the saved index; exactly one lock attempt is made when the directory is writable, none otherwise |
| IndexStore.SavedIndexReadsBack | utils/faiss_utils.py:87-101 | the saved file is read back as the saved index |
| Ingest.Basename | utils/load.py:158 | the name is the path's last component: a suffix without `/`, preceded by `/` or the start |
| Ingest.StateMaps | utils/load.py:115-119 | the maps `FileIndexState` takes from a parsed file never have a `None` path key |
| Ingest.StateMapsExtendValidation | utils/load.py:115-119 | `FileIndexState` accepts every file `mapping_utils` accepts, with the same maps, and additionally the inconsistent ones |
| Ingest.NoneKeyLostOnReload | utils/load.py:143-150 | after a save and reload, an id whose hash was `None` has no path |
| Ingest.FileIndexState.SaveMappings | utils/load.py:143-153 | with the lock, the file holds the current maps; a timeout is swallowed and leaves an existing file untouched or creates an empty one |
| Ingest.FileIndexState.CreateNewMappings | utils/load.py:136-141 | both maps are emptied and saved over the file |
| Ingest.FileIndexState.LoadMappings | utils/load.py:94-134 | an unreadable file raises and changes nothing; a parsable file's maps are taken as they are; a missing or unparsable file is replaced by empty maps |
| Ingest.HashContent | utils/load.py:168 | the streamed hash is the hash of the content with the default arguments |
| Ingest.FileIndexState.LoadIndexIfMissing | utils/load.py:201-202 | an existing index is kept; otherwise the lazy load succeeds exactly when `load_faiss_index` would, and supplies its index (the cached one, or one with the loaded count and vectors); the maps and the file are untouched, and ids stay fresh when the index was already there; the store has then used the lock attempts of that load, so the next one is the index save's (`SaveLock`) |
| Ingest.FileIndexState.UpdateIndex | utils/load.py:199-213 | the doc id is the count before the append; when no index was loaded yet, the call raises exactly when `load_faiss_index` fails, and otherwise the new id is the loaded count and the index holds the loaded vectors plus the new one; both maps gain exactly the new entries; consistency is preserved; ids stay fresh; the maps are saved before the index, and a failed index save still leaves them saved; the result is `Updated` exactly when an index is there after the load and `save_faiss_index` succeeds on it: writable directory, free lock at `SaveLock`, non-negative count and a successful write; otherwise `error` (load or save raised) |
| Ingest.FileIndexState.AppendAndSave | utils/load.py:204-213 | with an index loaded, the vector is appended in place and its position is the doc id; both maps gain exactly the new entries, saved when the mapping lock is free; the result is `Updated` exactly when `save_faiss_index` succeeds, which then leaves only the index file holding the new index; ids stay fresh and consistency is preserved |
| Ingest.FileIndexState.ProcessLocalFile | utils/load.py:156-184 | `skipped` exactly for empty content; `exists` exactly when the hash is already a path key; `skipped`, `exists` and a failed extraction change nothing; for new content, a failed embedding is `error` and changes nothing; otherwise the embedding is appended to the index (the one already loaded, or the one `load_faiss_index` supplies, whose failure is `error` with the maps untouched); once appended, both maps hold the new entries under the id `ntotal - 1`, and the mapping file holds them when the lock was free, even if the result is `error` because the index save failed; `success` carries that id and the content's hash, which was not a path key before, and the id is fresh when the maps were in step with the loaded index; no path key is ever removed; `success` exactly when the content is extracted, non-empty, new and embedded, and the index is loaded and saved (`IndexSaves`) |
| Ingest.FileIndexState.ProcessContent | utils/load.py:164-184 | the same outcomes as `process_local_file` for extracted content, stated for that content; `success` exactly when the content is non-empty, new and embedded, and the index is loaded and saved |
| Ingest.FileIndexState.AddIfNew | utils/load.py:170-184 | `exists` exactly when the hash is already a path key, changing nothing; otherwise the outcomes of adding the document under that hash; `success` exactly when the hash is new, the content is embedded, and the index is loaded and saved |
| Ingest.FileIndexState.AddDocument | utils/load.py:175-184 | a failed embedding is `error` and changes nothing; otherwise the embedding is appended to the loaded or newly loaded index, a failed load is `error` with the maps untouched, and once appended both maps hold the new entries under the id `ntotal - 1`, saved when the lock was free; `success` carries that id; `success` exactly when the content is embedded and the index is loaded and saved |
| Ingest.FileIndexState.ProcessNext | utils/load.py:226-227 | processing the next walked file extends the reports, the recorded hashes, the freshness of added hashes and the deduplication to its result; a `skipped` or `exists` result changes nothing |
| Ingest.FileIndexState.ProcessFilesInDirectory | utils/load.py:216-228 | `process_files_in_directory` returns `None` and only logs each file's result; `results` stands for those logged results. A non-directory gives nothing; otherwise one result per walked file, in walk order, each named after its file, `skipped` exactly for empty content, `failed` for a failed extraction, `success`/`exists` carrying the content's hash; every such hash is a path key at the end, no path key is removed, and the maps stay consistent; a run of only `skipped` and `exists` results leaves the maps, the mapping file and the index unchanged; every `success` hash was not a path key before the run and no two `success` results share a hash; a later file whose non-empty content hashes like an earlier `success` or `exists` is reported `exists` |
| Ingest.BlankFilesShareNoneKey | utils/load.py:164-172 | two blank but non-empty files both hash to `None` |
| Query.ResolveFrom | routes/query.py:49-62 | the resolution keeps at most one path per rank, and no empty path |
| Query.RanksIncrease | routes/query.py:49-62 | the ranks whose ids resolve lie within the row and increase |
| Query.RanksGiveDocuments | routes/query.py:49-62 | the j-th resolved path is the path of the id at the j-th resolving rank |
| Query.RanksComplete | routes/query.py:49-62 | every rank whose id resolves is among the resolving ranks, so no resolvable document is dropped |
| Query.NothingResolvedIffEmpty | routes/query.py:49-65 | the document list is empty exactly when no ranked id resolves |
| Query.Context | routes/query.py:67-71 | the joined context has at least one character per document |
| Query.ContextAppend | routes/query.py:67-71 | the context of a concatenation of document lists is the concatenation of their contexts |
| Query.CatchAll | routes/query.py:78-79 | as written, every failure, the 404 included, reaches the client as 500 |
| Query.PassHttpErrors | routes/query.py:64-65 | as intended, a raised `HTTPException` keeps its status |
| Query.NotFoundMaskedAsWritten | routes/query.py:64-79 | with no resolved document the route answers 500 as written, 404 as intended |
| Query.NotFoundIffNothingResolves | routes/query.py:49-65 | as intended, the answer is 404 exactly when the search ran and no ranked id resolves |
| Query.AnsweredFromResolvedDocuments | routes/query.py:49-76 | an answer is given exactly when some id resolves and the model answers; its documents are the resolved paths in rank order |
| Query.RelevantDocs | routes/query.py:49-62 | the loop appends, in rank order, exactly the resolved paths |
| Query.JoinContents | routes/query.py:67-70 | the loop builds the specified context, each document's text followed by a newline |
| Query.Query | routes/query.py:34-79 | the response is the intended handler's response to the route body |

## Findings

| source | as written | input that shows it | evidently intended | confidence | as-written member | corrected member |
|---|---|---|---|---|---|---|
| routes/query.py:64-79 | the 404 raised when no document resolves is caught by `except Exception` and re-raised as a 500 | a search whose ids all miss the id map (e.g. FAISS's `-1` padding only) | the client receives 404 "No relevant documents found." | high; not executed | Query.CatchAll | Query.PassHttpErrors |

## Left out

- FAISS internals. These are `read_index`/`write_index`, `IndexFlatIP`/`IndexFlatL2`, `search`, the index dimension and the sentence encoder. An index is its count and an opaque vector sequence, and a score is any type with a `>=` comparison.
- L2 normalisation of vectors in `_encode_file_content` (utils/load.py:190-196). It is floating-point arithmetic on opaque vectors.
- MD5 (RFC 1321), Unicode normalisation (UAX #15) and JSON (RFC 8259). They are opaque parameters. Only UTF-8 encoding and the brace-repair text check are written out.
- JSON values of other types than those written. A member that is not an object, and path values that are not strings, are not modelled. So `mapping_utils.load_mappings`'s "unexpected error" exit is reached only through a lock timeout.
- `int()` forms other than optional `-` and ASCII digits (surrounding whitespace, `+`, `_` separators, non-ASCII digits) are not modelled. Such keys read as rejections.
- Concurrency. This covers `portalocker` locks, `threading.Lock`, the `FileIndexState.__new__` singleton (utils/load.py:77-85) and `time.sleep`. Runs are sequential, and a lock is an attempt that succeeds or times out.
- `_create_new_index` failures (utils/faiss_utils.py:125-127). Building the encoder is outside the model, and a new index is simply empty.
- File-system failures other than those named are not modelled: unreadable files, an unwritable directory, failing `write_index`, and lock timeouts. Removals and renames always succeed, and a crash between the renames of a save is not modelled.
- IndexStore.IndexStore.Save: with an unwritable directory, the attempted `.bak` restoration is taken to fail like the save. The disk is left unchanged.
- ContentHash.Utf8: a Dafny `char` is a Unicode scalar value, so lone surrogates are not modelled. In the source, `encode('utf-8')` (utils/load.py:59) raises `UnicodeEncodeError` on such a text, which is a `ValueError` caught at utils/load.py:67-69. So `calculate_md5_from_text` returns `None` for it, while `ContentHash.CalculateMd5` hashes every text it is given.
- Logging, and the existence loop of `validate_mappings` (utils/mapping_utils.py:129-135), which only logs.
- The embedding, `faiss.read_index` and `index.search` of the query route are one parameter: the row of neighbour ids, or a failure. How FAISS treats `k <= 0` falls inside that parameter.
- `call_llm`, `read_file_content`'s file system, document extraction and the sentence encoder are parameters.
- The reason strings of `process_local_file`'s results and of the HTTP errors.
- `search_in_faiss`'s own `index.search` call. Its first score row is the input.
- Query.Query: returns the intended 404, not the as-written 500, when nothing resolves. The as-written behaviour is `Query.CatchAll`.
- Ingest.FileIndexState.ProcessContent: takes the content's hash as the value of `DefaultMd5`, which the streaming loop behind `HashContent` is proved to compute, rather than running that loop inside the class.
- Ingest.FileIndexState.ProcessLocalFile: the id of a `success` is proved fresh only when the maps were in step with the loaded index (every id below its count), as for `UpdateIndex`.
- Ingest.FileIndexState.UpdateIndex: doc-id freshness is proved only when the index is already loaded and every id is below its count. An index loaded during the call may disagree with the maps.
