/**
 * The two identity maps and their persisted form.
 *
 * The id map sends a document id (the vector's position in the index) to the
 * content hash of the document; the path map sends a content hash to the file
 * path.  They are persisted as one JSON object with the members
 * `file_id_map` and `file_path_map`.  JSON object keys are strings, so the id
 * map's integer keys are written as decimal text (`str(k)`) and read back
 * with `int(k)`, and a `None` hash used as a path-map key is written as
 * `"null"`.
 *
 * JSON itself is opaque: a codec with `dumps` and `loads`.  What `loads`
 * yields is a document: either an object with the two members (each absent,
 * or an object given by its members in the order the parsed dict yields
 * them), or anything else.
 */
module Mappings {
  import opened Common
  import opened TextProcessing
  import opened ContentHash

  /** `file_id_map`: document id to content hash. */
  type IdMap = map<int, Md5>

  /** `file_path_map`: content hash to file path. */
  type PathMap = map<Md5, string>

  /** The mapping invariant: every hash the id map names has a path. */
  predicate Consistent(ids: IdMap, paths: PathMap)
  {
    forall d :: d in ids ==> ids[d] in paths
  }

  // ---------------------------------------------------------------------
  // Decimal text of integer keys: `str(k)` and `int(k)`.

  function DigitChar(d: int): char
    requires 0 <= d < 10
  {
    (('0' as int) + d) as char
  }

  predicate IsDigit(c: char)
  {
    '0' <= c <= '9'
  }

  /** `str(n)` for a natural number: decimal digits, no leading zero. */
  function ShowNat(n: nat): (s: string)
    ensures s != [] && forall i :: 0 <= i < |s| ==> IsDigit(s[i])
  {
    if n < 10 then [DigitChar(n)] else ShowNat(n / 10) + [DigitChar(n % 10)]
  }

  /** `int(s)` on a string of decimal digits; leading zeros are accepted. */
  function ParseNat(s: string): Option<nat>
  {
    if s == [] || !IsDigit(s[|s| - 1]) then None
    else
      var d := s[|s| - 1] as int - '0' as int;
      if |s| == 1 then Some(d)
      else
        match ParseNat(s[..|s| - 1])
        case None => None
        case Some(m) => Some(10 * m + d)
  }

  /** `str(k)` for an integer key. */
  function ShowInt(k: int): string
  {
    if k < 0 then "-" + ShowNat(-k) else ShowNat(k)
  }

  /** `int(s)`, with `None` where Python raises `ValueError`. */
  function ParseInt(s: string): Option<int>
  {
    if |s| > 0 && s[0] == '-' then
      match ParseNat(s[1..])
      case None => None
      case Some(m) => Some(-(m as int))
    else
      match ParseNat(s)
      case None => None
      case Some(m) => Some(m)
  }

  lemma {:induction false} ParseShowNat(n: nat)
    ensures ParseNat(ShowNat(n)) == Some(n)
  {
    if n >= 10 {
      var s := ShowNat(n);
      assert s[..|s| - 1] == ShowNat(n / 10);
      ParseShowNat(n / 10);
    }
  }

  /** `int(str(k)) == k` for every integer key. */
  lemma ParseShowInt(k: int)
    ensures ParseInt(ShowInt(k)) == Some(k)
  {
    if k < 0 {
      var digits := ShowNat(-k);
      assert ShowInt(k) == "-" + digits;
      assert ("-" + digits)[1..] == digits;
      ParseShowNat(-k);
    } else {
      var digits := ShowNat(k);
      assert ShowInt(k) == digits && IsDigit(digits[0]);
      ParseShowNat(k);
    }
  }

  /** Different keys are written as different texts. */
  lemma ShowIntInjective()
    ensures forall a, b :: ShowInt(a) == ShowInt(b) ==> a == b
  {
    forall a, b | ShowInt(a) == ShowInt(b)
      ensures a == b
    {
      ParseShowInt(a);
      ParseShowInt(b);
    }
  }

  // ---------------------------------------------------------------------
  // The JSON document.

  /** One member of the top-level object: absent, or an object given by its members. */
  datatype Section<V> = Absent | Members(entries: seq<(string, V)>)

  /** A parsed mapping file: an object with the two members, or some other JSON value. */
  datatype MappingJson = MappingObject(ids: Section<Md5>, paths: Section<string>) | NotMappingObject

  /**
   * `json.dumps` of the object with the two maps, and `json.loads` (`None`
   * is `JSONDecodeError`).  Writing converts the keys to text as `JsonIds`
   * and `JsonPaths` do: `str(k)` for an integer, `"null"` for `None`.
   */
  datatype JsonCodec = JsonCodec(dumps: (IdMap, PathMap) -> string,
                                 loads: string -> Option<MappingJson>)

  /** The dict built from an object's members; a later member wins over an earlier one with the same key. */
  function AsMap<V>(entries: seq<(string, V)>): (m: map<string, V>)
    ensures forall i :: 0 <= i < |entries| ==> entries[i].0 in m
  {
    if entries == [] then map[]
    else AsMap(entries[..|entries| - 1])[entries[|entries| - 1].0 := entries[|entries| - 1].1]
  }

  /** `doc` is a parsed object whose two members are exactly `ids` and `paths`. */
  predicate ReadsAs(doc: Option<MappingJson>, ids: map<string, Md5>, paths: map<string, string>)
  {
    && doc.Some? && doc.value.MappingObject?
    && doc.value.ids.Members? && AsMap(doc.value.ids.entries) == ids
    && doc.value.paths.Members? && AsMap(doc.value.paths.entries) == paths
  }

  /** Parsing the text `dumps` writes gives back the two maps with their keys as text. */
  ghost predicate RoundTrips(codec: JsonCodec)
  {
    forall ids, paths :: ReadsAs(codec.loads(codec.dumps(ids, paths)), JsonIds(ids), JsonPaths(paths))
  }

  /** `{str(k): v for k, v in ids.items()}`. */
  function JsonIds(ids: IdMap): (m: map<string, Md5>)
    ensures forall k :: k in ids <==> ShowInt(k) in m
  {
    ShowIntInjective();
    map k | k in ids :: ShowInt(k) := ids[k]
  }

  /** `{int(k): v for k, v in members}`: `None` when some key is not an integer's text. */
  function IntKeyed(entries: seq<(string, Md5)>): Option<IdMap>
  {
    if entries == [] then Some(map[])
    else
      var last := entries[|entries| - 1];
      match IntKeyed(entries[..|entries| - 1])
      case None => None
      case Some(m) =>
        match ParseInt(last.0)
        case None => None
        case Some(k) => Some(m[k := last.1])
  }

  /** The text a hash key is written as: `None` becomes `"null"`. */
  function KeyText(h: Md5): string
  {
    match h
    case None => "null"
    case Some(s) => s
  }

  function KeyTexts(paths: PathMap): (r: set<string>)
    ensures forall s :: s in r ==> Some(s) in paths || (s == "null" && None in paths)
    ensures forall h :: h in paths ==> KeyText(h) in r
  {
    set h | h in paths :: KeyText(h)
  }

  /**
   * The path map as a JSON object.  Should both `None` and the hash `"null"`
   * be keys, they are written under the same text; the model keeps the
   * hash's path.
   */
  function JsonPaths(paths: PathMap): (m: map<string, string>)
    ensures forall h :: h in paths ==> KeyText(h) in m
    ensures forall s :: s in m ==> Some(s) in paths || (s == "null" && None in paths)
  {
    map s | s in KeyTexts(paths) :: if Some(s) in paths then paths[Some(s)] else paths[None]
  }

  /** The path map read back from JSON: every key is a present hash. */
  function FromJsonPaths(json: map<string, string>): (paths: PathMap)
    ensures None !in paths
    ensures forall s :: Some(s) in paths <==> s in json
  {
    map s | s in json :: Some(s) := json[s]
  }

  /** The path map read member by member: each key is a hash's text, later duplicates win. */
  function PathEntries(entries: seq<(string, string)>): (paths: PathMap)
    ensures None !in paths
  {
    if entries == [] then map[]
    else
      var last := entries[|entries| - 1];
      PathEntries(entries[..|entries| - 1])[Some(last.0) := last.1]
  }

  /** Read member by member, the path map is the one built from the parsed dict. */
  lemma {:induction false} PathEntriesAsMap(entries: seq<(string, string)>)
    ensures PathEntries(entries) == FromJsonPaths(AsMap(entries))
    decreases |entries|
  {
    if entries != [] {
      var init := entries[..|entries| - 1];
      var last := entries[|entries| - 1];
      PathEntriesAsMap(init);
      var l := PathEntries(entries);
      var r := FromJsonPaths(AsMap(entries));
      assert AsMap(entries) == AsMap(init)[last.0 := last.1];
      forall k ensures (k in l <==> k in r) && (k in l ==> l[k] == r[k]) {
      }
    }
  }

  // ---------------------------------------------------------------------
  // Loading as `mapping_utils.load_mappings` validates it.

  /** A validated pair, or the `ValueError` (a JSON syntax error included) that rejects the file. */
  datatype Decoded = Accept(ids: IdMap, paths: PathMap) | Invalid

  /**
   * Structural check, key conversion and consistency check of a parsed
   * mapping file.  The path map is the JSON object as it is, so its keys
   * are present hashes.
   */
  function DecodeMappings(doc: Option<MappingJson>): (r: Decoded)
    ensures r.Accept? ==> Consistent(r.ids, r.paths) && None !in r.paths
  {
    match doc
    case Some(MappingObject(Members(idEntries), Members(pathEntries))) => DecodeMembers(idEntries, pathEntries)
    case _ => Invalid
  }

  /** Key conversion and consistency check of the two members of a well-formed file. */
  function DecodeMembers(idEntries: seq<(string, Md5)>, pathEntries: seq<(string, string)>): (r: Decoded)
    ensures r.Accept? ==> Consistent(r.ids, r.paths) && None !in r.paths
  {
    match IntKeyed(idEntries)
    case None => Invalid
    case Some(idMap) =>
      var pathMap := PathEntries(pathEntries);
      if Consistent(idMap, pathMap) then Accept(idMap, pathMap) else Invalid
  }

  lemma DecodeObject(idEntries: seq<(string, Md5)>, pathEntries: seq<(string, string)>)
    ensures DecodeMappings(Some(MappingObject(Members(idEntries), Members(pathEntries)))) ==
            DecodeMembers(idEntries, pathEntries)
  {
  }

  /**
   * The consistency loop: walks the id map and stops at the first id whose
   * hash has no path.
   */
  method CheckConsistency(ids: IdMap, paths: PathMap) returns (ok: bool)
    ensures ok <==> Consistent(ids, paths)
  {
    var rest := ids.Keys;
    while rest != {}
      invariant rest <= ids.Keys
      invariant forall d :: d in ids && d !in rest ==> ids[d] in paths
      decreases |rest|
    {
      var d := Pick(rest);
      if ids[d] !in paths {
        return false;
      }
      rest := rest - {d};
    }
    return true;
  }

  /**
   * The checks `load_mappings` runs on a parsed file, in order: structure,
   * key conversion, then the consistency loop.
   */
  method ValidateDocument(doc: Option<MappingJson>) returns (r: Decoded)
    ensures r == DecodeMappings(doc)
  {
    if doc.None? || doc.value.NotMappingObject? || doc.value.ids.Absent? || doc.value.paths.Absent? {
      return Invalid;
    }
    var idEntries, pathEntries := doc.value.ids.entries, doc.value.paths.entries;
    DecodeObject(idEntries, pathEntries);
    var idMap := IntKeyed(idEntries);
    if idMap.None? {
      return Invalid;
    }
    var pathMap := FromJsonPaths(AsMap(pathEntries));
    PathEntriesAsMap(pathEntries);
    var ok := CheckConsistency(idMap.value, pathMap);
    if !ok {
      return Invalid;
    }
    return Accept(idMap.value, pathMap);
  }

  /** `validate_mappings`: no hash of the id map is missing from the path map's keys. */
  function ValidateMappings(ids: IdMap, paths: PathMap): bool
  {
    (set d | d in ids :: ids[d]) - paths.Keys == {}
  }

  /** The set difference is empty exactly when the mapping invariant holds. */
  lemma ValidateMappingsIffConsistent(ids: IdMap, paths: PathMap)
    ensures ValidateMappings(ids, paths) <==> Consistent(ids, paths)
  {
    var missing := (set d | d in ids :: ids[d]) - paths.Keys;
    if Consistent(ids, paths) {
      assert forall h :: h in missing ==> false;
      assert missing == {};
    } else {
      var d :| d in ids && ids[d] !in paths;
      assert ids[d] in missing;
    }
  }

  // ---------------------------------------------------------------------
  // Round trip of the persisted form.

  /** A key the integer conversion accepts and writes back as the same text. */
  predicate CanonicalKey(s: string)
  {
    ParseInt(s).Some? && ShowInt(ParseInt(s).value) == s
  }

  lemma {:induction false} IntKeyedCanonical(entries: seq<(string, Md5)>)
    requires forall i :: 0 <= i < |entries| ==> CanonicalKey(entries[i].0)
    ensures IntKeyed(entries).Some?
    ensures forall k :: k in IntKeyed(entries).value <==> ShowInt(k) in AsMap(entries)
    ensures forall k :: k in IntKeyed(entries).value ==> IntKeyed(entries).value[k] == AsMap(entries)[ShowInt(k)]
  {
    if entries != [] {
      var init := entries[..|entries| - 1];
      var last := entries[|entries| - 1];
      IntKeyedCanonical(init);
      ShowIntInjective();
      var c := ParseInt(last.0).value;
      assert IntKeyed(entries) == Some(IntKeyed(init).value[c := last.1]);
      assert AsMap(entries) == AsMap(init)[last.0 := last.1];
      assert ShowInt(c) == last.0;
    }
  }

  /** Every key of the written id map is the text of one of its ids. */
  lemma JsonIdsKey(ids: IdMap, s: string)
    requires s in JsonIds(ids)
    ensures CanonicalKey(s) && ParseInt(s).value in ids
  {
    var k :| k in ids && ShowInt(k) == s;
    ParseShowInt(k);
  }

  /** The written id map holds each id's hash under the id's text. */
  lemma JsonIdsValue(ids: IdMap, k: int)
    requires k in ids
    ensures JsonIds(ids)[ShowInt(k)] == ids[k]
  {
    ShowIntInjective();
  }

  /** Reading back the id map written as `{str(k): v}` gives the same map (`int(str(k)) == k`). */
  lemma IdsRoundTrip(ids: IdMap, entries: seq<(string, Md5)>)
    requires AsMap(entries) == JsonIds(ids)
    ensures IntKeyed(entries) == Some(ids)
  {
    forall i | 0 <= i < |entries|
      ensures CanonicalKey(entries[i].0)
    {
      JsonIdsKey(ids, entries[i].0);
    }
    IntKeyedCanonical(entries);
    var m := IntKeyed(entries).value;
    var written := AsMap(entries);
    forall k | k in m
      ensures k in ids && m[k] == ids[k]
    {
      assert ShowInt(k) in written && m[k] == written[ShowInt(k)];
      JsonIdsValue(ids, k);
    }
    forall k | k in ids
      ensures k in m
    {
      assert ShowInt(k) in written;
    }
    assert m == ids;
  }

  /** A path map without a `None` key survives the trip through JSON unchanged. */
  lemma PathsRoundTrip(paths: PathMap)
    requires None !in paths
    ensures FromJsonPaths(JsonPaths(paths)) == paths
  {
    var back := FromJsonPaths(JsonPaths(paths));
    forall h | h in paths
      ensures h in back && back[h] == paths[h]
    {
      assert KeyText(h) in KeyTexts(paths);
    }
    assert forall h :: h in back ==> h in paths;
  }

  /** The path map's JSON form loads back as the same object. */
  lemma JsonPathsRoundTrip(json: map<string, string>)
    ensures JsonPaths(FromJsonPaths(json)) == json
  {
    var paths := FromJsonPaths(json);
    forall s | s in json
      ensures s in JsonPaths(paths) && JsonPaths(paths)[s] == json[s]
    {
      assert KeyText(Some(s)) in KeyTexts(paths);
    }
  }

  /**
   * Saving a consistent pair without a `None` hash and loading it back gives
   * the same pair.
   */
  lemma SaveLoadRoundTrip(codec: JsonCodec, ids: IdMap, paths: PathMap)
    requires RoundTrips(codec)
    requires Consistent(ids, paths) && None !in paths
    ensures DecodeMappings(codec.loads(codec.dumps(ids, paths))) == Accept(ids, paths)
  {
    Reread(codec, ids, paths);
    var obj := codec.loads(codec.dumps(ids, paths)).value;
    DecodeWritten(ids, paths, obj.ids.entries, obj.paths.entries);
    DecodeObject(obj.ids.entries, obj.paths.entries);
  }

  /** One instance of the codec's round trip. */
  lemma Reread(codec: JsonCodec, ids: IdMap, paths: PathMap)
    requires RoundTrips(codec)
    ensures ReadsAs(codec.loads(codec.dumps(ids, paths)), JsonIds(ids), JsonPaths(paths))
  {
  }

  /** Members that read as the written form of a consistent pair decode to that pair. */
  lemma DecodeWritten(ids: IdMap, paths: PathMap, idEntries: seq<(string, Md5)>, pathEntries: seq<(string, string)>)
    requires Consistent(ids, paths) && None !in paths
    requires AsMap(idEntries) == JsonIds(ids) && AsMap(pathEntries) == JsonPaths(paths)
    ensures DecodeMembers(idEntries, pathEntries) == Accept(ids, paths)
  {
    IdsRoundTrip(ids, idEntries);
    PathsRoundTrip(paths);
    PathEntriesAsMap(pathEntries);
  }

  /**
   * A document indexed under the hash `None` does not survive a save: its
   * path-map key is written as `"null"` and read back as the text `"null"`,
   * so the id map's `None` has no path and the whole file is rejected.
   */
  lemma NoneHashRejectedAfterSave(codec: JsonCodec, ids: IdMap, paths: PathMap, d: int)
    requires RoundTrips(codec)
    requires d in ids && ids[d] == None
    ensures DecodeMappings(codec.loads(codec.dumps(ids, paths))) == Invalid
  {
    Reread(codec, ids, paths);
    var doc := codec.loads(codec.dumps(ids, paths));
    var back := FromJsonPaths(AsMap(doc.value.paths.entries));
    assert None !in back;
    match IntKeyed(doc.value.ids.entries)
    case None =>
    case Some(idMap) =>
      IdsRoundTrip(ids, doc.value.ids.entries);
      assert idMap[d] == None;
  }

  // ---------------------------------------------------------------------
  // The closing-brace repair of `_attempt_mapping_recovery`.

  /** The outcome of the repair parse: a document (noting whether a brace was appended), or none. */
  datatype Repair = Repaired(doc: MappingJson, braceAppended: bool) | NotRepaired | RepairRaised

  /** The stripped text ends in `}` or `]`. */
  predicate EndsClosed(t: string)
  {
    |t| > 0 && (t[|t| - 1] == '}' || t[|t| - 1] == ']')
  }

  /**
   * Parse the raw text as it is; if that fails and its stripped form does
   * not already end in a closing bracket, append one `}` and parse again (a
   * second failure raises).
   */
  function RepairParse(loads: string -> Option<MappingJson>, cc: CharClasses, raw: string): (r: Repair)
    ensures r.Repaired? && !r.braceAppended ==> loads(raw) == Some(r.doc)
    ensures r.Repaired? && r.braceAppended ==>
              loads(raw).None? && !EndsClosed(Strip(cc, raw)) && loads(raw + "}") == Some(r.doc)
    ensures r.NotRepaired? <==> loads(raw).None? && EndsClosed(Strip(cc, raw))
  {
    match loads(raw)
    case Some(doc) => Repaired(doc, false)
    case None =>
      if EndsClosed(Strip(cc, raw)) then NotRepaired
      else
        match loads(raw + "}")
        case Some(doc) => Repaired(doc, true)
        case None => RepairRaised
  }

  /** Text that already parses is never altered by the repair. */
  lemma RepairKeepsValidText(loads: string -> Option<MappingJson>, cc: CharClasses, raw: string)
    requires loads(raw).Some?
    ensures RepairParse(loads, cc, raw) == Repaired(loads(raw).value, false)
  {
  }

  /**
   * The maps the recovery re-saves: a missing member counts as empty
   * (`data.get(key, {})`); `None` where the conversion raises (a parsed
   * value that is not an object, a key that is not an integer).
   */
  function RecoveredMaps(doc: MappingJson): Option<(IdMap, PathMap)>
  {
    match doc
    case NotMappingObject => None
    case MappingObject(ids, paths) =>
      var pathMap := if paths.Absent? then map[] else FromJsonPaths(AsMap(paths.entries));
      if ids.Absent? then Some((map[], pathMap))
      else
        match IntKeyed(ids.entries)
        case None => None
        case Some(idMap) => Some((idMap, pathMap))
  }

  /**
   * A file that parses, with its id keys as `str(k)` writes them, is
   * re-saved by the recovery as text that reads as the same two objects,
   * consistent or not: the recovery does not repair the mapping itself.
   */
  lemma RecoveryResavesUnchanged(codec: JsonCodec, doc: MappingJson, ids: map<string, Md5>, paths: map<string, string>)
    requires RoundTrips(codec)
    requires ReadsAs(Some(doc), ids, paths)
    requires forall s :: s in ids ==> CanonicalKey(s)
    ensures RecoveredMaps(doc).Some?
    ensures ReadsAs(codec.loads(codec.dumps(RecoveredMaps(doc).value.0, RecoveredMaps(doc).value.1)), ids, paths)
  {
    ResaveMembers(ids, paths, doc.ids.entries, doc.paths.entries);
    RecoverObject(doc.ids.entries, doc.paths.entries);
    Reread(codec, RecoveredMaps(doc).value.0, RecoveredMaps(doc).value.1);
  }

  /** Members with keys in `str(k)` form convert to an id map that is written back as the same members. */
  lemma ResaveMembers(ids: map<string, Md5>, paths: map<string, string>,
                      idEntries: seq<(string, Md5)>, pathEntries: seq<(string, string)>)
    requires forall s :: s in ids ==> CanonicalKey(s)
    requires AsMap(idEntries) == ids && AsMap(pathEntries) == paths
    ensures IntKeyed(idEntries).Some?
    ensures JsonIds(IntKeyed(idEntries).value) == ids
    ensures JsonPaths(FromJsonPaths(AsMap(pathEntries))) == paths
  {
    ResaveIds(ids, idEntries);
    JsonPathsRoundTrip(paths);
  }

  lemma ResaveIds(ids: map<string, Md5>, idEntries: seq<(string, Md5)>)
    requires forall s :: s in ids ==> CanonicalKey(s)
    requires AsMap(idEntries) == ids
    ensures IntKeyed(idEntries).Some?
    ensures JsonIds(IntKeyed(idEntries).value) == ids
  {
    forall j | 0 <= j < |idEntries|
      ensures CanonicalKey(idEntries[j].0)
    {
      assert idEntries[j].0 in ids;
    }
    IntKeyedCanonical(idEntries);
    var i := IntKeyed(idEntries).value;
    forall s | s in ids
      ensures s in JsonIds(i) && JsonIds(i)[s] == ids[s]
    {
      var k := ParseInt(s).value;
      assert ShowInt(k) == s;
      JsonIdsValue(i, k);
    }
    forall s | s in JsonIds(i)
      ensures s in ids
    {
      JsonIdsKey(i, s);
      assert ShowInt(ParseInt(s).value) in AsMap(idEntries);
    }
  }

  lemma RecoverObject(idEntries: seq<(string, Md5)>, pathEntries: seq<(string, string)>)
    ensures RecoveredMaps(MappingObject(Members(idEntries), Members(pathEntries))) ==
            if IntKeyed(idEntries).None? then None
            else Some((IntKeyed(idEntries).value, FromJsonPaths(AsMap(pathEntries))))
  {
  }

  /**
   * A key with a leading zero is accepted by `int()` but written back
   * without it: the recovery does not re-save such a file unchanged.
   */
  lemma LeadingZeroKeyRewritten()
    ensures ParseInt("01") == Some(1) && ShowInt(1) == "1"
  {
    assert ParseNat("0") == Some(0);
  }
}
