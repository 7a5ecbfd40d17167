/**
 * The `/query` route of `routes/query.py`: look up the FAISS ids of the
 * nearest neighbours in the id map and the path map, read the files found,
 * join their contents and ask the language model.
 *
 * The index read, the embedding and `index.search` are one parameter
 * `search`: the first row of neighbour ids (FAISS pads it with -1), or
 * `None` when any of them raises.  File reading and the language model are
 * parameters too; `None` stands for an exception.
 */
module Query {
  import opened Common
  import opened ContentHash
  import opened Mappings

  /** The path recorded for a FAISS id: both lookups must give a truthy value. */
  function PathFor(ids: IdMap, paths: PathMap, docId: int): Option<string>
  {
    if docId in ids && ids[docId].Some? && ids[docId].value != "" && ids[docId] in paths && paths[ids[docId]] != ""
    then Some(paths[ids[docId]])
    else None
  }

  /** The resolved paths of the ids at ranks `start` and later, in rank order. */
  function ResolveFrom(row: seq<int>, ids: IdMap, paths: PathMap, start: nat): (docs: seq<string>)
    requires start <= |row|
    ensures |docs| <= |row| - start
    ensures forall d :: d in docs ==> d != ""
    decreases |row| - start
  {
    if start == |row| then []
    else
      var rest := ResolveFrom(row, ids, paths, start + 1);
      match PathFor(ids, paths, row[start])
      case None => rest
      case Some(p) => [p] + rest
  }

  /** `relevant_docs`: the resolved paths of the ranked ids, in rank order. */
  function Resolve(row: seq<int>, ids: IdMap, paths: PathMap): seq<string>
  {
    ResolveFrom(row, ids, paths, 0)
  }

  /** The ranks from `start` on whose ids resolve, in increasing order. */
  ghost function RanksFrom(row: seq<int>, ids: IdMap, paths: PathMap, start: nat): seq<nat>
    requires start <= |row|
    decreases |row| - start
  {
    if start == |row| then []
    else
      var rest := RanksFrom(row, ids, paths, start + 1);
      if PathFor(ids, paths, row[start]).Some? then [start] + rest else rest
  }

  /** The ranks lie in `[lo, hi)` and increase. */
  predicate IncreasingWithin(ranks: seq<nat>, lo: nat, hi: nat)
  {
    && (forall j :: 0 <= j < |ranks| ==> lo <= ranks[j] < hi)
    && (forall j, k :: 0 <= j < k < |ranks| ==> ranks[j] < ranks[k])
  }

  lemma {:induction false} RanksIncrease(row: seq<int>, ids: IdMap, paths: PathMap, start: nat)
    requires start <= |row|
    ensures IncreasingWithin(RanksFrom(row, ids, paths, start), start, |row|)
    decreases |row| - start
  {
    if start < |row| {
      RanksIncrease(row, ids, paths, start + 1);
      var rest := RanksFrom(row, ids, paths, start + 1);
      if PathFor(ids, paths, row[start]).Some? {
        var ranks := [start] + rest;
        assert RanksFrom(row, ids, paths, start) == ranks;
        forall j | 0 < j < |ranks|
          ensures ranks[j] == rest[j - 1]
        {
        }
      } else {
        assert RanksFrom(row, ids, paths, start) == rest;
      }
    }
  }

  /**
   * `docs[j]` is the path of the id at rank `ranks[j]`.  The bound
   * `ranks[j] < |row|` always holds (`RanksIncrease`); it is repeated here
   * only so that `row[ranks[j]]` is well formed in the postcondition.
   */
  lemma {:induction false} RanksGiveDocuments(row: seq<int>, ids: IdMap, paths: PathMap, start: nat)
    requires start <= |row|
    ensures var ranks := RanksFrom(row, ids, paths, start);
            var docs := ResolveFrom(row, ids, paths, start);
            && |ranks| == |docs|
            && forall j :: 0 <= j < |ranks| && ranks[j] < |row| ==> PathFor(ids, paths, row[ranks[j]]) == Some(docs[j])
    decreases |row| - start
  {
    if start < |row| {
      RanksGiveDocuments(row, ids, paths, start + 1);
      var rest := RanksFrom(row, ids, paths, start + 1);
      var docsRest := ResolveFrom(row, ids, paths, start + 1);
      match PathFor(ids, paths, row[start])
      case None =>
      case Some(p) =>
        var ranks := [start] + rest;
        var docs := [p] + docsRest;
        forall j | 0 < j < |ranks|
          ensures ranks[j] == rest[j - 1] && docs[j] == docsRest[j - 1]
        {
        }
    }
  }

  /** Every rank from `start` on whose id resolves is among the ranks. */
  lemma {:induction false} RanksComplete(row: seq<int>, ids: IdMap, paths: PathMap, start: nat)
    requires start <= |row|
    ensures forall i :: start <= i < |row| && PathFor(ids, paths, row[i]).Some? ==> i in RanksFrom(row, ids, paths, start)
    decreases |row| - start
  {
    if start < |row| {
      RanksComplete(row, ids, paths, start + 1);
    }
  }

  /** No rank resolves exactly when the list of documents is empty. */
  lemma NothingResolvedIffEmpty(row: seq<int>, ids: IdMap, paths: PathMap)
    ensures Resolve(row, ids, paths) == [] <==> forall i :: 0 <= i < |row| ==> PathFor(ids, paths, row[i]).None?
  {
    RanksIncrease(row, ids, paths, 0);
    RanksGiveDocuments(row, ids, paths, 0);
    RanksComplete(row, ids, paths, 0);
    var ranks := RanksFrom(row, ids, paths, 0);
    if Resolve(row, ids, paths) != [] {
      assert PathFor(ids, paths, row[ranks[0]]).Some?;
    }
  }

  /** `read_file_content`: the file's text, or "" when reading raises. */
  function Contents(read: string -> Option<string>, path: string): string
  {
    match read(path)
    case None => ""
    case Some(text) => text
  }

  /** `documents_content`: each document's text followed by a newline, in order. */
  function Context(docs: seq<string>, read: string -> Option<string>): (c: string)
    ensures |c| >= |docs|
  {
    if docs == [] then ""
    else Context(docs[..|docs| - 1], read) + Contents(read, docs[|docs| - 1]) + "\n"
  }

  /** The context of a concatenation is the concatenation of the contexts. */
  lemma {:induction false} ContextAppend(a: seq<string>, b: seq<string>, read: string -> Option<string>)
    ensures Context(a + b, read) == Context(a, read) + Context(b, read)
    decreases |b|
  {
    if b == [] {
      assert a + b == a;
    } else {
      var b' := b[..|b| - 1];
      assert (a + b)[..|a + b| - 1] == a + b';
      assert (a + b)[|a + b| - 1] == b[|b| - 1];
      ContextAppend(a, b', read);
    }
  }

  /** What the body of the route's `try` ends with. */
  datatype Outcome = Answered(answer: string, documents: seq<string>) | HttpRaised(status: int) | Crashed

  /** What the client receives. */
  datatype Response = Ok(answer: string, documents: seq<string>) | HttpError(status: int)

  /** The body of the `try`, with `read` and `llm` for file reading and `call_llm`. */
  function Answer(query: string, search: Option<seq<int>>, ids: IdMap, paths: PathMap,
                  read: string -> Option<string>, llm: (string, string) -> Option<string>): Outcome
  {
    match search
    case None => Crashed
    case Some(row) =>
      var docs := Resolve(row, ids, paths);
      if docs == [] then HttpRaised(404)
      else
        match llm(query, Context(docs, read))
        case None => Crashed
        case Some(a) => Answered(a, docs)
  }

  /**
   * The route's handler as written: `except Exception` also catches the
   * `HTTPException` raised inside the `try`, so every failure is a 500.
   */
  function CatchAll(o: Outcome): (r: Response)
    ensures r.HttpError? <==> !o.Answered?
    ensures r.HttpError? ==> r.status == 500
    ensures o.Answered? ==> r == Ok(o.answer, o.documents)
  {
    match o
    case Answered(a, docs) => Ok(a, docs)
    case HttpRaised(_) => HttpError(500)
    case Crashed => HttpError(500)
  }

  /** The handler as evidently intended: an `HTTPException` keeps its status, anything else is a 500. */
  function PassHttpErrors(o: Outcome): (r: Response)
    ensures o.HttpRaised? ==> r == HttpError(o.status)
    ensures o.Crashed? ==> r == HttpError(500)
    ensures o.Answered? ==> r == Ok(o.answer, o.documents)
  {
    match o
    case Answered(a, docs) => Ok(a, docs)
    case HttpRaised(s) => HttpError(s)
    case Crashed => HttpError(500)
  }

  /** As written, a query that finds no documents is answered 500, not 404. */
  lemma NotFoundMaskedAsWritten(query: string, row: seq<int>, ids: IdMap, paths: PathMap,
                                read: string -> Option<string>, llm: (string, string) -> Option<string>)
    requires Resolve(row, ids, paths) == []
    ensures CatchAll(Answer(query, Some(row), ids, paths, read, llm)) == HttpError(500)
    ensures PassHttpErrors(Answer(query, Some(row), ids, paths, read, llm)) == HttpError(404)
  {
  }

  /**
   * With the intended handler: the answer is 404 exactly when the search ran
   * and none of its ids resolves to a path.
   */
  lemma NotFoundIffNothingResolves(query: string, search: Option<seq<int>>, ids: IdMap, paths: PathMap,
                                   read: string -> Option<string>, llm: (string, string) -> Option<string>)
    ensures PassHttpErrors(Answer(query, search, ids, paths, read, llm)) == HttpError(404) <==>
              search.Some? && forall i :: 0 <= i < |search.value| ==> PathFor(ids, paths, search.value[i]).None?
  {
    if search.Some? {
      NothingResolvedIffEmpty(search.value, ids, paths);
    }
  }

  /**
   * A successful answer lists the resolved documents in rank order and is the
   * model's answer to the query over their joined contents.
   */
  lemma AnsweredFromResolvedDocuments(query: string, search: Option<seq<int>>, ids: IdMap, paths: PathMap,
                                      read: string -> Option<string>, llm: (string, string) -> Option<string>)
    ensures PassHttpErrors(Answer(query, search, ids, paths, read, llm)).Ok? <==>
              && search.Some? && Resolve(search.value, ids, paths) != []
              && llm(query, Context(Resolve(search.value, ids, paths), read)).Some?
    ensures PassHttpErrors(Answer(query, search, ids, paths, read, llm)).Ok? ==>
              var r := PassHttpErrors(Answer(query, search, ids, paths, read, llm));
              && r.documents == Resolve(search.value, ids, paths)
              && Some(r.answer) == llm(query, Context(r.documents, read))
  {
  }

  /** The loop that builds `relevant_docs`: rank by rank, appending each path that resolves. */
  method RelevantDocs(row: seq<int>, ids: IdMap, paths: PathMap) returns (docs: seq<string>)
    ensures docs == Resolve(row, ids, paths)
  {
    docs := [];
    var i := 0;
    while i < |row|
      invariant 0 <= i <= |row|
      invariant docs + ResolveFrom(row, ids, paths, i) == Resolve(row, ids, paths)
    {
      var found := PathFor(ids, paths, row[i]);
      if found.Some? {
        assert docs + ResolveFrom(row, ids, paths, i) == (docs + [found.value]) + ResolveFrom(row, ids, paths, i + 1);
        docs := docs + [found.value];
      }
      i := i + 1;
    }
    assert docs + [] == docs;
  }

  /** The loop that builds `documents_content`: each file's text and a newline, in order. */
  method JoinContents(docs: seq<string>, read: string -> Option<string>) returns (context: string)
    ensures context == Context(docs, read)
  {
    context := "";
    var j := 0;
    while j < |docs|
      invariant 0 <= j <= |docs|
      invariant context == Context(docs[..j], read)
    {
      assert docs[..j + 1][..j] == docs[..j];
      context := context + Contents(read, docs[j]) + "\n";
      j := j + 1;
    }
    assert docs[..|docs|] == docs;
  }

  /**
   * The route: collect the paths, read and join them, call the model; the
   * response uses the intended handler.
   */
  method Query(query: string, search: Option<seq<int>>, ids: IdMap, paths: PathMap,
               read: string -> Option<string>, llm: (string, string) -> Option<string>)
    returns (r: Response)
    ensures r == PassHttpErrors(Answer(query, search, ids, paths, read, llm))
  {
    if search.None? {
      return HttpError(500);
    }
    var docs := RelevantDocs(search.value, ids, paths);
    if docs == [] {
      return HttpError(404);
    }
    var context := JoinContents(docs, read);
    match llm(query, context)
    case None => return HttpError(500);
    case Some(a) => return Ok(a, docs);
  }
}
