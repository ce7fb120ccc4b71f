/** The request handler of main.py: `POST /analyze` saves the upload under a
    fresh working path, extracts and analyses it, appends one record to the
    analysis table, and removes the working file on every way out;
    `GET /history` lists the table. The store, the file system and the PDF
    loader are state and inputs of the model. */
module Intake {
  import opened Text
  import opened Analysis

  datatype Option<T> = None | Some(value: T)

  datatype Result<T> = Success(value: T) | Failure(message: string)

  /** The outcome of one step that may raise: it completes, or it raises an
      exception whose text is `message`. */
  datatype Step = Completes | Raises(message: string)

  /** Opaque `created_at` value; the store takes it from the clock. */
  type Timestamp = int

  /** What the outside world does during one request: creating the data
      directory and opening the working file, reading the upload and writing it,
      loading the PDF's pages, committing the record, closing the session,
      removing the working file, and the time the record is stamped with. */
  datatype Environment = Environment(
    open: Step,
    write: Step,
    load: Result<seq<string>>,
    commit: Step,
    close: Step,
    remove: Step,
    now: Timestamp)

  /** Every step up to and including the commit completes, so the record is stored. */
  predicate Committed(env: Environment) {
    env.open.Completes? && env.write.Completes? && env.load.Success? && env.commit.Completes?
  }

  /** A row of the `analysis_records` table. */
  datatype AnalysisRecord = AnalysisRecord(
    id: nat,
    fileName: string,
    query: string,
    result: string,
    createdAt: Timestamp)

  /** The success body of `POST /analyze`. */
  datatype Response = Response(status: string, query: string, analysis: Findings, fileProcessed: string)

  /** What the caller sees: the success body, or an HTTP error with its detail. */
  datatype Reply = Ok(response: Response) | HttpError(statusCode: int, detail: string)

  /** What `GET /history` answers: the entries, or the server's generic error. */
  datatype HistoryReply = Listed(entries: seq<map<string, Field>>) | ServerError(statusCode: int)

  /** A value of a history entry. */
  datatype Field = IntField(n: int) | TextField(s: string) | TimeField(t: Timestamp)

  const DEFAULT_QUERY := "Analyze this financial document for investment insights"

  /** The query check of the handler: a missing or empty query becomes the
      default sentence; any other query is kept exactly as sent, whitespace
      included. */
  function NormalizeQuery(query: Option<string>): (q: string)
    ensures q != ""
    ensures query == None || query == Some("") ==> q == DEFAULT_QUERY
    ensures query.Some? && query.value != "" ==> q == query.value
  {
    if query == None || query.value == "" then DEFAULT_QUERY else query.value
  }

  /** Normalizing a normalized query changes nothing. */
  lemma NormalizeIdempotent(query: Option<string>)
    ensures NormalizeQuery(Some(NormalizeQuery(query))) == NormalizeQuery(query)
  {
  }

  /** The working path built from the per-request identifier. */
  function WorkingPath(fileId: string): (path: string)
    ensures |path| == |fileId| + 28 && path[24..|path| - 4] == fileId
  {
    "data/financial_document_" + fileId + ".pdf"
  }

  /** Distinct identifiers give distinct working paths. */
  lemma WorkingPathInjective(id1: string, id2: string)
    requires WorkingPath(id1) == WorkingPath(id2)
    ensures id1 == id2
  {
  }

  /** One `GET /history` entry: the five columns of a record under their names. */
  function EntryOf(r: AnalysisRecord): (e: map<string, Field>)
    ensures e.Keys == {"id", "file_name", "query", "result", "created_at"}
    ensures e["id"] == IntField(r.id) && e["file_name"] == TextField(r.fileName)
    ensures e["query"] == TextField(r.query) && e["result"] == TextField(r.result)
    ensures e["created_at"] == TimeField(r.createdAt)
  {
    map["id" := IntField(r.id), "file_name" := TextField(r.fileName), "query" := TextField(r.query),
        "result" := TextField(r.result), "created_at" := TimeField(r.createdAt)]
  }

  /** The reply of `POST /analyze`: the first step that raises decides the
      error; when none does, the success body. */
  function Outcome(fileName: string, query: Option<string>, env: Environment): (reply: Reply)
    ensures reply.Ok? <==> Committed(env) && env.close.Completes?
    ensures reply.HttpError? ==> reply.statusCode == 500
    ensures reply.Ok? ==> && reply.response.status == "success"
                          && reply.response.query != ""
                          && InVocabulary(reply.response.analysis)
                          && reply.response.fileProcessed == fileName
  {
    if env.open.Raises? then HttpError(500, env.open.message)
    else if env.write.Raises? then HttpError(500, env.write.message)
    else if env.load.Failure? then HttpError(500, env.load.message)
    else if env.commit.Raises? then HttpError(500, env.commit.message)
    else if env.close.Raises? then HttpError(500, env.close.message)
    else Ok(Response("success", NormalizeQuery(query), Derive(Joined(env.load.value)), fileName))
  }

  /** The analysis service: the analysis table with its next primary key, and
      the working files that currently exist. */
  class Service {
    var records: seq<AnalysisRecord>
    var nextId: nat
    var workingFiles: set<string>

    /** Keys are assigned 1, 2, 3, ... in insertion order and never reused, and
        every stored query is non-empty. */
    ghost predicate Valid()
      reads this
    {
      && nextId == |records| + 1
      && (forall i :: 0 <= i < |records| ==> records[i].id == i + 1)
      && (forall i :: 0 <= i < |records| ==> records[i].query != "")
    }

    /** The service over the table as `create_all` leaves it, which keeps the
        rows of an existing database file, and over the working files found on
        disk. */
    constructor (existing: seq<AnalysisRecord>, files: set<string>)
      requires forall i :: 0 <= i < |existing| ==> existing[i].id == i + 1 && existing[i].query != ""
      ensures Valid()
      ensures records == existing && workingFiles == files
    {
      records := existing;
      nextId := |existing| + 1;
      workingFiles := files;
    }

    /** `POST /analyze`. A step that raises ends the request with status 500
        and that step's message; the record is appended exactly when every step
        up to the commit completes, even if closing the session then raises;
        the working file is removed on every way out, unless its removal itself
        fails, which is ignored. */
    method Analyze(fileName: string, query: Option<string>, fileId: string, env: Environment)
      returns (reply: Reply)
      requires Valid()
      requires WorkingPath(fileId) !in workingFiles
      modifies this
      ensures Valid()
      ensures reply.Ok? <==> Committed(env) && env.close.Completes?
      ensures env.open.Raises? ==> reply == HttpError(500, env.open.message)
      ensures env.open.Completes? && env.write.Raises? ==> reply == HttpError(500, env.write.message)
      ensures env.open.Completes? && env.write.Completes? && env.load.Failure?
              ==> reply == HttpError(500, env.load.message)
      ensures env.open.Completes? && env.write.Completes? && env.load.Success? && env.commit.Raises?
              ==> reply == HttpError(500, env.commit.message)
      ensures Committed(env) && env.close.Raises? ==> reply == HttpError(500, env.close.message)
      ensures reply.Ok? ==> reply.response == Response("success", NormalizeQuery(query), Derive(Joined(env.load.value)), fileName)
      ensures records == if Committed(env)
                         then old(records) + [AnalysisRecord(old(nextId), fileName, NormalizeQuery(query),
                                                             Render(Derive(Joined(env.load.value))), env.now)]
                         else old(records)
      ensures workingFiles == if env.open.Completes? && env.remove.Raises?
                              then old(workingFiles) + {WorkingPath(fileId)}
                              else old(workingFiles)
    {
      var path := WorkingPath(fileId);
      reply := Attempt(fileName, query, path, env);
      RemoveWorkingFile(path, env.remove);
    }

    /** The `try` block of the handler: save the upload, then process it.
        Raising steps end it early. */
    method Attempt(fileName: string, query: Option<string>, path: string, env: Environment)
      returns (reply: Reply)
      requires Valid()
      modifies this
      ensures Valid()
      ensures reply == Outcome(fileName, query, env)
      ensures records == if Committed(env)
                         then old(records) + [AnalysisRecord(old(nextId), fileName, NormalizeQuery(query),
                                                             Render(Derive(Joined(env.load.value))), env.now)]
                         else old(records)
      ensures workingFiles == if env.open.Completes? then old(workingFiles) + {path} else old(workingFiles)
    {
      if env.open.Raises? {
        return HttpError(500, env.open.message);
      }
      workingFiles := workingFiles + {path};
      if env.write.Raises? {
        return HttpError(500, env.write.message);
      }
      reply := Process(fileName, query, env);
    }

    /** The rest of the `try` block once the upload is saved: check the query,
        run the analysis, commit the record, close the session. */
    method Process(fileName: string, query: Option<string>, env: Environment)
      returns (reply: Reply)
      requires Valid()
      requires env.open.Completes? && env.write.Completes?
      modifies this`records, this`nextId
      ensures Valid()
      ensures reply == Outcome(fileName, query, env)
      ensures records == if Committed(env)
                         then old(records) + [AnalysisRecord(old(nextId), fileName, NormalizeQuery(query),
                                                             Render(Derive(Joined(env.load.value))), env.now)]
                         else old(records)
    {
      var q := NormalizeQuery(query);
      if env.load.Failure? {
        return HttpError(500, env.load.message);
      }
      var findings := AnalyzePages(q, env.load.value);
      if env.commit.Raises? {
        return HttpError(500, env.commit.message);
      }
      Commit(AnalysisRecord(nextId, fileName, q, Render(findings), env.now));
      if env.close.Raises? {
        return HttpError(500, env.close.message);
      }
      reply := Ok(Response("success", q, findings, fileName));
    }

    /** `run_crew(query=query.strip(), ...)`: the analysis receives the stripped
        query, and its findings are those of the pages whatever the query. */
    method AnalyzePages(query: string, pages: seq<string>) returns (findings: Findings)
      ensures findings == Derive(Joined(pages))
    {
      findings := RunCrew(Strip(query), pages);
    }

    /** `db.add(record); db.commit()`: the store assigns the next key. */
    method Commit(record: AnalysisRecord)
      requires Valid()
      requires record.id == nextId && record.query != ""
      modifies this`records, this`nextId
      ensures Valid()
      ensures records == old(records) + [record]
    {
      records := records + [record];
      nextId := nextId + 1;
    }

    /** The `finally` block: the working file is removed if it exists; a
        failed removal is ignored and leaves it in place. */
    method RemoveWorkingFile(path: string, remove: Step)
      modifies this`workingFiles
      ensures workingFiles == if path in old(workingFiles) && remove.Completes?
                              then old(workingFiles) - {path}
                              else old(workingFiles)
    {
      if path in workingFiles && remove.Completes? {
        workingFiles := workingFiles - {path};
      }
    }

    /** `GET /history`: one entry per stored record, in insertion order, or
        the server's generic error when reading the table raises. */
    method GetAnalysisHistory(fetch: Step) returns (reply: HistoryReply)
      requires Valid()
      ensures reply.Listed? <==> fetch.Completes?
      ensures reply.ServerError? ==> reply.statusCode == 500
      ensures reply.Listed? ==> |reply.entries| == |records|
      ensures reply.Listed? ==> forall i :: 0 <= i < |records| ==> reply.entries[i] == EntryOf(records[i])
      ensures reply.Listed? ==>
                forall i :: 0 <= i < |reply.entries| ==> "id" in reply.entries[i] && reply.entries[i]["id"] == IntField(i + 1)
    {
      if fetch.Raises? {
        return ServerError(500);
      }
      var entries := seq(|records|, i requires 0 <= i < |records| reads this => EntryOf(records[i]));
      reply := Listed(entries);
    }
  }
}
