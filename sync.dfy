/**
 * The sync orchestrator: split the records into chunks, turn each chunk into
 * one bulk body, send every non-empty body through the retrying bulk call,
 * and collect one result per such chunk, a failure included, without ever
 * stopping early.
 */
module SyncEngine {
  import opened Wrappers
  import opened Attributes
  import opened Utils
  import opened Intents
  import opened Bulk

  /** The settings the engine reads: the index router, the chunk size and the
      retry budget, the last two as given (possibly absent). */
  datatype Configs = Configs(setIndex: IndexRouter, bulkSize: Option<int>, maxRetry: Option<int>)

  /** `bulkSize || 100`: an absent or zero size falls back to 100. */
  function ChunkSize(cfg: Configs): (size: int)
    ensures cfg.bulkSize.None? || cfg.bulkSize == Some(0) ==> size == 100
    ensures cfg.bulkSize.Some? && cfg.bulkSize.value != 0 ==> size == cfg.bulkSize.value
  {
    if cfg.bulkSize.None? || cfg.bulkSize.value == 0 then 100 else cfg.bulkSize.value
  }

  /** The chunk size, checked: absent when `bulkSize || 100` is not positive,
      that is, exactly when a negative `bulkSize` is given. A checked size is
      the one the engine uses. */
  function CheckedChunkSize(cfg: Configs): (size: Option<nat>)
    ensures size.None? <==> cfg.bulkSize.Some? && cfg.bulkSize.value < 0
    ensures size.Some? ==> size.value == ChunkSize(cfg) && size.value > 0
  {
    var n := ChunkSize(cfg);
    if n > 0 then Some(n) else None
  }

  /** With a checked size, the chunks hold every record once and in order, no
      chunk is empty or longer than the size, and only the last is shorter. */
  lemma CheckedChunking(cfg: Configs, records: seq<Record>)
    requires CheckedChunkSize(cfg).Some?
    ensures Flatten(Chunks(records, ChunkSize(cfg))) == records
    ensures forall i :: 0 <= i < |Chunks(records, ChunkSize(cfg))| ==>
      1 <= |Chunks(records, ChunkSize(cfg))[i]| <= ChunkSize(cfg)
    ensures forall i :: 0 <= i < |Chunks(records, ChunkSize(cfg))| - 1 ==>
      |Chunks(records, ChunkSize(cfg))[i]| == ChunkSize(cfg)
  {
    ChunksFlatten(records, ChunkSize(cfg));
    ChunksSizes(records, ChunkSize(cfg));
  }

  /** As written, `bulkSize: -1` with one record reaches `chunkArray` as a
      size of -1, and its loop test holds after every turn, so `sync` never
      returns; the checked size refuses that configuration. */
  lemma NegativeBulkSizeNeverEnds(cfg: Configs)
    requires cfg.bulkSize == Some(-1)
    ensures ChunkSize(cfg) == -1
    ensures forall turns: nat :: ChunkIndexAfter(ChunkSize(cfg), turns) < 1
    ensures CheckedChunkSize(cfg).None?
  {
    ChunkLoopNeverEnds(1, ChunkSize(cfg));
  }

  /** The retry budget: 3 only when absent, so an explicit 0 is kept. */
  function MaxRetry(cfg: Configs): (budget: int)
    ensures cfg.maxRetry.None? ==> budget == 3
    ensures cfg.maxRetry.Some? ==> budget == cfg.maxRetry.value
  {
    if cfg.maxRetry.None? then 3 else cfg.maxRetry.value
  }

  /** Whether a chunk yields any intent, that is, whether its bulk body is
      non-empty. */
  predicate Busy(setIndex: IndexRouter, chunk: seq<Record>)
  {
    Removals(setIndex, chunk) != [] || Upserts(setIndex, chunk) != []
  }

  /** The calls of the bulk request for chunk `c`: call k meets the HTTP
      outcome `http(c, k)`. */
  function BulkCalls(http: (nat, nat) -> HttpOutcome, c: nat): (fn: nat -> Attempt<BulkResult, HttpError>)
  {
    (k: nat) => BulkCall(http(c, k))
  }

  /** The entry pushed for a chunk: what the retried call resolved to, or
      `{error}` with the error it finally rejected with. */
  function Settle(a: Attempt<BulkResult, HttpError>): (r: BulkResult)
    ensures a.Resolved? ==> r == a.value
    ensures a.Rejected? ==> r == Error(a.error)
  {
    match a
    case Resolved(v) => v
    case Rejected(e) => Error(e)
  }

  /** The results chunk `c` contributes: none when its body is empty,
      otherwise exactly one. */
  function ChunkResults(cfg: Configs, c: nat, chunk: seq<Record>, http: (nat, nat) -> HttpOutcome): (results: seq<BulkResult>)
  {
    if !Busy(cfg.setIndex, chunk) then []
    else [Settle(Retried(BulkCalls(http, c), MaxRetry(cfg)))]
  }

  /** The results of a whole sync over the given chunks, in chunk order. */
  function SyncResults(cfg: Configs, chunks: seq<seq<Record>>, http: (nat, nat) -> HttpOutcome): (results: seq<BulkResult>)
  {
    if chunks == [] then []
    else
      var n := |chunks| - 1;
      SyncResults(cfg, chunks[..n], http) + ChunkResults(cfg, n, chunks[n], http)
  }

  /** How many chunks have a non-empty body. */
  function BusyChunks(cfg: Configs, chunks: seq<seq<Record>>): (n: nat)
    ensures n <= |chunks|
  {
    if chunks == [] then 0
    else
      var n := |chunks| - 1;
      BusyChunks(cfg, chunks[..n]) + (if Busy(cfg.setIndex, chunks[n]) then 1 else 0)
  }

  /** One result per chunk with a non-empty body, whatever the HTTP outcomes:
      a failing chunk never removes a result, and there are never more results
      than chunks. */
  lemma {:induction false} SyncResultsCount(cfg: Configs, chunks: seq<seq<Record>>, http: (nat, nat) -> HttpOutcome)
    ensures |SyncResults(cfg, chunks, http)| == BusyChunks(cfg, chunks) <= |chunks|
    decreases |chunks|
  {
    if chunks != [] {
      SyncResultsCount(cfg, chunks[..|chunks| - 1], http);
    }
  }

  /** The result of chunk j, when its body is non-empty, stands after the
      results of the busy chunks before it and is what chunk j's own retried
      call settled to, so earlier failures do not stop later chunks. */
  lemma {:induction false} SyncResultAt(cfg: Configs, chunks: seq<seq<Record>>, http: (nat, nat) -> HttpOutcome, j: nat)
    requires j < |chunks|
    requires Busy(cfg.setIndex, chunks[j])
    ensures BusyChunks(cfg, chunks[..j]) < |SyncResults(cfg, chunks, http)|
    ensures SyncResults(cfg, chunks, http)[BusyChunks(cfg, chunks[..j])]
         == Settle(Retried(BulkCalls(http, j), MaxRetry(cfg)))
    decreases |chunks|
  {
    var n := |chunks| - 1;
    var front := chunks[..n];
    SyncResultsCount(cfg, front, http);
    assert SyncResults(cfg, chunks, http) == SyncResults(cfg, front, http) + ChunkResults(cfg, n, chunks[n], http);
    if j < n {
      assert front[..j] == chunks[..j];
      assert front[j] == chunks[j];
      SyncResultAt(cfg, front, http, j);
    } else {
      assert chunks[..j] == front;
      assert ChunkResults(cfg, n, chunks[n], http) == [Settle(Retried(BulkCalls(http, j), MaxRetry(cfg)))];
    }
  }

  /** A failure that is not retryable (a status other than 0, 502, 503 or
      504) is answered by exactly one call and recorded as `{error}`. */
  lemma TerminalFailure(cfg: Configs, http: (nat, nat) -> HttpOutcome, c: nat)
    requires http(c, 0).Failure? && http(c, 0).error.status.Some?
    requires http(c, 0).error.status.value !in {0, 502, 503, 504}
    ensures Calls(BulkCalls(http, c), MaxRetry(cfg)) == 1
    ensures Settle(Retried(BulkCalls(http, c), MaxRetry(cfg))) == Error(http(c, 0).error)
  {
    FirstSuccess(BulkCalls(http, c), MaxRetry(cfg), 0);
  }

  /** Two 503 failures and then a response, with a budget of at least two
      retries: three calls, and the response is the result. */
  lemma TransientThenSuccess(cfg: Configs, http: (nat, nat) -> HttpOutcome, c: nat)
    requires MaxRetry(cfg) >= 2
    requires http(c, 0) == Failure(HttpError(Some(503))) && http(c, 1) == Failure(HttpError(Some(503)))
    requires http(c, 2).Response?
    ensures Calls(BulkCalls(http, c), MaxRetry(cfg)) == 3
    ensures Settle(Retried(BulkCalls(http, c), MaxRetry(cfg))) == Data(http(c, 2).data)
  {
    var fn := BulkCalls(http, c);
    assert fn(0).Rejected? && fn(1).Rejected? && fn(2).Resolved?;
    FirstSuccess(fn, MaxRetry(cfg), 2);
  }

  /** When every call fails retryably, the budget is used up (one call when
      the budget is 0) and the last failure is recorded as `{error}`. */
  lemma PersistentTransientFailure(cfg: Configs, http: (nat, nat) -> HttpOutcome, c: nat)
    requires forall k :: http(c, k).Failure? && ShouldRetry(http(c, k).error.status)
    ensures Calls(BulkCalls(http, c), MaxRetry(cfg)) == MaxCalls(MaxRetry(cfg))
    ensures cfg.maxRetry == Some(0) ==> Calls(BulkCalls(http, c), MaxRetry(cfg)) == 1
    ensures Settle(Retried(BulkCalls(http, c), MaxRetry(cfg))) == Error(http(c, MaxCalls(MaxRetry(cfg)) - 1).error)
  {
    var fn := BulkCalls(http, c);
    assert forall k :: fn(k) == BulkCall(http(c, k));
    AlwaysFailing(fn, MaxRetry(cfg));
  }

  lemma Classified(setIndex: IndexRouter, records: seq<Record>, i: nat)
    requires i < |records|
    ensures Removals(setIndex, records[..i + 1]) == Removals(setIndex, records[..i]) + RemovalOf(setIndex, records[i])
    ensures Upserts(setIndex, records[..i + 1]) == Upserts(setIndex, records[..i]) + UpsertOf(setIndex, records[i])
  {
    assert records[..i + 1][..i] == records[..i];
  }

  lemma ChunkProcessed(cfg: Configs, chunks: seq<seq<Record>>, http: (nat, nat) -> HttpOutcome, c: nat)
    requires c < |chunks|
    ensures SyncResults(cfg, chunks[..c + 1], http) == SyncResults(cfg, chunks[..c], http) + ChunkResults(cfg, c, chunks[c], http)
  {
    assert chunks[..c + 1][..c] == chunks[..c];
  }

  /** The engine; it holds only its settings. */
  class DDBToES {
    const configs: Configs

    constructor(configs: Configs)
      ensures this.configs == configs
    {
      this.configs := configs;
    }

    /** Syncs a batch of records. `http(c, k)` is the outcome of the k-th HTTP
        call made for chunk c and `random(c, k)` the random draw for the wait
        after it. Returns one entry per chunk whose body is non-empty, in chunk
        order; bulk failures end up in the entries and never abort the run. */
    method Sync(records: seq<Record>, http: (nat, nat) -> HttpOutcome, random: (nat, nat) -> real)
      returns (results: seq<BulkResult>)
      requires CheckedChunkSize(configs).Some? || records == []
      requires forall c, k :: 0.0 <= random(c, k) < 1.0
      ensures results == SyncResults(configs, Chunks(records, ChunkSize(configs)), http)
      ensures |results| <= |Chunks(records, ChunkSize(configs))|
    {
      var chunks := ChunkArray(records, ChunkSize(configs));
      results := [];
      for c := 0 to |chunks|
        invariant results == SyncResults(configs, chunks[..c], http)
      {
        var remove, upsert := GetESBody(chunks[c]);
        var body := BuildBody(remove, upsert);
        assert |body| > 0 <==> Busy(configs.setIndex, chunks[c]);
        if |body| > 0 {
          var fn := BulkCalls(http, c);
          var r, calls, delays := ExponentialBackoff(fn, MaxRetry(configs), (k: nat) => random(c, k));
          results := results + [Settle(r)];
        }
        assert results == SyncResults(configs, chunks[..c], http) + ChunkResults(configs, c, chunks[c], http);
        ChunkProcessed(configs, chunks, http, c);
      }
      assert chunks[..|chunks|] == chunks;
      SyncResultsCount(configs, chunks, http);
    }

    /** Classifies a chunk of records into removals and upserts, each in
        record order. */
    method GetESBody(records: seq<Record>) returns (remove: seq<Removal>, upsert: seq<Upsert>)
      ensures remove == Removals(configs.setIndex, records)
      ensures upsert == Upserts(configs.setIndex, records)
    {
      remove, upsert := [], [];
      for i := 0 to |records|
        invariant remove == Removals(configs.setIndex, records[..i])
        invariant upsert == Upserts(configs.setIndex, records[..i])
      {
        var rec := records[i];
        var index := configs.setIndex(rec.dynamodb.oldImage, rec.dynamodb.newImage);
        var id := KeyId(rec.dynamodb.keys);
        if rec.eventName == Some("REMOVE") {
          remove := remove + [Removal(index, id)];
        } else if rec.eventName == Some("MODIFY") || rec.eventName == Some("INSERT") {
          var body := Unwrap(rec.dynamodb.newImage);
          if body.Some? {
            upsert := upsert + [Upsert(index, id, body.value)];
          }
        }
        assert remove == Removals(configs.setIndex, records[..i]) + RemovalOf(configs.setIndex, rec);
        assert upsert == Upserts(configs.setIndex, records[..i]) + UpsertOf(configs.setIndex, rec);
        Classified(configs.setIndex, records, i);
      }
      assert records[..|records|] == records;
    }

    /** Decodes an image and deletes the housekeeping properties; absent when
        there is no image or nothing is left. */
    method Unwrap(image: Option<Image>) returns (r: Option<seq<Field>>)
      ensures r == Unwrapped(image)
    {
      if image.None? {
        return None;
      }
      var data := Unmarshall(image.value);
      data := RemoveField(data, "SequenceNumber");
      data := RemoveField(data, "SizeBytes");
      data := RemoveField(data, "StreamViewType");
      StrippedByDeletes(Unmarshall(image.value));
      if |data| == 0 {
        return None;
      }
      return Some(data);
    }
  }
}
