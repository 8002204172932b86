/**
 * One bulk request: the entries of its body (deletes first, then each upsert
 * as an index descriptor followed by its document), the newline-delimited
 * payload, and how the outcome of the HTTP call is classified as a result, a
 * retryable failure or a terminal failure.
 */
module Bulk {
  import opened Wrappers
  import opened Attributes
  import opened Utils
  import opened Intents

  /** One entry of a bulk body. */
  datatype BulkEntry =
    | DeleteAction(index: string, id: string)
    | IndexAction(index: string, id: string)
    | Source(doc: seq<Field>)

  // ---------------------------------------------------------------------------
  // Body assembly

  /** One delete descriptor per removal, in order. */
  function DeleteEntries(remove: seq<Removal>): (r: seq<BulkEntry>)
    ensures |r| == |remove|
    ensures forall i :: 0 <= i < |remove| ==> r[i] == DeleteAction(remove[i].index, remove[i].id)
  {
    if remove == [] then []
    else [DeleteAction(remove[0].index, remove[0].id)] + DeleteEntries(remove[1..])
  }

  /** Per upsert, an index descriptor immediately followed by the document. */
  function UpsertEntries(upsert: seq<Upsert>): (r: seq<BulkEntry>)
    ensures |r| == 2 * |upsert|
    ensures forall j :: 0 <= j < |upsert| ==>
      r[2 * j] == IndexAction(upsert[j].index, upsert[j].id) && r[2 * j + 1] == Source(upsert[j].doc)
  {
    if upsert == [] then []
    else
      var rest := UpsertEntries(upsert[1..]);
      var r := [IndexAction(upsert[0].index, upsert[0].id), Source(upsert[0].doc)] + rest;
      assert forall j :: 0 <= j < |upsert| ==>
        r[2 * j] == IndexAction(upsert[j].index, upsert[j].id) && r[2 * j + 1] == Source(upsert[j].doc) by {
        forall j | 1 <= j < |upsert|
          ensures r[2 * j] == IndexAction(upsert[j].index, upsert[j].id) && r[2 * j + 1] == Source(upsert[j].doc)
        {
          assert r[2 * j] == rest[2 * (j - 1)] && r[2 * j + 1] == rest[2 * (j - 1) + 1];
          assert upsert[1..][j - 1] == upsert[j];
        }
      }
      r
  }

  /** The body of one bulk request: every delete descriptor, in removal order,
      then every index descriptor and document pair, in upsert order. */
  function BuildBody(remove: seq<Removal>, upsert: seq<Upsert>): (body: seq<BulkEntry>)
    ensures |body| == |remove| + 2 * |upsert|
    ensures body == [] <==> remove == [] && upsert == []
    ensures forall i :: 0 <= i < |body| ==> (body[i].DeleteAction? <==> i < |remove|)
    ensures forall i :: 0 <= i < |remove| ==> body[i] == DeleteAction(remove[i].index, remove[i].id)
    ensures forall j :: 0 <= j < |upsert| ==>
      body[|remove| + 2 * j] == IndexAction(upsert[j].index, upsert[j].id) &&
      body[|remove| + 2 * j + 1] == Source(upsert[j].doc)
  {
    var deletes, pairs := DeleteEntries(remove), UpsertEntries(upsert);
    var body := deletes + pairs;
    assert forall i :: |remove| <= i < |body| ==> !body[i].DeleteAction? by {
      forall i | |remove| <= i < |body|
        ensures !body[i].DeleteAction?
      {
        var k := i - |remove|;
        assert body[i] == pairs[k];
        if k % 2 == 0 {
          assert pairs[2 * (k / 2)] == IndexAction(upsert[k / 2].index, upsert[k / 2].id);
        } else {
          assert pairs[2 * (k / 2) + 1] == Source(upsert[k / 2].doc);
        }
      }
    }
    body
  }

  // ---------------------------------------------------------------------------
  // Newline-delimited payload

  /** The serialization of each entry, in order. */
  function Serialized(body: seq<BulkEntry>, stringify: BulkEntry -> string): (lines: seq<string>)
    ensures |lines| == |body|
  {
    seq(|body|, i requires 0 <= i < |body| => stringify(body[i]))
  }

  /** The request payload: the serialized entries joined by newlines, with a
      closing newline. */
  function Payload(body: seq<BulkEntry>, stringify: BulkEntry -> string): (p: string)
    ensures |p| > 0 && p[|p| - 1] == '\n'
  {
    Join(Serialized(body, stringify), "\n") + "\n"
  }

  /** Each piece followed by a newline, laid end to end. */
  function Terminated(pieces: seq<string>): (text: string)
  {
    if pieces == [] then "" else pieces[0] + "\n" + Terminated(pieces[1..])
  }

  /** The position of the first newline, or the length when there is none. */
  function NewlineAt(s: string): (k: nat)
    ensures k <= |s|
    ensures forall i :: 0 <= i < k ==> s[i] != '\n'
    ensures k < |s| ==> s[k] == '\n'
  {
    if s == [] then 0 else if s[0] == '\n' then 0 else 1 + NewlineAt(s[1..])
  }

  /** The lines of a text; a final newline closes the last line rather than
      opening an empty one. */
  function Lines(s: string): (lines: seq<string>)
    decreases |s|
  {
    if s == [] then []
    else
      var k := NewlineAt(s);
      if k == |s| then [s] else [s[..k]] + Lines(s[k + 1..])
  }

  lemma {:induction false} JoinTerminated(pieces: seq<string>)
    requires pieces != []
    ensures Join(pieces, "\n") + "\n" == Terminated(pieces)
    decreases |pieces|
  {
    if |pieces| > 1 {
      JoinTerminated(pieces[1..]);
    }
  }

  lemma {:induction false} LinesTerminated(pieces: seq<string>)
    requires forall i :: 0 <= i < |pieces| ==> '\n' !in pieces[i]
    ensures Lines(Terminated(pieces)) == pieces
    decreases |pieces|
  {
    if pieces != [] {
      var t := Terminated(pieces);
      var x, rest := pieces[0], Terminated(pieces[1..]);
      assert t == x + "\n" + rest;
      assert t[|x|] == '\n';
      assert forall i :: 0 <= i < |x| ==> t[i] == x[i];
      assert NewlineAt(t) == |x|;
      assert t[..|x|] == x;
      assert t[|x| + 1..] == rest;
      LinesTerminated(pieces[1..]);
    }
  }

  /** For a non-empty body, the payload's lines are the entries'
      serializations, one line per entry in body order, provided no
      serialization contains a raw newline. */
  lemma PayloadLines(body: seq<BulkEntry>, stringify: BulkEntry -> string)
    requires body != []
    requires forall i :: 0 <= i < |body| ==> '\n' !in stringify(body[i])
    ensures Lines(Payload(body, stringify)) == Serialized(body, stringify)
  {
    var lines := Serialized(body, stringify);
    JoinTerminated(lines);
    LinesTerminated(lines);
  }

  // ---------------------------------------------------------------------------
  // Classifying the outcome of the HTTP call

  /** The failure the HTTP client raises; the status is absent when no
      response arrived. */
  datatype HttpError = HttpError(status: Option<int>)

  /** What the HTTP call did: a response body, or a failure. */
  datatype HttpOutcome = Response(data: Value) | Failure(error: HttpError)

  /** What one bulk call resolves to: `{data}` or `{error}`. */
  datatype BulkResult = Data(data: Value) | Error(error: HttpError)

  /** A failure is worth retrying when no status came back (a zero status
      counts as none) or the gateway reported 502, 503 or 504. */
  predicate ShouldRetry(status: Option<int>)
  {
    status.None? || status.value == 0 || status.value == 502 || status.value == 503 || status.value == 504
  }

  /** One bulk call: a response resolves as `{data}`; a retryable failure is
      thrown again; any other failure resolves as `{error}`. */
  function BulkCall(outcome: HttpOutcome): (r: Attempt<BulkResult, HttpError>)
    ensures r.Rejected? <==>
      outcome.Failure? && (outcome.error.status.None? || outcome.error.status.value in {0, 502, 503, 504})
    ensures r.Rejected? ==> r.error == outcome.error
    ensures outcome.Response? ==> r == Resolved(Data(outcome.data))
    ensures outcome.Failure? && r.Resolved? ==> r.value == Error(outcome.error)
  {
    match outcome
    case Response(data) => Resolved(Data(data))
    case Failure(error) => if ShouldRetry(error.status) then Rejected(error) else Resolved(Error(error))
  }

  // ---------------------------------------------------------------------------
  // The body as the source writes it

  /** An entry of the body as line 22 builds it from an upsert entry that is
      only the unwrapped document: the descriptor takes `_index` and `_id` from
      the document's own `index` and `id` properties and the next line is its
      `body` property, each absent when the document has no such property. */
  datatype WrittenEntry =
    | IndexDescriptor(index: Option<Value>, id: Option<Value>)
    | BodyLine(body: Option<Value>)

  /** The upsert part of the body as written, for the documents pushed at
      line 84. */
  function AsWrittenUpsertEntries(docs: seq<seq<Field>>): (r: seq<WrittenEntry>)
    ensures |r| == 2 * |docs|
    ensures forall j :: 0 <= j < |docs| ==>
      r[2 * j] == IndexDescriptor(Lookup(docs[j], "index"), Lookup(docs[j], "id")) &&
      r[2 * j + 1] == BodyLine(Lookup(docs[j], "body"))
  {
    if docs == [] then []
    else
      var rest := AsWrittenUpsertEntries(docs[1..]);
      var r := [IndexDescriptor(Lookup(docs[0], "index"), Lookup(docs[0], "id")), BodyLine(Lookup(docs[0], "body"))] + rest;
      assert forall j :: 0 <= j < |docs| ==>
        r[2 * j] == IndexDescriptor(Lookup(docs[j], "index"), Lookup(docs[j], "id")) &&
        r[2 * j + 1] == BodyLine(Lookup(docs[j], "body")) by {
        forall j | 1 <= j < |docs|
          ensures r[2 * j] == IndexDescriptor(Lookup(docs[j], "index"), Lookup(docs[j], "id"))
          ensures r[2 * j + 1] == BodyLine(Lookup(docs[j], "body"))
        {
          assert r[2 * j] == rest[2 * (j - 1)] && r[2 * j + 1] == rest[2 * (j - 1) + 1];
          assert docs[1..][j - 1] == docs[j];
        }
      }
      r
  }

  /** As written, an upsert whose document has no `index`, `id` or `body`
      property reaches the body with an empty descriptor and an absent
      document, whereas the intended entries carry the routed index, the key
      id and the document itself. */
  lemma AsWrittenUpsertLosesRouting(u: Upsert)
    requires forall f :: f in u.doc ==> f.name !in {"index", "id", "body"}
    ensures AsWrittenUpsertEntries([u.doc]) == [IndexDescriptor(None, None), BodyLine(None)]
    ensures UpsertEntries([u]) == [IndexAction(u.index, u.id), Source(u.doc)]
  {
  }

  /** The documents of the upserts, which is all line 84 pushes. */
  function Docs(upsert: seq<Upsert>): (docs: seq<seq<Field>>)
    ensures |docs| == |upsert|
    ensures forall j :: 0 <= j < |upsert| ==> docs[j] == upsert[j].doc
  {
    seq(|upsert|, j requires 0 <= j < |upsert| => upsert[j].doc)
  }

  /** The as-written body has as many entries as the intended one, so it is
      empty exactly when the intended body is: which chunks are sent does not
      depend on the upserts' routing. */
  lemma AsWrittenBodyLength(remove: seq<Removal>, upsert: seq<Upsert>)
    ensures |DeleteEntries(remove)| + |AsWrittenUpsertEntries(Docs(upsert))| == |BuildBody(remove, upsert)|
    ensures (DeleteEntries(remove) == [] && AsWrittenUpsertEntries(Docs(upsert)) == []) <==> BuildBody(remove, upsert) == []
  {
  }

  /** A concrete case: a document `{title: "a"}` routed to index "books" under
      id "42". */
  lemma AsWrittenExample()
    ensures var doc := [Field("title", Str("a"))];
      AsWrittenUpsertEntries([doc]) == [IndexDescriptor(None, None), BodyLine(None)] &&
      UpsertEntries([Upsert("books", "42", doc)]) == [IndexAction("books", "42"), Source(doc)]
  {
    AsWrittenUpsertLosesRouting(Upsert("books", "42", [Field("title", Str("a"))]));
  }
}
