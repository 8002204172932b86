/**
 * Turning change-stream records into index intents: the document id built
 * from the key map, the stripping of the stream's housekeeping fields from the
 * new image (`unwrap`), and the removal or upsert each record stands for
 * (`getESBody`), stated as functions over the records.
 */
module Intents {
  import opened Wrappers
  import opened Attributes

  /** The `dynamodb` part of a record: its key map and its two images. */
  datatype StreamRecord = StreamRecord(keys: Image, oldImage: Option<Image>, newImage: Option<Image>)

  /** One change-stream record; the event name is absent or any text. */
  datatype Record = Record(eventName: Option<string>, dynamodb: StreamRecord)

  /** The caller's `setIndex`: picks the index from the old and new images. */
  type IndexRouter = (Option<Image>, Option<Image>) -> string

  datatype Removal = Removal(index: string, id: string)
  datatype Upsert = Upsert(index: string, id: string, doc: seq<Field>)

  /** The three fields the stream adds to an image. */
  const Housekeeping: set<string> := {"SequenceNumber", "SizeBytes", "StreamViewType"}

  // ---------------------------------------------------------------------------
  // Document id

  /** The text one key value contributes to the id: the string form of its
      decoded value. */
  function KeyText(key: Attribute): (text: string)
  {
    Text(Decode(key.value))
  }

  /** The texts of the keys appended, left to right, to the empty string:
      the `reduce` with `concat` over the key values, for any way of turning
      one key into text. The result starts with the first key's text. */
  function Concat(text: Attribute -> string, keys: Image): (joined: string)
    ensures keys != [] ==> text(keys[0]) <= joined
    decreases |keys|
  {
    if keys == [] then ""
    else
      var front := keys[..|keys| - 1];
      var joined := Concat(text, front) + text(keys[|keys| - 1]);
      assert front != [] ==> front[0] == keys[0];
      joined
  }

  lemma ConcatSnoc(text: Attribute -> string, keys: Image, k: Attribute)
    ensures Concat(text, keys + [k]) == Concat(text, keys) + text(k)
  {
    assert (keys + [k])[..|keys|] == keys;
  }

  lemma {:induction false} ConcatAppend(text: Attribute -> string, a: Image, b: Image)
    ensures Concat(text, a + b) == Concat(text, a) + Concat(text, b)
    decreases |b|
  {
    if b == [] {
      assert a + b == a;
    } else {
      var b', last := b[..|b| - 1], b[|b| - 1];
      assert b == b' + [last];
      assert a + b == (a + b') + [last];
      ConcatAppend(text, a, b');
      ConcatSnoc(text, a + b', last);
      ConcatSnoc(text, b', last);
    }
  }

  /** The document id: the decoded key values appended, left to right, to the
      empty string, in the key map's order, so the id starts with the first
      key's text. */
  function KeyId(keys: Image): (id: string)
    ensures keys != [] ==> KeyText(keys[0]) <= id
  {
    Concat(KeyText, keys)
  }

  /** Appending one key appends its text to the id. */
  lemma KeyIdSnoc(keys: Image, k: Attribute)
    ensures KeyId(keys + [k]) == KeyId(keys) + KeyText(k)
  {
    ConcatSnoc(KeyText, keys, k);
  }

  /** The id of a key map is the ids of its parts laid end to end, so each key
      value contributes at its own place in key order. */
  lemma KeyIdAppend(a: Image, b: Image)
    ensures KeyId(a + b) == KeyId(a) + KeyId(b)
  {
    ConcatAppend(KeyText, a, b);
  }

  /** A single key of any kind gives its own text as the id. */
  lemma KeyIdOfOneKey(k: Attribute)
    ensures KeyId([k]) == KeyText(k)
  {
    ConcatSnoc(KeyText, [], k);
  }

  /** The key texts laid end to end, first key first: an independent,
      right-to-left statement of the id. */
  function KeyTexts(keys: Image): (text: string)
    ensures keys != [] ==> KeyText(keys[0]) <= text
  {
    if keys == [] then "" else KeyText(keys[0]) + KeyTexts(keys[1..])
  }

  /** The id is exactly the concatenation of every key's text in key order,
      whatever the kinds of the keys. */
  lemma {:induction false} KeyIdIsKeyTexts(keys: Image)
    ensures KeyId(keys) == KeyTexts(keys)
    decreases |keys|
  {
    if keys != [] {
      assert keys == [keys[0]] + keys[1..];
      KeyIdAppend([keys[0]], keys[1..]);
      KeyIdOfOneKey(keys[0]);
      KeyIdIsKeyTexts(keys[1..]);
    }
  }

  /** A single string key gives its own text as the id. */
  lemma KeyIdOfStringKey(name: string, s: string)
    ensures KeyId([Attribute(name, S(s))]) == s
  {
    KeyIdOfOneKey(Attribute(name, S(s)));
  }

  /** Two string keys give their texts concatenated, hash key first. */
  lemma KeyIdOfStringKeys(hashName: string, hash: string, rangeName: string, range: string)
    ensures KeyId([Attribute(hashName, S(hash)), Attribute(rangeName, S(range))]) == hash + range
  {
    var h, r := Attribute(hashName, S(hash)), Attribute(rangeName, S(range));
    assert [h] + [r] == [h, r];
    KeyIdAppend([h], [r]);
    KeyIdOfStringKey(hashName, hash);
    KeyIdOfStringKey(rangeName, range);
  }

  // ---------------------------------------------------------------------------
  // Unwrapping the new image

  /** The decoded fields other than the housekeeping ones, in order. */
  function Stripped(fields: seq<Field>): (r: seq<Field>)
    ensures forall f :: f in r <==> f in fields && f.name !in Housekeeping
  {
    if fields == [] then []
    else if fields[0].name in Housekeeping then Stripped(fields[1..])
    else [fields[0]] + Stripped(fields[1..])
  }

  /** Deleting the three housekeeping properties one after the other leaves
      exactly the stripped fields. */
  lemma {:induction false} StrippedByDeletes(fields: seq<Field>)
    ensures RemoveField(RemoveField(RemoveField(fields, "SequenceNumber"), "SizeBytes"), "StreamViewType")
         == Stripped(fields)
  {
    if fields != [] {
      StrippedByDeletes(fields[1..]);
      var f := fields[0];
      if f.name !in Housekeeping {
        assert RemoveField(fields, "SequenceNumber") == [f] + RemoveField(fields[1..], "SequenceNumber");
        assert RemoveField([f] + RemoveField(fields[1..], "SequenceNumber"), "SizeBytes")
            == [f] + RemoveField(RemoveField(fields[1..], "SequenceNumber"), "SizeBytes");
      }
    }
  }

  /** The document an image stands for: absent when there is no image, or when
      nothing is left once the housekeeping fields are removed. */
  function Unwrapped(image: Option<Image>): (r: Option<seq<Field>>)
    ensures r.None? <==> image.None? || forall f :: f in Unmarshall(image.value) ==> f.name in Housekeeping
    ensures r.Some? ==> image.Some? && r.value != []
    ensures r.Some? ==> forall f :: f in r.value <==> f in Unmarshall(image.value) && f.name !in Housekeeping
  {
    if image.None? then None
    else
      var data := Stripped(Unmarshall(image.value));
      if data == [] then None else assert data[0] in data; Some(data)
  }

  // ---------------------------------------------------------------------------
  // Classifying records

  predicate IsRemove(rec: Record) { rec.eventName == Some("REMOVE") }
  predicate IsWrite(rec: Record) { rec.eventName == Some("MODIFY") || rec.eventName == Some("INSERT") }

  /** The index the caller's router picks for a record; it is asked for every
      record, removals included. */
  function IndexOf(setIndex: IndexRouter, rec: Record): (index: string)
  {
    setIndex(rec.dynamodb.oldImage, rec.dynamodb.newImage)
  }

  /** The removal a record contributes: one for a REMOVE record, none otherwise. */
  function RemovalOf(setIndex: IndexRouter, rec: Record): (r: seq<Removal>)
    ensures |r| <= 1
    ensures r != [] <==> IsRemove(rec)
    ensures r != [] ==> r[0].index == IndexOf(setIndex, rec) && r[0].id == KeyId(rec.dynamodb.keys)
  {
    if IsRemove(rec) then [Removal(IndexOf(setIndex, rec), KeyId(rec.dynamodb.keys))] else []
  }

  /** The upsert a record contributes: one for an INSERT or MODIFY record whose
      new image unwraps to a document, none otherwise. */
  function UpsertOf(setIndex: IndexRouter, rec: Record): (r: seq<Upsert>)
    ensures |r| <= 1
    ensures r != [] <==> IsWrite(rec) && Unwrapped(rec.dynamodb.newImage).Some?
    ensures r != [] ==> r[0] == Upsert(IndexOf(setIndex, rec), KeyId(rec.dynamodb.keys),
                                       Unwrapped(rec.dynamodb.newImage).value)
  {
    if IsWrite(rec) then
      match Unwrapped(rec.dynamodb.newImage)
      case None => []
      case Some(doc) => [Upsert(IndexOf(setIndex, rec), KeyId(rec.dynamodb.keys), doc)]
    else []
  }

  /** Every record yields at most one intent, and a record whose event name is
      none of the three yields nothing. */
  lemma AtMostOneIntent(setIndex: IndexRouter, rec: Record)
    ensures |RemovalOf(setIndex, rec)| + |UpsertOf(setIndex, rec)| <= 1
    ensures !IsRemove(rec) && !IsWrite(rec) ==> RemovalOf(setIndex, rec) == [] && UpsertOf(setIndex, rec) == []
  {
  }

  /** What each record contributes, laid end to end in record order. */
  function Collect<T>(contribution: Record -> seq<T>, records: seq<Record>): (pieces: seq<T>)
  {
    if records == [] then []
    else Collect(contribution, records[..|records| - 1]) + contribution(records[|records| - 1])
  }

  /** Collecting two runs of records one after the other gives the pieces of
      the first run followed by those of the second. */
  lemma {:induction false} CollectAppend<T>(contribution: Record -> seq<T>, a: seq<Record>, b: seq<Record>)
    ensures Collect(contribution, a + b) == Collect(contribution, a) + Collect(contribution, b)
    decreases |b|
  {
    if b == [] {
      assert a + b == a;
    } else {
      var ab, b' := a + b, b[..|b| - 1];
      assert ab[..|ab| - 1] == a + b';
      assert ab[|ab| - 1] == b[|b| - 1];
      CollectAppend(contribution, a, b');
    }
  }

  function RemovalContribution(setIndex: IndexRouter): (contribution: Record -> seq<Removal>)
  {
    rec => RemovalOf(setIndex, rec)
  }

  function UpsertContribution(setIndex: IndexRouter): (contribution: Record -> seq<Upsert>)
  {
    rec => UpsertOf(setIndex, rec)
  }

  /** The removals of a list of records, in record order. */
  function Removals(setIndex: IndexRouter, records: seq<Record>): (remove: seq<Removal>)
  {
    Collect(RemovalContribution(setIndex), records)
  }

  /** The upserts of a list of records, in record order. */
  function Upserts(setIndex: IndexRouter, records: seq<Record>): (upsert: seq<Upsert>)
  {
    Collect(UpsertContribution(setIndex), records)
  }

  /** Classifying two runs of records one after the other gives the intents of
      the first run followed by those of the second: each kind keeps record
      order. */
  lemma IntentsAppend(setIndex: IndexRouter, a: seq<Record>, b: seq<Record>)
    ensures Removals(setIndex, a + b) == Removals(setIndex, a) + Removals(setIndex, b)
    ensures Upserts(setIndex, a + b) == Upserts(setIndex, a) + Upserts(setIndex, b)
  {
    CollectAppend(RemovalContribution(setIndex), a, b);
    CollectAppend(UpsertContribution(setIndex), a, b);
  }

  /** A single record yields exactly its own contribution. */
  lemma IntentsOfOne(setIndex: IndexRouter, rec: Record)
    ensures Removals(setIndex, [rec]) == RemovalOf(setIndex, rec)
    ensures Upserts(setIndex, [rec]) == UpsertOf(setIndex, rec)
  {
    assert [rec][..0] == [];
    assert Collect(RemovalContribution(setIndex), [rec]) == RemovalContribution(setIndex)(rec);
    assert Collect(UpsertContribution(setIndex), [rec]) == UpsertContribution(setIndex)(rec);
  }

  /** There are never more intents than records. */
  lemma {:induction false} IntentsBound(setIndex: IndexRouter, records: seq<Record>)
    ensures |Removals(setIndex, records)| + |Upserts(setIndex, records)| <= |records|
    decreases |records|
  {
    if records != [] {
      var last := records[|records| - 1];
      IntentsBound(setIndex, records[..|records| - 1]);
      AtMostOneIntent(setIndex, last);
      assert Removals(setIndex, records) == Removals(setIndex, records[..|records| - 1]) + RemovalOf(setIndex, last);
      assert Upserts(setIndex, records) == Upserts(setIndex, records[..|records| - 1]) + UpsertOf(setIndex, last);
    }
  }

  /** Records that are neither removals nor writes contribute nothing, wherever
      they stand. */
  lemma {:induction false} IgnoredRecords(setIndex: IndexRouter, records: seq<Record>)
    requires forall i :: 0 <= i < |records| ==> !IsRemove(records[i]) && !IsWrite(records[i])
    ensures Removals(setIndex, records) == [] && Upserts(setIndex, records) == []
    decreases |records|
  {
    if records != [] {
      var last := records[|records| - 1];
      IgnoredRecords(setIndex, records[..|records| - 1]);
      assert Removals(setIndex, records) == Removals(setIndex, records[..|records| - 1]) + RemovalOf(setIndex, last);
      assert Upserts(setIndex, records) == Upserts(setIndex, records[..|records| - 1]) + UpsertOf(setIndex, last);
    }
  }

  /** A REMOVE record keyed `{id: "42"}` yields the removal of document "42"
      from the routed index. */
  lemma RemoveExample(setIndex: IndexRouter, before: Option<Image>)
    ensures var rec := Record(Some("REMOVE"), StreamRecord([Attribute("id", S("42"))], before, None));
      Removals(setIndex, [rec]) == [Removal(setIndex(before, None), "42")] && Upserts(setIndex, [rec]) == []
  {
    KeyIdOfStringKey("id", "42");
    IntentsOfOne(setIndex, Record(Some("REMOVE"), StreamRecord([Attribute("id", S("42"))], before, None)));
  }

  /** An INSERT record whose new image holds only housekeeping fields yields no
      upsert. */
  lemma HousekeepingOnlyInsert(setIndex: IndexRouter, keys: Image, seqNo: string)
    ensures var rec := Record(Some("INSERT"), StreamRecord(keys, None, Some([Attribute("SequenceNumber", S(seqNo))])));
      Upserts(setIndex, [rec]) == [] && Removals(setIndex, [rec]) == []
  {
    var rec := Record(Some("INSERT"), StreamRecord(keys, None, Some([Attribute("SequenceNumber", S(seqNo))])));
    IntentsOfOne(setIndex, rec);
    assert Unmarshall([Attribute("SequenceNumber", S(seqNo))]) == [Field("SequenceNumber", Str(seqNo))];
  }
}
