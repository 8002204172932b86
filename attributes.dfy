/**
 * The change stream's typed attribute encoding and its decoding into plain
 * values (the `AttributeValue` union and the `unmarshall` decoder).
 *
 * A map of attributes is kept as an association list so that the order in
 * which its names are enumerated stays visible: the document id is built from
 * the key values in that order.
 */
module Attributes {
  import opened Wrappers

  /** One typed attribute: exactly one tag, as the stream emits it. */
  datatype AttributeValue =
    | B(b: string)
    | BS(bs: seq<string>)
    | BOOL(flag: bool)
    | L(l: seq<AttributeValue>)
    | M(m: seq<Attribute>)
    | N(n: string)
    | NS(ns: seq<string>)
    | NULL(isNull: bool)
    | S(s: string)
    | SS(ss: seq<string>)

  datatype Attribute = Attribute(name: string, value: AttributeValue)

  /** A key map or a before/after image of a table item. */
  type Image = seq<Attribute>

  /** A decoded value: what `unmarshall` returns for one attribute. Numbers keep
      their decimal text, so that no precision is lost. */
  datatype Value =
    | Str(s: string)
    | Num(text: string)
    | Bool(b: bool)
    | Null
    | Binary(data: string)
    | List(items: seq<Value>)
    | Set(members: seq<Value>)
    | Obj(fields: seq<Field>)

  datatype Field = Field(name: string, value: Value)

  /** Decodes one typed attribute, tag by tag: scalars keep their content (a
      number its exact decimal text), a list decodes element by element, a map
      field by field under the same names, and a set member by member. */
  function Decode(av: AttributeValue): (v: Value)
    ensures av.S? ==> v == Str(av.s)
    ensures av.N? ==> v == Num(av.n)
    ensures av.B? ==> v == Binary(av.b)
    ensures av.BOOL? ==> v == Bool(av.flag)
    ensures av.NULL? ==> v == Null
    ensures av.L? ==> v.List? && |v.items| == |av.l|
    ensures av.L? ==> forall i :: 0 <= i < |av.l| ==> v.items[i] == Decode(av.l[i])
    ensures av.M? ==> v.Obj? && |v.fields| == |av.m|
    ensures av.M? ==> forall i :: 0 <= i < |av.m| ==> v.fields[i] == Field(av.m[i].name, Decode(av.m[i].value))
    ensures av.SS? ==> v.Set? && |v.members| == |av.ss|
    ensures av.SS? ==> forall i :: 0 <= i < |av.ss| ==> v.members[i] == Str(av.ss[i])
    ensures av.NS? ==> v.Set? && |v.members| == |av.ns|
    ensures av.NS? ==> forall i :: 0 <= i < |av.ns| ==> v.members[i] == Num(av.ns[i])
    ensures av.BS? ==> v.Set? && |v.members| == |av.bs|
    ensures av.BS? ==> forall i :: 0 <= i < |av.bs| ==> v.members[i] == Binary(av.bs[i])
    ensures (av.BS? || av.NS? || av.SS?) <==> v.Set?
    decreases av
  {
    match av
    case B(b) => Binary(b)
    case BS(bs) => Set(seq(|bs|, i requires 0 <= i < |bs| => Binary(bs[i])))
    case BOOL(flag) => Bool(flag)
    case L(l) => List(seq(|l|, i requires 0 <= i < |l| => Decode(l[i])))
    case M(m) => Obj(seq(|m|, i requires 0 <= i < |m| => Field(m[i].name, Decode(m[i].value))))
    case N(n) => Num(n)
    case NS(ns) => Set(seq(|ns|, i requires 0 <= i < |ns| => Num(ns[i])))
    case NULL(_) => Null
    case S(s) => Str(s)
    case SS(ss) => Set(seq(|ss|, i requires 0 <= i < |ss| => Str(ss[i])))
  }

  /** The values a well-formed attribute decodes to: every set is non-empty
      and holds only strings, only numbers or only binary values. */
  predicate Encodable(v: Value)
    decreases v
  {
    match v
    case List(items) => forall i :: 0 <= i < |items| ==> Encodable(items[i])
    case Set(members) =>
      |members| > 0 &&
      ((forall i :: 0 <= i < |members| ==> members[i].Str?) ||
       (forall i :: 0 <= i < |members| ==> members[i].Num?) ||
       (forall i :: 0 <= i < |members| ==> members[i].Binary?))
    case Obj(fields) => forall i :: 0 <= i < |fields| ==> Encodable(fields[i].value)
    case _ => true
  }

  /** A well-formed attribute as the stream writes it: a NULL attribute
      carries `true` and no set is empty. */
  predicate Canonical(av: AttributeValue)
    decreases av
  {
    match av
    case NULL(isNull) => isNull
    case BS(bs) => |bs| > 0
    case NS(ns) => |ns| > 0
    case SS(ss) => |ss| > 0
    case L(l) => forall i :: 0 <= i < |l| ==> Canonical(l[i])
    case M(m) => forall i :: 0 <= i < |m| ==> Canonical(m[i].value)
    case _ => true
  }

  /** Encodes a plain value as a typed attribute, the way `marshall` does;
      a set takes the tag of its members. */
  function Encode(v: Value): (av: AttributeValue)
    requires Encodable(v)
    decreases v
  {
    match v
    case Str(s) => S(s)
    case Num(text) => N(text)
    case Bool(b) => BOOL(b)
    case Null => NULL(true)
    case Binary(data) => B(data)
    case List(items) => L(seq(|items|, i requires 0 <= i < |items| => Encode(items[i])))
    case Set(members) =>
      if members[0].Str? then SS(seq(|members|, i requires 0 <= i < |members| => members[i].s))
      else if members[0].Num? then NS(seq(|members|, i requires 0 <= i < |members| => members[i].text))
      else BS(seq(|members|, i requires 0 <= i < |members| => members[i].data))
    case Obj(fields) =>
      M(seq(|fields|, i requires 0 <= i < |fields| => Attribute(fields[i].name, Encode(fields[i].value))))
  }

  /** Decoding undoes encoding: no decoded value is lost or altered. */
  lemma {:induction false} DecodeEncode(v: Value)
    requires Encodable(v)
    ensures Decode(Encode(v)) == v
    decreases v
  {
    match v
    case List(items) =>
      forall i | 0 <= i < |items| ensures Decode(Encode(items[i])) == items[i] {
        DecodeEncode(items[i]);
      }
    case Obj(fields) =>
      forall i | 0 <= i < |fields| ensures Decode(Encode(fields[i].value)) == fields[i].value {
        DecodeEncode(fields[i].value);
      }
    case _ =>
  }

  /** Encoding undoes decoding on well-formed attributes, so two different
      well-formed attributes never decode to the same value. */
  lemma {:induction false} EncodeDecode(av: AttributeValue)
    requires Canonical(av)
    ensures Encodable(Decode(av)) && Encode(Decode(av)) == av
    decreases av
  {
    match av
    case L(l) =>
      forall i | 0 <= i < |l| ensures Encodable(Decode(l[i])) && Encode(Decode(l[i])) == l[i] {
        EncodeDecode(l[i]);
      }
    case M(m) =>
      forall i | 0 <= i < |m| ensures Encodable(Decode(m[i].value)) && Encode(Decode(m[i].value)) == m[i].value {
        EncodeDecode(m[i].value);
      }
    case _ =>
  }

  /** Decodes a whole image into the fields of a plain object, name by name and
      in the image's order. */
  function Unmarshall(image: Image): (fields: seq<Field>)
    ensures |fields| == |image|
    ensures forall i :: 0 <= i < |image| ==>
      fields[i].name == image[i].name && fields[i].value == Decode(image[i].value)
  {
    seq(|image|, i requires 0 <= i < |image| => Field(image[i].name, Decode(image[i].value)))
  }

  /** Reading a property of a decoded object: the first field of that name, or
      absent (`undefined`). */
  function Lookup(fields: seq<Field>, name: string): (r: Option<Value>)
    ensures r.None? <==> forall f :: f in fields ==> f.name != name
    ensures r.Some? ==> Field(name, r.value) in fields
  {
    if fields == [] then None
    else if fields[0].name == name then Some(fields[0].value)
    else Lookup(fields[1..], name)
  }

  /** Deleting a property of a decoded object. */
  function RemoveField(fields: seq<Field>, name: string): (r: seq<Field>)
    ensures forall f :: f in r <==> f in fields && f.name != name
    ensures |r| <= |fields|
  {
    if fields == [] then []
    else if fields[0].name == name then RemoveField(fields[1..], name)
    else [fields[0]] + RemoveField(fields[1..], name)
  }

  /** The pieces joined with `sep` between consecutive ones. */
  function Join(pieces: seq<string>, sep: string): (joined: string)
  {
    if pieces == [] then ""
    else if |pieces| == 1 then pieces[0]
    else pieces[0] + sep + Join(pieces[1..], sep)
  }

  /** The text a decoded value turns into when it is appended to a string:
      numbers print as their decimal text, arrays join their elements with
      commas (a null element prints as nothing), sets and objects print as the
      names of their kinds. */
  function Text(v: Value): (text: string)
    decreases v
  {
    match v
    case Str(s) => s
    case Num(text) => text
    case Bool(b) => if b then "true" else "false"
    case Null => "null"
    case Binary(data) => data
    case List(items) =>
      Join(seq(|items|, i requires 0 <= i < |items| => if items[i].Null? then "" else Text(items[i])), ",")
    case Set(_) => "[object Set]"
    case Obj(_) => "[object Object]"
  }

  /** How one array element prints inside its array's text. */
  function Piece(v: Value): (piece: string)
  {
    if v.Null? then "" else Text(v)
  }

  /** Joining one more piece adds the separator and that piece. */
  lemma {:induction false} JoinAppend(pieces: seq<string>, p: string, sep: string)
    requires pieces != []
    ensures Join(pieces + [p], sep) == Join(pieces, sep) + sep + p
    decreases |pieces|
  {
    if |pieces| > 1 {
      assert (pieces + [p])[1..] == pieces[1..] + [p];
      JoinAppend(pieces[1..], p, sep);
    }
  }

  /** The text of an array: nothing when empty, its single element's piece,
      and each further element adds a comma and its own piece. */
  lemma TextOfList(items: seq<Value>, x: Value)
    ensures Text(List([])) == ""
    ensures Text(List([x])) == Piece(x)
    ensures items != [] ==> Text(List(items + [x])) == Text(List(items)) + "," + Piece(x)
  {
    var one := [x];
    assert Text(List(one)) == Join([Piece(x)], ",") by {
      assert seq(|one|, i requires 0 <= i < |one| => if one[i].Null? then "" else Text(one[i])) == [Piece(x)];
    }
    if items != [] {
      var pieces := seq(|items|, i requires 0 <= i < |items| => if items[i].Null? then "" else Text(items[i]));
      var longer := items + [x];
      assert Text(List(longer)) == Join(pieces + [Piece(x)], ",") by {
        assert seq(|longer|, i requires 0 <= i < |longer| => if longer[i].Null? then "" else Text(longer[i]))
            == pieces + [Piece(x)];
      }
      JoinAppend(pieces, Piece(x), ",");
    }
  }

  /** String conversion of the plain scalars, sets and objects: text and
      numbers as written, `null` and the booleans by name, a set or an object
      by the name of its kind. */
  lemma TextOfScalars(s: string, n: string, members: seq<Value>, fields: seq<Field>)
    ensures Text(Str(s)) == s && Text(Num(n)) == n && Text(Binary(s)) == s
    ensures Text(Null) == "null" && Text(Bool(true)) == "true" && Text(Bool(false)) == "false"
    ensures Text(Set(members)) == "[object Set]" && Text(Obj(fields)) == "[object Object]"
  {
  }

  /** A concrete array: a null element prints as nothing and a number prints
      as its text. */
  lemma TextOfListExample()
    ensures Text(List([Null, Str("a"), Num("1.5")])) == ",a,1.5"
  {
    TextOfList([Null], Str("a"));
    TextOfList([Null, Str("a")], Num("1.5"));
    assert [Null] + [Str("a")] == [Null, Str("a")];
    assert [Null, Str("a")] + [Num("1.5")] == [Null, Str("a"), Num("1.5")];
  }
}
