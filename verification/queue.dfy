/**
 * `SwmQueue` (c_src/lib/wm_queue.cpp): a queue record decoded from a buffer of
 * its own, its getters and setters, and the list decoder `ei_buffer_to_queue`.
 *
 * The list decoder as shown does not compile (a missing `;`, an undeclared
 * `index`, the address of a `const int`, an `ei_term` passed where a buffer is
 * expected); it is modelled by its evident intent: the probe and header are
 * read at the caller's `pos`, each element is the next complete term, decoded
 * by the constructor as a buffer of its own, and the first element that is not
 * a complete term returns -1.
 */
module Queue {
  import opened Wrappers
  import opened Terms
  import opened Primitives
  import opened Fields
  import Lists

  datatype Queue = Queue(
    id: U64,
    name: string,
    state: string,
    jobs: seq<string>,
    nodes: seq<string>,
    users: seq<string>,
    admins: seq<string>,
    hooks: seq<string>,
    priority: I64,
    comment: string,
    revision: U64)

  /** The fields after the tuple header, in wire order. */
  const Schema: seq<FieldKind> :=
    [U64Field, StrField, AtomField, StrListField, StrListField, StrListField, StrListField, StrListField, I64Field, StrField, U64Field]

  /**
   * A default-constructed `SwmQueue`: empty strings and lists, zero numbers. The
   * constructor body is empty and the member initialisers sit in a header that
   * is not part of this model, so the zero values are an assumption.
   */
  const Default: Queue := Queue(0, "", "", [], [], [], [], [], 0, "", 0)

  function ToFields(q: Queue): (vs: seq<Value>)
    ensures |vs| == |Schema| && Conforms(vs, Schema)
  {
    [Unsigned(q.id), Text(q.name), Text(q.state), Texts(q.jobs), Texts(q.nodes), Texts(q.users), Texts(q.admins), Texts(q.hooks), Signed(q.priority), Text(q.comment), Unsigned(q.revision)]
  }

  /** The queue whose first fields are `vs` and whose other fields are default. */
  function FromFields(vs: seq<Value>): Queue {
    Queue(UnsignedAt(vs, 0), TextAt(vs, 1), TextAt(vs, 2), TextsAt(vs, 3), TextsAt(vs, 4), TextsAt(vs, 5), TextsAt(vs, 6), TextsAt(vs, 7), SignedAt(vs, 8), TextAt(vs, 9), UnsignedAt(vs, 10))
  }

  lemma FromToFields(q: Queue)
    ensures FromFields(ToFields(q)) == q
  {
  }

  /** Building from a decoded prefix keeps the prefix and gives every later field its default. */
  lemma ToFromFields(vs: seq<Value>)
    requires Conforms(vs, Schema)
    ensures ToFields(FromFields(vs)) == vs + ToFields(Default)[|vs|..]
  {
    ToFromFieldsFront(vs);
    ToFromFieldsMiddle(vs);
    ToFromFieldsBack(vs);
  }

  lemma ToFromFieldsFront(vs: seq<Value>)
    requires Conforms(vs, Schema)
    ensures ToFields(FromFields(vs))[0] == (vs + ToFields(Default)[|vs|..])[0]
    ensures ToFields(FromFields(vs))[1] == (vs + ToFields(Default)[|vs|..])[1]
    ensures ToFields(FromFields(vs))[2] == (vs + ToFields(Default)[|vs|..])[2]
    ensures ToFields(FromFields(vs))[3] == (vs + ToFields(Default)[|vs|..])[3]
  {
    FieldAtPadded(vs, Schema, ToFields(Default), 0);
    FieldAtPadded(vs, Schema, ToFields(Default), 1);
    FieldAtPadded(vs, Schema, ToFields(Default), 2);
    FieldAtPadded(vs, Schema, ToFields(Default), 3);
  }

  lemma ToFromFieldsMiddle(vs: seq<Value>)
    requires Conforms(vs, Schema)
    ensures ToFields(FromFields(vs))[4] == (vs + ToFields(Default)[|vs|..])[4]
    ensures ToFields(FromFields(vs))[5] == (vs + ToFields(Default)[|vs|..])[5]
    ensures ToFields(FromFields(vs))[6] == (vs + ToFields(Default)[|vs|..])[6]
    ensures ToFields(FromFields(vs))[7] == (vs + ToFields(Default)[|vs|..])[7]
  {
    FieldAtPadded(vs, Schema, ToFields(Default), 4);
    FieldAtPadded(vs, Schema, ToFields(Default), 5);
    FieldAtPadded(vs, Schema, ToFields(Default), 6);
    FieldAtPadded(vs, Schema, ToFields(Default), 7);
  }

  lemma ToFromFieldsBack(vs: seq<Value>)
    requires Conforms(vs, Schema)
    ensures ToFields(FromFields(vs))[8] == (vs + ToFields(Default)[|vs|..])[8]
    ensures ToFields(FromFields(vs))[9] == (vs + ToFields(Default)[|vs|..])[9]
    ensures ToFields(FromFields(vs))[10] == (vs + ToFields(Default)[|vs|..])[10]
  {
    FieldAtPadded(vs, Schema, ToFields(Default), 8);
    FieldAtPadded(vs, Schema, ToFields(Default), 9);
    FieldAtPadded(vs, Schema, ToFields(Default), 10);
  }

  /** `get_<field>`: the field at wire position `i`. */
  function Get(q: Queue, i: nat): (v: Value)
    requires i < |Schema|
    ensures HasKind(v, Schema[i])
  {
    ToFields(q)[i]
  }

  /** `set_<field>`: replaces the field at wire position `i` and no other. */
  function Set(q: Queue, i: nat, v: Value): (r: Queue)
    requires i < |Schema| && HasKind(v, Schema[i])
    ensures Get(r, i) == v
    ensures forall j | 0 <= j < |Schema| && j != i :: Get(r, j) == Get(q, j)
  {
    var vs := ToFields(q)[i := v];
    ToFromFields(vs);
    FromFields(vs)
  }

  /**
   * `SwmQueue(buf)`. Decoding always starts at offset 0 of `buf`. A null buffer
   * or a term that is not a tuple leaves the queue default. Otherwise the
   * fields are decoded in order until one fails; the fields before it keep
   * their values and the rest stay default, and the caller is not told.
   */
  function Decode(buf: Option<seq<Token>>): (r: Queue)
    ensures buf.None? ==> r == Default
    ensures buf.Some? && !TupleAt(buf.value, 0) ==> r == Default
  {
    match buf
    case None => Default
    case Some(b) =>
      match DecodeRecord(NoExternals, Schema, b, 0)
      case None => Default
      case Some(p) => FromFields(p.values)
  }

  /**
   * What a tuple decodes to: the fields read before the first failure, then
   * defaults; the field at the failure is exactly the one that did not decode.
   */
  lemma DecodePrefix(b: seq<Token>)
    requires TupleAt(b, 0)
    ensures var p := DecodeFields(NoExternals, Schema, b, 1);
            && ToFields(Decode(Some(b))) == p.values + ToFields(Default)[|p.values|..]
            && (|p.values| < |Schema| ==> DecodeField(NoExternals, Schema[|p.values|], b, p.next).None?)
  {
    ToFromFields(DecodeFields(NoExternals, Schema, b, 1).values);
  }

  lemma InvertsSchema()
    ensures InvertsAll(NoExternals, NoEncoders, Schema)
  {
  }

  /** A queue as the peer sends it: a small tuple of its fields. */
  function ToTerm(q: Queue): Term {
    RecordTerm(NoEncoders, Schema, ToFields(q))
  }

  /** Whatever the declared arity, an encoded queue decodes back. */
  lemma DecodeEncode(q: Queue, header: Token, post: seq<Token>)
    requires header.SmallTupleHead? || header.LargeTupleHead?
    ensures Decode(Some([header] + EncodeFields(NoEncoders, Schema, ToFields(q)) + post)) == q
  {
    InvertsSchema();
    DecodeRecordEncodedAlone(NoExternals, NoEncoders, Schema, ToFields(q), header, post);
    FromToFields(q);
  }

  /** The element decoder: a complete element term, decoded as a buffer of its own. */
  function Element(b: seq<Token>): Queue {
    Decode(Some(b))
  }

  lemma ElementOfTerm(q: Queue)
    ensures WellFormed(ToTerm(q))
    ensures Element(Flatten(ToTerm(q))) == q
  {
    InvertsSchema();
    DecodeRecordTerm(NoExternals, NoEncoders, Schema, ToFields(q));
    FromToFields(q);
  }

  /** The terms of a list of queues, as the peer sends them. */
  function ToTerms(xs: seq<Queue>): (ts: seq<Term>)
    ensures |ts| == |xs|
  {
    seq(|xs|, i requires 0 <= i < |xs| => ToTerm(xs[i]))
  }

  /** `ei_buffer_to_queue`, as intended: every element decoded on its own; the caller's cursor never moves. */
  function DecodeList(buf: seq<Token>, pos: nat, prior: seq<Queue>): (r: Lists.ListResult<Queue>)
    ensures r.next == pos
    ensures r.status == 0 || r.status == -1
    ensures Probe(buf, pos) != Some(ListKind) ==> r.status == -1 && r.items == prior
    ensures |prior| <= |r.items| && r.items[..|prior|] == prior
    ensures Probe(buf, pos) == Some(ListKind) ==>
      && |r.items| <= |prior| + buf[pos].count
      && (r.status == 0 <==> |r.items| == |prior| + buf[pos].count)
  {
    Lists.PerElementList(Element, buf, pos, prior)
  }

  /** An encoded non-empty list of queues is appended in wire order. */
  lemma DecodeListEncoded(xs: seq<Queue>, prior: seq<Queue>, pre: seq<Token>, post: seq<Token>)
    requires xs != []
    ensures DecodeList(pre + Flatten(List(ToTerms(xs), Leaf(Nil))) + post, |pre|, prior) ==
            Lists.ListResult(0, prior + xs, |pre|)
  {
    var ts := ToTerms(xs);
    forall i | 0 <= i < |ts|
      ensures WellFormed(ts[i])
      ensures Element(Flatten(ts[i])) == xs[i]
    {
      ElementOfTerm(xs[i]);
    }
    Lists.PerElementListEncoded(Element, ts, prior, pre, post);
    assert Lists.DecodeEach(Element, ts) == xs;
  }

  /**
   * A list whose header promises more elements than the buffer holds fails
   * with -1 and keeps the queues decoded before the first missing element.
   */
  lemma DecodeListTruncated(xs: seq<Queue>, prior: seq<Queue>, pre: seq<Token>, count: nat)
    requires count > |xs|
    ensures DecodeList(pre + [ListHead(count)] + FlattenAll(ToTerms(xs)), |pre|, prior) ==
            Lists.ListResult(-1, prior + xs, |pre|)
  {
    var ts := ToTerms(xs);
    forall i | 0 <= i < |ts|
      ensures WellFormed(ts[i])
      ensures Element(Flatten(ts[i])) == xs[i]
    {
      ElementOfTerm(xs[i]);
    }
    Lists.PerElementListTruncated(Element, ts, prior, pre, count);
    assert Lists.DecodeEach(Element, ts) == xs;
  }

  /** `[]`, encoded as NIL_EXT, fails the LIST_EXT gate: -1 and the array unchanged. */
  lemma DecodeListRejectsEmpty(prior: seq<Queue>, pre: seq<Token>, post: seq<Token>)
    ensures DecodeList(pre + Flatten(Leaf(Nil)) + post, |pre|, prior) == Lists.ListResult(-1, prior, |pre|)
  {
    Lists.PerElementListRejectsEmpty(Element, prior, pre, post);
  }
}
