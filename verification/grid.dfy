/**
 * `SwmGrid` (c_src/lib/wm_grid.cpp): a grid record decoded from a buffer of its
 * own, its getters and setters, and the list decoder `ei_buffer_to_grid`. The
 * resource list and the property list are read by external decoders, passed in
 * as `ext`.
 *
 * The list decoder as shown does not compile (a missing `;`, an undeclared
 * `index`, the address of a `const int`, an `ei_term` passed where a buffer is
 * expected); it is modelled by its evident intent: the probe and header are
 * read at the caller's `pos`, each element is the next complete term, decoded
 * by the constructor as a buffer of its own, and the first element that is not
 * a complete term returns -1.
 */
module Grid {
  import opened Wrappers
  import opened Terms
  import opened Primitives
  import opened Fields
  import Lists

  datatype Grid = Grid(
    id: string,
    name: string,
    state: string,
    manager: string,
    clusters: seq<string>,
    hooks: seq<string>,
    scheduler: U64,
    resources: seq<Resource>,
    properties: seq<Property>,
    comment: string,
    revision: U64)

  /** The fields after the tuple header, in wire order. */
  const Schema: seq<FieldKind> :=
    [StrField, StrField, AtomField, StrField, StrListField, StrListField, U64Field, ResourcesField, PropertiesField, StrField, U64Field]

  /**
   * A default-constructed `SwmGrid`: empty strings and lists, zero numbers. The
   * constructor body is empty and the member initialisers sit in a header that
   * is not part of this model, so the zero values are an assumption.
   */
  const Default: Grid := Grid("", "", "", "", [], [], 0, [], [], "", 0)

  function ToFields(g: Grid): (vs: seq<Value>)
    ensures |vs| == |Schema| && Conforms(vs, Schema)
  {
    [Text(g.id), Text(g.name), Text(g.state), Text(g.manager), Texts(g.clusters), Texts(g.hooks), Unsigned(g.scheduler), Resources(g.resources), Props(g.properties), Text(g.comment), Unsigned(g.revision)]
  }

  /** The grid whose first fields are `vs` and whose other fields are default. */
  function FromFields(vs: seq<Value>): Grid {
    Grid(TextAt(vs, 0), TextAt(vs, 1), TextAt(vs, 2), TextAt(vs, 3), TextsAt(vs, 4), TextsAt(vs, 5), UnsignedAt(vs, 6), ResourcesAt(vs, 7), PropsAt(vs, 8), TextAt(vs, 9), UnsignedAt(vs, 10))
  }

  lemma FromToFields(g: Grid)
    ensures FromFields(ToFields(g)) == g
  {
  }

  /** Building from a decoded prefix keeps the prefix and gives every later field its default. */
  lemma ToFromFields(vs: seq<Value>)
    requires Conforms(vs, Schema)
    ensures ToFields(FromFields(vs)) == vs + ToFields(Default)[|vs|..]
  {
    ToFromFieldsFront(vs);
    ToFromFieldsMiddle(vs);
    ToFromFieldsBack(vs);
  }

  lemma ToFromFieldsFront(vs: seq<Value>)
    requires Conforms(vs, Schema)
    ensures ToFields(FromFields(vs))[0] == (vs + ToFields(Default)[|vs|..])[0]
    ensures ToFields(FromFields(vs))[1] == (vs + ToFields(Default)[|vs|..])[1]
    ensures ToFields(FromFields(vs))[2] == (vs + ToFields(Default)[|vs|..])[2]
    ensures ToFields(FromFields(vs))[3] == (vs + ToFields(Default)[|vs|..])[3]
  {
    FieldAtPadded(vs, Schema, ToFields(Default), 0);
    FieldAtPadded(vs, Schema, ToFields(Default), 1);
    FieldAtPadded(vs, Schema, ToFields(Default), 2);
    FieldAtPadded(vs, Schema, ToFields(Default), 3);
  }

  lemma ToFromFieldsMiddle(vs: seq<Value>)
    requires Conforms(vs, Schema)
    ensures ToFields(FromFields(vs))[4] == (vs + ToFields(Default)[|vs|..])[4]
    ensures ToFields(FromFields(vs))[5] == (vs + ToFields(Default)[|vs|..])[5]
    ensures ToFields(FromFields(vs))[6] == (vs + ToFields(Default)[|vs|..])[6]
    ensures ToFields(FromFields(vs))[7] == (vs + ToFields(Default)[|vs|..])[7]
  {
    FieldAtPadded(vs, Schema, ToFields(Default), 4);
    FieldAtPadded(vs, Schema, ToFields(Default), 5);
    FieldAtPadded(vs, Schema, ToFields(Default), 6);
    FieldAtPadded(vs, Schema, ToFields(Default), 7);
  }

  lemma ToFromFieldsBack(vs: seq<Value>)
    requires Conforms(vs, Schema)
    ensures ToFields(FromFields(vs))[8] == (vs + ToFields(Default)[|vs|..])[8]
    ensures ToFields(FromFields(vs))[9] == (vs + ToFields(Default)[|vs|..])[9]
    ensures ToFields(FromFields(vs))[10] == (vs + ToFields(Default)[|vs|..])[10]
  {
    FieldAtPadded(vs, Schema, ToFields(Default), 8);
    FieldAtPadded(vs, Schema, ToFields(Default), 9);
    FieldAtPadded(vs, Schema, ToFields(Default), 10);
  }

  /** `get_<field>`: the field at wire position `i`. */
  function Get(g: Grid, i: nat): (v: Value)
    requires i < |Schema|
    ensures HasKind(v, Schema[i])
  {
    ToFields(g)[i]
  }

  /** `set_<field>`: replaces the field at wire position `i` and no other. */
  function Set(g: Grid, i: nat, v: Value): (r: Grid)
    requires i < |Schema| && HasKind(v, Schema[i])
    ensures Get(r, i) == v
    ensures forall j | 0 <= j < |Schema| && j != i :: Get(r, j) == Get(g, j)
  {
    var vs := ToFields(g)[i := v];
    ToFromFields(vs);
    FromFields(vs)
  }

  /**
   * `SwmGrid(buf)`. Decoding always starts at offset 0 of `buf`. A null buffer
   * or a term that is not a tuple leaves the grid default. Otherwise the
   * fields are decoded in order until one fails; the fields before it keep
   * their values and the rest stay default, and the caller is not told.
   */
  function Decode(ext: Externals, buf: Option<seq<Token>>): (r: Grid)
    ensures buf.None? ==> r == Default
    ensures buf.Some? && !TupleAt(buf.value, 0) ==> r == Default
  {
    match buf
    case None => Default
    case Some(b) =>
      match DecodeRecord(ext, Schema, b, 0)
      case None => Default
      case Some(p) => FromFields(p.values)
  }

  /**
   * What a tuple decodes to: the fields read before the first failure, then
   * defaults; the field at the failure is exactly the one that did not decode.
   */
  lemma DecodePrefix(ext: Externals, b: seq<Token>)
    requires TupleAt(b, 0)
    ensures var p := DecodeFields(ext, Schema, b, 1);
            && ToFields(Decode(ext, Some(b))) == p.values + ToFields(Default)[|p.values|..]
            && (|p.values| < |Schema| ==> DecodeField(ext, Schema[|p.values|], b, p.next).None?)
  {
    ToFromFields(DecodeFields(ext, Schema, b, 1).values);
  }

  lemma InvertsSchema(ext: Externals, encs: Encoders)
    requires Inverts(ext, encs, ResourcesField)
    requires Inverts(ext, encs, PropertiesField)
    ensures InvertsAll(ext, encs, Schema)
  {
    forall i | 0 <= i < |Schema|
      ensures Inverts(ext, encs, Schema[i])
    {
      if i != 7 && i != 8 {
        assert !Schema[i].ResourcesField? && !Schema[i].PropertiesField?;
      }
    }
  }

  /** A grid as the peer sends it: a small tuple of its fields. */
  function ToTerm(encs: Encoders, g: Grid): Term {
    RecordTerm(encs, Schema, ToFields(g))
  }

  /** Whatever the declared arity, an encoded grid decodes back. */
  lemma DecodeEncode(ext: Externals, encs: Encoders, g: Grid, header: Token, post: seq<Token>)
    requires Inverts(ext, encs, ResourcesField)
    requires Inverts(ext, encs, PropertiesField)
    requires header.SmallTupleHead? || header.LargeTupleHead?
    ensures Decode(ext, Some([header] + EncodeFields(encs, Schema, ToFields(g)) + post)) == g
  {
    InvertsSchema(ext, encs);
    DecodeRecordEncodedAlone(ext, encs, Schema, ToFields(g), header, post);
    FromToFields(g);
  }

  /** The element decoder: a complete element term, decoded as a buffer of its own. */
  function Element(ext: Externals): seq<Token> -> Grid {
    b => Decode(ext, Some(b))
  }

  lemma ElementOfTerm(ext: Externals, encs: Encoders, g: Grid)
    requires Inverts(ext, encs, ResourcesField)
    requires Inverts(ext, encs, PropertiesField)
    ensures WellFormed(ToTerm(encs, g))
    ensures Element(ext)(Flatten(ToTerm(encs, g))) == g
  {
    InvertsSchema(ext, encs);
    DecodeRecordTerm(ext, encs, Schema, ToFields(g));
    FromToFields(g);
  }

  /** The terms of a list of grids, as the peer sends them. */
  function ToTerms(encs: Encoders, xs: seq<Grid>): (ts: seq<Term>)
    ensures |ts| == |xs|
  {
    seq(|xs|, i requires 0 <= i < |xs| => ToTerm(encs, xs[i]))
  }

  /** `ei_buffer_to_grid`, as intended: every element decoded on its own; the caller's cursor never moves. */
  function DecodeList(ext: Externals, buf: seq<Token>, pos: nat, prior: seq<Grid>): (r: Lists.ListResult<Grid>)
    ensures r.next == pos
    ensures r.status == 0 || r.status == -1
    ensures Probe(buf, pos) != Some(ListKind) ==> r.status == -1 && r.items == prior
    ensures |prior| <= |r.items| && r.items[..|prior|] == prior
    ensures Probe(buf, pos) == Some(ListKind) ==>
      && |r.items| <= |prior| + buf[pos].count
      && (r.status == 0 <==> |r.items| == |prior| + buf[pos].count)
  {
    Lists.PerElementList(Element(ext), buf, pos, prior)
  }

  /** An encoded non-empty list of grids is appended in wire order. */
  lemma DecodeListEncoded(ext: Externals, encs: Encoders, xs: seq<Grid>, prior: seq<Grid>, pre: seq<Token>, post: seq<Token>)
    requires Inverts(ext, encs, ResourcesField)
    requires Inverts(ext, encs, PropertiesField)
    requires xs != []
    ensures DecodeList(ext, pre + Flatten(List(ToTerms(encs, xs), Leaf(Nil))) + post, |pre|, prior) ==
            Lists.ListResult(0, prior + xs, |pre|)
  {
    var ts := ToTerms(encs, xs);
    forall i | 0 <= i < |ts|
      ensures WellFormed(ts[i])
      ensures Element(ext)(Flatten(ts[i])) == xs[i]
    {
      ElementOfTerm(ext, encs, xs[i]);
    }
    Lists.PerElementListEncoded(Element(ext), ts, prior, pre, post);
    assert Lists.DecodeEach(Element(ext), ts) == xs;
  }

  /**
   * A list whose header promises more elements than the buffer holds fails
   * with -1 and keeps the grids decoded before the first missing element.
   */
  lemma DecodeListTruncated(ext: Externals, encs: Encoders, xs: seq<Grid>, prior: seq<Grid>, pre: seq<Token>, count: nat)
    requires Inverts(ext, encs, ResourcesField)
    requires Inverts(ext, encs, PropertiesField)
    requires count > |xs|
    ensures DecodeList(ext, pre + [ListHead(count)] + FlattenAll(ToTerms(encs, xs)), |pre|, prior) ==
            Lists.ListResult(-1, prior + xs, |pre|)
  {
    var ts := ToTerms(encs, xs);
    forall i | 0 <= i < |ts|
      ensures WellFormed(ts[i])
      ensures Element(ext)(Flatten(ts[i])) == xs[i]
    {
      ElementOfTerm(ext, encs, xs[i]);
    }
    Lists.PerElementListTruncated(Element(ext), ts, prior, pre, count);
    assert Lists.DecodeEach(Element(ext), ts) == xs;
  }

  /** `[]`, encoded as NIL_EXT, fails the LIST_EXT gate: -1 and the array unchanged. */
  lemma DecodeListRejectsEmpty(ext: Externals, prior: seq<Grid>, pre: seq<Token>, post: seq<Token>)
    ensures DecodeList(ext, pre + Flatten(Leaf(Nil)) + post, |pre|, prior) == Lists.ListResult(-1, prior, |pre|)
  {
    Lists.PerElementListRejectsEmpty(Element(ext), prior, pre, post);
  }
}
