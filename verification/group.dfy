/**
 * `SwmGroup` (c_src/lib/wm_group.cpp): a group record decoded from a buffer of
 * its own, its getters and setters, and the list decoder `ei_buffer_to_group`.
 *
 * The list decoder as shown does not compile (a missing `;`, an undeclared
 * `index`, the address of a `const int`, an `ei_term` passed where a buffer is
 * expected); it is modelled by its evident intent: the probe and header are
 * read at the caller's `pos`, each element is the next complete term, decoded
 * by the constructor as a buffer of its own, and the first element that is not
 * a complete term returns -1.
 */
module Group {
  import opened Wrappers
  import opened Terms
  import opened Primitives
  import opened Fields
  import Lists

  datatype Group = Group(
    id: U64,
    name: string,
    acl: string,
    priority: I64,
    comment: string,
    revision: U64)

  /** The fields after the tuple header, in wire order. */
  const Schema: seq<FieldKind> :=
    [U64Field, StrField, StrField, I64Field, StrField, U64Field]

  /**
   * A default-constructed `SwmGroup`: empty strings and lists, zero numbers. The
   * constructor body is empty and the member initialisers sit in a header that
   * is not part of this model, so the zero values are an assumption.
   */
  const Default: Group := Group(0, "", "", 0, "", 0)

  function ToFields(g: Group): (vs: seq<Value>)
    ensures |vs| == |Schema| && Conforms(vs, Schema)
  {
    [Unsigned(g.id), Text(g.name), Text(g.acl), Signed(g.priority), Text(g.comment), Unsigned(g.revision)]
  }

  /** The group whose first fields are `vs` and whose other fields are default. */
  function FromFields(vs: seq<Value>): Group {
    Group(UnsignedAt(vs, 0), TextAt(vs, 1), TextAt(vs, 2), SignedAt(vs, 3), TextAt(vs, 4), UnsignedAt(vs, 5))
  }

  lemma FromToFields(g: Group)
    ensures FromFields(ToFields(g)) == g
  {
  }

  /** Building from a decoded prefix keeps the prefix and gives every later field its default. */
  lemma ToFromFields(vs: seq<Value>)
    requires Conforms(vs, Schema)
    ensures ToFields(FromFields(vs)) == vs + ToFields(Default)[|vs|..]
  {
    var r := ToFields(FromFields(vs));
    var d := vs + ToFields(Default)[|vs|..];
    forall i | 0 <= i < |Schema|
      ensures r[i] == d[i]
    {
      if i < |vs| {
        assert d[i] == vs[i] && HasKind(vs[i], Schema[i]);
      } else {
        assert d[i] == ToFields(Default)[i];
      }
    }
  }

  /** `get_<field>`: the field at wire position `i`. */
  function Get(g: Group, i: nat): (v: Value)
    requires i < |Schema|
    ensures HasKind(v, Schema[i])
  {
    ToFields(g)[i]
  }

  /** `set_<field>`: replaces the field at wire position `i` and no other. */
  function Set(g: Group, i: nat, v: Value): (r: Group)
    requires i < |Schema| && HasKind(v, Schema[i])
    ensures Get(r, i) == v
    ensures forall j | 0 <= j < |Schema| && j != i :: Get(r, j) == Get(g, j)
  {
    var vs := ToFields(g)[i := v];
    ToFromFields(vs);
    FromFields(vs)
  }

  /**
   * `SwmGroup(buf)`. Decoding always starts at offset 0 of `buf`. A null buffer
   * or a term that is not a tuple leaves the group default. Otherwise the
   * fields are decoded in order until one fails; the fields before it keep
   * their values and the rest stay default, and the caller is not told.
   */
  function Decode(buf: Option<seq<Token>>): (r: Group)
    ensures buf.None? ==> r == Default
    ensures buf.Some? && !TupleAt(buf.value, 0) ==> r == Default
  {
    match buf
    case None => Default
    case Some(b) =>
      match DecodeRecord(NoExternals, Schema, b, 0)
      case None => Default
      case Some(p) => FromFields(p.values)
  }

  /**
   * What a tuple decodes to: the fields read before the first failure, then
   * defaults; the field at the failure is exactly the one that did not decode.
   */
  lemma DecodePrefix(b: seq<Token>)
    requires TupleAt(b, 0)
    ensures var p := DecodeFields(NoExternals, Schema, b, 1);
            && ToFields(Decode(Some(b))) == p.values + ToFields(Default)[|p.values|..]
            && (|p.values| < |Schema| ==> DecodeField(NoExternals, Schema[|p.values|], b, p.next).None?)
  {
    ToFromFields(DecodeFields(NoExternals, Schema, b, 1).values);
  }

  lemma InvertsSchema()
    ensures InvertsAll(NoExternals, NoEncoders, Schema)
  {
  }

  /** A group as the peer sends it: a small tuple of its fields. */
  function ToTerm(g: Group): Term {
    RecordTerm(NoEncoders, Schema, ToFields(g))
  }

  /** Whatever the declared arity, an encoded group decodes back. */
  lemma DecodeEncode(g: Group, header: Token, post: seq<Token>)
    requires header.SmallTupleHead? || header.LargeTupleHead?
    ensures Decode(Some([header] + EncodeFields(NoEncoders, Schema, ToFields(g)) + post)) == g
  {
    InvertsSchema();
    DecodeRecordEncodedAlone(NoExternals, NoEncoders, Schema, ToFields(g), header, post);
    FromToFields(g);
  }

  /** The element decoder: a complete element term, decoded as a buffer of its own. */
  function Element(b: seq<Token>): Group {
    Decode(Some(b))
  }

  lemma ElementOfTerm(g: Group)
    ensures WellFormed(ToTerm(g))
    ensures Element(Flatten(ToTerm(g))) == g
  {
    InvertsSchema();
    DecodeRecordTerm(NoExternals, NoEncoders, Schema, ToFields(g));
    FromToFields(g);
  }

  /** The terms of a list of groups, as the peer sends them. */
  function ToTerms(xs: seq<Group>): (ts: seq<Term>)
    ensures |ts| == |xs|
  {
    seq(|xs|, i requires 0 <= i < |xs| => ToTerm(xs[i]))
  }

  /** `ei_buffer_to_group`, as intended: every element decoded on its own; the caller's cursor never moves. */
  function DecodeList(buf: seq<Token>, pos: nat, prior: seq<Group>): (r: Lists.ListResult<Group>)
    ensures r.next == pos
    ensures r.status == 0 || r.status == -1
    ensures Probe(buf, pos) != Some(ListKind) ==> r.status == -1 && r.items == prior
    ensures |prior| <= |r.items| && r.items[..|prior|] == prior
    ensures Probe(buf, pos) == Some(ListKind) ==>
      && |r.items| <= |prior| + buf[pos].count
      && (r.status == 0 <==> |r.items| == |prior| + buf[pos].count)
  {
    Lists.PerElementList(Element, buf, pos, prior)
  }

  /** An encoded non-empty list of groups is appended in wire order. */
  lemma DecodeListEncoded(xs: seq<Group>, prior: seq<Group>, pre: seq<Token>, post: seq<Token>)
    requires xs != []
    ensures DecodeList(pre + Flatten(List(ToTerms(xs), Leaf(Nil))) + post, |pre|, prior) ==
            Lists.ListResult(0, prior + xs, |pre|)
  {
    var ts := ToTerms(xs);
    forall i | 0 <= i < |ts|
      ensures WellFormed(ts[i])
      ensures Element(Flatten(ts[i])) == xs[i]
    {
      ElementOfTerm(xs[i]);
    }
    Lists.PerElementListEncoded(Element, ts, prior, pre, post);
    assert Lists.DecodeEach(Element, ts) == xs;
  }

  /**
   * A list whose header promises more elements than the buffer holds fails
   * with -1 and keeps the groups decoded before the first missing element.
   */
  lemma DecodeListTruncated(xs: seq<Group>, prior: seq<Group>, pre: seq<Token>, count: nat)
    requires count > |xs|
    ensures DecodeList(pre + [ListHead(count)] + FlattenAll(ToTerms(xs)), |pre|, prior) ==
            Lists.ListResult(-1, prior + xs, |pre|)
  {
    var ts := ToTerms(xs);
    forall i | 0 <= i < |ts|
      ensures WellFormed(ts[i])
      ensures Element(Flatten(ts[i])) == xs[i]
    {
      ElementOfTerm(xs[i]);
    }
    Lists.PerElementListTruncated(Element, ts, prior, pre, count);
    assert Lists.DecodeEach(Element, ts) == xs;
  }

  /** `[]`, encoded as NIL_EXT, fails the LIST_EXT gate: -1 and the array unchanged. */
  lemma DecodeListRejectsEmpty(prior: seq<Group>, pre: seq<Token>, post: seq<Token>)
    ensures DecodeList(pre + Flatten(Leaf(Nil)) + post, |pre|, prior) == Lists.ListResult(-1, prior, |pre|)
  {
    Lists.PerElementListRejectsEmpty(Element, prior, pre, post);
  }
}
