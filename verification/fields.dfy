/**
 * The field decode protocol every entity constructor follows: a fixed schema of
 * field kinds is decoded in order from one cursor, and decoding stops at the
 * first field that fails. The entity files of the repository are generated from
 * such schemas, so one generic decoder stands for the unrolled `if` chains.
 */
module Fields {
  import opened Wrappers
  import opened Terms
  import opened Primitives

  /** What `ei_buffer_to_executable` yields; its structure is not part of this model. */
  datatype Executable = Executable(raw: seq<Token>)
  /** What `ei_buffer_to_resource` yields per element; not part of this model. */
  datatype Resource = Resource(raw: seq<Token>)
  /** One `{atom(), any()}` pair of a grid's open property list. */
  datatype Property = Property(key: string, value: seq<Token>)

  datatype FieldKind =
    | StrField
    | AtomField
    | StrListField
    | U64Field
    | I64Field
    | DoubleField
    | ExecutableField
    | ResourcesField
    | PropertiesField

  /** A decoded field, tagged by the shape of its C++ member. */
  datatype Value =
    | Text(text: string)
    | Texts(texts: seq<string>)
    | Unsigned(u: U64)
    | Signed(i: I64)
    | Real(d: Double)
    | Exe(exe: Executable)
    | Resources(resources: seq<Resource>)
    | Props(props: seq<Property>)

  predicate HasKind(v: Value, k: FieldKind) {
    match k
    case StrField => v.Text?
    case AtomField => v.Text?
    case StrListField => v.Texts?
    case U64Field => v.Unsigned?
    case I64Field => v.Signed?
    case DoubleField => v.Real?
    case ExecutableField => v.Exe?
    case ResourcesField => v.Resources?
    case PropertiesField => v.Props?
  }

  /** `vs` is a well-typed prefix of a record with schema `schema`. */
  predicate Conforms(vs: seq<Value>, schema: seq<FieldKind>) {
    |vs| <= |schema| && forall i | 0 <= i < |vs| :: HasKind(vs[i], schema[i])
  }

  /**
   * The decoders of nested entities that live outside this model. They follow
   * the same protocol as every field decoder: read at a cursor, fail or yield a
   * value with the cursor after it.
   */
  datatype Externals = Externals(
    executable: (seq<Token>, nat) -> Option<Read<Executable>>,
    resources: (seq<Token>, nat) -> Option<Read<seq<Resource>>>,
    properties: (seq<Token>, nat) -> Option<Read<seq<Property>>>)

  /** Externals for records that have no nested field; never consulted. */
  const NoExternals: Externals :=
    Externals(
      (b: seq<Token>, p: nat) => None,
      (b: seq<Token>, p: nat) => None,
      (b: seq<Token>, p: nat) => None)

  /** Tags the value a primitive decoder produced, keeping its cursor. */
  function Lift<T>(r: Option<Read<T>>, tag: T -> Value): (v: Option<Read<Value>>)
    ensures v.Some? <==> r.Some?
    ensures v.Some? ==> v.value == Read(tag(r.value.value), r.value.next)
  {
    match r
    case None => None
    case Some(x) => Some(Read(tag(x.value), x.next))
  }

  /** Decodes one field of kind `k` at the cursor. */
  function DecodeField(ext: Externals, k: FieldKind, buf: seq<Token>, pos: nat): (r: Option<Read<Value>>)
    ensures r.Some? ==> HasKind(r.value.value, k)
  {
    match k
    case StrField => Lift(DecodeStr(buf, pos), s => Text(s))
    case AtomField => Lift(DecodeAtom(buf, pos), s => Text(s))
    case StrListField => Lift(DecodeStrList(buf, pos), xs => Texts(xs))
    case U64Field => Lift(DecodeU64(buf, pos), n => Unsigned(n))
    case I64Field => Lift(DecodeI64(buf, pos), n => Signed(n))
    case DoubleField => Lift(DecodeDouble(buf, pos), d => Real(d))
    case ExecutableField => Lift(ext.executable(buf, pos), e => Exe(e))
    case ResourcesField => Lift(ext.resources(buf, pos), rs => Resources(rs))
    case PropertiesField => Lift(ext.properties(buf, pos), ps => Props(ps))
  }

  /** The fields decoded so far and the cursor after the last of them. */
  datatype Progress = Progress(values: seq<Value>, next: nat)

  /**
   * Decodes the fields of `schema` in order from one cursor, stopping at the
   * first that fails: the decoded prefix is kept, and the cursor is left at the
   * failing field.
   */
  function DecodeFields(ext: Externals, schema: seq<FieldKind>, buf: seq<Token>, pos: nat): (r: Progress)
    ensures Conforms(r.values, schema)
    ensures |r.values| < |schema| ==> DecodeField(ext, schema[|r.values|], buf, r.next).None?
    ensures r.values == [] ==> r.next == pos
    decreases |schema|
  {
    if schema == [] then Progress([], pos)
    else
      match DecodeField(ext, schema[0], buf, pos)
      case None => Progress([], pos)
      case Some(first) =>
        var rest := DecodeFields(ext, schema[1..], buf, first.next);
        Progress([first.value] + rest.values, rest.next)
  }

  /**
   * Decoding only the first `k` fields of a schema gives the first `k` values
   * of decoding all of them (or all of them, if fewer succeeded): a field's
   * value never depends on the fields after it, and nothing after the first
   * failure is decoded.
   */
  lemma {:induction false} DecodeFieldsPrefix(ext: Externals, schema: seq<FieldKind>, k: nat, buf: seq<Token>, pos: nat)
    requires k <= |schema|
    ensures var all := DecodeFields(ext, schema, buf, pos).values;
            DecodeFields(ext, schema[..k], buf, pos).values == all[..if k < |all| then k else |all|]
    decreases k
  {
    if k > 0 {
      assert schema[..k][0] == schema[0];
      assert schema[..k][1..] == schema[1..][..k - 1];
      match DecodeField(ext, schema[0], buf, pos)
      case None =>
        assert DecodeFields(ext, schema, buf, pos).values == [];
        assert DecodeFields(ext, schema[..k], buf, pos).values == [];
      case Some(first) =>
        DecodeFieldsPrefix(ext, schema[1..], k - 1, buf, first.next);
        var rest := DecodeFields(ext, schema[1..], buf, first.next).values;
        var part := DecodeFields(ext, schema[1..][..k - 1], buf, first.next).values;
        assert DecodeFields(ext, schema, buf, pos).values == [first.value] + rest;
        assert DecodeFields(ext, schema[..k], buf, pos).values == [first.value] + part;
        PrefixCons(first.value, rest, k);
    }
  }

  lemma PrefixCons<T>(x: T, rest: seq<T>, k: nat)
    requires k > 0
    ensures var all := [x] + rest;
            all[..if k < |all| then k else |all|] == [x] + rest[..if k - 1 < |rest| then k - 1 else |rest|]
  {
  }

  /** A schema whose first field decodes continues with the rest of the schema just past that field. */
  lemma DecodeFieldsCons(ext: Externals, schema: seq<FieldKind>, buf: seq<Token>, pos: nat, first: Read<Value>)
    requires schema != [] && DecodeField(ext, schema[0], buf, pos) == Some(first)
    ensures DecodeFields(ext, schema, buf, pos) ==
            Progress([first.value] + DecodeFields(ext, schema[1..], buf, first.next).values,
                     DecodeFields(ext, schema[1..], buf, first.next).next)
  {
  }

  lemma ConformsTail(vs: seq<Value>, schema: seq<FieldKind>)
    requires vs != [] && Conforms(vs, schema)
    ensures Conforms(vs[1..], schema[1..])
  {
    forall i | 0 <= i < |vs[1..]|
      ensures HasKind(vs[1..][i], schema[1..][i])
    {
      assert vs[1..][i] == vs[i + 1] && schema[1..][i] == schema[i + 1];
    }
  }

  /** How the peer encodes the nested values whose decoders are external. */
  datatype Encoders = Encoders(
    executable: Executable -> Term,
    resources: seq<Resource> -> Term,
    properties: seq<Property> -> Term)

  /**
   * The external decoder of kind `k` undoes the matching encoder: the encoder
   * yields a complete term, and the decoder reads it back, whatever surrounds it.
   * Holds trivially for the kinds this model decodes itself.
   */
  ghost predicate Inverts(ext: Externals, encs: Encoders, k: FieldKind) {
    match k
    case ExecutableField =>
      && (forall e: Executable :: WellFormed(encs.executable(e)))
      && (forall e: Executable, pre: seq<Token>, post: seq<Token> ::
            ext.executable(pre + Flatten(encs.executable(e)) + post, |pre|) ==
            Some(Read(e, |pre| + |Flatten(encs.executable(e))|)))
    case ResourcesField =>
      && (forall rs: seq<Resource> :: WellFormed(encs.resources(rs)))
      && (forall rs: seq<Resource>, pre: seq<Token>, post: seq<Token> ::
            ext.resources(pre + Flatten(encs.resources(rs)) + post, |pre|) ==
            Some(Read(rs, |pre| + |Flatten(encs.resources(rs))|)))
    case PropertiesField =>
      && (forall ps: seq<Property> :: WellFormed(encs.properties(ps)))
      && (forall ps: seq<Property>, pre: seq<Token>, post: seq<Token> ::
            ext.properties(pre + Flatten(encs.properties(ps)) + post, |pre|) ==
            Some(Read(ps, |pre| + |Flatten(encs.properties(ps))|)))
    case _ => true
  }

  ghost predicate InvertsAll(ext: Externals, encs: Encoders, schema: seq<FieldKind>) {
    forall i | 0 <= i < |schema| :: Inverts(ext, encs, schema[i])
  }

  /** The peer's encoding of one field, as a term. */
  function FieldTerm(encs: Encoders, k: FieldKind, v: Value): Term
    requires HasKind(v, k)
  {
    match k
    case StrField => Leaf(Str(v.text))
    case AtomField => Leaf(Atom(v.text))
    case StrListField => StrListTerm(v.texts)
    case U64Field => Leaf(Integer(v.u))
    case I64Field => Leaf(Integer(v.i))
    case DoubleField => Leaf(Float(v.d))
    case ExecutableField => encs.executable(v.exe)
    case ResourcesField => encs.resources(v.resources)
    case PropertiesField => encs.properties(v.props)
  }

  lemma FieldTermWellFormed(ext: Externals, encs: Encoders, k: FieldKind, v: Value)
    requires HasKind(v, k) && Inverts(ext, encs, k)
    ensures WellFormed(FieldTerm(encs, k, v))
  {
  }

  /** The peer's encoding of one field, as tokens. */
  function EncodeField(encs: Encoders, k: FieldKind, v: Value): seq<Token>
    requires HasKind(v, k)
  {
    Flatten(FieldTerm(encs, k, v))
  }

  function FieldTerms(encs: Encoders, schema: seq<FieldKind>, vs: seq<Value>): (ts: seq<Term>)
    requires |vs| == |schema| && Conforms(vs, schema)
    ensures |ts| == |schema|
    decreases |schema|
  {
    if schema == [] then [] else ConformsTail(vs, schema); [FieldTerm(encs, schema[0], vs[0])] + FieldTerms(encs, schema[1..], vs[1..])
  }

  function EncodeFields(encs: Encoders, schema: seq<FieldKind>, vs: seq<Value>): seq<Token>
    requires |vs| == |schema| && Conforms(vs, schema)
    decreases |schema|
  {
    if schema == [] then [] else ConformsTail(vs, schema); EncodeField(encs, schema[0], vs[0]) + EncodeFields(encs, schema[1..], vs[1..])
  }

  /** The field terms are complete terms, and their tokens are the record's field encoding. */
  lemma {:induction false} FieldTermsFlatten(ext: Externals, encs: Encoders, schema: seq<FieldKind>, vs: seq<Value>)
    requires |vs| == |schema| && Conforms(vs, schema) && InvertsAll(ext, encs, schema)
    ensures FlattenAll(FieldTerms(encs, schema, vs)) == EncodeFields(encs, schema, vs)
    ensures forall i | 0 <= i < |schema| :: WellFormed(FieldTerms(encs, schema, vs)[i])
    decreases |schema|
  {
    if schema != [] {
      ConformsTail(vs, schema);
      var ts := FieldTerms(encs, schema, vs);
      var rest := FieldTerms(encs, schema[1..], vs[1..]);
      assert ts == [FieldTerm(encs, schema[0], vs[0])] + rest;
      assert ts[1..] == rest;
      FieldTermsFlatten(ext, encs, schema[1..], vs[1..]);
      FieldTermWellFormed(ext, encs, schema[0], vs[0]);
      forall i | 0 <= i < |schema|
        ensures WellFormed(ts[i])
      {
        if i > 0 {
          assert ts[i] == rest[i - 1];
        }
      }
    }
  }

  lemma DecodeEncodeField(ext: Externals, encs: Encoders, k: FieldKind, v: Value, pre: seq<Token>, post: seq<Token>)
    requires HasKind(v, k) && Inverts(ext, encs, k)
    ensures DecodeField(ext, k, pre + EncodeField(encs, k, v) + post, |pre|) ==
            Some(Read(v, |pre| + |EncodeField(encs, k, v)|))
  {
    if k.StrListField? {
      FlattenStrListTerm(v.texts);
      DecodeEncodeStrList(v.texts, pre, post);
    } else if k.ExecutableField? || k.ResourcesField? || k.PropertiesField? {
      DecodeEncodeNested(ext, encs, k, v, pre, post);
    } else {
      DecodeEncodeLeaf(ext, encs, k, v, pre, post);
    }
  }

  /** A nested entity's field reads back by the decoder's own round-trip promise. */
  lemma DecodeEncodeNested(ext: Externals, encs: Encoders, k: FieldKind, v: Value, pre: seq<Token>, post: seq<Token>)
    requires k.ExecutableField? || k.ResourcesField? || k.PropertiesField?
    requires HasKind(v, k) && Inverts(ext, encs, k)
    ensures DecodeField(ext, k, pre + EncodeField(encs, k, v) + post, |pre|) ==
            Some(Read(v, |pre| + |EncodeField(encs, k, v)|))
  {
  }

  /** A scalar field is one token, read back at the cursor. */
  lemma DecodeEncodeLeaf(ext: Externals, encs: Encoders, k: FieldKind, v: Value, pre: seq<Token>, post: seq<Token>)
    requires k.StrField? || k.AtomField? || k.U64Field? || k.I64Field? || k.DoubleField?
    requires HasKind(v, k)
    ensures DecodeField(ext, k, pre + EncodeField(encs, k, v) + post, |pre|) ==
            Some(Read(v, |pre| + |EncodeField(encs, k, v)|))
  {
    match k
    case StrField => LeafAt(pre, Str(v.text), post);
    case AtomField => LeafAt(pre, Atom(v.text), post);
    case U64Field => LeafAt(pre, Integer(v.u), post);
    case I64Field => LeafAt(pre, Integer(v.i), post);
    case DoubleField => LeafAt(pre, Float(v.d), post);
  }

  lemma LeafAt(pre: seq<Token>, tok: Token, post: seq<Token>)
    ensures Flatten(Leaf(tok)) == [tok]
    ensures (pre + Flatten(Leaf(tok)) + post)[|pre|] == tok
  {
  }

  /** Every field of a complete, well-typed record decodes back, and the cursor ends just past it. */
  lemma {:induction false} DecodeEncodeFields(ext: Externals, encs: Encoders, schema: seq<FieldKind>, vs: seq<Value>, pre: seq<Token>, post: seq<Token>)
    requires |vs| == |schema| && Conforms(vs, schema) && InvertsAll(ext, encs, schema)
    ensures DecodeFields(ext, schema, pre + EncodeFields(encs, schema, vs) + post, |pre|) ==
            Progress(vs, |pre| + |EncodeFields(encs, schema, vs)|)
    decreases |schema|
  {
    if schema != [] {
      ConformsTail(vs, schema);
      var head := EncodeField(encs, schema[0], vs[0]);
      var tail := EncodeFields(encs, schema[1..], vs[1..]);
      Regroup(pre, head, tail, post);
      assert Inverts(ext, encs, schema[0]);
      DecodeEncodeField(ext, encs, schema[0], vs[0], pre, tail + post);
      assert InvertsAll(ext, encs, schema[1..]) by {
        forall i | 0 <= i < |schema[1..]|
          ensures Inverts(ext, encs, schema[1..][i])
        {
          assert schema[1..][i] == schema[i + 1];
        }
      }
      DecodeEncodeFields(ext, encs, schema[1..], vs[1..], pre + head, post);
      DecodeFieldsCons(ext, schema, (pre + head) + tail + post, |pre|, Read(vs[0], |pre + head|));
      assert [vs[0]] + vs[1..] == vs;
    }
  }

  /** Encoders for records without nested fields; never consulted. */
  const NoEncoders: Encoders :=
    Encoders(e => Leaf(Nil), rs => Leaf(Nil), ps => Leaf(Nil))

  /**
   * The part every entity constructor shares: a tuple header (of any arity:
   * the arity is read but never compared with the schema), then the fields.
   */
  function DecodeRecord(ext: Externals, schema: seq<FieldKind>, buf: seq<Token>, pos: nat): (r: Option<Progress>)
    ensures r.Some? <==> TupleAt(buf, pos)
    ensures r.Some? ==> Conforms(r.value.values, schema)
    ensures r.Some? && r.value.values == [] ==> r.value.next == pos + 1
  {
    match DecodeTupleHeader(buf, pos)
    case None => None
    case Some(header) => Some(DecodeFields(ext, schema, buf, header.next))
  }

  /** A record encoded under any tuple header decodes back, and the cursor ends just past it. */
  lemma DecodeRecordEncoded(ext: Externals, encs: Encoders, schema: seq<FieldKind>, vs: seq<Value>, header: Token, pre: seq<Token>, post: seq<Token>)
    requires |vs| == |schema| && Conforms(vs, schema) && InvertsAll(ext, encs, schema)
    requires header.SmallTupleHead? || header.LargeTupleHead?
    ensures DecodeRecord(ext, schema, pre + [header] + EncodeFields(encs, schema, vs) + post, |pre|) ==
            Some(Progress(vs, |pre| + 1 + |EncodeFields(encs, schema, vs)|))
  {
    var body := EncodeFields(encs, schema, vs);
    var buf := pre + [header] + body + post;
    assert buf == (pre + [header]) + body + post;
    assert buf[|pre|] == header;
    DecodeEncodeFields(ext, encs, schema, vs, pre + [header], post);
  }

  /** A record as the peer sends it: a small tuple of its field terms. */
  function RecordTerm(encs: Encoders, schema: seq<FieldKind>, vs: seq<Value>): Term
    requires |vs| == |schema| && Conforms(vs, schema)
  {
    Tuple(false, FieldTerms(encs, schema, vs))
  }

  lemma RecordTermFlatten(ext: Externals, encs: Encoders, schema: seq<FieldKind>, vs: seq<Value>)
    requires |vs| == |schema| && Conforms(vs, schema) && InvertsAll(ext, encs, schema)
    ensures WellFormed(RecordTerm(encs, schema, vs))
    ensures Flatten(RecordTerm(encs, schema, vs)) == [SmallTupleHead(|schema|)] + EncodeFields(encs, schema, vs)
  {
    FieldTermsFlatten(ext, encs, schema, vs);
  }

  lemma Bracket(pre: seq<Token>, head: Token, body: seq<Token>, post: seq<Token>)
    ensures pre + ([head] + body) + post == pre + [head] + body + post
  {
  }

  /** The same, for a record that is a buffer of its own, decoded from offset 0. */
  lemma DecodeRecordEncodedAlone(ext: Externals, encs: Encoders, schema: seq<FieldKind>, vs: seq<Value>, header: Token, post: seq<Token>)
    requires |vs| == |schema| && Conforms(vs, schema) && InvertsAll(ext, encs, schema)
    requires header.SmallTupleHead? || header.LargeTupleHead?
    ensures DecodeRecord(ext, schema, [header] + EncodeFields(encs, schema, vs) + post, 0) ==
            Some(Progress(vs, 1 + |EncodeFields(encs, schema, vs)|))
  {
    var body := EncodeFields(encs, schema, vs);
    DecodeRecordEncoded(ext, encs, schema, vs, header, [], post);
    assert [] + [header] + body + post == [header] + body + post;
  }

  /** A record term, on its own, decodes back to its fields. */
  lemma DecodeRecordTerm(ext: Externals, encs: Encoders, schema: seq<FieldKind>, vs: seq<Value>)
    requires |vs| == |schema| && Conforms(vs, schema) && InvertsAll(ext, encs, schema)
    ensures WellFormed(RecordTerm(encs, schema, vs))
    ensures DecodeRecord(ext, schema, Flatten(RecordTerm(encs, schema, vs)), 0) ==
            Some(Progress(vs, |Flatten(RecordTerm(encs, schema, vs))|))
  {
    var body := EncodeFields(encs, schema, vs);
    RecordTermFlatten(ext, encs, schema, vs);
    DecodeRecordEncodedAlone(ext, encs, schema, vs, SmallTupleHead(|schema|), []);
    assert [SmallTupleHead(|schema|)] + body + [] == [SmallTupleHead(|schema|)] + body;
  }

  /**
   * A complete term of the wrong kind for field kind `k`: not a string for a
   * string field, not an atom for an atom field, neither LIST_EXT nor NIL_EXT
   * for a string list, not an integer for an integer field, not a float for a
   * double. What the external decoders reject is not part of this model.
   */
  predicate Mismatch(k: FieldKind, t: Term) {
    match k
    case StrField => TermKind(t) != StringKind
    case AtomField => TermKind(t) != AtomKind
    case StrListField => TermKind(t) != ListKind && TermKind(t) != NilKind
    case U64Field => TermKind(t) != IntegerKind
    case I64Field => TermKind(t) != IntegerKind
    case DoubleField => TermKind(t) != FloatKind
    case _ => false
  }

  /** A field given a term of the wrong kind does not decode, wherever the term sits. */
  lemma MismatchFails(ext: Externals, k: FieldKind, t: Term, pre: seq<Token>, post: seq<Token>)
    requires Mismatch(k, t)
    ensures DecodeField(ext, k, pre + Flatten(t) + post, |pre|).None?
  {
    HeadOfFlatten(t, pre, post);
    match k
    case StrField => DecodeStrTerm(t, [], pre, post);
    case AtomField => DecodeAtomTerm(t, [], pre, post);
    case StrListField =>
    case U64Field => DecodeU64Term(t, 0, pre, post);
    case I64Field => DecodeI64Term(t, 0, pre, post);
    case DoubleField => DecodeDoubleTerm(t, Double(0), pre, post);
  }

  lemma InvertsAllPrefix(ext: Externals, encs: Encoders, schema: seq<FieldKind>, k: nat)
    requires k <= |schema| && InvertsAll(ext, encs, schema)
    ensures InvertsAll(ext, encs, schema[..k])
  {
    forall i | 0 <= i < k
      ensures Inverts(ext, encs, schema[..k][i])
    {
      assert schema[..k][i] == schema[i];
    }
  }

  /**
   * Decoding a schema in two parts: when the first `k` fields all decode, the
   * rest of the schema continues from where they stopped.
   */
  lemma {:induction false} DecodeFieldsSplit(ext: Externals, schema: seq<FieldKind>, k: nat, buf: seq<Token>, pos: nat)
    requires k <= |schema| && |DecodeFields(ext, schema[..k], buf, pos).values| == k
    ensures var front := DecodeFields(ext, schema[..k], buf, pos);
            var back := DecodeFields(ext, schema[k..], buf, front.next);
            DecodeFields(ext, schema, buf, pos) == Progress(front.values + back.values, back.next)
    decreases k
  {
    if k == 0 {
      assert schema[..0] == [] && schema[0..] == schema;
    } else {
      assert schema[..k][0] == schema[0];
      assert schema[..k][1..] == schema[1..][..k - 1];
      assert schema[k..] == schema[1..][k - 1..];
      var first := DecodeField(ext, schema[0], buf, pos).value;
      DecodeFieldsSplit(ext, schema[1..], k - 1, buf, first.next);
      var front := DecodeFields(ext, schema[1..][..k - 1], buf, first.next);
      var back := DecodeFields(ext, schema[1..][k - 1..], buf, front.next);
      ConsAppend(first.value, front.values, back.values);
    }
  }

  lemma ConsAppend<T>(x: T, a: seq<T>, b: seq<T>)
    ensures [x] + (a + b) == ([x] + a) + b
  {
  }

  /**
   * Encoded fields followed by one that does not decode: decoding keeps the
   * encoded values and stops with the cursor on the failing field.
   */
  lemma DecodeFieldsStopsAt(ext: Externals, encs: Encoders, schema: seq<FieldKind>, vs: seq<Value>, pre: seq<Token>, rest: seq<Token>)
    requires |vs| < |schema| && Conforms(vs, schema[..|vs|]) && InvertsAll(ext, encs, schema[..|vs|])
    requires var enc := EncodeFields(encs, schema[..|vs|], vs);
             DecodeField(ext, schema[|vs|], pre + enc + rest, |pre| + |enc|).None?
    ensures var enc := EncodeFields(encs, schema[..|vs|], vs);
            DecodeFields(ext, schema, pre + enc + rest, |pre|) == Progress(vs, |pre| + |enc|)
  {
    var enc := EncodeFields(encs, schema[..|vs|], vs);
    DecodeEncodeFields(ext, encs, schema[..|vs|], vs, pre, rest);
    DecodeFieldsStopsAfter(ext, schema, |vs|, pre + enc + rest, |pre|);
  }

  /** When the first `k` fields decode and field `k` does not, decoding the whole schema stops there. */
  lemma DecodeFieldsStopsAfter(ext: Externals, schema: seq<FieldKind>, k: nat, buf: seq<Token>, pos: nat)
    requires k < |schema| && |DecodeFields(ext, schema[..k], buf, pos).values| == k
    requires DecodeField(ext, schema[k], buf, DecodeFields(ext, schema[..k], buf, pos).next).None?
    ensures DecodeFields(ext, schema, buf, pos) == DecodeFields(ext, schema[..k], buf, pos)
  {
    var front := DecodeFields(ext, schema[..k], buf, pos);
    DecodeFieldsSplit(ext, schema, k, buf, pos);
    assert schema[k..][0] == schema[k];
    DecodeFieldsFailsFirst(ext, schema[k..], buf, front.next);
    assert front.values + [] == front.values;
  }

  lemma DecodeFieldsFailsFirst(ext: Externals, schema: seq<FieldKind>, buf: seq<Token>, pos: nat)
    requires schema != [] && DecodeField(ext, schema[0], buf, pos).None?
    ensures DecodeFields(ext, schema, buf, pos) == Progress([], pos)
  {
  }

  /**
   * A record whose field `|vs|` is sent as a term of the wrong kind: under any
   * tuple header the values before it are decoded, and the cursor is left at
   * the start of the offending term.
   */
  lemma DecodeRecordStopsAt(ext: Externals, encs: Encoders, schema: seq<FieldKind>, vs: seq<Value>, t: Term,
                            header: Token, pre: seq<Token>, post: seq<Token>)
    requires |vs| < |schema| && Conforms(vs, schema[..|vs|]) && InvertsAll(ext, encs, schema[..|vs|])
    requires Mismatch(schema[|vs|], t)
    requires header.SmallTupleHead? || header.LargeTupleHead?
    ensures var enc := EncodeFields(encs, schema[..|vs|], vs);
            && TupleAt(pre + [header] + enc + Flatten(t) + post, |pre|)
            && DecodeFields(ext, schema, pre + [header] + enc + Flatten(t) + post, |pre| + 1) == Progress(vs, |pre| + 1 + |enc|)
            && DecodeRecord(ext, schema, pre + [header] + enc + Flatten(t) + post, |pre|) ==
               Some(Progress(vs, |pre| + 1 + |enc|))
  {
    var enc := EncodeFields(encs, schema[..|vs|], vs);
    var buf := pre + [header] + enc + Flatten(t) + post;
    assert buf == (pre + [header]) + enc + (Flatten(t) + post);
    assert buf == (pre + [header] + enc) + Flatten(t) + post;
    assert buf[|pre|] == header;
    MismatchFails(ext, schema[|vs|], t, pre + [header] + enc, post);
    DecodeFieldsStopsAt(ext, encs, schema, vs, pre + [header], Flatten(t) + post);
  }

  /**
   * The same with the offending term complete: `ei_print_term` then moves the
   * cursor from the failing field to just past that term.
   */
  lemma RecordSkipsFailedTerm(ext: Externals, encs: Encoders, schema: seq<FieldKind>, vs: seq<Value>, t: Term,
                              header: Token, pre: seq<Token>, post: seq<Token>)
    requires |vs| < |schema| && Conforms(vs, schema[..|vs|]) && InvertsAll(ext, encs, schema[..|vs|])
    requires WellFormed(t) && Mismatch(schema[|vs|], t)
    requires header.SmallTupleHead? || header.LargeTupleHead?
    ensures var enc := EncodeFields(encs, schema[..|vs|], vs);
            var buf := pre + [header] + enc + Flatten(t) + post;
            var p := DecodeFields(ext, schema, buf, |pre| + 1);
            && TupleAt(buf, |pre|)
            && p.values == vs
            && (if |p.values| < |schema| then PastTerm(buf, p.next) else p.next) == |pre| + 1 + |enc| + |Flatten(t)|
  {
    var enc := EncodeFields(encs, schema[..|vs|], vs);
    var front := pre + [header] + enc;
    DecodeRecordStopsAt(ext, encs, schema, vs, t, header, pre, post);
    assert pre + [header] + enc + Flatten(t) + post == front + Flatten(t) + post;
    assert |front| == |pre| + 1 + |enc|;
    PastEncodedTerm(t, front, post);
  }

  /** Field accessors with the C++ members' default values for a field that was never decoded. */
  function TextAt(vs: seq<Value>, i: nat): string {
    if i < |vs| && vs[i].Text? then vs[i].text else ""
  }

  function TextsAt(vs: seq<Value>, i: nat): seq<string> {
    if i < |vs| && vs[i].Texts? then vs[i].texts else []
  }

  function UnsignedAt(vs: seq<Value>, i: nat): U64 {
    if i < |vs| && vs[i].Unsigned? then vs[i].u else 0
  }

  function SignedAt(vs: seq<Value>, i: nat): I64 {
    if i < |vs| && vs[i].Signed? then vs[i].i else 0
  }

  function RealAt(vs: seq<Value>, i: nat): Double {
    if i < |vs| && vs[i].Real? then vs[i].d else Double(0)
  }

  function ExeAt(vs: seq<Value>, i: nat): Executable {
    if i < |vs| && vs[i].Exe? then vs[i].exe else Executable([])
  }

  function ResourcesAt(vs: seq<Value>, i: nat): seq<Resource> {
    if i < |vs| && vs[i].Resources? then vs[i].resources else []
  }

  function PropsAt(vs: seq<Value>, i: nat): seq<Property> {
    if i < |vs| && vs[i].Props? then vs[i].props else []
  }

  /** The value a default-constructed member of each kind holds. */
  function Zero(k: FieldKind): (v: Value)
    ensures HasKind(v, k)
  {
    match k
    case StrField => Text("")
    case AtomField => Text("")
    case StrListField => Texts([])
    case U64Field => Unsigned(0)
    case I64Field => Signed(0)
    case DoubleField => Real(Double(0))
    case ExecutableField => Exe(Executable([]))
    case ResourcesField => Resources([])
    case PropertiesField => Props([])
  }

  /** The field at `i` read back through the accessor of its kind. */
  function FieldAt(vs: seq<Value>, k: FieldKind, i: nat): Value {
    match k
    case StrField => Text(TextAt(vs, i))
    case AtomField => Text(TextAt(vs, i))
    case StrListField => Texts(TextsAt(vs, i))
    case U64Field => Unsigned(UnsignedAt(vs, i))
    case I64Field => Signed(SignedAt(vs, i))
    case DoubleField => Real(RealAt(vs, i))
    case ExecutableField => Exe(ExeAt(vs, i))
    case ResourcesField => Resources(ResourcesAt(vs, i))
    case PropertiesField => Props(PropsAt(vs, i))
  }

  /**
   * Reading a field of a decoded prefix gives the decoded value when there is
   * one and the member's default otherwise.
   */
  lemma FieldAtPadded(vs: seq<Value>, schema: seq<FieldKind>, dflt: seq<Value>, i: nat)
    requires Conforms(vs, schema) && |dflt| == |schema| && i < |schema| && dflt[i] == Zero(schema[i])
    ensures FieldAt(vs, schema[i], i) == (vs + dflt[|vs|..])[i]
  {
    if i < |vs| {
      assert HasKind(vs[i], schema[i]);
    }
  }
}
