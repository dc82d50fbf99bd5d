/**
 * `SwmHook` (c_src/lib/wm_hook.cpp): a hook record decoded from the caller's
 * shared cursor, its getters and setters, and the shared-cursor list decoder
 * `ei_buffer_to_hook`. The nested executable is read by an external decoder,
 * passed in as `ext`.
 */
module Hook {
  import opened Wrappers
  import opened Terms
  import opened Primitives
  import opened Fields
  import Lists

  datatype Hook = Hook(
    id: string,
    name: string,
    event: string,
    state: string,
    executable: Executable,
    comment: string,
    revision: U64)

  /** The fields after the tuple header, in wire order. */
  const Schema: seq<FieldKind> :=
    [StrField, StrField, AtomField, AtomField, ExecutableField, StrField, U64Field]

  /**
   * A default-constructed `SwmHook`: empty strings and lists, zero numbers. The
   * constructor body is empty and the member initialisers sit in a header that
   * is not part of this model, so the zero values are an assumption.
   */
  const Default: Hook := Hook("", "", "", "", Executable([]), "", 0)

  function ToFields(h: Hook): (vs: seq<Value>)
    ensures |vs| == |Schema| && Conforms(vs, Schema)
  {
    [Text(h.id), Text(h.name), Text(h.event), Text(h.state), Exe(h.executable), Text(h.comment), Unsigned(h.revision)]
  }

  /** The hook whose first fields are `vs` and whose other fields are default. */
  function FromFields(vs: seq<Value>): Hook {
    Hook(TextAt(vs, 0), TextAt(vs, 1), TextAt(vs, 2), TextAt(vs, 3), ExeAt(vs, 4), TextAt(vs, 5), UnsignedAt(vs, 6))
  }

  lemma FromToFields(h: Hook)
    ensures FromFields(ToFields(h)) == h
  {
  }

  /** Building from a decoded prefix keeps the prefix and gives every later field its default. */
  lemma ToFromFields(vs: seq<Value>)
    requires Conforms(vs, Schema)
    ensures ToFields(FromFields(vs)) == vs + ToFields(Default)[|vs|..]
  {
    var r := ToFields(FromFields(vs));
    var d := vs + ToFields(Default)[|vs|..];
    forall i | 0 <= i < |Schema|
      ensures r[i] == d[i]
    {
      assert HasKind(d[i], Schema[i]);
    }
  }

  /** `get_<field>`: the field at wire position `i`. */
  function Get(h: Hook, i: nat): (v: Value)
    requires i < |Schema|
    ensures HasKind(v, Schema[i])
  {
    ToFields(h)[i]
  }

  /** `set_<field>`: replaces the field at wire position `i` and no other. */
  function Set(h: Hook, i: nat, v: Value): (r: Hook)
    requires i < |Schema| && HasKind(v, Schema[i])
    ensures Get(r, i) == v
    ensures forall j | 0 <= j < |Schema| && j != i :: Get(r, j) == Get(h, j)
  {
    var vs := ToFields(h)[i := v];
    ToFromFields(vs);
    FromFields(vs)
  }

  /**
   * `SwmHook(buf, index)`. A null buffer or a term that is not a tuple leaves
   * the hook default and the cursor unmoved. Otherwise the fields are decoded
   * in order until one fails; the fields before it keep their values and the
   * rest stay default, and the caller is not told. After a failure,
   * `ei_print_term` moves the cursor past the failing term.
   */
  function Decode(ext: Externals, buf: Option<seq<Token>>, index: nat): (r: Read<Hook>)
    ensures buf.None? ==> r == Read(Default, index)
    ensures buf.Some? && !TupleAt(buf.value, index) ==> r == Read(Default, index)
  {
    match buf
    case None => Read(Default, index)
    case Some(b) =>
      match DecodeRecord(ext, Schema, b, index)
      case None => Read(Default, index)
      case Some(p) =>
        Read(FromFields(p.values), if |p.values| < |Schema| then PastTerm(b, p.next) else p.next)
  }

  /**
   * What a tuple decodes to: the fields read before the first failure, then
   * defaults; the field at the failure is exactly the one that did not decode.
   */
  lemma DecodePrefix(ext: Externals, b: seq<Token>, index: nat)
    requires TupleAt(b, index)
    ensures var p := DecodeFields(ext, Schema, b, index + 1);
            && ToFields(Decode(ext, Some(b), index).value) == p.values + ToFields(Default)[|p.values|..]
            && (|p.values| < |Schema| ==> DecodeField(ext, Schema[|p.values|], b, p.next).None?)
  {
    ToFromFields(DecodeFields(ext, Schema, b, index + 1).values);
  }

  /**
   * Where the cursor ends on a tuple: after the last field when every field
   * decodes, and otherwise where `ei_print_term` leaves it, starting from the
   * field that failed.
   */
  lemma DecodeCursor(ext: Externals, b: seq<Token>, index: nat)
    requires TupleAt(b, index)
    ensures var p := DecodeFields(ext, Schema, b, index + 1);
            Decode(ext, Some(b), index).next == (if |p.values| < |Schema| then PastTerm(b, p.next) else p.next)
  {
  }

  /**
   * A field sent as a term of the wrong kind: the fields before it keep their
   * values, the rest stay default, and `ei_print_term` leaves the cursor just
   * past the offending term.
   */
  lemma FailedFieldSkipsTerm(ext: Externals, encs: Encoders, vs: seq<Value>, t: Term, header: Token, pre: seq<Token>, post: seq<Token>)
    requires |vs| < |Schema| && Conforms(vs, Schema[..|vs|]) && InvertsAll(ext, encs, Schema[..|vs|])
    requires WellFormed(t) && Mismatch(Schema[|vs|], t)
    requires header.SmallTupleHead? || header.LargeTupleHead?
    ensures var enc := EncodeFields(encs, Schema[..|vs|], vs);
            var r := Decode(ext, Some(pre + [header] + enc + Flatten(t) + post), |pre|);
            && ToFields(r.value) == vs + ToFields(Default)[|vs|..]
            && r.next == |pre| + 1 + |enc| + |Flatten(t)|
  {
    var enc := EncodeFields(encs, Schema[..|vs|], vs);
    var buf := pre + [header] + enc + Flatten(t) + post;
    RecordSkipsFailedTerm(ext, encs, Schema, vs, t, header, pre, post);
    DecodePrefix(ext, buf, |pre|);
    DecodeCursor(ext, buf, |pre|);
  }

  lemma InvertsSchema(ext: Externals, encs: Encoders)
    requires Inverts(ext, encs, ExecutableField)
    ensures InvertsAll(ext, encs, Schema)
  {
    forall i | 0 <= i < |Schema|
      ensures Inverts(ext, encs, Schema[i])
    {
      if i != 4 {
        assert !Schema[i].ExecutableField?;
      }
    }
  }

  /** A hook as the peer encodes it, its executable encoded by `encs`. */
  function Encode(encs: Encoders, h: Hook): seq<Token> {
    Flatten(RecordTerm(encs, Schema, ToFields(h)))
  }

  /**
   * Whatever the declared arity, an encoded hook decodes back and the cursor
   * ends just past it, provided the executable decoder reads back what the
   * peer's executable encoder writes.
   */
  lemma DecodeEncode(ext: Externals, encs: Encoders, h: Hook, header: Token, pre: seq<Token>, post: seq<Token>)
    requires Inverts(ext, encs, ExecutableField)
    requires header.SmallTupleHead? || header.LargeTupleHead?
    ensures var body := EncodeFields(encs, Schema, ToFields(h));
            Decode(ext, Some(pre + [header] + body + post), |pre|) == Read(h, |pre| + 1 + |body|)
  {
    InvertsSchema(ext, encs);
    DecodeRecordEncoded(ext, encs, Schema, ToFields(h), header, pre, post);
    FromToFields(h);
  }

  /** The element decoder the list decoder calls at the shared cursor. */
  function Element(ext: Externals): (seq<Token>, nat) -> Read<Hook> {
    (b: seq<Token>, index: nat) => Decode(ext, Some(b), index)
  }

  function Encoder(encs: Encoders): Hook -> seq<Token> {
    h => Encode(encs, h)
  }

  lemma ElementReadsBack(ext: Externals, encs: Encoders, h: Hook)
    requires Inverts(ext, encs, ExecutableField)
    ensures Lists.ReadsBack(Element(ext), Encoder(encs), h)
  {
    InvertsSchema(ext, encs);
    RecordTermFlatten(ext, encs, Schema, ToFields(h));
    forall pre: seq<Token>, post: seq<Token>
      ensures Element(ext)(pre + Encode(encs, h) + post, |pre|) == Read(h, |pre| + |Encode(encs, h)|)
    {
      var body := EncodeFields(encs, Schema, ToFields(h));
      Bracket(pre, SmallTupleHead(|Schema|), body, post);
      DecodeEncode(ext, encs, h, SmallTupleHead(|Schema|), pre, post);
    }
  }

  /** `ei_buffer_to_hook`, with the element switch on the element's kind. */
  function DecodeList(ext: Externals, buf: seq<Token>, index: nat, prior: seq<Hook>): (r: Lists.ListResult<Hook>)
    ensures r.status == 0 <==> Probe(buf, index) == Some(ListKind)
    ensures r.status != 0 ==> r.status == -1 && r.items == prior && r.next == index
    ensures r.status == 0 ==> |prior| <= |r.items| <= |prior| + buf[index].count && r.items[..|prior|] == prior
  {
    Lists.SharedCursorList(Element(ext), buf, index, prior)
  }

  /** An encoded non-empty list of hooks is appended in wire order; the cursor stops at its NIL_EXT tail. */
  lemma DecodeListEncoded(ext: Externals, encs: Encoders, xs: seq<Hook>, prior: seq<Hook>, pre: seq<Token>, post: seq<Token>)
    requires Inverts(ext, encs, ExecutableField)
    requires xs != []
    ensures DecodeList(ext, pre + Lists.EncodeList(Encoder(encs), xs) + post, |pre|, prior) ==
            Lists.ListResult(0, prior + xs, |pre| + 1 + |Lists.Concat(Encoder(encs), xs)|)
  {
    forall i | 0 <= i < |xs|
      ensures Lists.ReadsBack(Element(ext), Encoder(encs), xs[i])
    {
      ElementReadsBack(ext, encs, xs[i]);
    }
    Lists.SharedCursorListEncoded(Element(ext), Encoder(encs), xs, prior, pre, post);
  }

  /** `[]`, encoded as NIL_EXT, fails the LIST_EXT gate: -1 and the array unchanged. */
  lemma DecodeListRejectsEmpty(ext: Externals, encs: Encoders, prior: seq<Hook>, pre: seq<Token>, post: seq<Token>)
    ensures DecodeList(ext, pre + Lists.EncodeList(Encoder(encs), []) + post, |pre|, prior) == Lists.ListResult(-1, prior, |pre|)
  {
    Lists.SharedCursorListRejectsEmpty(Element(ext), Encoder(encs), prior, pre, post);
  }

  /** `ei_buffer_to_hook` as written: its switch inspects `ei_get_type`'s return code. */
  function DecodeListAsWritten(ext: Externals, buf: seq<Token>, index: nat, prior: seq<Hook>): (r: Lists.ListResult<Hook>)
    ensures r.status == 0 <==> Probe(buf, index) == Some(ListKind)
    ensures r.items == prior
  {
    Lists.AsWrittenKeepsArray(Element(ext), buf, index, prior);
    Lists.SharedCursorListAsWritten(Element(ext), buf, index, prior)
  }

  /**
   * The discrepancy: on a well-formed non-empty list of hooks the code as
   * written returns 0 yet appends nothing, where the intended decoder appends
   * every hook.
   */
  lemma AsWrittenDropsHooks(ext: Externals, encs: Encoders, xs: seq<Hook>, prior: seq<Hook>, pre: seq<Token>, post: seq<Token>)
    requires Inverts(ext, encs, ExecutableField)
    requires xs != []
    ensures var buf := pre + Lists.EncodeList(Encoder(encs), xs) + post;
            && DecodeListAsWritten(ext, buf, |pre|, prior) == Lists.ListResult(0, prior, |pre| + 1)
            && DecodeList(ext, buf, |pre|, prior).items == prior + xs
  {
    var buf := pre + Lists.EncodeList(Encoder(encs), xs) + post;
    assert buf[|pre|] == ListHead(|xs|);
    Lists.AsWrittenNeverAppends(Element(ext), buf, |pre| + 1, |xs|);
    DecodeListEncoded(ext, encs, xs, prior, pre, post);
  }
}
