/**
 * `SwmAccount` (c_src/lib/wm_account.cpp): an account record decoded from the
 * caller's shared cursor, its getters and setters, and the shared-cursor list
 * decoder `ei_buffer_to_account`.
 */
module Account {
  import opened Wrappers
  import opened Terms
  import opened Primitives
  import opened Fields
  import Lists

  datatype Account = Account(
    id: string,
    name: string,
    priceList: string,
    users: seq<string>,
    admins: seq<string>,
    comment: string,
    revision: U64)

  /** The fields after the tuple header, in wire order. */
  const Schema: seq<FieldKind> :=
    [StrField, AtomField, StrField, StrListField, StrListField, StrField, U64Field]

  /**
   * A default-constructed `SwmAccount`: empty strings and lists, zero numbers. The
   * constructor body is empty and the member initialisers sit in a header that
   * is not part of this model, so the zero values are an assumption.
   */
  const Default: Account := Account("", "", "", [], [], "", 0)

  function ToFields(a: Account): (vs: seq<Value>)
    ensures |vs| == |Schema| && Conforms(vs, Schema)
  {
    [Text(a.id), Text(a.name), Text(a.priceList), Texts(a.users), Texts(a.admins), Text(a.comment), Unsigned(a.revision)]
  }

  /** The account whose first fields are `vs` and whose other fields are default. */
  function FromFields(vs: seq<Value>): Account {
    Account(TextAt(vs, 0), TextAt(vs, 1), TextAt(vs, 2), TextsAt(vs, 3), TextsAt(vs, 4), TextAt(vs, 5), UnsignedAt(vs, 6))
  }

  lemma FromToFields(a: Account)
    ensures FromFields(ToFields(a)) == a
  {
  }

  /** Building from a decoded prefix keeps the prefix and gives every later field its default. */
  lemma ToFromFields(vs: seq<Value>)
    requires Conforms(vs, Schema)
    ensures ToFields(FromFields(vs)) == vs + ToFields(Default)[|vs|..]
  {
    var r := ToFields(FromFields(vs));
    var d := vs + ToFields(Default)[|vs|..];
    forall i | 0 <= i < |Schema|
      ensures r[i] == d[i]
    {
      assert HasKind(d[i], Schema[i]);
    }
  }

  /** `get_<field>`: the field at wire position `i`. */
  function Get(a: Account, i: nat): (v: Value)
    requires i < |Schema|
    ensures HasKind(v, Schema[i])
  {
    ToFields(a)[i]
  }

  /** `set_<field>`: replaces the field at wire position `i` and no other. */
  function Set(a: Account, i: nat, v: Value): (r: Account)
    requires i < |Schema| && HasKind(v, Schema[i])
    ensures Get(r, i) == v
    ensures forall j | 0 <= j < |Schema| && j != i :: Get(r, j) == Get(a, j)
  {
    var vs := ToFields(a)[i := v];
    ToFromFields(vs);
    FromFields(vs)
  }

  /**
   * `SwmAccount(buf, index)`. A null buffer or a term that is not a tuple
   * leaves the account default and the cursor unmoved. Otherwise the fields
   * are decoded in order until one fails; the fields before it keep their
   * values and the rest stay default, and the caller is not told. After a
   * failure, `ei_print_term` moves the cursor past the failing term.
   */
  function Decode(buf: Option<seq<Token>>, index: nat): (r: Read<Account>)
    ensures buf.None? ==> r == Read(Default, index)
    ensures buf.Some? && !TupleAt(buf.value, index) ==> r == Read(Default, index)
  {
    match buf
    case None => Read(Default, index)
    case Some(b) =>
      match DecodeRecord(NoExternals, Schema, b, index)
      case None => Read(Default, index)
      case Some(p) =>
        Read(FromFields(p.values), if |p.values| < |Schema| then PastTerm(b, p.next) else p.next)
  }

  /**
   * What a tuple decodes to: the fields read before the first failure, then
   * defaults; the field at the failure is exactly the one that did not decode.
   */
  lemma DecodePrefix(b: seq<Token>, index: nat)
    requires TupleAt(b, index)
    ensures var p := DecodeFields(NoExternals, Schema, b, index + 1);
            && ToFields(Decode(Some(b), index).value) == p.values + ToFields(Default)[|p.values|..]
            && (|p.values| < |Schema| ==> DecodeField(NoExternals, Schema[|p.values|], b, p.next).None?)
  {
    ToFromFields(DecodeFields(NoExternals, Schema, b, index + 1).values);
  }

  /**
   * Where the cursor ends on a tuple: after the last field when every field
   * decodes, and otherwise where `ei_print_term` leaves it, starting from the
   * field that failed.
   */
  lemma DecodeCursor(b: seq<Token>, index: nat)
    requires TupleAt(b, index)
    ensures var p := DecodeFields(NoExternals, Schema, b, index + 1);
            Decode(Some(b), index).next == (if |p.values| < |Schema| then PastTerm(b, p.next) else p.next)
  {
  }

  /**
   * A field sent as a term of the wrong kind: the fields before it keep their
   * values, the rest stay default, and `ei_print_term` leaves the cursor just
   * past the offending term.
   */
  lemma FailedFieldSkipsTerm(vs: seq<Value>, t: Term, header: Token, pre: seq<Token>, post: seq<Token>)
    requires |vs| < |Schema| && Conforms(vs, Schema[..|vs|])
    requires WellFormed(t) && Mismatch(Schema[|vs|], t)
    requires header.SmallTupleHead? || header.LargeTupleHead?
    ensures var enc := EncodeFields(NoEncoders, Schema[..|vs|], vs);
            var r := Decode(Some(pre + [header] + enc + Flatten(t) + post), |pre|);
            && ToFields(r.value) == vs + ToFields(Default)[|vs|..]
            && r.next == |pre| + 1 + |enc| + |Flatten(t)|
  {
    var enc := EncodeFields(NoEncoders, Schema[..|vs|], vs);
    var buf := pre + [header] + enc + Flatten(t) + post;
    InvertsFront(|vs|);
    RecordSkipsFailedTerm(NoExternals, NoEncoders, Schema, vs, t, header, pre, post);
    DecodePrefix(buf, |pre|);
    DecodeCursor(buf, |pre|);
  }

  lemma InvertsFront(k: nat)
    requires k <= |Schema|
    ensures InvertsAll(NoExternals, NoEncoders, Schema[..k])
  {
    InvertsSchema();
    InvertsAllPrefix(NoExternals, NoEncoders, Schema, k);
  }

  lemma InvertsSchema()
    ensures InvertsAll(NoExternals, NoEncoders, Schema)
  {
  }

  /** An account as the peer encodes it. */
  function Encode(a: Account): seq<Token> {
    Flatten(RecordTerm(NoEncoders, Schema, ToFields(a)))
  }

  /** Whatever the declared arity, an encoded account decodes back and the cursor ends just past it. */
  lemma DecodeEncode(a: Account, header: Token, pre: seq<Token>, post: seq<Token>)
    requires header.SmallTupleHead? || header.LargeTupleHead?
    ensures var body := EncodeFields(NoEncoders, Schema, ToFields(a));
            Decode(Some(pre + [header] + body + post), |pre|) == Read(a, |pre| + 1 + |body|)
  {
    InvertsSchema();
    DecodeRecordEncoded(NoExternals, NoEncoders, Schema, ToFields(a), header, pre, post);
    FromToFields(a);
  }

  /** The element decoder the list decoder calls at the shared cursor. */
  function Element(b: seq<Token>, index: nat): Read<Account> {
    Decode(Some(b), index)
  }

  lemma ElementReadsBack(a: Account)
    ensures Lists.ReadsBack(Element, Encode, a)
  {
    InvertsSchema();
    RecordTermFlatten(NoExternals, NoEncoders, Schema, ToFields(a));
    forall pre: seq<Token>, post: seq<Token>
      ensures Element(pre + Encode(a) + post, |pre|) == Read(a, |pre| + |Encode(a)|)
    {
      var body := EncodeFields(NoEncoders, Schema, ToFields(a));
      Bracket(pre, SmallTupleHead(|Schema|), body, post);
      DecodeEncode(a, SmallTupleHead(|Schema|), pre, post);
    }
  }

  /** `ei_buffer_to_account`, with the element switch on the element's kind. */
  function DecodeList(buf: seq<Token>, index: nat, prior: seq<Account>): (r: Lists.ListResult<Account>)
    ensures r.status == 0 <==> Probe(buf, index) == Some(ListKind)
    ensures r.status != 0 ==> r.status == -1 && r.items == prior && r.next == index
    ensures r.status == 0 ==> |prior| <= |r.items| <= |prior| + buf[index].count && r.items[..|prior|] == prior
  {
    Lists.SharedCursorList(Element, buf, index, prior)
  }

  /** An encoded non-empty list of accounts is appended in wire order; the cursor stops at its NIL_EXT tail. */
  lemma DecodeListEncoded(xs: seq<Account>, prior: seq<Account>, pre: seq<Token>, post: seq<Token>)
    requires xs != []
    ensures DecodeList(pre + Lists.EncodeList(Encode, xs) + post, |pre|, prior) ==
            Lists.ListResult(0, prior + xs, |pre| + 1 + |Lists.Concat(Encode, xs)|)
  {
    forall i | 0 <= i < |xs|
      ensures Lists.ReadsBack(Element, Encode, xs[i])
    {
      ElementReadsBack(xs[i]);
    }
    Lists.SharedCursorListEncoded(Element, Encode, xs, prior, pre, post);
  }

  /** `[]`, encoded as NIL_EXT, fails the LIST_EXT gate: -1 and the array unchanged. */
  lemma DecodeListRejectsEmpty(prior: seq<Account>, pre: seq<Token>, post: seq<Token>)
    ensures DecodeList(pre + Lists.EncodeList(Encode, []) + post, |pre|, prior) == Lists.ListResult(-1, prior, |pre|)
  {
    Lists.SharedCursorListRejectsEmpty(Element, Encode, prior, pre, post);
  }

  /** `ei_buffer_to_account` as written: its switch inspects `ei_get_type`'s return code. */
  function DecodeListAsWritten(buf: seq<Token>, index: nat, prior: seq<Account>): (r: Lists.ListResult<Account>)
    ensures r.status == 0 <==> Probe(buf, index) == Some(ListKind)
    ensures r.items == prior
  {
    Lists.AsWrittenKeepsArray(Element, buf, index, prior);
    Lists.SharedCursorListAsWritten(Element, buf, index, prior)
  }

  /**
   * The discrepancy: on a well-formed non-empty list of accounts the code as
   * written returns 0 yet appends nothing, where the intended decoder appends
   * every account.
   */
  lemma AsWrittenDropsAccounts(xs: seq<Account>, prior: seq<Account>, pre: seq<Token>, post: seq<Token>)
    requires xs != []
    ensures var buf := pre + Lists.EncodeList(Encode, xs) + post;
            && DecodeListAsWritten(buf, |pre|, prior) == Lists.ListResult(0, prior, |pre| + 1)
            && DecodeList(buf, |pre|, prior).items == prior + xs
  {
    var buf := pre + Lists.EncodeList(Encode, xs) + post;
    assert buf[|pre|] == ListHead(|xs|);
    Lists.AsWrittenNeverAppends(Element, buf, |pre| + 1, |xs|);
    DecodeListEncoded(xs, prior, pre, post);
  }
}
