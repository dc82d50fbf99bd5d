/**
 * The primitive field decoders the entity constructors call (`ei_buffer_to_str`,
 * `ei_buffer_to_atom`, `ei_buffer_to_uint64_t`, `ei_buffer_to_int64_t`,
 * `ei_buffer_to_double`, the string-list overload of `ei_buffer_to_str`) and the
 * two header decoders of erl_interface. Each reads at a cursor and either fails,
 * leaving the cursor where it was, or yields a value and the cursor just past it.
 * Their encoders are the partners the round-trip lemmas are proved against.
 */
module Primitives {
  import opened Wrappers
  import opened Terms

  /** C++ `uint64_t` and `int64_t`: the decoders reject integers outside these ranges. */
  type U64 = x: int | 0 <= x < 0x1_0000_0000_0000_0000
  type I64 = x: int | -0x8000_0000_0000_0000 <= x < 0x8000_0000_0000_0000

  /** A decoded value and the cursor just past it. */
  datatype Read<T> = Read(value: T, next: nat)

  /** `ei_decode_tuple_header`: the declared arity of a small or large tuple. */
  function DecodeTupleHeader(buf: seq<Token>, pos: nat): (r: Option<Read<nat>>)
    ensures r.Some? <==> TupleAt(buf, pos)
    ensures r.Some? ==> r.value == Read(buf[pos].arity, pos + 1)
  {
    if pos < |buf| && (buf[pos].SmallTupleHead? || buf[pos].LargeTupleHead?)
    then Some(Read(buf[pos].arity, pos + 1))
    else None
  }

  /**
   * `ei_decode_list_header`: the element count of a LIST_EXT, or 0 for NIL_EXT.
   * The tail of a LIST_EXT is not consumed.
   */
  function DecodeListHeader(buf: seq<Token>, pos: nat): (r: Option<Read<nat>>)
    ensures r.Some? <==> pos < |buf| && (buf[pos].ListHead? || buf[pos].Nil?)
    ensures r.Some? && buf[pos].ListHead? ==> r.value == Read(buf[pos].count, pos + 1)
    ensures r.Some? && buf[pos].Nil? ==> r.value == Read(0, pos + 1)
  {
    if pos >= |buf| then None
    else
      match buf[pos]
      case ListHead(n) => Some(Read(n, pos + 1))
      case Nil => Some(Read(0, pos + 1))
      case _ => None
  }

  function DecodeAtom(buf: seq<Token>, pos: nat): (r: Option<Read<string>>)
    ensures r.Some? <==> pos < |buf| && buf[pos].Atom?
    ensures r.Some? ==> r.value == Read(buf[pos].name, pos + 1)
  {
    if pos < |buf| && buf[pos].Atom? then Some(Read(buf[pos].name, pos + 1)) else None
  }

  function DecodeStr(buf: seq<Token>, pos: nat): (r: Option<Read<string>>)
    ensures r.Some? <==> pos < |buf| && buf[pos].Str?
    ensures r.Some? ==> r.value == Read(buf[pos].text, pos + 1)
  {
    if pos < |buf| && buf[pos].Str? then Some(Read(buf[pos].text, pos + 1)) else None
  }

  function DecodeU64(buf: seq<Token>, pos: nat): (r: Option<Read<U64>>)
    ensures r.Some? <==> pos < |buf| && buf[pos].Integer? && 0 <= buf[pos].value < 0x1_0000_0000_0000_0000
    ensures r.Some? ==> r.value.value == buf[pos].value && r.value.next == pos + 1
  {
    if pos < |buf| && buf[pos].Integer? && 0 <= buf[pos].value < 0x1_0000_0000_0000_0000
    then Some(Read(buf[pos].value as U64, pos + 1))
    else None
  }

  function DecodeI64(buf: seq<Token>, pos: nat): (r: Option<Read<I64>>)
    ensures r.Some? <==> pos < |buf| && buf[pos].Integer? && -0x8000_0000_0000_0000 <= buf[pos].value < 0x8000_0000_0000_0000
    ensures r.Some? ==> r.value.value == buf[pos].value && r.value.next == pos + 1
  {
    if pos < |buf| && buf[pos].Integer? && -0x8000_0000_0000_0000 <= buf[pos].value < 0x8000_0000_0000_0000
    then Some(Read(buf[pos].value as I64, pos + 1))
    else None
  }

  function DecodeDouble(buf: seq<Token>, pos: nat): (r: Option<Read<Double>>)
    ensures r.Some? <==> pos < |buf| && buf[pos].Float?
    ensures r.Some? ==> r.value == Read(buf[pos].double, pos + 1)
  {
    if pos < |buf| && buf[pos].Float? then Some(Read(buf[pos].double, pos + 1)) else None
  }

  /** `n` consecutive string tokens. */
  function DecodeStrs(buf: seq<Token>, pos: nat, n: nat): (r: Option<Read<seq<string>>>)
    ensures r.Some? ==> |r.value.value| == n && r.value.next == pos + n
    ensures r.Some? && n > 0 ==> pos + n <= |buf|
    decreases n
  {
    if n == 0 then Some(Read([], pos))
    else if pos < |buf| && buf[pos].Str? then
      match DecodeStrs(buf, pos + 1, n - 1)
      case None => None
      case Some(rest) => Some(Read([buf[pos].text] + rest.value, rest.next))
    else None
  }

  /**
   * A proper list of strings: NIL_EXT for the empty list, otherwise a LIST_EXT
   * header, its string elements and a NIL_EXT tail.
   */
  function DecodeStrList(buf: seq<Token>, pos: nat): (r: Option<Read<seq<string>>>)
    ensures r.Some? ==> pos < |buf| && (buf[pos].Nil? || buf[pos].ListHead?)
    ensures r.Some? && buf[pos].Nil? ==> r.value == Read([], pos + 1)
    ensures r.Some? && buf[pos].ListHead? ==>
      && |r.value.value| == buf[pos].count
      && r.value.next == pos + buf[pos].count + 2 <= |buf|
      && buf[r.value.next - 1] == Nil
  {
    match DecodeListHeader(buf, pos)
    case None => None
    case Some(header) =>
      if buf[pos].Nil? then Some(Read([], header.next))
      else
        match DecodeStrs(buf, header.next, header.value)
        case None => None
        case Some(items) =>
          if items.next < |buf| && buf[items.next].Nil? then Some(Read(items.value, items.next + 1)) else None
  }

  /** The strings `DecodeStrs` yields are the string tokens it read, in order. */
  lemma {:induction false} DecodeStrsContents(buf: seq<Token>, pos: nat, n: nat)
    requires DecodeStrs(buf, pos, n).Some?
    ensures forall i | 0 <= i < n :: buf[pos + i] == Str(DecodeStrs(buf, pos, n).value.value[i])
    decreases n
  {
    if n > 0 {
      DecodeStrsContents(buf, pos + 1, n - 1);
      var xs := DecodeStrs(buf, pos, n).value.value;
      forall i | 0 <= i < n
        ensures buf[pos + i] == Str(xs[i])
      {
        if i > 0 {
          assert xs[i] == DecodeStrs(buf, pos + 1, n - 1).value.value[i - 1];
        }
      }
    }
  }

  /** The strings of a decoded LIST_EXT are its elements, in wire order. */
  lemma DecodeStrListContents(buf: seq<Token>, pos: nat)
    requires DecodeStrList(buf, pos).Some? && buf[pos].ListHead?
    ensures forall i | 0 <= i < buf[pos].count :: buf[pos + 1 + i] == Str(DecodeStrList(buf, pos).value.value[i])
  {
    DecodeStrsContents(buf, pos + 1, buf[pos].count);
  }

  function StrTokens(xs: seq<string>): (r: seq<Token>)
    ensures |r| == |xs|
    ensures forall i | 0 <= i < |xs| :: r[i] == Str(xs[i])
  {
    seq(|xs|, i requires 0 <= i < |xs| => Str(xs[i]))
  }

  /** How the peer encodes a list of strings. */
  function EncodeStrList(xs: seq<string>): (r: seq<Token>)
  {
    if xs == [] then [Nil] else [ListHead(|xs|)] + StrTokens(xs) + [Nil]
  }

  /** The same encoding as a term: NIL_EXT alone, or a proper list of string leaves. */
  function StrListTerm(xs: seq<string>): (t: Term)
    ensures WellFormed(t)
  {
    if xs == [] then Leaf(Nil)
    else List(seq(|xs|, i requires 0 <= i < |xs| => Leaf(Str(xs[i]))), Leaf(Nil))
  }

  lemma {:induction false} FlattenStrLeaves(xs: seq<string>)
    ensures FlattenAll(seq(|xs|, i requires 0 <= i < |xs| => Leaf(Str(xs[i])))) == StrTokens(xs)
    decreases |xs|
  {
    var ts := seq(|xs|, i requires 0 <= i < |xs| => Leaf(Str(xs[i])));
    if xs != [] {
      FlattenStrLeaves(xs[1..]);
      assert ts[1..] == seq(|xs[1..]|, i requires 0 <= i < |xs[1..]| => Leaf(Str(xs[1..][i])));
      assert StrTokens(xs) == [Str(xs[0])] + StrTokens(xs[1..]);
    }
  }

  /** The token and the term encodings of a string list agree. */
  lemma FlattenStrListTerm(xs: seq<string>)
    ensures Flatten(StrListTerm(xs)) == EncodeStrList(xs)
  {
    if xs != [] {
      FlattenStrLeaves(xs);
    }
  }

  lemma {:induction false} DecodeStrsTokens(buf: seq<Token>, pos: nat, xs: seq<string>)
    requires pos + |xs| <= |buf|
    requires forall i | 0 <= i < |xs| :: buf[pos + i] == Str(xs[i])
    ensures DecodeStrs(buf, pos, |xs|) == Some(Read(xs, pos + |xs|))
    decreases |xs|
  {
    if xs != [] {
      DecodeStrsTokens(buf, pos + 1, xs[1..]);
      assert [xs[0]] + xs[1..] == xs;
    }
  }

  /** The elements of a non-empty encoded list decode back, in order. */
  lemma DecodeEncodedStrs(xs: seq<string>, pre: seq<Token>, post: seq<Token>)
    requires xs != []
    ensures |EncodeStrList(xs)| == |xs| + 2
    ensures DecodeStrs(pre + EncodeStrList(xs) + post, |pre| + 1, |xs|) == Some(Read(xs, |pre| + 1 + |xs|))
  {
    var strs := StrTokens(xs);
    var enc := [ListHead(|xs|)] + strs + [Nil];
    var buf := pre + enc + post;
    assert buf == (pre + [ListHead(|xs|)]) + strs + ([Nil] + post);
    forall i | 0 <= i < |xs|
      ensures buf[|pre| + 1 + i] == Str(xs[i])
    {
      assert buf[|pre| + 1 + i] == strs[i];
    }
    assert |pre| + 1 + |xs| <= |buf|;
    DecodeStrsTokens(buf, |pre| + 1, xs);
    assert enc == EncodeStrList(xs);
  }

  /** Decoding an encoded string list gives the list back and stops just past it. */
  lemma {:induction false} DecodeEncodeStrList(xs: seq<string>, pre: seq<Token>, post: seq<Token>)
    ensures DecodeStrList(pre + EncodeStrList(xs) + post, |pre|) == Some(Read(xs, |pre| + |EncodeStrList(xs)|))
  {
    var enc := EncodeStrList(xs);
    var buf := pre + enc + post;
    var p := |pre|;
    assert buf[p] == enc[0];
    if xs != [] {
      DecodeEncodedStrs(xs, pre, post);
      assert buf[p + 1 + |xs|] == enc[1 + |xs|] == Nil;
      var h := DecodeListHeader(buf, p);
      assert h.Some? && h.value.value == |xs| && h.value.next == p + 1;
    }
  }

  // What each decoder accepts, stated against the term encoding: a decoder
  // succeeds on exactly the encoded terms of its kind and reads back the value
  // that was encoded, whatever precedes or follows the term.

  predicate DecodeHeaderIs(r: Option<Read<nat>>, n: nat, next: nat) {
    r == Some(Read(n, next))
  }

  /**
   * `ei_decode_tuple_header` accepts exactly an encoded tuple, small or large,
   * and reports its arity; the declared number of elements then ends the tuple.
   */
  lemma DecodeTupleHeaderTerm(t: Term, pre: seq<Token>, post: seq<Token>)
    requires WellFormed(t)
    ensures DecodeTupleHeader(pre + Flatten(t) + post, |pre|).Some? <==> t.Tuple?
    ensures t.Tuple? ==> DecodeHeaderIs(DecodeTupleHeader(pre + Flatten(t) + post, |pre|), |t.elems|, |pre| + 1)
    ensures t.Tuple? ==>
      SkipTerms(pre + Flatten(t) + post, |pre| + 1, |t.elems|) == Some(|pre| + |Flatten(t)|)
  {
    HeadOfFlatten(t, pre, post);
    if t.Tuple? {
      SkipFlatten(t, pre, post);
    }
  }

  /**
   * `ei_decode_list_header` accepts exactly an encoded LIST_EXT or NIL_EXT. It
   * reports the element count (0 for NIL_EXT) and consumes only the header, so
   * the elements and the tail of a LIST_EXT follow the cursor it returns.
   */
  lemma DecodeListHeaderTerm(t: Term, pre: seq<Token>, post: seq<Token>)
    requires WellFormed(t)
    ensures DecodeListHeader(pre + Flatten(t) + post, |pre|).Some? <==> t.List? || t == Leaf(Nil)
    ensures t.List? ==> DecodeHeaderIs(DecodeListHeader(pre + Flatten(t) + post, |pre|), |t.elems|, |pre| + 1)
    ensures t == Leaf(Nil) ==> DecodeHeaderIs(DecodeListHeader(pre + Flatten(t) + post, |pre|), 0, |pre| + |Flatten(t)|)
    ensures t.List? ==>
      SkipTerms(pre + Flatten(t) + post, |pre| + 1, |t.elems| + 1) == Some(|pre| + |Flatten(t)|)
  {
    HeadOfFlatten(t, pre, post);
    if t.List? {
      SkipFlatten(t, pre, post);
    }
  }

  /** `ei_decode_atom` reads back exactly an encoded atom, and moves past it. */
  lemma DecodeAtomTerm(t: Term, name: string, pre: seq<Token>, post: seq<Token>)
    ensures DecodeAtom(pre + Flatten(t) + post, |pre|).Some? <==> t.Leaf? && t.token.Atom?
    ensures DecodeAtom(pre + Flatten(t) + post, |pre|) == Some(Read(name, |pre| + |Flatten(t)|)) <==> t == Leaf(Atom(name))
  {
    HeadOfFlatten(t, pre, post);
  }

  /** `ei_decode_string` reads back exactly an encoded string, and moves past it. */
  lemma DecodeStrTerm(t: Term, text: string, pre: seq<Token>, post: seq<Token>)
    ensures DecodeStr(pre + Flatten(t) + post, |pre|).Some? <==> t.Leaf? && t.token.Str?
    ensures DecodeStr(pre + Flatten(t) + post, |pre|) == Some(Read(text, |pre| + |Flatten(t)|)) <==> t == Leaf(Str(text))
  {
    HeadOfFlatten(t, pre, post);
  }

  /**
   * `ei_decode_ulonglong` reads back exactly an encoded integer that fits in
   * `uint64_t`; a negative or wider integer is rejected.
   */
  lemma DecodeU64Term(t: Term, x: U64, pre: seq<Token>, post: seq<Token>)
    ensures DecodeU64(pre + Flatten(t) + post, |pre|).Some? <==>
      t.Leaf? && t.token.Integer? && 0 <= t.token.value < 0x1_0000_0000_0000_0000
    ensures DecodeU64(pre + Flatten(t) + post, |pre|) == Some(Read(x, |pre| + |Flatten(t)|)) <==> t == Leaf(Integer(x))
  {
    HeadOfFlatten(t, pre, post);
  }

  /** `ei_decode_longlong` reads back exactly an encoded integer that fits in `int64_t`. */
  lemma DecodeI64Term(t: Term, x: I64, pre: seq<Token>, post: seq<Token>)
    ensures DecodeI64(pre + Flatten(t) + post, |pre|).Some? <==>
      t.Leaf? && t.token.Integer? && -0x8000_0000_0000_0000 <= t.token.value < 0x8000_0000_0000_0000
    ensures DecodeI64(pre + Flatten(t) + post, |pre|) == Some(Read(x, |pre| + |Flatten(t)|)) <==> t == Leaf(Integer(x))
  {
    HeadOfFlatten(t, pre, post);
  }

  /** `ei_decode_double` reads back exactly an encoded float, bit for bit. */
  lemma DecodeDoubleTerm(t: Term, d: Double, pre: seq<Token>, post: seq<Token>)
    ensures DecodeDouble(pre + Flatten(t) + post, |pre|).Some? <==> t.Leaf? && t.token.Float?
    ensures DecodeDouble(pre + Flatten(t) + post, |pre|) == Some(Read(d, |pre| + |Flatten(t)|)) <==> t == Leaf(Float(d))
  {
    HeadOfFlatten(t, pre, post);
  }
}
