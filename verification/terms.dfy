/**
 * The Erlang External Term Format, abstracted to one token per tagged item.
 *
 * A buffer is a sequence of tokens read through a cursor (an index into the
 * sequence). Compound terms are written in prefix order, as in the byte
 * encoding: a tuple header (SMALL_TUPLE_EXT or LARGE_TUPLE_EXT) is followed by
 * its elements, and a LIST_EXT header with count `n` is followed by `n`
 * elements and then a tail term (NIL_EXT for a proper list). The empty list is
 * the single token NIL_EXT. Byte widths, lengths and the version byte are not
 * modelled: a cursor past the end of the sequence stands for a truncated buffer.
 */
module Terms {
  import opened Wrappers

  /** Tag bytes that `ei_get_type` reports (ERTS "External Term Format"). */
  const SMALL_TUPLE_EXT: int := 104
  const LARGE_TUPLE_EXT: int := 105
  const NIL_EXT: int := 106
  const LIST_EXT: int := 108

  /** The IEEE-754 bit pattern of a float term, carried uninterpreted. */
  datatype Double = Double(bits: bv64)

  datatype Token =
    | SmallTupleHead(arity: nat)
    | LargeTupleHead(arity: nat)
    | ListHead(count: nat)
    | Nil
    | Atom(name: string)
    | Str(text: string)
    | Integer(value: int)
    | Float(double: Double)

  /** The kind `ei_get_type` reports for a term, without consuming it. */
  datatype Kind =
    | SmallTupleKind
    | LargeTupleKind
    | ListKind
    | NilKind
    | AtomKind
    | StringKind
    | IntegerKind
    | FloatKind

  function KindOf(t: Token): Kind {
    match t
    case SmallTupleHead(_) => SmallTupleKind
    case LargeTupleHead(_) => LargeTupleKind
    case ListHead(_) => ListKind
    case Nil => NilKind
    case Atom(_) => AtomKind
    case Str(_) => StringKind
    case Integer(_) => IntegerKind
    case Float(_) => FloatKind
  }

  /** The tag byte of a kind; only the four compound tags matter to the decoders. */
  function Tag(k: Kind): (r: int)
    ensures r == SMALL_TUPLE_EXT <==> k == SmallTupleKind
    ensures r == LARGE_TUPLE_EXT <==> k == LargeTupleKind
    ensures r == LIST_EXT <==> k == ListKind
    ensures r == NIL_EXT <==> k == NilKind
  {
    match k
    case SmallTupleKind => SMALL_TUPLE_EXT
    case LargeTupleKind => LARGE_TUPLE_EXT
    case ListKind => LIST_EXT
    case NilKind => NIL_EXT
    case AtomKind => 100
    case StringKind => 107
    case IntegerKind => 98
    case FloatKind => 99
  }

  /** `ei_get_type`: the kind of the term at the cursor; fails past the end of the buffer. */
  function Probe(buf: seq<Token>, pos: nat): (r: Option<Kind>)
    ensures r.Some? <==> pos < |buf|
    ensures r.Some? ==> r.value == KindOf(buf[pos])
  {
    if pos < |buf| then Some(KindOf(buf[pos])) else None
  }

  /** The integer `ei_get_type` returns: 0 on success, -1 on failure. It is never a tag byte. */
  function ProbeReturnCode(buf: seq<Token>, pos: nat): (rc: int)
    ensures rc == 0 || rc == -1
    ensures rc == 0 <==> Probe(buf, pos).Some?
  {
    if Probe(buf, pos).Some? then 0 else -1
  }

  predicate TupleAt(buf: seq<Token>, pos: nat) {
    Probe(buf, pos) == Some(SmallTupleKind) || Probe(buf, pos) == Some(LargeTupleKind)
  }

  /** A token that is a whole term on its own (everything but a tuple or LIST_EXT header). */
  predicate IsLeaf(t: Token) {
    !(t.SmallTupleHead? || t.LargeTupleHead? || t.ListHead?)
  }

  /** Terms as trees: the reference against which the flat cursor functions are proved. */
  datatype Term =
    | Leaf(token: Token)
    | Tuple(large: bool, elems: seq<Term>)
    | List(elems: seq<Term>, tail: Term)

  predicate WellFormed(t: Term)
    decreases t
  {
    match t
    case Leaf(tok) => IsLeaf(tok)
    case Tuple(_, elems) => forall i | 0 <= i < |elems| :: WellFormed(elems[i])
    case List(elems, tail) => (forall i | 0 <= i < |elems| :: WellFormed(elems[i])) && WellFormed(tail)
  }

  /** The prefix-order token encoding of a term. */
  function Flatten(t: Term): (r: seq<Token>)
    ensures |r| > 0
    decreases t
  {
    match t
    case Leaf(tok) => [tok]
    case Tuple(large, elems) =>
      [if large then LargeTupleHead(|elems|) else SmallTupleHead(|elems|)] + FlattenAll(elems)
    case List(elems, tail) => [ListHead(|elems|)] + FlattenAll(elems) + Flatten(tail)
  }

  function FlattenAll(ts: seq<Term>): seq<Token>
    decreases ts
  {
    if ts == [] then [] else Flatten(ts[0]) + FlattenAll(ts[1..])
  }

  /** The cursor just past the complete term that starts at `pos`, if there is one. */
  function SkipTerm(buf: seq<Token>, pos: nat): (r: Option<nat>)
    ensures r.Some? ==> pos < r.value <= |buf|
    decreases |buf| - pos, 0
  {
    if pos >= |buf| then None
    else
      match buf[pos]
      case SmallTupleHead(n) => SkipTerms(buf, pos + 1, n)
      case LargeTupleHead(n) => SkipTerms(buf, pos + 1, n)
      // the elements, then the tail
      case ListHead(n) => SkipTerms(buf, pos + 1, n + 1)
      case _ => Some(pos + 1)
  }

  /** The cursor just past `n` consecutive complete terms starting at `pos`. */
  function SkipTerms(buf: seq<Token>, pos: nat, n: nat): (r: Option<nat>)
    requires pos <= |buf|
    ensures r.Some? ==> pos <= r.value <= |buf|
    ensures r.Some? && n > 0 ==> pos < r.value
    decreases |buf| - pos, 1, n
  {
    if n == 0 then Some(pos)
    else
      match SkipTerm(buf, pos)
      case None => None
      case Some(p) => SkipTerms(buf, p, n - 1)
  }

  /**
   * `ei_print_term(stderr, buf, &index)`: prints the term at the cursor and moves
   * the cursor past it; a cursor that is not at a complete term is left unchanged.
   */
  function PastTerm(buf: seq<Token>, pos: nat): (r: nat)
    ensures r >= pos
    ensures SkipTerm(buf, pos).Some? ==> r == SkipTerm(buf, pos).value
    ensures SkipTerm(buf, pos).None? ==> r == pos
  {
    match SkipTerm(buf, pos)
    case Some(p) => p
    case None => pos
  }

  /** Skipping `a + b` terms is skipping `a` terms, then `b` more. */
  lemma {:induction false} SkipTermsAdd(buf: seq<Token>, pos: nat, a: nat, b: nat)
    requires pos <= |buf|
    ensures SkipTerms(buf, pos, a + b) ==
            match SkipTerms(buf, pos, a)
            case None => None
            case Some(p) => SkipTerms(buf, p, b)
    decreases a
  {
    if a > 0 {
      match SkipTerm(buf, pos)
      case None =>
      case Some(p) =>
        assert SkipTerms(buf, pos, a + b) == SkipTerms(buf, p, a - 1 + b);
        SkipTermsAdd(buf, p, a - 1, b);
    }
  }

  /** SkipTerm finds exactly the end of a well-formed term, whatever precedes or follows it. */
  lemma {:induction false} SkipFlatten(t: Term, pre: seq<Token>, post: seq<Token>)
    requires WellFormed(t)
    ensures SkipTerm(pre + Flatten(t) + post, |pre|) == Some(|pre| + |Flatten(t)|)
    decreases t, 0
  {
    var buf := pre + Flatten(t) + post;
    assert buf[|pre|] == Flatten(t)[0];
    match t
    case Leaf(tok) =>
    case Tuple(large, elems) =>
      var pre' := pre + [Flatten(t)[0]];
      assert buf == pre' + FlattenAll(elems) + post;
      SkipFlattenAll(elems, pre', post);
    case List(elems, tail) =>
      var pre' := pre + [ListHead(|elems|)];
      var mid := pre' + FlattenAll(elems);
      assert buf == pre' + FlattenAll(elems) + (Flatten(tail) + post);
      SkipFlattenAll(elems, pre', Flatten(tail) + post);
      assert buf == mid + Flatten(tail) + post;
      SkipFlatten(tail, mid, post);
      SkipTermsAdd(buf, |pre'|, |elems|, 1);
      assert SkipTerms(buf, |mid|, 1) == Some(|mid| + |Flatten(tail)|) by {
        assert SkipTerms(buf, |mid| + |Flatten(tail)|, 0) == Some(|mid| + |Flatten(tail)|);
      }
  }

  /** SkipTerms finds exactly the end of a run of well-formed terms. */
  lemma {:induction false} SkipFlattenAll(ts: seq<Term>, pre: seq<Token>, post: seq<Token>)
    requires forall i | 0 <= i < |ts| :: WellFormed(ts[i])
    ensures SkipTerms(pre + FlattenAll(ts) + post, |pre|, |ts|) == Some(|pre| + |FlattenAll(ts)|)
    decreases ts, 1
  {
    if ts != [] {
      var buf := pre + FlattenAll(ts) + post;
      var rest := FlattenAll(ts[1..]);
      assert buf == pre + Flatten(ts[0]) + (rest + post);
      SkipFlatten(ts[0], pre, rest + post);
      var pre' := pre + Flatten(ts[0]);
      assert buf == pre' + rest + post;
      SkipFlattenAll(ts[1..], pre', post);
    }
  }

  /** The kind of a term as a tree: the kind of its leaf token, or of its compound header. */
  function TermKind(t: Term): Kind {
    match t
    case Leaf(tok) => KindOf(tok)
    case Tuple(large, _) => if large then LargeTupleKind else SmallTupleKind
    case List(_, _) => ListKind
  }

  /** The first token of an encoded term, wherever the term sits in a buffer. */
  lemma HeadOfFlatten(t: Term, pre: seq<Token>, post: seq<Token>)
    ensures |pre| < |pre + Flatten(t) + post|
    ensures (pre + Flatten(t) + post)[|pre|] == Flatten(t)[0]
    ensures t.Leaf? ==> Flatten(t)[0] == t.token
    ensures t.Tuple? ==> Flatten(t)[0] == if t.large then LargeTupleHead(|t.elems|) else SmallTupleHead(|t.elems|)
    ensures t.List? ==> Flatten(t)[0] == ListHead(|t.elems|)
  {
  }

  /** `ei_get_type` on an encoded term reports the term's own kind, whatever surrounds it. */
  lemma ProbeTerm(t: Term, pre: seq<Token>, post: seq<Token>)
    ensures Probe(pre + Flatten(t) + post, |pre|) == Some(TermKind(t))
  {
    HeadOfFlatten(t, pre, post);
  }

  /**
   * `ei_get_type`'s return code is never a tag byte,
   * so a `switch` on it can never take a case labelled with a tag.
   */
  lemma ReturnCodeIsNoTag(buf: seq<Token>, pos: nat, k: Kind)
    ensures ProbeReturnCode(buf, pos) != Tag(k)
    ensures ProbeReturnCode(buf, pos) == 0 <==> pos < |buf|
  {
  }

  /** `ei_print_term` moves the cursor exactly past an encoded well-formed term. */
  lemma PastEncodedTerm(t: Term, pre: seq<Token>, post: seq<Token>)
    requires WellFormed(t)
    ensures PastTerm(pre + Flatten(t) + post, |pre|) == |pre| + |Flatten(t)|
  {
    SkipFlatten(t, pre, post);
  }

  /** Re-brackets a buffer around two adjacent runs of tokens. */
  lemma Regroup(pre: seq<Token>, head: seq<Token>, tail: seq<Token>, post: seq<Token>)
    ensures pre + (head + tail) + post == pre + head + (tail + post)
    ensures pre + (head + tail) + post == (pre + head) + tail + post
  {
  }
}
