/**
 * The two list-decoding conventions of the entity files.
 *
 * Shared cursor (`ei_buffer_to_account`, `ei_buffer_to_hook`): the caller's
 * cursor is threaded through the list header and every element; an element
 * that is not a tuple is reported and skipped without moving the cursor.
 *
 * Per element (`ei_buffer_to_queue`, `_grid`, `_group`, `_metric`): every
 * element is cut out of the buffer as one complete term and decoded on its own
 * from offset 0; the caller's cursor is taken by value and never moves, and the
 * first element that is not a complete term aborts the list.
 *
 * In both, `prior` is what the caller's `array` held before the call: decoded
 * elements are appended to it, and an early return keeps what was appended.
 */
module Lists {
  import opened Wrappers
  import opened Terms
  import opened Primitives

  /** A list decoder's return code, the caller's array and the caller's cursor after the call. */
  datatype ListResult<T> = ListResult(status: int, items: seq<T>, next: nat)

  /** The elements appended by a shared-cursor loop, and the cursor after it. */
  datatype Run<T> = Run(items: seq<T>, next: nat)

  /**
   * The value the element loop's `switch` inspects. As written, it is the
   * return code of `ei_get_type` (0 or -1); as intended, it is the tag of the
   * element's kind, which `ei_get_type` stores through its out-parameter.
   */
  function Scrutinee(buf: seq<Token>, pos: nat, switchOnReturnCode: bool): (r: int)
    ensures !switchOnReturnCode ==> ((r == SMALL_TUPLE_EXT || r == LARGE_TUPLE_EXT) <==> TupleAt(buf, pos))
    ensures switchOnReturnCode ==> r != SMALL_TUPLE_EXT && r != LARGE_TUPLE_EXT
  {
    if switchOnReturnCode then ProbeReturnCode(buf, pos)
    else
      match Probe(buf, pos)
      case None => -1
      case Some(k) => Tag(k)
  }

  /**
   * The element loop of a shared-cursor list: `n` rounds; a round whose
   * scrutinee is a tuple tag builds an element at the cursor and moves the
   * cursor past it, any other round leaves the cursor where it is.
   */
  function SharedElements<T>(elem: (seq<Token>, nat) -> Read<T>, buf: seq<Token>, pos: nat, n: nat, switchOnReturnCode: bool): (r: Run<T>)
    ensures |r.items| <= n
    decreases n
  {
    if n == 0 then Run([], pos)
    else
      var tag := Scrutinee(buf, pos, switchOnReturnCode);
      if tag == SMALL_TUPLE_EXT || tag == LARGE_TUPLE_EXT then
        var first := elem(buf, pos);
        var rest := SharedElements(elem, buf, first.next, n - 1, switchOnReturnCode);
        Run([first.value] + rest.items, rest.next)
      else
        SharedElements(elem, buf, pos, n - 1, switchOnReturnCode)
  }

  /**
   * The shared-cursor list decoder. Fails with -1, leaving the array and cursor
   * as they were, unless the term at the cursor is a LIST_EXT; NIL_EXT, the
   * encoding of `[]`, is rejected by the same gate. A declared count of 0
   * returns 0 just past the header. The list's tail is never consumed.
   */
  function SharedListWith<T>(elem: (seq<Token>, nat) -> Read<T>, buf: seq<Token>, index: nat, prior: seq<T>, switchOnReturnCode: bool): (r: ListResult<T>)
    ensures r.status == 0 || r.status == -1
    ensures r.status == 0 <==> Probe(buf, index) == Some(ListKind)
    ensures r.status == -1 ==> r.items == prior && r.next == index
    ensures index < |buf| && buf[index].Nil? ==> r.status == -1
    ensures r.status == 0 ==>
      && |prior| <= |r.items| <= |prior| + buf[index].count
      && r.items[..|prior|] == prior
    ensures r.status == 0 && buf[index].count == 0 ==> r == ListResult(0, prior, index + 1)
  {
    var probe := Probe(buf, index);
    if probe.None? then ListResult(-1, prior, index)
    else if Tag(probe.value) != LIST_EXT then ListResult(-1, prior, index)
    else
      match DecodeListHeader(buf, index)
      case None => ListResult(-1, prior, index)
      case Some(header) =>
        if header.value == 0 then ListResult(0, prior, header.next)
        else
          var run := SharedElements(elem, buf, header.next, header.value, switchOnReturnCode);
          ListResult(0, prior + run.items, run.next)
  }

  /** `ei_buffer_to_account` / `ei_buffer_to_hook` with the switch on the element's kind. */
  function SharedCursorList<T>(elem: (seq<Token>, nat) -> Read<T>, buf: seq<Token>, index: nat, prior: seq<T>): (r: ListResult<T>)
    ensures r.status == 0 <==> Probe(buf, index) == Some(ListKind)
    ensures r.status != 0 ==> r.status == -1 && r.items == prior && r.next == index
    ensures r.status == 0 ==> |prior| <= |r.items| <= |prior| + buf[index].count && r.items[..|prior|] == prior
  {
    SharedListWith(elem, buf, index, prior, false)
  }

  /** `ei_buffer_to_account` / `ei_buffer_to_hook` as written: the switch inspects `ei_get_type`'s return code. */
  function SharedCursorListAsWritten<T>(elem: (seq<Token>, nat) -> Read<T>, buf: seq<Token>, index: nat, prior: seq<T>): (r: ListResult<T>)
    ensures r.status == 0 <==> Probe(buf, index) == Some(ListKind)
    ensures r.status != 0 ==> r.status == -1 && r.items == prior && r.next == index
  {
    SharedListWith(elem, buf, index, prior, true)
  }

  /** As written, no round of the element loop appends: the return code is never a tuple tag. */
  lemma {:induction false} AsWrittenNeverAppends<T>(elem: (seq<Token>, nat) -> Read<T>, buf: seq<Token>, pos: nat, n: nat)
    ensures SharedElements(elem, buf, pos, n, true) == Run([], pos)
    decreases n
  {
    if n > 0 {
      AsWrittenNeverAppends(elem, buf, pos, n - 1);
    }
  }

  /** As written, a successful call leaves the array as it was, whatever the list holds. */
  lemma AsWrittenKeepsArray<T>(elem: (seq<Token>, nat) -> Read<T>, buf: seq<Token>, index: nat, prior: seq<T>)
    ensures SharedCursorListAsWritten(elem, buf, index, prior).items == prior
  {
    if Probe(buf, index) == Some(ListKind) && buf[index].count > 0 {
      AsWrittenNeverAppends(elem, buf, index + 1, buf[index].count);
    }
  }

  /**
   * A round that finds no tuple leaves the cursor in place, so every later
   * round finds the same element: nothing after it is appended.
   */
  lemma {:induction false} SkippedElementStopsList<T>(elem: (seq<Token>, nat) -> Read<T>, buf: seq<Token>, pos: nat, n: nat)
    requires !TupleAt(buf, pos)
    ensures SharedElements(elem, buf, pos, n, false) == Run([], pos)
    decreases n
  {
    if n > 0 {
      SkippedElementStopsList(elem, buf, pos, n - 1);
    }
  }

  /** The tokens of a run of elements, each encoded on its own, back to back. */
  function Concat<T>(enc: T -> seq<Token>, xs: seq<T>): seq<Token>
    decreases |xs|
  {
    if xs == [] then [] else enc(xs[0]) + Concat(enc, xs[1..])
  }

  /** How the peer encodes a list whose elements `enc` encodes. */
  function EncodeList<T>(enc: T -> seq<Token>, xs: seq<T>): seq<Token>
  {
    if xs == [] then [Nil] else [ListHead(|xs|)] + Concat(enc, xs) + [Nil]
  }

  /**
   * `enc(x)` starts with a tuple header, and the element decoder reads exactly
   * `enc(x)` back as `x`, whatever surrounds it.
   */
  ghost predicate ReadsBack<T>(elem: (seq<Token>, nat) -> Read<T>, enc: T -> seq<Token>, x: T) {
    && |enc(x)| > 0
    && (enc(x)[0].SmallTupleHead? || enc(x)[0].LargeTupleHead?)
    && forall pre: seq<Token>, post: seq<Token> :: elem(pre + enc(x) + post, |pre|) == Read(x, |pre| + |enc(x)|)
  }

  /** With the switch on the element's kind, a run of encoded tuples is appended in wire order. */
  lemma {:induction false} SharedElementsConcat<T>(elem: (seq<Token>, nat) -> Read<T>, enc: T -> seq<Token>, xs: seq<T>, pre: seq<Token>, post: seq<Token>)
    requires forall i | 0 <= i < |xs| :: ReadsBack(elem, enc, xs[i])
    ensures SharedElements(elem, pre + Concat(enc, xs) + post, |pre|, |xs|, false) == Run(xs, |pre| + |Concat(enc, xs)|)
    decreases |xs|
  {
    if xs != [] {
      var head := enc(xs[0]);
      var tail := Concat(enc, xs[1..]);
      var buf := pre + Concat(enc, xs) + post;
      Regroup(pre, head, tail, post);
      assert ReadsBack(elem, enc, xs[0]);
      assert elem(pre + head + (tail + post), |pre|) == Read(xs[0], |pre| + |head|);
      assert buf[|pre|] == head[0];
      assert forall i | 0 <= i < |xs[1..]| :: ReadsBack(elem, enc, xs[1..][i]) by {
        forall i | 0 <= i < |xs[1..]|
          ensures ReadsBack(elem, enc, xs[1..][i])
        {
          assert xs[1..][i] == xs[i + 1];
        }
      }
      SharedElementsConcat(elem, enc, xs[1..], pre + head, post);
      assert [xs[0]] + xs[1..] == xs;
    }
  }

  /**
   * Decoding an encoded non-empty list appends its elements in wire order and
   * leaves the cursor at the list's NIL_EXT tail, which is not consumed.
   */
  lemma SharedCursorListEncoded<T>(elem: (seq<Token>, nat) -> Read<T>, enc: T -> seq<Token>, xs: seq<T>, prior: seq<T>, pre: seq<Token>, post: seq<Token>)
    requires xs != []
    requires forall i | 0 <= i < |xs| :: ReadsBack(elem, enc, xs[i])
    ensures SharedCursorList(elem, pre + EncodeList(enc, xs) + post, |pre|, prior) ==
            ListResult(0, prior + xs, |pre| + 1 + |Concat(enc, xs)|)
    ensures (pre + EncodeList(enc, xs) + post)[|pre| + 1 + |Concat(enc, xs)|] == Nil
  {
    var body := Concat(enc, xs);
    var buf := pre + EncodeList(enc, xs) + post;
    assert buf == (pre + [ListHead(|xs|)]) + body + ([Nil] + post);
    assert buf[|pre|] == ListHead(|xs|);
    SharedElementsConcat(elem, enc, xs, pre + [ListHead(|xs|)], [Nil] + post);
  }

  /** The empty list, encoded as NIL_EXT, is rejected rather than read as zero elements. */
  lemma SharedCursorListRejectsEmpty<T>(elem: (seq<Token>, nat) -> Read<T>, enc: T -> seq<Token>, prior: seq<T>, pre: seq<Token>, post: seq<Token>)
    ensures SharedCursorList(elem, pre + EncodeList(enc, []) + post, |pre|, prior) == ListResult(-1, prior, |pre|)
  {
    var buf := pre + EncodeList(enc, []) + post;
    assert buf[|pre|] == Nil;
  }

  /** The return code and the elements a per-element loop appended before it stopped. */
  datatype Outcome<T> = Outcome(status: int, items: seq<T>)

  /**
   * The element loop of a per-element list: each of `n` rounds cuts the next
   * complete term out of the buffer and decodes it on its own; a round that
   * finds no complete term stops the loop with -1.
   */
  function PerElements<T>(elem: seq<Token> -> T, buf: seq<Token>, pos: nat, n: nat): (r: Outcome<T>)
    ensures r.status == 0 || r.status == -1
    ensures r.status == 0 <==> |r.items| == n
    ensures |r.items| <= n
    decreases n
  {
    if n == 0 then Outcome(0, [])
    else
      match SkipTerm(buf, pos)
      case None => Outcome(-1, [])
      case Some(end) =>
        var rest := PerElements(elem, buf, end, n - 1);
        Outcome(rest.status, [elem(buf[pos..end])] + rest.items)
  }

  /**
   * The per-element list decoder: -1 unless the term at `pos` is a LIST_EXT
   * (NIL_EXT included), 0 with the array unchanged for a declared count of 0,
   * otherwise the elements' outcome appended to the array. The caller's cursor
   * never moves.
   */
  function PerElementList<T>(elem: seq<Token> -> T, buf: seq<Token>, pos: nat, prior: seq<T>): (r: ListResult<T>)
    ensures r.next == pos
    ensures r.status == 0 || r.status == -1
    ensures Probe(buf, pos) != Some(ListKind) ==> r.status == -1 && r.items == prior
    ensures pos < |buf| && buf[pos].Nil? ==> r.status == -1
    ensures |prior| <= |r.items| && r.items[..|prior|] == prior
    ensures Probe(buf, pos) == Some(ListKind) ==>
      && |r.items| <= |prior| + buf[pos].count
      && (r.status == 0 <==> |r.items| == |prior| + buf[pos].count)
  {
    var probe := Probe(buf, pos);
    if probe.None? then ListResult(-1, prior, pos)
    else if Tag(probe.value) != LIST_EXT then ListResult(-1, prior, pos)
    else
      match DecodeListHeader(buf, pos)
      case None => ListResult(-1, prior, pos)
      case Some(header) =>
        if header.value == 0 then ListResult(0, prior, pos)
        else
          var outcome := PerElements(elem, buf, header.next, header.value);
          ListResult(outcome.status, prior + outcome.items, pos)
  }

  /** What decoding each of the terms on its own gives. */
  function DecodeEach<T>(elem: seq<Token> -> T, ts: seq<Term>): (r: seq<T>)
    ensures |r| == |ts|
  {
    seq(|ts|, i requires 0 <= i < |ts| => elem(Flatten(ts[i])))
  }

  /** A complete term found at `pos` is skipped in one step. */
  lemma SkipAt(t: Term, buf: seq<Token>, pos: nat)
    requires WellFormed(t)
    requires pos + |Flatten(t)| <= |buf| && buf[pos..pos + |Flatten(t)|] == Flatten(t)
    ensures SkipTerm(buf, pos) == Some(pos + |Flatten(t)|)
  {
    var pre, rest := buf[..pos], buf[pos + |Flatten(t)|..];
    assert buf == pre + Flatten(t) + rest;
    SkipFlatten(t, pre, rest);
  }

  lemma SliceSplit(buf: seq<Token>, pos: nat, a: seq<Token>, b: seq<Token>)
    requires pos + |a| + |b| <= |buf| && buf[pos..pos + |a| + |b|] == a + b
    ensures buf[pos..pos + |a|] == a
    ensures buf[pos + |a|..pos + |a| + |b|] == b
  {
    assert buf[pos..pos + |a|] == buf[pos..pos + |a| + |b|][..|a|];
    assert buf[pos + |a|..pos + |a| + |b|] == buf[pos..pos + |a| + |b|][|a|..];
  }

  lemma WellFormedTail(ts: seq<Term>)
    requires ts != [] && forall i | 0 <= i < |ts| :: WellFormed(ts[i])
    ensures WellFormed(ts[0]) && forall i | 0 <= i < |ts[1..]| :: WellFormed(ts[1..][i])
  {
    forall i | 0 <= i < |ts[1..]|
      ensures WellFormed(ts[1..][i])
    {
      assert ts[1..][i] == ts[i + 1];
    }
  }

  lemma DecodeEachCons<T>(elem: seq<Token> -> T, ts: seq<Term>)
    requires ts != []
    ensures DecodeEach(elem, ts) == [elem(Flatten(ts[0]))] + DecodeEach(elem, ts[1..])
  {
  }

  /** A run of complete terms is decoded term by term, in order, and the loop succeeds. */
  lemma {:induction false} PerElementsFlatten<T>(elem: seq<Token> -> T, ts: seq<Term>, buf: seq<Token>, pos: nat)
    requires forall i | 0 <= i < |ts| :: WellFormed(ts[i])
    requires pos + |FlattenAll(ts)| <= |buf| && buf[pos..pos + |FlattenAll(ts)|] == FlattenAll(ts)
    ensures PerElements(elem, buf, pos, |ts|) == Outcome(0, DecodeEach(elem, ts))
    decreases |ts|
  {
    if ts != [] {
      var head := Flatten(ts[0]);
      var tail := FlattenAll(ts[1..]);
      assert FlattenAll(ts) == head + tail;
      SliceSplit(buf, pos, head, tail);
      WellFormedTail(ts);
      SkipAt(ts[0], buf, pos);
      PerElementsFlatten(elem, ts[1..], buf, pos + |head|);
      DecodeEachCons(elem, ts);
    }
  }

  /**
   * A truncated run keeps the elements decoded before the first incomplete
   * term and fails.
   */
  lemma {:induction false} PerElementsTruncated<T>(elem: seq<Token> -> T, ts: seq<Term>, buf: seq<Token>, pos: nat, n: nat)
    requires forall i | 0 <= i < |ts| :: WellFormed(ts[i])
    requires n > |ts|
    requires pos + |FlattenAll(ts)| == |buf| && buf[pos..] == FlattenAll(ts)
    ensures PerElements(elem, buf, pos, n) == Outcome(-1, DecodeEach(elem, ts))
    decreases |ts|
  {
    if ts != [] {
      var head := Flatten(ts[0]);
      var tail := FlattenAll(ts[1..]);
      assert FlattenAll(ts) == head + tail;
      assert buf[pos..pos + |head| + |tail|] == buf[pos..];
      SliceSplit(buf, pos, head, tail);
      assert buf[pos + |head|..] == buf[pos + |head|..pos + |head| + |tail|];
      WellFormedTail(ts);
      SkipAt(ts[0], buf, pos);
      PerElementsTruncated(elem, ts[1..], buf, pos + |head|, n - 1);
      DecodeEachCons(elem, ts);
    }
  }

  lemma TokenAfter(pre: seq<Token>, t: Token, rest: seq<Token>)
    ensures (pre + [t] + rest)[|pre|] == t
  {
  }

  /** At a LIST_EXT header with a non-zero count, the list's outcome is its elements' outcome. */
  lemma PerElementListAt<T>(elem: seq<Token> -> T, buf: seq<Token>, pos: nat, prior: seq<T>)
    requires pos < |buf| && buf[pos].ListHead? && buf[pos].count > 0
    ensures var outcome := PerElements(elem, buf, pos + 1, buf[pos].count);
            PerElementList(elem, buf, pos, prior) == ListResult(outcome.status, prior + outcome.items, pos)
  {
  }

  /**
   * A list whose header promises more elements than the buffer holds fails
   * with -1 and keeps the elements decoded before the first missing one.
   */
  lemma PerElementListTruncated<T>(elem: seq<Token> -> T, ts: seq<Term>, prior: seq<T>, pre: seq<Token>, count: nat)
    requires forall i | 0 <= i < |ts| :: WellFormed(ts[i])
    requires count > |ts|
    ensures PerElementList(elem, pre + [ListHead(count)] + FlattenAll(ts), |pre|, prior) ==
            ListResult(-1, prior + DecodeEach(elem, ts), |pre|)
  {
    var buf := pre + [ListHead(count)] + FlattenAll(ts);
    TokenAfter(pre, ListHead(count), FlattenAll(ts));
    PerElementListAt(elem, buf, |pre|, prior);
    assert buf[|pre| + 1..] == FlattenAll(ts);
    PerElementsTruncated(elem, ts, buf, |pre| + 1, count);
  }

  /** The terms of an encoded non-empty list, each decoded on its own, appended in wire order. */
  lemma PerElementListEncoded<T>(elem: seq<Token> -> T, ts: seq<Term>, prior: seq<T>, pre: seq<Token>, post: seq<Token>)
    requires ts != []
    requires forall i | 0 <= i < |ts| :: WellFormed(ts[i])
    ensures PerElementList(elem, pre + Flatten(List(ts, Leaf(Nil))) + post, |pre|, prior) ==
            ListResult(0, prior + DecodeEach(elem, ts), |pre|)
  {
    var buf := pre + Flatten(List(ts, Leaf(Nil))) + post;
    assert Flatten(List(ts, Leaf(Nil))) == [ListHead(|ts|)] + FlattenAll(ts) + [Nil];
    assert buf == (pre + [ListHead(|ts|)]) + FlattenAll(ts) + ([Nil] + post);
    assert buf[|pre|] == ListHead(|ts|);
    assert buf[|pre| + 1..|pre| + 1 + |FlattenAll(ts)|] == FlattenAll(ts);
    PerElementsFlatten(elem, ts, buf, |pre| + 1);
  }

  /** The empty list, encoded as NIL_EXT, is rejected rather than read as zero elements. */
  lemma PerElementListRejectsEmpty<T>(elem: seq<Token> -> T, prior: seq<T>, pre: seq<Token>, post: seq<Token>)
    ensures PerElementList(elem, pre + Flatten(Leaf(Nil)) + post, |pre|, prior) == ListResult(-1, prior, |pre|)
  {
    var buf := pre + Flatten(Leaf(Nil)) + post;
    assert buf[|pre|] == Nil;
  }
}
