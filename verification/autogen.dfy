/**
 * The code-generation helpers (scripts/autogen_helpers.py): the tables from
 * Erlang type specs to C++ types, name suffixes and printf formats, and the
 * functions that derive C++ struct and tuple type names from record and
 * tuple specs.
 *
 * Python's `str.strip`, `str.title` and `str.replace` are written out:
 * `strip` removes Python's whitespace characters from both ends; `title`
 * upper-cases a letter that follows a non-letter and lower-cases one that
 * follows a letter, over ASCII letters.
 */
module Autogen {
  import opened Wrappers

  // The type tables.

  const Types: map<string, string> := map[
    "atom()" := "std::string", "any()" := "ETERM*", "map()" := "ETERM*",
    "string()" := "std::string", "binary()" := "ETERM*", "integer()" := "int64_t",
    "pos_integer()" := "uint64_t", "float()" := "double",
    "credential_id()" := "std::string", "remote_id()" := "std::string",
    "account_id()" := "std::string", "session_id()" := "std::string",
    "user_id()" := "std::string", "grid_id()" := "std::string",
    "cluster_id()" := "std::string", "partition_id()" := "std::string",
    "node_id()" := "std::string", "job_id()" := "std::string",
    "image_id()" := "std::string", "relocation_id()" := "std::uint64_t",
    "hook_id()" := "std::string"]

  const TypeSuffix: map<string, string> := map[
    "atom()" := "atom", "any()" := "eterm", "map()" := "eterm",
    "string()" := "str", "binary()" := "eterm", "integer()" := "int64_t",
    "pos_integer()" := "uint64_t", "float()" := "double",
    "credential_id()" := "str", "remote_id()" := "str",
    "account_id()" := "str", "session_id()" := "str",
    "user_id()" := "str", "grid_id()" := "str",
    "cluster_id()" := "str", "partition_id()" := "str",
    "node_id()" := "str", "job_id()" := "str",
    "image_id()" := "str", "relocation_id()" := "uint64_t",
    "hook_id()" := "str"]

  const Printer: map<string, string> := map[
    "atom()" := "%s", "any()" := "eterm", "map()" := "eterm",
    "binary()" := "eterm", "string()" := "%s", "integer()" := "%ld",
    "pos_integer()" := "%ld", "float()" := "%f",
    "credential_id()" := "%s", "remote_id()" := "%s",
    "account_id()" := "%s", "session_id()" := "%s",
    "user_id()" := "%s", "grid_id()" := "%s",
    "cluster_id()" := "%s", "partition_id()" := "%s",
    "node_id()" := "%s", "job_id()" := "%s",
    "image_id()" := "%s", "relocation_id()" := "%ld",
    "hook_id()" := "%s"]

  /** The three tables cover the same type specs. */
  lemma TablesShareKeys()
    ensures Types.Keys == TypeSuffix.Keys == Printer.Keys
  {
  }

  /** Every type spec is a lower-case name followed by `()`, and every suffix is longer than one character. */
  lemma KnownSpec(k: string)
    requires k in TypeSuffix
    ensures |k| > 2 && IsLower(k[0]) && k[|k| - 2] == '(' && k[|k| - 1] == ')'
    ensures |TypeSuffix[k]| > 1
  {
  }

  /**
   * The tables agree with each other: a type is printed with `%s` exactly
   * when it becomes a `std::string`, and it is kept as an opaque term exactly
   * when its suffix and its printer are `eterm`.
   */
  lemma TablesAgree(k: string)
    requires k in Types
    ensures Printer[k] == "%s" <==> Types[k] == "std::string"
    ensures Types[k] == "ETERM*" <==> TypeSuffix[k] == "eterm"
    ensures Types[k] == "ETERM*" <==> Printer[k] == "eterm"
    ensures TypeSuffix[k] == "str" ==> Types[k] == "std::string"
  {
  }

  // Python string helpers.

  /** `str.isspace` for one character. */
  predicate IsSpace(c: char) {
    var n := c as int;
    (9 <= n <= 13) || (28 <= n <= 32) || n == 0x85 || n == 0xA0 || n == 0x1680 ||
    (0x2000 <= n <= 0x200A) || n == 0x2028 || n == 0x2029 || n == 0x202F || n == 0x205F || n == 0x3000
  }

  predicate AllSpace(s: string) {
    forall i | 0 <= i < |s| :: IsSpace(s[i])
  }

  /** Text with no whitespace at either end. */
  predicate Trimmed(s: string) {
    s == [] || (!IsSpace(s[0]) && !IsSpace(s[|s| - 1]))
  }

  function StripLeft(s: string): (r: string)
    ensures |r| <= |s| && r == s[|s| - |r|..]
    ensures AllSpace(s[..|s| - |r|])
    ensures r == [] || !IsSpace(r[0])
    decreases |s|
  {
    if s != [] && IsSpace(s[0]) then StripLeft(s[1..]) else s
  }

  function StripRight(s: string): (r: string)
    ensures |r| <= |s| && r == s[..|r|]
    ensures AllSpace(s[|r|..])
    ensures r == [] || !IsSpace(r[|r| - 1])
    decreases |s|
  {
    if s != [] && IsSpace(s[|s| - 1]) then StripRight(s[..|s| - 1]) else s
  }

  /** `str.strip()`. */
  function Strip(s: string): (r: string)
    ensures |r| <= |s| && Trimmed(r)
  {
    StripRight(StripLeft(s))
  }

  /** What `strip` keeps is a contiguous part of its input, and what it drops is whitespace. */
  lemma {:induction false} StripSlice(s: string)
    ensures exists a, b | 0 <= a <= b <= |s| :: Strip(s) == s[a..b] && AllSpace(s[..a]) && AllSpace(s[b..])
  {
    var l := StripLeft(s);
    var r := StripRight(l);
    var a := |s| - |l|;
    assert r == s[a..a + |r|];
    assert s[a + |r|..] == l[|r|..];
  }

  lemma {:induction false} StripLeftPadded(lead: string, y: string)
    requires AllSpace(lead) && (y == [] || !IsSpace(y[0]))
    ensures StripLeft(lead + y) == y
    decreases |lead|
  {
    if lead == [] {
      assert lead + y == y;
    } else {
      assert (lead + y)[0] == lead[0];
      assert (lead + y)[1..] == lead[1..] + y;
      StripLeftPadded(lead[1..], y);
    }
  }

  lemma {:induction false} StripRightPadded(y: string, trail: string)
    requires AllSpace(trail) && (y == [] || !IsSpace(y[|y| - 1]))
    ensures StripRight(y + trail) == y
    decreases |trail|
  {
    if trail == [] {
      assert y + trail == y;
    } else {
      var s := y + trail;
      assert s[|s| - 1] == trail[|trail| - 1];
      assert s[..|s| - 1] == y + trail[..|trail| - 1];
      StripRightPadded(y, trail[..|trail| - 1]);
    }
  }

  /** Whitespace padding around trimmed text is exactly what `strip` removes. */
  lemma {:induction false} StripPadded(lead: string, x: string, trail: string)
    requires AllSpace(lead) && AllSpace(trail) && Trimmed(x)
    ensures Strip(lead + x + trail) == x
  {
    if x == [] {
      assert lead + x + trail == lead + trail;
      StripLeftPadded(lead + trail, []);
      assert lead + trail + [] == lead + trail;
      StripRightPadded([], []);
    } else {
      assert lead + x + trail == lead + (x + trail);
      assert (x + trail)[0] == x[0];
      StripLeftPadded(lead, x + trail);
      StripRightPadded(x, trail);
    }
  }

  predicate IsUpper(c: char) { 'A' <= c <= 'Z' }
  predicate IsLower(c: char) { 'a' <= c <= 'z' }
  /** A letter that has an upper and a lower case. */
  predicate IsCased(c: char) { IsUpper(c) || IsLower(c) }

  function Upper(c: char): (u: char)
    ensures IsCased(u) <==> IsCased(c)
    ensures !IsLower(u)
  {
    if IsLower(c) then (c as int - 32) as char else c
  }

  function Lower(c: char): (l: char)
    ensures IsCased(l) <==> IsCased(c)
    ensures !IsUpper(l)
  {
    if IsUpper(c) then (c as int + 32) as char else c
  }

  /** How `title` writes `c`, given whether the character before it is a letter. */
  function Cap(c: char, afterLetter: bool): (r: char)
    ensures IsCased(r) <==> IsCased(c)
    ensures IsUpper(r) ==> !afterLetter
    ensures IsLower(r) ==> afterLetter || !IsCased(c)
    ensures Lower(r) == Lower(c)
    ensures !IsCased(c) ==> r == c
  {
    if afterLetter then Lower(c) else Upper(c)
  }

  function TitleFrom(s: string, afterLetter: bool): (r: string)
    ensures |r| == |s|
    decreases |s|
  {
    if s == [] then [] else [Cap(s[0], afterLetter)] + TitleFrom(s[1..], IsCased(s[0]))
  }

  /** `str.title()`. */
  function Title(s: string): (r: string)
    ensures |r| == |s|
  {
    TitleFrom(s, false)
  }

  lemma {:induction false} TitleFromAt(s: string, afterLetter: bool)
    ensures forall i | 0 <= i < |s| ::
      TitleFrom(s, afterLetter)[i] == Cap(s[i], if i == 0 then afterLetter else IsCased(s[i - 1]))
    decreases |s|
  {
    if s != [] {
      TitleFromAt(s[1..], IsCased(s[0]));
      var r := TitleFrom(s, afterLetter);
      forall i | 0 < i < |s|
        ensures r[i] == Cap(s[i], IsCased(s[i - 1]))
      {
        assert r[i] == TitleFrom(s[1..], IsCased(s[0]))[i - 1];
        assert s[1..][i - 1] == s[i];
        if i > 1 {
          assert s[1..][i - 2] == s[i - 1];
        }
      }
    }
  }

  /**
   * Each character of the title-cased string depends only on itself and its
   * predecessor: upper case at the start of a word, lower case inside one.
   */
  lemma TitleAt(s: string)
    ensures forall i | 0 <= i < |s| :: Title(s)[i] == Cap(s[i], i > 0 && IsCased(s[i - 1]))
  {
    var t := TitleFrom(s, false);
    assert Title(s) == t;
    TitleFromAt(s, false);
    forall i | 0 <= i < |s|
      ensures t[i] == Cap(s[i], i > 0 && IsCased(s[i - 1]))
    {
      assert t[i] == Cap(s[i], if i == 0 then false else IsCased(s[i - 1]));
    }
  }

  /** Title-casing a title-cased string changes nothing. */
  lemma TitleIdempotent(s: string)
    ensures Title(Title(s)) == Title(s)
  {
    var t := Title(s);
    TitleAt(s);
    TitleAt(t);
    forall i | 0 <= i < |s|
      ensures Title(t)[i] == t[i]
    {
      var after := i > 0 && IsCased(s[i - 1]);
      assert t[i] == Cap(s[i], after);
      if i > 0 {
        assert t[i - 1] == Cap(s[i - 1], i - 1 > 0 && IsCased(s[i - 2]));
      }
      assert Title(t)[i] == Cap(t[i], after);
    }
  }

  /** `r.replace('{}', '')`: one left-to-right pass removing each `{}` pair. */
  function RemoveBraces(s: string): (r: string)
    ensures |r| <= |s|
    decreases |s|
  {
    if |s| >= 2 && s[0] == '{' && s[1] == '}' then RemoveBraces(s[2..])
    else if s == [] then []
    else [s[0]] + RemoveBraces(s[1..])
  }

  predicate IsBrace(c: char) { c == '{' || c == '}' }

  /** The characters of `s` other than braces, in order. */
  function NonBraces(s: string): string
    decreases |s|
  {
    if s == [] then [] else (if IsBrace(s[0]) then [] else [s[0]]) + NonBraces(s[1..])
  }

  lemma {:induction false} NonBracesAppend(a: string, b: string)
    ensures NonBraces(a + b) == NonBraces(a) + NonBraces(b)
    decreases |a|
  {
    if a == [] {
      assert a + b == b;
    } else {
      assert (a + b)[1..] == a[1..] + b;
      NonBracesAppend(a[1..], b);
    }
  }

  /** Removing `{}` pairs keeps every other character, in order. */
  lemma {:induction false} RemoveBracesKeeps(s: string)
    ensures NonBraces(RemoveBraces(s)) == NonBraces(s)
    decreases |s|
  {
    if |s| >= 2 && s[0] == '{' && s[1] == '}' {
      RemoveBracesKeeps(s[2..]);
      assert s[1..][1..] == s[2..];
    } else if s != [] {
      RemoveBracesKeeps(s[1..]);
      NonBracesAppend([s[0]], RemoveBraces(s[1..]));
    }
  }

  /** A name without braces is left as it is. */
  lemma {:induction false} RemoveBracesNone(s: string, t: string)
    requires forall i | 0 <= i < |s| :: !IsBrace(s[i])
    ensures RemoveBraces(s + t) == s + RemoveBraces(t)
    decreases |s|
  {
    if s == [] {
      assert s + t == t;
    } else {
      assert (s + t)[0] == s[0];
      assert (s + t)[1..] == s[1..] + t;
      RemoveBracesNone(s[1..], t);
    }
  }

  /** The pass does not rescan: the pair that removal brings together stays. */
  lemma RemoveBracesNested()
    ensures RemoveBraces("{{}}") == "{}"
  {
    var s := "{{}}";
    assert s[1..] == "{}}";
    assert s[1..][2..] == "}";
    assert "}"[1..] == [];
  }

  /** `s` has no `{}` pair: no `{` immediately followed by `}`. */
  predicate NoPair(s: string) {
    forall i | 0 <= i < |s| - 1 :: !(s[i] == '{' && s[i + 1] == '}')
  }

  lemma NoPairTail(s: string)
    requires s != [] && NoPair(s)
    ensures NoPair(s[1..])
  {
    forall i | 0 <= i < |s[1..]| - 1
      ensures !(s[1..][i] == '{' && s[1..][i + 1] == '}')
    {
      assert s[1..][i] == s[i + 1] && s[1..][i + 1] == s[i + 2];
    }
  }

  /** The first `{}` pair is removed, and everything before it is kept. */
  lemma {:induction false} RemoveBracesFirst(a: string, b: string)
    requires NoPair(a)
    ensures RemoveBraces(a + "{}" + b) == a + RemoveBraces(b)
    decreases |a|
  {
    var s := a + "{}" + b;
    if a == [] {
      assert s == "{}" + b;
      assert s[2..] == b;
    } else {
      assert s[0] == a[0];
      assert |a| >= 2 ==> s[1] == a[1];
      assert |a| == 1 ==> s[1] == '{';
      assert s[1..] == a[1..] + "{}" + b;
      NoPairTail(a);
      RemoveBracesFirst(a[1..], b);
      assert a == [a[0]] + a[1..];
    }
  }

  /** A string without a `{}` pair is left as it is. */
  lemma {:induction false} RemoveBracesAbsent(s: string)
    requires NoPair(s)
    ensures RemoveBraces(s) == s
    decreases |s|
  {
    if s != [] {
      NoPairTail(s);
      RemoveBracesAbsent(s[1..]);
      assert s == [s[0]] + s[1..];
    }
  }

  predicate HasHash(s: string) {
    exists i | 0 <= i < |s| :: s[i] == '#'
  }

  lemma {:induction false} NonBracesHash(s: string)
    ensures HasHash(NonBraces(s)) <==> HasHash(s)
    decreases |s|
  {
    if s != [] {
      NonBracesHash(s[1..]);
      var head := if IsBrace(s[0]) then [] else [s[0]];
      assert NonBraces(s) == head + NonBraces(s[1..]);
      if HasHash(s[1..]) {
        var i :| 0 <= i < |s[1..]| && s[1..][i] == '#';
        assert s[i + 1] == '#';
      }
      if HasHash(s) && s[0] != '#' {
        var i :| 0 <= i < |s| && s[i] == '#';
        assert s[1..][i - 1] == '#';
      }
      if HasHash(NonBraces(s)) {
        var i :| 0 <= i < |NonBraces(s)| && NonBraces(s)[i] == '#';
        if i >= |head| {
          assert NonBraces(s[1..])[i - |head|] == '#';
        }
      }
      if s[0] == '#' {
        assert NonBraces(s)[0] == '#';
      } else if HasHash(NonBraces(s[1..])) {
        var j :| 0 <= j < |NonBraces(s[1..])| && NonBraces(s[1..])[j] == '#';
        assert NonBraces(s)[|head| + j] == '#';
      }
    }
  }

  // The name derivations.

  /** `struct_param_type`'s result: the C++ type name, the raw name, and whether it is a record. */
  datatype StructParam = StructParam(typeName: string, raw: string, isStruct: bool)

  /**
   * `struct_param_type`. A spec containing `#` names a record: its leading
   * `#` and every `{}` are dropped from the raw name.
   */
  function StructParamType(r: string): (p: StructParam)
    ensures p.isStruct <==> HasHash(r)
    ensures !p.isStruct ==> p.raw == r
    ensures p.isStruct ==> NonBraces(p.raw) == NonBraces(if r[0] == '#' then r[1..] else r)
    ensures |p.typeName| == 3 + |p.raw| && p.typeName[..3] == "Swm" && p.typeName[3..] == Title(p.raw)
  {
    if HasHash(r) then
      var name := RemoveBraces(if r[0] == '#' then r[1..] else r);
      RemoveBracesKeeps(if r[0] == '#' then r[1..] else r);
      StructParam("Swm" + Title(name), name, true)
    else StructParam("Swm" + Title(r), r, false)
  }

  /** A record spec `#name{}` becomes the type `Swm` + title-cased name, with raw name `name`. */
  lemma StructParamOfRecord(name: string)
    requires forall i | 0 <= i < |name| :: !IsBrace(name[i]) && name[i] != '#'
    ensures StructParamType("#" + name + "{}") == StructParam("Swm" + Title(name), name, true)
  {
    var r := "#" + name + "{}";
    assert r[0] == '#' && HasHash(r);
    assert r[1..] == name + "{}";
    RemoveBracesNone(name, "{}");
    assert "{}"[2..] == [];
    assert name + [] == name;
  }

  /** A record spec loses its leading `#` and the first `{}` pair; the text before that pair stays. */
  lemma StructParamDropsPair(a: string, b: string)
    requires NoPair(a)
    ensures StructParamType("#" + a + "{}" + b).isStruct
    ensures StructParamType("#" + a + "{}" + b).raw == a + RemoveBraces(b)
  {
    var r := "#" + a + "{}" + b;
    assert r[0] == '#' && HasHash(r);
    assert r[1..] == a + "{}" + b;
    RemoveBracesFirst(a, b);
  }

  /** A spec without `#` is not a record and keeps its name. */
  lemma StructParamOfPlain(r: string)
    requires !HasHash(r)
    ensures StructParamType(r) == StructParam("Swm" + Title(r), r, false)
  {
  }

  /** The tuple elements `get_tuple_type` recognizes. */
  datatype TupleElem = AtomElem | StrElem | AnyElem

  function Recognize(p: string): (e: Option<TupleElem>)
    ensures e == Some(AtomElem) <==> Strip(p) == "atom()"
    ensures e == Some(StrElem) <==> Strip(p) == "string()"
    ensures e == Some(AnyElem) <==> Strip(p) == "any()"
  {
    var t := Strip(p);
    if t == "atom()" then Some(AtomElem)
    else if t == "string()" then Some(StrElem)
    else if t == "any()" then Some(AnyElem)
    else None
  }

  /** How an element is written in a tuple spec. */
  function Spelling(e: TupleElem): string {
    match e
    case AtomElem => "atom()"
    case StrElem => "string()"
    case AnyElem => "any()"
  }

  /** An element is recognized by its spelling, whatever whitespace surrounds it, and by nothing else. */
  lemma RecognizeSpelling(lead: string, p: string, trail: string, e: TupleElem)
    requires AllSpace(lead) && AllSpace(trail) && Trimmed(p)
    ensures Recognize(lead + p + trail) == Some(e) <==> p == Spelling(e)
  {
    StripPadded(lead, p, trail);
  }

  function ElemSuffix(e: TupleElem): string {
    match e
    case AtomElem => "_atom"
    case StrElem => "_str"
    case AnyElem => "_eterm"
  }

  /** What one element adds to a tuple type name. */
  function TupleSuffix(p: string): string {
    match Recognize(p)
    case Some(e) => ElemSuffix(e)
    case None => ""
  }

  /** `get_tuple_type`: a suffix per recognized element, in order; other elements add nothing. */
  function GetTupleType(pp: seq<string>): string
    decreases |pp|
  {
    if pp == [] then "" else TupleSuffix(pp[0]) + GetTupleType(pp[1..])
  }

  /** The recognized elements of a tuple spec, in order. */
  function Elems(pp: seq<string>): seq<TupleElem>
    decreases |pp|
  {
    if pp == [] then []
    else (match Recognize(pp[0]) case Some(e) => [e] case None => []) + Elems(pp[1..])
  }

  function Suffixes(es: seq<TupleElem>): string
    decreases |es|
  {
    if es == [] then "" else ElemSuffix(es[0]) + Suffixes(es[1..])
  }

  lemma {:induction false} GetTupleTypeSuffixes(pp: seq<string>)
    ensures GetTupleType(pp) == Suffixes(Elems(pp))
    decreases |pp|
  {
    if pp != [] {
      GetTupleTypeSuffixes(pp[1..]);
      var head := match Recognize(pp[0]) case Some(e) => [e] case None => [];
      SuffixesAppend(head, Elems(pp[1..]));
      if head != [] {
        assert head[1..] == [];
      }
    }
  }

  lemma {:induction false} SuffixesAppend(a: seq<TupleElem>, b: seq<TupleElem>)
    ensures Suffixes(a + b) == Suffixes(a) + Suffixes(b)
    decreases |a|
  {
    if a == [] {
      assert a + b == b;
    } else {
      assert (a + b)[1..] == a[1..] + b;
      SuffixesAppend(a[1..], b);
    }
  }

  /** Reads a tuple type suffix back into its elements. */
  function ParseSuffixes(s: string): Option<seq<TupleElem>>
    decreases |s|
  {
    if s == [] then Some([])
    else if |s| >= 5 && s[..5] == "_atom" then
      match ParseSuffixes(s[5..]) case None => None case Some(es) => Some([AtomElem] + es)
    else if |s| >= 4 && s[..4] == "_str" then
      match ParseSuffixes(s[4..]) case None => None case Some(es) => Some([StrElem] + es)
    else if |s| >= 6 && s[..6] == "_eterm" then
      match ParseSuffixes(s[6..]) case None => None case Some(es) => Some([AnyElem] + es)
    else None
  }

  lemma {:induction false} ParseSuffixesInverse(es: seq<TupleElem>)
    ensures ParseSuffixes(Suffixes(es)) == Some(es)
    decreases |es|
  {
    if es != [] {
      var rest := Suffixes(es[1..]);
      ParseSuffixesInverse(es[1..]);
      var s := ElemSuffix(es[0]) + rest;
      assert Suffixes(es) == s;
      match es[0] {
        case AtomElem =>
          assert s[..5] == "_atom" && s[5..] == rest;
        case StrElem =>
          assert s[1] == 's';
          assert |s| >= 5 ==> s[..5] != "_atom" by {
            if |s| >= 5 { assert s[..5][1] == 's'; }
          }
          assert s[..4] == "_str" && s[4..] == rest;
        case AnyElem =>
          assert s[1] == 'e';
          assert |s| >= 5 ==> s[..5] != "_atom" by {
            if |s| >= 5 { assert s[..5][1] == 'e'; }
          }
          assert s[..4] != "_str" by {
            assert s[..4][1] == 'e';
          }
          assert s[..6] == "_eterm" && s[6..] == rest;
      }
      assert [es[0]] + es[1..] == es;
    }
  }

  /**
   * The generated tuple type name identifies the tuple: two specs get the
   * same name exactly when they list the same recognized elements in the
   * same order.
   */
  lemma GetTupleTypeInjective(a: seq<string>, b: seq<string>)
    ensures GetTupleType(a) == GetTupleType(b) <==> Elems(a) == Elems(b)
  {
    GetTupleTypeSuffixes(a);
    GetTupleTypeSuffixes(b);
    ParseSuffixesInverse(Elems(a));
    ParseSuffixesInverse(Elems(b));
  }

  /** Names of concatenated specs are concatenated names. */
  lemma {:induction false} GetTupleTypeAppend(a: seq<string>, b: seq<string>)
    ensures GetTupleType(a + b) == GetTupleType(a) + GetTupleType(b)
    decreases |a|
  {
    if a == [] {
      assert a + b == b;
    } else {
      assert (a + b)[0] == a[0];
      assert (a + b)[1..] == a[1..] + b;
      GetTupleTypeAppend(a[1..], b);
    }
  }

  /**
   * What one element adds to a struct name under the suffix table `suffix`:
   * the stripped element, replaced by its suffix when it is a known type,
   * title-cased when longer than one character.
   */
  function StructPartWith(suffix: map<string, string>, p: string): (part: string)
    ensures |part| > 0 ==> |part| > 1
  {
    var t := Strip(p);
    var name := if t in suffix then suffix[t] else t;
    if |name| > 1 then Title(name) else ""
  }

  /** The parts of the elements of `pp` under `part`, concatenated in order. */
  function Joined(part: string -> string, pp: seq<string>): string
    decreases |pp|
  {
    if pp == [] then "" else part(pp[0]) + Joined(part, pp[1..])
  }

  lemma {:induction false} JoinedAppend(part: string -> string, a: seq<string>, b: seq<string>)
    ensures Joined(part, a + b) == Joined(part, a) + Joined(part, b)
    decreases |a|
  {
    if a == [] {
      assert a + b == b;
    } else {
      assert (a + b)[0] == a[0];
      assert (a + b)[1..] == a[1..] + b;
      JoinedAppend(part, a[1..], b);
    }
  }

  function PartOf(suffix: map<string, string>): string -> string {
    p => StructPartWith(suffix, p)
  }

  function PartsWith(suffix: map<string, string>, pp: seq<string>): string {
    Joined(PartOf(suffix), pp)
  }

  /** `SwmTuple` followed by a part per element. */
  function CStructWith(suffix: map<string, string>, pp: seq<string>): (s: string)
    ensures |s| >= 8 && s[..8] == "SwmTuple"
  {
    "SwmTuple" + PartsWith(suffix, pp)
  }

  /** `c_struct`, which reads the `type_suffix` table. */
  function CStruct(pp: seq<string>): (s: string)
    ensures |s| >= 8 && s[..8] == "SwmTuple"
  {
    CStructWith(TypeSuffix, pp)
  }

  /** The struct name of concatenated specs is built from the parts of each, in order. */
  lemma PartsAppend(suffix: map<string, string>, a: seq<string>, b: seq<string>)
    ensures PartsWith(suffix, a + b) == PartsWith(suffix, a) + PartsWith(suffix, b)
  {
    JoinedAppend(PartOf(suffix), a, b);
  }

  /** A known type contributes its title-cased suffix, whatever whitespace surrounds it. */
  lemma {:induction false} StructPartOfKnown(suffix: map<string, string>, lead: string, k: string, trail: string)
    requires k in suffix && Trimmed(k) && |suffix[k]| > 1
    requires AllSpace(lead) && AllSpace(trail)
    ensures StructPartWith(suffix, lead + k + trail) == Title(suffix[k])
  {
    StripPadded(lead, k, trail);
  }

  lemma {:induction false} StructPartOfTrimmed(suffix: map<string, string>, k: string)
    requires k in suffix && Trimmed(k) && |suffix[k]| > 1
    ensures StructPartWith(suffix, k) == Title(suffix[k])
  {
    StructPartOfKnown(suffix, "", k, "");
    assert "" + k + "" == k;
  }

  /** An element that is not a type spec contributes itself, title-cased, when longer than one character. */
  lemma {:induction false} StructPartOfUnknown(suffix: map<string, string>, p: string)
    requires Trimmed(p) && p !in suffix && |p| > 1
    ensures StructPartWith(suffix, p) == Title(p)
  {
    StripPadded("", p, "");
    assert "" + p + "" == p;
  }

  /** An element of at most one character contributes nothing, since every known type is longer. */
  lemma StructPartShort(suffix: map<string, string>, p: string)
    requires forall k | k in suffix :: |k| > 1
    requires |Strip(p)| <= 1
    ensures StructPartWith(suffix, p) == ""
  {
  }

  /** The type specs of `type_suffix` are trimmed, longer than one character, and map to longer suffixes. */
  lemma TypeSuffixWellFormed(k: string)
    requires k in TypeSuffix
    ensures Trimmed(k) && |k| > 1 && |TypeSuffix[k]| > 1
  {
    KnownSpec(k);
  }

  /** A two-element spec of known types names the struct after both suffixes, in order. */
  lemma {:induction false} CStructOfKnownPair(suffix: map<string, string>, a: string, b: string)
    requires a in suffix && Trimmed(a) && |suffix[a]| > 1
    requires b in suffix && Trimmed(b) && |suffix[b]| > 1
    ensures CStructWith(suffix, [a, b]) == "SwmTuple" + (Title(suffix[a]) + Title(suffix[b]))
  {
    PartsPair(suffix, a, b);
    StructPartOfTrimmed(suffix, a);
    StructPartOfTrimmed(suffix, b);
  }

  lemma JoinedPair(part: string -> string, a: string, b: string)
    ensures Joined(part, [a, b]) == part(a) + part(b)
  {
    assert [a, b] == [a] + [b];
    JoinedAppend(part, [a], [b]);
    assert Joined(part, [a]) == part(a) + Joined(part, []);
    assert Joined(part, [b]) == part(b) + Joined(part, []);
  }

  lemma PartsPair(suffix: map<string, string>, a: string, b: string)
    ensures PartsWith(suffix, [a, b]) == StructPartWith(suffix, a) + StructPartWith(suffix, b)
  {
    JoinedPair(PartOf(suffix), a, b);
  }

  lemma TitleSuffixes()
    ensures Title("atom") == "Atom" && Title("str") == "Str"
  {
    TitleAt("atom");
    TitleAt("str");
  }

  /** `{atom(), string()}` gives the tuple type `_atom_str`. */
  lemma {:induction false} GetTupleTypePair(a: string, b: string)
    ensures GetTupleType([a, b]) == TupleSuffix(a) + TupleSuffix(b)
  {
    var pp := [a, b];
    assert pp[0] == a && pp[1..] == [b];
    assert [b][0] == b && [b][1..] == [];
    assert GetTupleType([b]) == TupleSuffix(b) + GetTupleType([]);
  }

  lemma {:induction false} TupleSuffixOfTrimmed(p: string)
    requires Trimmed(p)
    ensures TupleSuffix(p) == match Recognize(p) case Some(e) => ElemSuffix(e) case None => ""
    ensures Recognize(p) == if p == "atom()" then Some(AtomElem) else if p == "string()" then Some(StrElem)
                            else if p == "any()" then Some(AnyElem) else None
  {
    StripPadded("", p, "");
    assert "" + p + "" == p;
  }

  /** `{atom(), string()}` gives the tuple type `_atom_str`. */
  lemma {:induction false} AtomStringTupleType(a: string, b: string)
    requires a == "atom()" && b == "string()"
    ensures GetTupleType([a, b]) == "_atom_str"
  {
    AtomStringTrimmed(a, b);
    GetTupleTypePair(a, b);
    TupleSuffixOfTrimmed(a);
    TupleSuffixOfTrimmed(b);
    assert TupleSuffix(a) == "_atom" && TupleSuffix(b) == "_str";
    AtomStrJoined();
  }

  lemma AtomStrJoined()
    ensures "_atom" + "_str" == "_atom_str"
  {
  }

  lemma AtomStringTrimmed(a: string, b: string)
    requires a == "atom()" && b == "string()"
    ensures Trimmed(a) && Trimmed(b)
  {
    assert a[0] == 'a' && a[|a| - 1] == ')';
    assert b[0] == 's' && b[|b| - 1] == ')';
  }

  lemma AtomStringSuffixes(a: string, b: string)
    requires a == "atom()" && b == "string()"
    ensures a in TypeSuffix && TypeSuffix[a] == "atom"
    ensures b in TypeSuffix && TypeSuffix[b] == "str"
  {
  }

  /** `{atom(), string()}` gives the struct `SwmTupleAtomStr`. */
  lemma {:induction false} AtomStringStruct(a: string, b: string)
    requires a == "atom()" && b == "string()"
    ensures CStruct([a, b]) == "SwmTupleAtomStr"
  {
    AtomStringSuffixes(a, b);
    TypeSuffixWellFormed(a);
    TypeSuffixWellFormed(b);
    CStructOfKnownPair(TypeSuffix, a, b);
    TitleSuffixes();
  }
}
