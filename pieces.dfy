/**
 * One raw class split into its pieces (`splitVariants`, `splitNegative`,
 * `splitImportant`, `getPieces`, macro.js:2387-2499): the variant prefixes,
 * a leading '-' and a trailing '!' come off, in that order.
 */
module Pieces {
  import opened Wrappers
  import opened Strings
  import opened Json
  import opened Diagnostics
  import opened Context
  import opened Variants

  /** The characters of a variant prefix: `[_a-z-]`. */
  predicate IsVariantChar(c: char) {
    c == '_' || c == '-' || ('a' <= c <= 'z')
  }

  /** `s.match(/^([_a-z-]+):/)`: the length of the prefix name when `s` starts with one. */
  function VariantPrefix(s: string): (r: Option<nat>)
    ensures r.Some? ==> 0 < r.value < |s| && s[r.value] == ':'
  {
    var n := RunLength(s, IsVariantChar);
    if 0 < n < |s| && s[n] == ':' then Some(n) else None
  }

  /** The prefix names, in order, and the class that remains once no prefix is left. */
  function SplitVariantNames(s: string): (r: (seq<string>, string))
    ensures VariantPrefix(r.1).None?
    decreases |s|
  {
    match VariantPrefix(s)
    case None => ([], s)
    case Some(n) =>
      var rest := SplitVariantNames(s[n + 1..]);
      ([s[..n]] + rest.0, rest.1)
  }

  predicate IsVariantName(name: string) {
    name != [] && forall j :: 0 <= j < |name| ==> IsVariantChar(name[j])
  }

  /** Every name split off is a non-empty run of `[_a-z-]`. */
  lemma {:induction false} SplitVariantNamesShape(s: string)
    ensures forall name :: name in SplitVariantNames(s).0 ==> IsVariantName(name)
    decreases |s|
  {
    match VariantPrefix(s)
    case None =>
    case Some(n) =>
      var rest := SplitVariantNames(s[n + 1..]);
      SplitVariantNamesShape(s[n + 1..]);
      assert n == RunLength(s, IsVariantChar);
      assert IsVariantName(s[..n]);
      assert SplitVariantNames(s).0 == [s[..n]] + rest.0;
  }

  /** The names with their ':' put back, in order. */
  function Prefixes(names: seq<string>): string {
    if |names| == 0 then "" else names[0] + ":" + Prefixes(names[1..])
  }

  lemma PrefixesCons(name: string, names: seq<string>)
    ensures Prefixes([name] + names) == name + ":" + Prefixes(names)
  {
    assert ([name] + names)[1..] == names;
  }

  lemma ColonSplit(s: string, n: nat)
    requires n < |s| && s[n] == ':'
    ensures s == s[..n] + ":" + s[n + 1..]
  {
  }

  /** The split loses nothing: the prefixes and the remainder make up the raw class again. */
  lemma {:induction false} SplitVariantNamesRebuilds(s: string)
    ensures Prefixes(SplitVariantNames(s).0) + SplitVariantNames(s).1 == s
    decreases |s|
  {
    match VariantPrefix(s)
    case None =>
    case Some(n) =>
      var rest := SplitVariantNames(s[n + 1..]);
      assert SplitVariantNames(s) == ([s[..n]] + rest.0, rest.1);
      SplitVariantNamesRebuilds(s[n + 1..]);
      PrefixesCons(s[..n], rest.0);
      RegroupColon(s[..n], Prefixes(rest.0), rest.1);
      ColonSplit(s, n);
  }

  lemma RegroupColon(p: string, q: string, r: string)
    ensures (p + ":" + q) + r == p + ":" + (q + r)
  {
  }

  /**
   * The loop of `splitVariants` (macro.js:2393-2402): prefixes come off one
   * at a time until none is left.
   */
  method SplitVariants(classNameRaw: string) returns (variantsList: seq<string>, className: string)
    ensures (variantsList, className) == SplitVariantNames(classNameRaw)
  {
    variantsList := [];
    className := classNameRaw;
    var done := false;
    assert variantsList + SplitVariantNames(className).0 == SplitVariantNames(className).0;
    while !done
      invariant SplitVariantNames(classNameRaw) ==
        (variantsList + SplitVariantNames(className).0, SplitVariantNames(className).1)
      invariant done ==> VariantPrefix(className).None?
      decreases |className|, if done then 0 else 1
    {
      var variant := VariantPrefix(className);
      if variant.Some? {
        var n := variant.value;
        var rest := SplitVariantNames(className[n + 1..]);
        assert SplitVariantNames(className) == ([className[..n]] + rest.0, rest.1);
        assert variantsList + ([className[..n]] + rest.0) == (variantsList + [className[..n]]) + rest.0;
        variantsList := variantsList + [className[..n]];
        className := className[n + 1..];
      } else {
        done := true;
      }
    }
    assert SplitVariantNames(className) == ([], className);
    assert variantsList + [] == variantsList;
  }

  /** `splitNegative` (macro.js:2476-2491): a leading '-' comes off. */
  function SplitNegative(s: string): (r: (string, bool))
    ensures r.1 <==> |s| > 0 && s[0] == '-'
    ensures (if r.1 then "-" else "") + r.0 == s
  {
    if |s| > 0 && s[0] == '-' then (s[1..], true) else (s, false)
  }

  /** `splitImportant` (macro.js:2455-2471): a trailing '!' comes off. */
  function SplitImportant(s: string): (r: (string, bool))
    ensures r.1 <==> |s| > 0 && s[|s| - 1] == '!'
    ensures r.0 + (if r.1 then "!" else "") == s
  {
    if |s| > 0 && s[|s| - 1] == '!' then (s[..|s| - 1], true) else (s, false)
  }

  /** The pieces of one raw class. */
  datatype Pieces = Pieces(
    classNameRaw: string,
    classNameRawNoVariants: string,
    className: string,
    variants: seq<string>,
    hasVariants: bool,
    hasNegative: bool,
    negative: string,
    hasImportant: bool,
    important: string)

  /**
   * `getPieces` (macro.js:2494-2499): variants first (validated, so an
   * unknown one is an error), then the negative, then the important.
   */
  function GetPieces(state: State, classNameRaw: string): (r: Result<Pieces, Error>)
    ensures r.Success? <==> forall v :: v in SplitVariantNames(classNameRaw).0 ==> IsKnownVariant(state, v)
  {
    var split := SplitVariantNames(classNameRaw);
    assert (forall v :: v in split.0 ==> IsKnownVariant(state, v))
      <==> (forall i :: 0 <= i < |split.0| ==> IsKnownVariant(state, split.0[i]));
    var variants :- ValidateVariants(state, split.0);
    Success(Assemble(classNameRaw, split.1, variants))
  }

  /** The pieces once the variants are rendered: the negative comes off first, then the important. */
  function Assemble(classNameRaw: string, rest: string, variants: seq<string>): (p: Pieces)
    ensures p.classNameRaw == classNameRaw && p.classNameRawNoVariants == rest && p.variants == variants
    ensures p.negative + p.className + (if p.hasImportant then "!" else "") == rest
    ensures p.hasNegative <==> |rest| > 0 && rest[0] == '-'
    ensures p.hasImportant <==> |rest| > (if p.hasNegative then 1 else 0) && rest[|rest| - 1] == '!'
    ensures p.hasVariants <==> |variants| > 0
    ensures p.negative == (if p.hasNegative then "-" else "")
    ensures p.important == (if p.hasImportant then " !important" else "")
  {
    var negative := SplitNegative(rest);
    var important := SplitImportant(negative.0);
    var p := Pieces(
      classNameRaw,
      rest,
      important.0,
      variants,
      |variants| > 0,
      negative.1,
      if negative.1 then "-" else "",
      important.1,
      if important.1 then " !important" else "");
    assert p.negative + p.className + (if p.hasImportant then "!" else "")
      == p.negative + (p.className + (if p.hasImportant then "!" else ""));
    p
  }

  lemma GetPiecesAssembles(state: State, classNameRaw: string)
    requires GetPieces(state, classNameRaw).Success?
    ensures ValidateVariants(state, SplitVariantNames(classNameRaw).0).Success?
    ensures GetPieces(state, classNameRaw).value == Assemble(classNameRaw, SplitVariantNames(classNameRaw).1,
      ValidateVariants(state, SplitVariantNames(classNameRaw).0).value)
  {
  }

  /** The pieces put back together give the raw class. */
  lemma GetPiecesRebuilds(state: State, classNameRaw: string)
    requires GetPieces(state, classNameRaw).Success?
    ensures var p := GetPieces(state, classNameRaw).value;
      Prefixes(SplitVariantNames(classNameRaw).0) + p.negative + p.className + (if p.hasImportant then "!" else "")
        == classNameRaw
  {
    var p := GetPieces(state, classNameRaw).value;
    GetPiecesAssembles(state, classNameRaw);
    SplitVariantNamesRebuilds(classNameRaw);
    AppendAssociates(Prefixes(SplitVariantNames(classNameRaw).0), p.negative, p.className,
      if p.hasImportant then "!" else "");
  }

  lemma AppendAssociates(a: string, b: string, c: string, d: string)
    ensures a + b + c + d == a + (b + c + d)
  {
  }

  /**
   * Stripping takes one negative and one important only: the class "--m-1!!"
   * leaves a class that still starts with '-' and ends with '!'.
   */
  lemma StrippingTakesOneMarkEach(state: State, body: string)
    requires VariantPrefix("--" + body + "!!").None?
    ensures GetPieces(state, "--" + body + "!!").Success?
    ensures GetPieces(state, "--" + body + "!!").value.className == "-" + body + "!"
  {
    var s := "--" + body + "!!";
    assert SplitVariantNames(s) == ([], s);
    assert SplitNegative(s) == ("-" + body + "!!", true) by {
      assert s[1..] == "-" + body + "!!";
    }
    var t := "-" + body + "!!";
    assert SplitImportant(t) == ("-" + body + "!", true) by {
      assert t[..|t| - 1] == "-" + body + "!";
    }
  }
}
