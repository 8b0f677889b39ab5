/**
 * Variant names turned into the selectors or at-rules a style is nested
 * under (`stringifyScreen`, `validateVariants`, macro.js:2312-2381): a screen
 * name becomes a media query, a built-in variant its pseudo-selector.
 */
module Variants {
  import opened Wrappers
  import opened Strings
  import opened Json
  import opened Tables
  import opened Diagnostics
  import opened Context

  /** The entries of `theme.screens`, in enumeration order (none when it is not an object). */
  function Screens(theme: Value): Entries {
    match Prop(theme, "screens")
    case Some(v) => if IsObjectLike(v) then JsEntries(v) else []
    case None => []
  }

  function ScreenNames(theme: Value): seq<string> {
    Keys(Screens(theme))
  }

  /** The media features of a range's bounds. */
  function MinWidth(w: string): string {
    "(min-width: " + w + ")"
  }

  function MaxWidth(w: string): string {
    "(max-width: " + w + ")"
  }

  /** One `{min, max}` range: its string bounds as media features joined by " and ". */
  function RangeText(range: Value): string {
    var min := Prop(range, "min");
    var max := Prop(range, "max");
    Join(NonEmpty([
      if min.Some? && min.value.Str? then MinWidth(min.value.s) else "",
      if max.Some? && max.value.Str? then MaxWidth(max.value.s) else ""]), " and ")
  }

  function RangesText(ranges: seq<Value>): string {
    Join(seq(|ranges|, i requires 0 <= i < |ranges| => RangeText(ranges[i])), ", ")
  }

  /**
   * `stringifyScreen` (macro.js:2312-2329): a string is a minimum width, a
   * `raw` string is used as it is, otherwise the ranges (one, or an array)
   * are joined by ", "; no range text gives no at-rule at all.
   */
  function StringifyScreen(screen: Value): (r: string)
    ensures screen.Str? ==> r == "@media (min-width: " + screen.s + ")"
    ensures !screen.Str? && Prop(screen, "raw").Some? && Prop(screen, "raw").value.Str? ==>
      r == "@media " + Prop(screen, "raw").value.s
    ensures r == "" || StartsWith(r, "@media ")
  {
    var raw := Prop(screen, "raw");
    if screen.Str? then "@media (min-width: " + screen.s + ")"
    else if raw.Some? && raw.value.Str? then "@media " + raw.value.s
    else
      var text := RangesText(if screen.Arr? then screen.items else [screen]);
      if text == "" then "" else "@media " + text
  }

  /** A range with a string `min` and a string `max` gives both media features, joined by " and ". */
  lemma RangeBothBounds(range: Value, min: string, max: string)
    requires Prop(range, "min") == Some(Str(min)) && Prop(range, "max") == Some(Str(max))
    ensures RangeText(range) == MinWidth(min) + " and " + MaxWidth(max)
  {
    assert |MinWidth(min)| > 0 && |MaxWidth(max)| > 0;
    JoinNonEmptyPair(MinWidth(min), MaxWidth(max), " and ");
  }

  /**
   * A screen given as an array of ranges (none of them empty) is one media
   * query listing the ranges in order, separated by ", ".
   */
  lemma ScreenOfRanges(ranges: seq<Value>)
    requires |ranges| > 0 && forall i :: 0 <= i < |ranges| ==> RangeText(ranges[i]) != ""
    ensures StringifyScreen(Arr(ranges)) == "@media " + RangesText(ranges)
  {
    assert Prop(Arr(ranges), "raw") == None by {
      IndexKeysAreNumerals(ranges);
    }
    JoinNonEmpty(seq(|ranges|, i requires 0 <= i < |ranges| => RangeText(ranges[i])), ", ");
  }

  /** The keys of an array's entries are its indices, so never "raw". */
  lemma IndexKeysAreNumerals(items: seq<Value>)
    ensures "raw" !in Keys(IndexedEntries(items))
  {
    forall i | 0 <= i < |items| ensures Keys(IndexedEntries(items))[i] != "raw" {
      NumeralsAreDigits(i);
      assert Keys(IndexedEntries(items))[i] == NatToString(i);
    }
  }

  /** A numeral does not start with the letter 'r'. */
  lemma NumeralsAreDigits(n: nat)
    ensures NatToString(n)[0] != 'r'
    decreases n
  {
    if n >= 10 {
      NumeralsAreDigits(n / 10);
    }
  }

  /**
   * The `sassyPseudo` rewrite (macro.js:2368-2370): every ':' at the start
   * or after a space becomes "&:".  `boundary` says whether the previous
   * character was a space (or there was none).
   */
  function SassyFrom(s: string, boundary: bool): (r: string)
    ensures |r| >= |s|
  {
    if |s| == 0 then ""
    else (if s[0] == ':' && boundary then "&:" else [s[0]]) + SassyFrom(s[1..], s[0] == ' ')
  }

  function Sassy(s: string): string {
    SassyFrom(s, true)
  }

  /** A text without a colon is left alone. */
  lemma {:induction false} SassyWithoutColon(s: string, boundary: bool)
    requires ':' !in s
    ensures SassyFrom(s, boundary) == s
  {
    if |s| > 0 {
      assert ':' !in s[1..] by {
        assert forall c :: c in s[1..] ==> c in s;
      }
      SassyWithoutColon(s[1..], s[0] == ' ');
    }
  }

  /** One step of the rewrite. */
  lemma SassyCons(c: char, t: string, boundary: bool)
    ensures SassyFrom([c] + t, boundary) == (if c == ':' && boundary then "&:" else [c]) + SassyFrom(t, c == ' ')
  {
    assert ([c] + t)[0] == c;
    assert ([c] + t)[1..] == t;
  }

  /** The rewrite is idempotent: an inserted '&' stands before the colon, so that colon no longer qualifies. */
  lemma {:induction false} SassyIdempotent(s: string, boundary: bool)
    ensures SassyFrom(SassyFrom(s, boundary), boundary) == SassyFrom(s, boundary)
  {
    if |s| > 0 {
      HeadTail(s);
      SassyIdempotent(s[1..], s[0] == ' ');
      SassyStep(s[0], s[1..], boundary);
    }
  }

  /** One character more keeps the rewrite idempotent. */
  lemma SassyStep(c: char, t: string, boundary: bool)
    requires SassyFrom(SassyFrom(t, c == ' '), c == ' ') == SassyFrom(t, c == ' ')
    ensures SassyFrom(SassyFrom([c] + t, boundary), boundary) == SassyFrom([c] + t, boundary)
  {
    var rest := SassyFrom(t, c == ' ');
    SassyCons(c, t, boundary);
    if c == ':' && boundary {
      SassyColonStep(rest, boundary);
    } else {
      SassyCons(c, rest, boundary);
    }
  }

  /** A rewritten colon is not rewritten again: the '&' before it is no boundary. */
  lemma SassyColonStep(rest: string, boundary: bool)
    requires SassyFrom(rest, false) == rest
    ensures SassyFrom("&:" + rest, boundary) == "&:" + rest
  {
    SassyCons(':', rest, false);
    assert "&:" + rest == ['&'] + (":" + rest);
    SassyCons('&', ":" + rest, boundary);
  }

  /** The built-in variant names that exist. */
  predicate IsBuiltIn(state: State, name: string) {
    Lookup(state.variants, name).Some?
  }

  predicate IsKnownVariant(state: State, name: string) {
    name in ScreenNames(state.theme) || IsBuiltIn(state, name)
  }

  /** The menu an unknown variant reports: the screen names (when there are any) and the built-ins. */
  function VariantMenu(state: State): seq<(string, seq<string>)> {
    (if |ScreenNames(state.theme)| > 0 then [("Screen breakpoints", ScreenNames(state.theme))] else [])
    + [("Built-in variants", TableKeys(state.variants))]
  }

  /** One variant: a screen first, then the built-ins; anything else is an error. */
  function RenderVariant(state: State, name: string): (r: Result<string, Error>)
    ensures r.Success? <==> IsKnownVariant(state, name)
    ensures r.Failure? ==> r.error == UnknownVariant(name, VariantMenu(state))
    ensures name in ScreenNames(state.theme) ==>
      r == Success(StringifyScreen(Get(Screens(state.theme), name).value))
    ensures name !in ScreenNames(state.theme) && Lookup(state.variants, name).Some? ==>
      r == Success(if state.sassyPseudo then Sassy(Lookup(state.variants, name).value) else Lookup(state.variants, name).value)
  {
    if name in ScreenNames(state.theme) then Success(StringifyScreen(Get(Screens(state.theme), name).value))
    else match Lookup(state.variants, name)
      case Some(v) => Success(if state.sassyPseudo then Sassy(v) else v)
      case None => Failure(UnknownVariant(name, VariantMenu(state)))
  }

  /** `names[i]` is the first name that is neither a screen nor a built-in variant. */
  predicate FirstUnknown(state: State, names: seq<string>, i: int) {
    0 <= i < |names| && !IsKnownVariant(state, names[i])
    && forall j :: 0 <= j < i ==> IsKnownVariant(state, names[j])
  }

  /** The variants rendered in order; the first unknown one is the error. */
  function RenderVariants(state: State, names: seq<string>): (r: Result<seq<string>, Error>)
    ensures r.Success? <==> forall i :: 0 <= i < |names| ==> IsKnownVariant(state, names[i])
    ensures r.Success? ==> |r.value| == |names|
    ensures r.Success? ==> forall i :: 0 <= i < |names| ==> RenderVariant(state, names[i]) == Success(r.value[i])
    ensures r.Failure? ==>
      exists i :: FirstUnknown(state, names, i) && r.error == UnknownVariant(names[i], VariantMenu(state))
  {
    if |names| == 0 then Success([])
    else
      match RenderVariant(state, names[0])
      case Failure(e) =>
        assert FirstUnknown(state, names, 0);
        Failure(e)
      case Success(first) =>
        match RenderVariants(state, names[1..])
        case Failure(e) =>
          var i :| FirstUnknown(state, names[1..], i)
            && e == UnknownVariant(names[1..][i], VariantMenu(state));
          assert names[i + 1] == names[1..][i];
          assert FirstUnknown(state, names, i + 1);
          Failure(e)
        case Success(rest) =>
          ConsPointwise(names, n => RenderVariant(state, n), Success(first),
            seq(|rest|, i requires 0 <= i < |rest| => Success(rest[i])));
          assert forall i :: 0 < i < |names| ==> ([first] + rest)[i] == rest[i - 1];
          Success([first] + rest)
  }

  /** A first image followed by the images of the rest is the image of the whole sequence. */
  lemma ConsPointwise<A, B>(xs: seq<A>, f: A -> B, first: B, rest: seq<B>)
    requires |xs| > 0 && f(xs[0]) == first && |rest| == |xs| - 1
    requires forall i :: 0 <= i < |rest| ==> f(xs[1..][i]) == rest[i]
    ensures forall i :: 0 <= i < |xs| ==> f(xs[i]) == ([first] + rest)[i]
  {
    forall i | 1 <= i < |xs| ensures f(xs[i]) == ([first] + rest)[i] {
      assert xs[i] == xs[1..][i - 1];
    }
  }

  /** `validateVariants` (macro.js:2351-2381): the rendered variants without the empty ones. */
  function ValidateVariants(state: State, names: seq<string>): (r: Result<seq<string>, Error>)
    ensures r.Success? <==> forall i :: 0 <= i < |names| ==> IsKnownVariant(state, names[i])
    ensures r.Success? ==> RenderVariants(state, names).Success? && r.value == NonEmpty(RenderVariants(state, names).value)
    ensures r.Success? ==> |r.value| <= |names| && forall v :: v in r.value ==> v != ""
  {
    var rendered :- RenderVariants(state, names);
    NonEmptyShrinks(rendered);
    Success(NonEmpty(rendered))
  }

  lemma {:induction false} NonEmptyShrinks(parts: seq<string>)
    ensures |NonEmpty(parts)| <= |parts|
  {
    if |parts| > 0 {
      NonEmptyShrinks(parts[1..]);
    }
  }

  predicate AllSelectorsNonEmpty(t: seq<(string, string)>) {
    forall i :: 0 <= i < |t| ==> t[i].1 != ""
  }

  lemma {:induction false} LookupNonEmpty(t: seq<(string, string)>, k: string)
    requires AllSelectorsNonEmpty(t)
    ensures Lookup(t, k).Some? ==> Lookup(t, k).value != ""
  {
    if |t| > 0 && t[0].0 != k {
      LookupNonEmpty(t[1..], k);
    }
  }

  /** The built-in table maps every name to a non-empty selector. */
  lemma VariantSelectorsNonEmpty()
    ensures AllSelectorsNonEmpty(VariantTable())
  {
  }

  /** Every built-in variant renders to a non-empty selector, with or without the rewrite. */
  lemma BuiltInsRenderNonEmpty(state: State, name: string)
    requires state.variants == VariantTable()
    ensures IsBuiltIn(state, name) && name !in ScreenNames(state.theme) ==>
      RenderVariant(state, name).Success? && RenderVariant(state, name).value != ""
  {
    VariantSelectorsNonEmpty();
    LookupNonEmpty(VariantTable(), name);
  }

  /** Rewriting a concatenation whose first part has no colon and does not end in a space. */
  lemma {:induction false} SassyAppend(a: string, b: string)
    requires ':' !in a && |a| > 0 && a[|a| - 1] != ' '
    ensures forall boundary :: SassyFrom(a + b, boundary) == a + SassyFrom(b, false)
  {
    forall boundary ensures SassyFrom(a + b, boundary) == a + SassyFrom(b, false) {
      assert a + b == [a[0]] + (a[1..] + b);
      SassyCons(a[0], a[1..] + b, boundary);
      if |a| == 1 {
        assert a[1..] + b == b;
      } else {
        assert ':' !in a[1..] by {
          assert forall c :: c in a[1..] ==> c in a;
        }
        SassyAppend(a[1..], b);
      }
    }
  }
}
