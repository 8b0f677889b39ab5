/**
 * The resolution of a whole class list (`orderByScreens` and `getStyles`,
 * macro.js:2331-2345 and 3273-3357): the list is split into classes, the
 * responsive ones are moved after the rest in screen order, and each class in
 * turn is resolved to a style fragment that is deep-merged into the result,
 * under its variants when it has any.  The first error ends the resolution.
 */
module Engine {
  import opened Wrappers
  import opened Strings
  import opened Json
  import opened Tables
  import opened Diagnostics
  import opened Context
  import opened Sorting
  import opened Merge
  import opened Classify
  import opened Modifiers
  import opened Pieces
  import opened Suggestions
  import opened Handlers
  import opened CorePlugins
  import opened UserPlugins

  // ---------------------------------------------------------------- ordering

  /** The screen a class names: the text before its first ':', or the whole class. */
  function ScreenKey(a: string): (r: string)
    ensures |r| <= |a| && r == a[..|r|]
    ensures forall i :: 0 <= i < |r| ==> r[i] != ':'
    ensures |r| < |a| ==> a[|r|] == ':'
    ensures |r| == |a| ==> forall i :: 0 <= i < |a| ==> a[i] != ':'
  {
    IndexOfIsFirst(a, ":");
    match IndexOf(a, ":")
    case Some(i) =>
      forall j | 0 <= j < i ensures a[j] != ':' {
        assert !OccursAt(a, ":", j);
        assert a[j..j + 1] == [a[j]];
      }
      assert OccursAt(a, ":", i) && a[i..i + 1] == [a[i]];
      a[..i]
    case None =>
      forall j | 0 <= j < |a| ensures a[j] != ':' {
        assert !OccursAt(a, ":", j);
        assert a[j..j + 1] == [a[j]];
      }
      a
  }

  /** `xs.indexOf(x)`: the first position of `x`, or -1. */
  function Position(xs: seq<string>, x: string): (r: int)
    ensures -1 <= r < |xs|
    ensures r == -1 <==> x !in xs
    ensures r >= 0 ==> xs[r] == x && forall j :: 0 <= j < r ==> xs[j] != x
    decreases |xs|
  {
    if |xs| == 0 then -1
    else if xs[0] == x then 0
    else
      var p := Position(xs[1..], x);
      assert x in xs[1..] ==> x in xs;
      assert x in xs ==> x == xs[0] || x in xs[1..];
      if p == -1 then -1 else p + 1
  }

  /** The rank `screenCompare` orders by: the position of the class's screen, -1 when it names none. */
  function RankOf(screens: seq<string>): string -> real {
    a => Position(screens, ScreenKey(a)) as real
  }

  /** `Object.keys(theme.screens)`; reading the keys of a missing `screens` throws. */
  function Screens(state: State): (r: Result<seq<string>, Error>)
    ensures r.Failure? <==> Prop(state.theme, "screens").None?
    ensures r.Failure? ==> r.error == MissingThemeKey("screens")
  {
    match Prop(state.theme, "screens")
    case Some(v) => Success(Keys(JsEntries(v)))
    case None => Failure(MissingThemeKey("screens"))
  }

  /** The classes in screen order: a stable sort by rank. */
  function ScreenOrder(screens: seq<string>, words: seq<string>): seq<string> {
    SortBy(words, RankOf(screens))
  }

  /** The screen order holds the same classes, sorted by rank. */
  lemma ScreenOrderSortsAndPermutes(screens: seq<string>, words: seq<string>)
    ensures multiset(ScreenOrder(screens, words)) == multiset(words)
    ensures SortedBy(ScreenOrder(screens, words), RankOf(screens))
  {
    SortBySortsAndPermutes(words, RankOf(screens));
  }

  /** Classes that share a rank keep the order they were written in. */
  lemma SameScreenKeepsOrder(screens: seq<string>, words: seq<string>, rank: real)
    ensures WithKey(ScreenOrder(screens, words), RankOf(screens), rank) == WithKey(words, RankOf(screens), rank)
  {
    SortByIsStable(words, RankOf(screens), rank);
  }

  /** In any order sorted by rank, a class that names no screen precedes every class that names one. */
  lemma RankedScreenlessFirst(screens: seq<string>, ordered: seq<string>, i: nat, j: nat)
    requires SortedBy(ordered, RankOf(screens)) && i < |ordered| && j < |ordered|
    requires ScreenKey(ordered[i]) !in screens && ScreenKey(ordered[j]) in screens
    ensures i < j
  {
    var key := RankOf(screens);
    var a, b := ordered[i], ordered[j];
    assert key(a) == -1.0 && key(b) >= 0.0;
  }

  /** In the screen order, a class that names no screen comes before every class that names one. */
  lemma ScreenlessFirst(screens: seq<string>, words: seq<string>, i: nat, j: nat)
    requires i < |ScreenOrder(screens, words)| && j < |ScreenOrder(screens, words)|
    requires ScreenKey(ScreenOrder(screens, words)[i]) !in screens
    requires ScreenKey(ScreenOrder(screens, words)[j]) in screens
    ensures i < j
  {
    ScreenOrderSortsAndPermutes(screens, words);
    RankedScreenlessFirst(screens, ScreenOrder(screens, words), i, j);
  }

  /** The classes of a list (its pipe dividers removed) in the order `orderByScreens` gives them. */
  function OrderedClasses(state: State, classes: string): (r: Result<seq<string>, Error>)
    ensures r.Failure? <==> Screens(state).Failure?
    ensures r.Success? ==> r.value == ScreenOrder(Screens(state).value, Words(StripPipes(classes)))
  {
    var screens :- Screens(state);
    Success(ScreenOrder(screens, Words(StripPipes(classes))))
  }

  /**
   * `orderByScreens`: the classes are placed in an array and sorted there.
   * The classes that name no screen come first, then those of each screen in
   * the order of the theme's screens; within a rank the input order stays.
   */
  method OrderByScreens(state: State, classes: string) returns (r: Result<seq<string>, Error>)
    ensures r == OrderedClasses(state, classes)
  {
    var screens := Screens(state);
    if screens.Failure? {
      return Failure(screens.error);
    }
    var words := Words(StripPipes(classes));
    var a := new string[|words|](i requires 0 <= i < |words| => words[i]);
    assert a[..] == words;
    SortInPlace(a, RankOf(screens.value));
    assert a[..] == ScreenOrder(screens.value, words);
    return Success(a[..]);
  }

  // ---------------------------------------------------------- one class

  /**
   * The style a handler gives a class that matched the engine's tables: the
   * static table's output, the dynamic handler's style or the core plugin's.
   */
  function HandlerStyle(state: State, pieces: Pieces, props: Properties): (r: Result<Option<Entries>, Error>)
    requires props.kind == Dynamic ==> props.dynamicConfig.Some?
    ensures props.kind == Static ==> r == Success(HandleStatic(state.statics, pieces.className))
    ensures props.kind.CorePlugin? && r.Failure? ==> CallPlugin(props.kind.plugin, state, pieces, props.dynamicKey).Failure?
    ensures r.Success? && r.value.Some? ==> !props.kind.Unmatched?
  {
    match props.kind
    case Static => Success(HandleStatic(state.statics, pieces.className))
    case Dynamic =>
      var s :- HandleDynamic(state, pieces, props.dynamicKey, props.dynamicConfig.value);
      Success(Some(s))
    case CorePlugin(plugin) =>
      var s :- CallPlugin(plugin, state, pieces, props.dynamicKey);
      Success(Some(s))
    case Unmatched => Success(None)
  }

  /**
   * The style of a class once its pieces are known (the body of the `reduce`
   * in `getStyles` after `getPieces`, up to the merge).  A class with no name
   * left once its variants and marks are off is refused; a class that
   * matches neither the tables nor a user plugin is "not found".  A user
   * plugin's style takes precedence even over a matching table entry.  A
   * static entry with no output gives no style, which merges as nothing.
   */
  function PieceStyle(state: State, pieces: Pieces): (r: Result<Entries, Error>)
    ensures pieces.className == "" ==> r == Failure(EmptyClass(pieces.classNameRaw, pieces.hasVariants))
    ensures pieces.className != "" && state.plugins.None?
      && GetPropertiesIn(state.statics, state.dynamics, pieces.className).value.kind == Unmatched
      ==> r == Failure(ErrorSuggestions(state, pieces, None, ""))
  {
    if pieces.className == "" then Failure(EmptyClass(pieces.classNameRaw, pieces.hasVariants))
    else
      var props := GetPropertiesIn(state.statics, state.dynamics, pieces.className).value;
      var hasMatches := !props.kind.Unmatched?;
      if !hasMatches && state.plugins.None? then Failure(ErrorSuggestions(state, pieces, None, ""))
      else
        var userStyle :- UserPluginStyle(state.plugins, pieces.className);
        var style := ApplyTransforms(userStyle, props.kind, pieces.hasImportant);
        if !hasMatches && style.None? then Failure(ErrorSuggestions(state, pieces, None, ""))
        else if style.Some? then Success(style.value)
        else
          var handled :- HandlerStyle(state, pieces, props);
          Success(ApplyTransforms(handled, props.kind, pieces.hasImportant).GetOr([]))
  }

  /** What one class contributes: its pieces and its style, or the error that ends the list. */
  type Fragment = Result<(Pieces, Entries), Error>

  /** The fragment of one class: "group" is refused first, then unknown variants. */
  function ClassFragment(state: State, classNameRaw: string): (r: Fragment)
    ensures classNameRaw == "group" ==> r == Failure(GroupAsClass)
    ensures classNameRaw != "group" && GetPieces(state, classNameRaw).Failure? ==> r == Failure(GetPieces(state, classNameRaw).error)
    ensures r.Success? ==> GetPieces(state, classNameRaw) == Success(r.value.0)
    ensures r.Success? ==> r.value.0.classNameRaw == classNameRaw && r.value.0.className != ""
  {
    if classNameRaw == "group" then Failure(GroupAsClass)
    else
      var pieces :- GetPieces(state, classNameRaw);
      GetPiecesAssembles(state, classNameRaw);
      var style :- PieceStyle(state, pieces);
      Success((pieces, style))
  }

  /**
   * The merge of one fragment into the result: under the variants' path when
   * the class has variants, at the top otherwise.
   */
  function Combine(results: Entries, pieces: Pieces, style: Entries): (r: Entries)
    ensures DistinctKeys(results) ==> DistinctKeys(r)
  {
    if !pieces.hasVariants then DeepMerge(results, style)
    else if |pieces.variants| == 0 then results
    else DeepMerge(results, AddVariants(results, style, pieces.variants))
  }

  /** Without variants a fragment merges key by key into the result. */
  lemma CombineWithoutVariants(results: Entries, pieces: Pieces, style: Entries, k: string)
    requires !pieces.hasVariants && DistinctKeys(style)
    ensures Get(Combine(results, pieces, style), k) == MergeOpt(Get(results, k), Get(style, k))
  {
    DeepMergeGet(results, style, k);
  }

  /** With variants a fragment lands at the variants' path, merged with what was there. */
  lemma CombineWithVariants(results: Entries, pieces: Pieces, style: Entries)
    requires pieces.hasVariants && |pieces.variants| > 0
    requires DistinctAlong(results, pieces.variants) && DistinctKeys(style)
    ensures GetPath(Combine(results, pieces, style), pieces.variants)
      == Some(MergeAt(GetPath(results, pieces.variants), Obj(style)))
  {
    VariantStyleLandsAtPath(results, style, pieces.variants);
  }

  /** A class a user plugin styles takes the plugin's style, whatever the tables say. */
  lemma UserPluginWins(state: State, pieces: Pieces, style: Entries)
    requires pieces.className != "" && UserPluginStyle(state.plugins, pieces.className) == Success(Some(style))
    ensures var kind := GetPropertiesIn(state.statics, state.dynamics, pieces.className).value.kind;
      PieceStyle(state, pieces) == Success(ApplyTransforms(Some(style), kind, pieces.hasImportant).value)
  {
  }

  /** Without plugins a static class takes its table output, with the important mark when asked. */
  lemma StaticClassStyle(state: State, pieces: Pieces, output: Entries)
    requires state.plugins.None? && pieces.className != "" && IsStaticClass(state.statics, pieces.className)
    requires HandleStatic(state.statics, pieces.className) == Some(output)
    ensures PieceStyle(state, pieces) == Success(MergeImportant(output, pieces.hasImportant))
  {
  }

  // ---------------------------------------------------------------- the list

  /**
   * The `reduce` of `getStyles` from a partial result, over the fragments of
   * the classes in order: each is merged in turn, and the first error ends
   * the fold.  (The source computes no fragment after an error; as no
   * fragment depends on another, the outcome is the same.)
   */
  function MergeFragments(results: Entries, fragments: seq<Fragment>): (r: Result<Entries, Error>)
    ensures r.Success? && DistinctKeys(results) ==> DistinctKeys(r.value)
    decreases |fragments|
  {
    if |fragments| == 0 then Success(results)
    else
      var fragment :- fragments[0];
      MergeFragments(Combine(results, fragment.0, fragment.1), fragments[1..])
  }

  /** The fragments of the classes, one per class. */
  function Fragments(state: State, classes: seq<string>): (r: seq<Fragment>)
    ensures |r| == |classes| && forall i :: 0 <= i < |classes| ==> r[i] == ClassFragment(state, classes[i])
  {
    seq(|classes|, i requires 0 <= i < |classes| => ClassFragment(state, classes[i]))
  }

  /**
   * `getStyles`: a list that is `null`, `undefined` or the string "null" is
   * refused; otherwise the fragments of the ordered classes are merged from
   * the empty object.  (The final `isEmpty(styles) ? {} : styles` returns the
   * same object either way.)
   */
  function GetStylesSpec(state: State, classes: Option<string>): (r: Result<Entries, Error>)
    ensures classes.None? || classes == Some("null") ==> r == Failure(NotPlainString)
    ensures classes.Some? && classes != Some("null") && Screens(state).Failure? ==> r == Failure(MissingThemeKey("screens"))
    ensures r.Success? ==> DistinctKeys(r.value)
  {
    if classes.None? || classes.value == "null" then Failure(NotPlainString)
    else ListStyle(state, classes.value)
  }

  /** A plain list: the fragments of its ordered classes, merged from the empty object. */
  function ListStyle(state: State, classes: string): (r: Result<Entries, Error>)
    ensures Screens(state).Failure? ==> r == Failure(MissingThemeKey("screens"))
    ensures r.Success? ==> DistinctKeys(r.value)
  {
    match OrderedClasses(state, classes)
    case Failure(e) => Failure(e)
    case Success(ordered) => MergeFragments([], Fragments(state, ordered))
  }

  /** A class once its pieces are known, with the user plugins gathered by `HandleUserPlugins`' loops. */
  method ResolvePieces(state: State, pieces: Pieces) returns (r: Result<Entries, Error>)
    ensures r == PieceStyle(state, pieces)
  {
    if pieces.className == "" {
      return Failure(EmptyClass(pieces.classNameRaw, pieces.hasVariants));
    }
    var props := GetPropertiesIn(state.statics, state.dynamics, pieces.className).value;
    var hasMatches := !props.kind.Unmatched?;
    if !hasMatches && state.plugins.None? {
      return Failure(ErrorSuggestions(state, pieces, None, ""));
    }
    var userStyle := HandleUserPlugins(state.plugins, pieces.className);
    if userStyle.Failure? {
      return Failure(userStyle.error);
    }
    var style := ApplyTransforms(userStyle.value, props.kind, pieces.hasImportant);
    if !hasMatches && style.None? {
      return Failure(ErrorSuggestions(state, pieces, None, ""));
    }
    if style.Some? {
      return Success(style.value);
    }
    var handled := HandlerStyle(state, pieces, props);
    if handled.Failure? {
      return Failure(handled.error);
    }
    return Success(ApplyTransforms(handled.value, props.kind, pieces.hasImportant).GetOr([]));
  }

  /** One class of the `reduce`: the prechecks, its pieces, then its style. */
  method ResolveClass(state: State, classNameRaw: string) returns (r: Fragment)
    ensures r == ClassFragment(state, classNameRaw)
  {
    if classNameRaw == "group" {
      return Failure(GroupAsClass);
    }
    var pieces := GetPieces(state, classNameRaw);
    if pieces.Failure? {
      return Failure(pieces.error);
    }
    var style := ResolvePieces(state, pieces.value);
    if style.Failure? {
      return Failure(style.error);
    }
    return Success((pieces.value, style.value));
  }

  /** The `reduce` of `getStyles`: each class resolved and merged into the result in turn. */
  method MergeClasses(state: State, names: seq<string>) returns (r: Result<Entries, Error>)
    ensures r == MergeFragments([], Fragments(state, names))
  {
    ghost var fragments := Fragments(state, names);
    var results: Entries := [];
    var i := 0;
    while i < |names|
      invariant 0 <= i <= |names|
      invariant MergeFragments(results, fragments[i..]) == MergeFragments([], fragments)
    {
      var fragment := ResolveClass(state, names[i]);
      assert fragment == fragments[i];
      if fragment.Failure? {
        FirstRefusalEndsAll(results, fragments[i..], 0);
        return Failure(fragment.error);
      }
      MergeFragmentsStep(results, fragments, i);
      results := Combine(results, fragment.value.0, fragment.value.1);
      i := i + 1;
    }
    assert fragments[i..] == [];
    return Success(results);
  }

  /** `getStyles`: the classes ordered in an array, then merged one by one into the result. */
  method GetStyles(state: State, classes: Option<string>) returns (r: Result<Entries, Error>)
    ensures r == GetStylesSpec(state, classes)
  {
    if classes.None? || classes == Some("null") {
      return Failure(NotPlainString);
    }
    var ordered := OrderByScreens(state, classes.value);
    if ordered.Failure? {
      return Failure(ordered.error);
    }
    ListIsFold(state, classes.value);
    r := MergeClasses(state, ordered.value);
  }

  // ------------------------------------------------------------- properties

  lemma MergeFragmentsStep(results: Entries, fragments: seq<Fragment>, i: nat)
    requires i < |fragments| && fragments[i].Success?
    ensures var f := fragments[i].value;
      MergeFragments(results, fragments[i..]) == MergeFragments(Combine(results, f.0, f.1), fragments[i + 1..])
  {
    assert fragments[i..][0] == fragments[i];
    assert fragments[i..][1..] == fragments[i + 1..];
  }

  /** The first fragment that fails gives the list its error, whatever comes after it. */
  lemma {:induction false} FirstRefusalEndsAll(results: Entries, fragments: seq<Fragment>, j: nat)
    requires j < |fragments| && fragments[j].Failure?
    requires forall k :: 0 <= k < j ==> fragments[k].Success?
    ensures MergeFragments(results, fragments) == Failure(fragments[j].error)
    decreases |fragments|
  {
    if j > 0 {
      var f := fragments[0].value;
      assert forall k :: 0 <= k < j - 1 ==> fragments[1..][k] == fragments[k + 1];
      FirstRefusalEndsAll(Combine(results, f.0, f.1), fragments[1..], j - 1);
    }
  }

  /** One fragment that fails makes the whole list fail, wherever it stands. */
  lemma {:induction false} OneRefusalEndsAll(results: Entries, fragments: seq<Fragment>, j: nat)
    requires j < |fragments| && fragments[j].Failure?
    ensures MergeFragments(results, fragments).Failure?
    decreases |fragments|
  {
    if j > 0 && fragments[0].Success? {
      var f := fragments[0].value;
      assert fragments[1..][j - 1] == fragments[j];
      OneRefusalEndsAll(Combine(results, f.0, f.1), fragments[1..], j - 1);
    }
  }

  /** A plain list is the merge of the fragments of its ordered classes from the empty object. */
  lemma ListIsFold(state: State, classes: string)
    requires classes != "null" && Screens(state).Success?
    ensures OrderedClasses(state, classes).Success?
    ensures GetStylesSpec(state, Some(classes)) == MergeFragments([], Fragments(state, OrderedClasses(state, classes).value))
  {
    assert GetStylesSpec(state, Some(classes)) == ListStyle(state, classes);
  }

  /** Every class of the list is somewhere in the ordered list. */
  lemma OrderingKeepsClass(state: State, classes: string, c: string) returns (j: nat)
    requires Screens(state).Success? && c in Words(StripPipes(classes))
    ensures OrderedClasses(state, classes).Success?
    ensures j < |OrderedClasses(state, classes).value| && OrderedClasses(state, classes).value[j] == c
  {
    ScreenOrderSortsAndPermutes(Screens(state).value, Words(StripPipes(classes)));
    j := FoundAgain(Words(StripPipes(classes)), OrderedClasses(state, classes).value, c);
  }

  lemma FoundAgain(s: seq<string>, t: seq<string>, c: string) returns (j: nat)
    requires multiset(s) == multiset(t) && c in s
    ensures j < |t| && t[j] == c
  {
    assert c in multiset(s);
    assert c in multiset(t);
    j :| 0 <= j < |t| && t[j] == c;
  }

  /** A list that contains a refused class is refused, wherever the ordering puts it. */
  lemma RefusedClassRefusesList(state: State, classes: string, c: string)
    requires classes != "null" && Screens(state).Success?
    requires c in Words(StripPipes(classes)) && ClassFragment(state, c).Failure?
    ensures GetStylesSpec(state, Some(classes)).Failure?
  {
    ListIsFold(state, classes);
    var j := OrderingKeepsClass(state, classes, c);
    var fragments := Fragments(state, OrderedClasses(state, classes).value);
    assert fragments[j] == ClassFragment(state, c);
    OneRefusalEndsAll([], fragments, j);
  }

  /** "group" belongs on a `className`, so any list that contains it is refused. */
  lemma GroupRefusesList(state: State, classes: string)
    requires classes != "null" && Screens(state).Success?
    requires "group" in Words(StripPipes(classes))
    ensures GetStylesSpec(state, Some(classes)).Failure?
  {
    RefusedClassRefusesList(state, classes, "group");
  }

  lemma {:induction false} SpacesKeptByStripPipes(s: string)
    requires forall i :: 0 <= i < |s| ==> IsJsSpace(s[i])
    ensures StripPipes(s) == s
    decreases |s|
  {
    if |s| > 0 {
      assert !(|s| >= 3 && s[..3] == " | ") by {
        if |s| >= 3 { assert IsJsSpace(s[1]) && s[..3][1] == s[1]; }
      }
      SpacesKeptByStripPipes(s[1..]);
    }
  }

  lemma {:induction false} SpacesHaveNoWords(s: string)
    requires forall i :: 0 <= i < |s| ==> IsJsSpace(s[i])
    ensures Words(s) == []
    decreases |s|
  {
    if |s| > 0 {
      SpacesHaveNoWords(s[1..]);
    }
  }

  /** A list of nothing but white space resolves to the empty style. */
  lemma BlankListIsEmptyStyle(state: State, classes: string)
    requires forall i :: 0 <= i < |classes| ==> IsJsSpace(classes[i])
    requires Screens(state).Success?
    ensures GetStylesSpec(state, Some(classes)) == Success([])
  {
    SpacesKeptByStripPipes(classes);
    SpacesHaveNoWords(classes);
    assert |classes| > 0 ==> IsJsSpace(classes[0]);
  }
}
