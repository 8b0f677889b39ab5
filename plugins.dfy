/**
 * The core plugins (`placeholder`, `container`, `border`, `divide`, `space`,
 * `text`, `bg`, macro.js:2746-3199) and their dispatch (`getErrors`,
 * `callPlugin`, `handleCorePlugins`, macro.js:3203-3271).  Each plugin reads
 * the theme through `getConfigValue` with the part of the class after its
 * prefix, tries its readings in a fixed order and reports "not found" with
 * the domains it searched.
 */
module CorePlugins {
  import opened Wrappers
  import opened Strings
  import opened Json
  import opened Diagnostics
  import opened Context
  import opened Config
  import opened Pieces
  import opened Suggestions
  import opened Handlers

  /** The selector `divide` and `space` style: every child after the first. */
  const Siblings := "> :not(template) ~ :not(template)"

  /** `a || b` on two matches. */
  function Either(a: Option<string>, b: Option<string>): Option<string> {
    if a.Some? then a else b
  }

  /** `getConfigValue(theme(domain), matcher)`. */
  function ConfigValueIn(state: State, domain: string, matcher: Option<string>): Result<Option<ConfigValue>, Error> {
    GetConfigValue(Theme(state.theme, Some(domain)), matcher)
  }

  /**
   * `configValue(d1) || configValue(d2) || ...`: the domains are read in
   * order until one gives a truthy value; `None` when none does.
   */
  function FirstIn(state: State, domains: seq<string>, matcher: Option<string>): (r: Result<Option<ConfigValue>, Error>)
    ensures r.Success? && r.value.Some? ==> Found(r.value)
    ensures r.Failure? ==> r.error.NestedTooDeep? || r.error.UnsupportedConfigValue?
    decreases |domains|
  {
    if |domains| == 0 then Success(None)
    else
      var v :- ConfigValueIn(state, domains[0], matcher);
      if Found(v) then Success(v) else FirstIn(state, domains[1..], matcher)
  }

  /** Domain `i` gives `r`, and every domain before it resolves to nothing. */
  predicate FoundAt(state: State, domains: seq<string>, matcher: Option<string>, r: Result<Option<ConfigValue>, Error>, i: int) {
    0 <= i < |domains| && ConfigValueIn(state, domains[i], matcher) == r
    && forall j :: 0 <= j < i ==> (ConfigValueIn(state, domains[j], matcher).Success?
      && !Found(ConfigValueIn(state, domains[j], matcher).value))
  }

  /** A value found comes from the first domain that gives one. */
  lemma {:induction false} FirstInFindsFirst(state: State, domains: seq<string>, matcher: Option<string>)
    ensures var r := FirstIn(state, domains, matcher);
      r.Success? && r.value.Some? ==> exists i :: FoundAt(state, domains, matcher, r, i)
    decreases |domains|
  {
    var r := FirstIn(state, domains, matcher);
    if |domains| > 0 && r.Success? && r.value.Some? {
      var v := ConfigValueIn(state, domains[0], matcher);
      if v.Success? && Found(v.value) {
        assert FoundAt(state, domains, matcher, r, 0);
      } else {
        FirstInFindsFirst(state, domains[1..], matcher);
        var i :| FoundAt(state, domains[1..], matcher, r, i);
        FoundLater(state, domains, matcher, r, i);
      }
    }
  }

  lemma FoundLater(state: State, domains: seq<string>, matcher: Option<string>, r: Result<Option<ConfigValue>, Error>, i: int)
    requires |domains| > 0 && FoundAt(state, domains[1..], matcher, r, i)
    requires ConfigValueIn(state, domains[0], matcher).Success? && !Found(ConfigValueIn(state, domains[0], matcher).value)
    ensures FoundAt(state, domains, matcher, r, i + 1)
  {
    forall j | 0 < j < |domains| ensures domains[j] == domains[1..][j - 1] {
    }
  }

  /** The errors a plugin can raise. */
  predicate PluginError(e: Error) {
    e.ClassNotFound? || e.NestedTooDeep? || e.UnsupportedConfigValue? || e.VariantsNotSupported?
    || e.ImportantNotSupported? || e.NegativesNotSupported? || e.MissingThemeKey?
  }

  /** `errors.errorSuggestions({config})`: "not found", searching the given domains. */
  function NotFound(state: State, pieces: Pieces, dynamicKey: string, domains: seq<string>): (e: Error)
    ensures e.ClassNotFound? || e.MissingThemeKey?
    ensures e.ClassNotFound? ==> e.classNameRawNoVariants == pieces.classNameRawNoVariants
    ensures e.MissingThemeKey? ==> e.key in domains
  {
    ErrorSuggestions(state, pieces, Some(seq(|domains|, i requires 0 <= i < |domains| => Some(domains[i]))), dynamicKey)
  }

  // ------------------------------------------------------------- placeholder

  /**
   * `placeholder`: an opacity (the part after "placeholder-opacity-", or the
   * bare class "placeholder-opacity" itself as the key), else a colour.
   */
  function Placeholder(state: State, pieces: Pieces, dynamicKey: string): (r: Result<Entries, Error>)
    ensures r.Failure? ==> PluginError(r.error)
  {
    var cn := pieces.className;
    var opacity :- FirstIn(state, ["placeholderOpacity", "opacity"], PlaceholderOpacityMatch(cn));
    if opacity.Some? then
      Success([("::placeholder", Obj([("--placeholder-opacity", Str(Text(opacity.value)))]))])
    else
      var color :- FirstIn(state, ["placeholderColor"], MatchAfter(cn, "placeholder-"));
      if color.Some? then
        Success([("::placeholder", Obj(WithAlpha(state.host, color.value, "color", "--placeholder-opacity", pieces.important)))])
      else
        var opacityDomain := if Truthy(Theme(state.theme, Some("placeholderOpacity"))) then "placeholderOpacity" else "opacity";
        Failure(NotFound(state, pieces, dynamicKey, ["placeholderColor", opacityDomain]))
  }

  /** The key an opacity class reads: the part after "placeholder-opacity-", or the bare class itself. */
  function PlaceholderOpacityMatch(cn: string): Option<string> {
    Either(MatchAfter(cn, "placeholder-opacity-"), if cn == "placeholder-opacity" then Some(cn) else None)
  }

  /** Nothing found in any of the domains (and no lookup failed). */
  predicate NoneIn(state: State, domains: seq<string>, matcher: Option<string>) {
    FirstIn(state, domains, matcher) == Success(None)
  }

  /**
   * An opacity comes first, `placeholderOpacity` before `opacity`, and sets
   * only the opacity variable.
   */
  lemma PlaceholderOpacityFirst(state: State, pieces: Pieces, dynamicKey: string, o: ConfigValue)
    requires var m := PlaceholderOpacityMatch(pieces.className);
      ConfigValueIn(state, "placeholderOpacity", m) == Success(Some(o))
      || (ConfigValueIn(state, "placeholderOpacity", m) == Success(None)
        && ConfigValueIn(state, "opacity", m) == Success(Some(o)))
    requires Found(Some(o))
    ensures Placeholder(state, pieces, dynamicKey)
      == Success([("::placeholder", Obj([("--placeholder-opacity", Str(Text(o)))]))])
  {
    assert ["placeholderOpacity", "opacity"][1..] == ["opacity"];
    assert ["opacity"][1..] == [];
  }

  /** Without an opacity, a `placeholderColor` colour goes through `withAlpha` on `color`. */
  lemma PlaceholderColourSecond(state: State, pieces: Pieces, dynamicKey: string, c: ConfigValue)
    requires NoneIn(state, ["placeholderOpacity", "opacity"], PlaceholderOpacityMatch(pieces.className))
    requires ConfigValueIn(state, "placeholderColor", MatchAfter(pieces.className, "placeholder-")) == Success(Some(c))
    requires Found(Some(c))
    ensures Placeholder(state, pieces, dynamicKey)
      == Success([("::placeholder", Obj(WithAlpha(state.host, c, "color", "--placeholder-opacity", pieces.important)))])
  {
    assert ["placeholderColor"][1..] == [];
  }

  /**
   * Neither gives "not found", searching the colours and the opacity domain
   * the theme has (`placeholderOpacity` when truthy, else `opacity`).
   */
  lemma PlaceholderNotFound(state: State, pieces: Pieces, dynamicKey: string)
    requires NoneIn(state, ["placeholderOpacity", "opacity"], PlaceholderOpacityMatch(pieces.className))
    requires NoneIn(state, ["placeholderColor"], MatchAfter(pieces.className, "placeholder-"))
    ensures Placeholder(state, pieces, dynamicKey) == Failure(NotFound(state, pieces, dynamicKey,
      ["placeholderColor", if Truthy(Theme(state.theme, Some("placeholderOpacity"))) then "placeholderOpacity" else "opacity"]))
  {
  }

  // --------------------------------------------------------------- container

  /** `getSpacingFromArray`: the first two items on the left and right (an absent item writes nothing). */
  function SpacingFromArray(items: seq<Value>, left: string, right: string): Entries {
    (if |items| > 0 then [(left, items[0])] else []) + (if |items| > 1 then [(right, items[1])] else [])
  }

  /**
   * `getSpacingStyle(type, values, key)`: the entry `key` of an object of
   * spacings, as left and right `type` properties; nothing for a missing or
   * empty entry or for values that are not an object.
   */
  function SpacingStyle(kind: string, values: Option<Value>, key: string): Option<Entries> {
    if values.None? || !values.value.Obj? then None
    else
      var entry := Prop(values.value, key);
      var pv := if Truthy(entry) then entry.value else Obj([]);
      if IsEmpty(Some(pv)) then None
      else if pv.Arr? then Some(SpacingFromArray(pv.items, kind + "Left", kind + "Right"))
      else Some([(kind + "Left", pv), (kind + "Right", pv)])
  }

  /** `Object.assign(acc, o)` where `o` may be `undefined` (or `false`). */
  function AssignOpt(acc: Entries, o: Option<Entries>): (r: Entries)
    ensures DistinctKeys(acc) ==> DistinctKeys(r)
  {
    if o.Some? then Assign(acc, o.value) else acc
  }

  /** The media query one screen opens. */
  function MediaKey(width: Value): string {
    "@media (min-width: " + JsString(width) + ")"
  }

  /**
   * The `reduce` over the screens: each screen adds its media query holding
   * the screen width as `maxWidth` and that screen's paddings, and its margins
   * unless the container is centred.
   */
  function MediaScreens(screens: Entries, padding: Option<Value>, margin: Option<Value>, center: bool): (r: Entries)
    ensures DistinctKeys(r)
    ensures forall k :: k in Keys(r) ==> StartsWith(k, "@media (min-width: ")
    decreases |screens|
  {
    if |screens| == 0 then []
    else
      var acc := MediaScreens(screens[..|screens| - 1], padding, margin, center);
      var (key, value) := screens[|screens| - 1];
      var media := AssignOpt(AssignOpt([("maxWidth", value)], SpacingStyle("padding", padding, key)),
        if center then None else SpacingStyle("margin", margin, key));
      var r := Put(acc, MediaKey(value), Obj(media));
      assert StartsWith(MediaKey(value), "@media (min-width: ") by {
        assert MediaKey(value)[..19] == "@media (min-width: ";
      }
      assert forall k :: k in Keys(r) ==> k in Keys(acc) || k == MediaKey(value);
      r
  }

  /** The paddings (or margins) of the container at every width. */
  function SideStyles(kind: string, v: Option<Value>): (r: Entries)
    ensures forall k :: k in Keys(r) ==> k == kind + "Left" || k == kind + "Right"
  {
    match v
    case Some(Arr(items)) => SpacingFromArray(items, kind + "Left", kind + "Right")
    case Some(Obj(_)) =>
      var s := SpacingStyle(kind, v, "default");
      if s.Some? then s.value else []
    case Some(other) => [(kind + "Left", other), (kind + "Right", other)]
    case None => []
  }

  /**
   * The container's style once the theme is read: full width, the paddings
   * and margins (automatic margins when centred), one media query per screen.
   */
  function ContainerStyle(padding: Option<Value>, margin: Option<Value>, center: bool, screens: Value): Entries {
    var media := MediaScreens(JsEntries(screens), padding, margin, center);
    var paddingStyles := SideStyles("padding", padding);
    var marginStyles := if center then [("marginLeft", Str("auto")), ("marginRight", Str("auto"))]
      else SideStyles("margin", margin);
    Assign(Assign(Assign([("width", Str("100%"))], paddingStyles), marginStyles), media)
  }

  /**
   * `container`: variants, the important mark and the negative are refused,
   * in that order; then the style for the theme's `container` and `screens`.
   */
  function Container(state: State, pieces: Pieces): (r: Result<Entries, Error>)
    ensures r.Failure? ==> PluginError(r.error)
  {
    if pieces.hasVariants then Failure(VariantsNotSupported(pieces.className, pieces.variants))
    else if pieces.hasImportant then Failure(ImportantNotSupported(pieces.className))
    else if pieces.hasNegative then Failure(NegativesNotSupported(pieces.className))
    else
      match Prop(state.theme, "container")
      case None => Failure(MissingThemeKey("container"))
      case Some(container) =>
        match Prop(state.theme, "screens")
        case None => Failure(MissingThemeKey("screens"))
        case Some(screens) =>
          Success(ContainerStyle(Prop(container, "padding"), Prop(container, "margin"),
            Truthy(Prop(container, "center")), screens))
  }

  /** The refusals come before any reading of the theme, variants first. */
  lemma ContainerRefusesFirst(state: State, pieces: Pieces)
    ensures pieces.hasVariants ==> Container(state, pieces) == Failure(VariantsNotSupported(pieces.className, pieces.variants))
    ensures !pieces.hasVariants && pieces.hasImportant ==> Container(state, pieces) == Failure(ImportantNotSupported(pieces.className))
    ensures !pieces.hasVariants && !pieces.hasImportant && pieces.hasNegative ==>
      Container(state, pieces) == Failure(NegativesNotSupported(pieces.className))
  {
  }

  /** Neither a side property nor "width" is a media query. */
  lemma NotMediaKeys(media: Entries)
    requires forall k :: k in Keys(media) ==> StartsWith(k, "@media (min-width: ")
    ensures "width" !in Keys(media) && "marginLeft" !in Keys(media) && "marginRight" !in Keys(media)
  {
    assert !StartsWith("width", "@media (min-width: ");
    assert !StartsWith("marginLeft", "@media (min-width: ");
    assert !StartsWith("marginRight", "@media (min-width: ");
  }

  /**
   * A container is full width, and a centred one has automatic side margins:
   * no padding, margin or screen overrides them.
   */
  lemma ContainerWidthAndCentre(padding: Option<Value>, margin: Option<Value>, center: bool, screens: Value)
    ensures Get(ContainerStyle(padding, margin, center, screens), "width") == Some(Str("100%"))
    ensures center ==> (Get(ContainerStyle(padding, margin, center, screens), "marginLeft") == Some(Str("auto"))
      && Get(ContainerStyle(padding, margin, center, screens), "marginRight") == Some(Str("auto")))
  {
    var media := MediaScreens(JsEntries(screens), padding, margin, center);
    NotMediaKeys(media);
    var paddingStyles := SideStyles("padding", padding);
    var marginStyles := if center then [("marginLeft", Str("auto")), ("marginRight", Str("auto"))]
      else SideStyles("margin", margin);
    SidesLackWidth("padding", padding);
    if center {
      assert Keys(marginStyles) == ["marginLeft", "marginRight"];
    } else {
      SidesLackWidth("margin", margin);
    }
    ContainerWidth(paddingStyles, marginStyles, media);
    if center {
      CentredMargins(Assign([("width", Str("100%"))], paddingStyles), media);
    }
  }

  /** The side properties are longer than "width", so none of them is "width". */
  lemma SidesLackWidth(kind: string, v: Option<Value>)
    requires |kind| > 1
    ensures "width" !in Keys(SideStyles(kind, v))
  {
    assert forall k :: k in Keys(SideStyles(kind, v)) ==> |k| > 5;
    assert |"width"| == 5;
  }

  /** "width" survives the paddings, the margins and the media queries. */
  lemma ContainerWidth(paddingStyles: Entries, marginStyles: Entries, media: Entries)
    requires "width" !in Keys(paddingStyles) && "width" !in Keys(marginStyles) && "width" !in Keys(media)
    ensures Get(Assign(Assign(Assign([("width", Str("100%"))], paddingStyles), marginStyles), media), "width") == Some(Str("100%"))
  {
    var a := Assign([("width", Str("100%"))], paddingStyles);
    AssignGetOther([("width", Str("100%"))], paddingStyles, "width");
    AssignGetOther(a, marginStyles, "width");
    AssignGetOther(Assign(a, marginStyles), media, "width");
  }

  /** Automatic side margins survive the media queries. */
  lemma CentredMargins(a: Entries, media: Entries)
    requires "marginLeft" !in Keys(media) && "marginRight" !in Keys(media)
    ensures Get(Assign(Assign(a, [("marginLeft", Str("auto")), ("marginRight", Str("auto"))]), media), "marginLeft") == Some(Str("auto"))
    ensures Get(Assign(Assign(a, [("marginLeft", Str("auto")), ("marginRight", Str("auto"))]), media), "marginRight") == Some(Str("auto"))
  {
    var m := [("marginLeft", Str("auto")), ("marginRight", Str("auto"))];
    var b := Assign(a, m);
    AssignGetOther(b, media, "marginLeft");
    AssignGetOther(b, media, "marginRight");
    assert Keys(m) == ["marginLeft", "marginRight"];
    AssignGet(a, m, "marginLeft");
    AssignGet(a, m, "marginRight");
  }

  // ------------------------------------------------------------------ border

  /** `border`: a width (`borderWidth`) before a colour (`borderColor`). */
  function Border(state: State, pieces: Pieces, dynamicKey: string): (r: Result<Entries, Error>)
    ensures r.Failure? ==> PluginError(r.error)
  {
    var classValue := MatchAfter(pieces.className, "border-");
    var width :- FirstIn(state, ["borderWidth"], classValue);
    if width.Some? then Success([("borderWidth", Str(Text(width.value) + pieces.important))])
    else
      var color :- FirstIn(state, ["borderColor"], classValue);
      if color.Some? then Success(WithAlpha(state.host, color.value, "borderColor", "--border-opacity", pieces.important))
      else Failure(NotFound(state, pieces, dynamicKey, ["borderColor", "borderWidth"]))
  }

  /** A key both domains have is read as a width: the colour is never consulted. */
  lemma BorderWidthBeforeColour(state: State, pieces: Pieces, dynamicKey: string, w: ConfigValue)
    requires ConfigValueIn(state, "borderWidth", MatchAfter(pieces.className, "border-")) == Success(Some(w))
    requires Found(Some(w))
    ensures Border(state, pieces, dynamicKey) == Success([("borderWidth", Str(Text(w) + pieces.important))])
  {
    assert ["borderWidth"][1..] == [];
  }

  // ------------------------------------------------------------ divide/space

  function ReverseFirst(value: string, variable: string, important: string): string {
    "calc(" + value + " * var(" + variable + "))" + important
  }

  function ReverseSecond(value: string, variable: string, important: string): string {
    "calc(" + value + " * calc(1 - var(" + variable + ")))" + important
  }

  /**
   * The style `divide` and `space` put between children: the reverse
   * variable at 0, and the value split between the two sides of the axis
   * through that variable (right and left for x, top and bottom for y).
   */
  function BetweenStyle(name: string, isX: bool, value: string, important: string, side: string -> string): Entries {
    var variable := "--" + name + (if isX then "-x" else "-y") + "-reverse";
    var first := ReverseFirst(value, variable, important);
    var second := ReverseSecond(value, variable, important);
    if isX then [(variable, Num(0)), (side("Right"), Str(first)), (side("Left"), Str(second))]
    else [(variable, Num(0)), (side("Top"), Str(second)), (side("Bottom"), Str(first))]
  }

  /** The sides of the axis `BetweenStyle` sets, and the reverse variable's name. */
  lemma BetweenStyleSides(name: string, isX: bool, value: string, important: string, side: string -> string)
    ensures var variable := "--" + name + (if isX then "-x" else "-y") + "-reverse";
      var first := Str(ReverseFirst(value, variable, important));
      var second := Str(ReverseSecond(value, variable, important));
      BetweenStyle(name, isX, value, important, side)
        == if isX then [(variable, Num(0)), (side("Right"), first), (side("Left"), second)]
           else [(variable, Num(0)), (side("Top"), second), (side("Bottom"), first)]
  {
  }

  /** The names of the four reverse variables. */
  lemma ReverseVariables()
    ensures "--" + "divide" + "-x" + "-reverse" == "--divide-x-reverse"
    ensures "--" + "divide" + "-y" + "-reverse" == "--divide-y-reverse"
    ensures "--" + "space" + "-x" + "-reverse" == "--space-x-reverse"
    ensures "--" + "space" + "-y" + "-reverse" == "--space-y-reverse"
  {
  }

  /** The property names of the sides. */
  lemma SideNames()
    ensures MarginSide("Right") == "marginRight" && MarginSide("Left") == "marginLeft"
    ensures MarginSide("Top") == "marginTop" && MarginSide("Bottom") == "marginBottom"
    ensures BorderSide("Right") == "borderRightWidth" && BorderSide("Left") == "borderLeftWidth"
    ensures BorderSide("Top") == "borderTopWidth" && BorderSide("Bottom") == "borderBottomWidth"
  {
  }

  function MarginSide(s: string): string {
    "margin" + s
  }

  function BorderSide(s: string): string {
    "border" + s + "Width"
  }

  /**
   * `divide`: a colour, else an opacity ("divide-opacity" alone reads the
   * "default" key), else a width on the x or y axis ("divide-x" alone reads
   * "default"); then "not found" over the class vocabulary.
   */
  function Divide(state: State, pieces: Pieces, dynamicKey: string): (r: Result<Entries, Error>)
    ensures r.Failure? ==> PluginError(r.error)
  {
    var cn := pieces.className;
    var color :- FirstIn(state, DivideColours, MatchAfter(cn, "divide-"));
    if color.Some? then
      Success([(Siblings, Obj(WithAlpha(state.host, color.value, "borderColor", "--divide-opacity", pieces.important)))])
    else
      var opacityMatch := DivideOpacityMatch(cn);
      if opacityMatch.Some? then
        var opacity :- FirstIn(state, ["divideOpacity", "opacity"], Some(StripNegative(opacityMatch.value)));
        if opacity.Some? then Success([(Siblings, Obj([("--divide-opacity", Str(Text(opacity.value)))]))])
        else
          var domain := if Truthy(Theme(state.theme, Some("divideOpacity"))) then "divideOpacity" else "opacity";
          Failure(NotFound(state, pieces, dynamicKey, [domain]))
      else
        var widthMatch := Either(MatchAfterEither(cn, "divide-x", "divide-y"),
          if cn == "divide-x" || cn == "divide-y" then Some("default") else None);
        if widthMatch.Some? then
          var width :- FirstIn(state, ["divideWidth"], Some(StripNegative(widthMatch.value)));
          if width.Some? then
            var value := pieces.negative + AddPxTo0(Text(width.value));
            Success([(Siblings, Obj(BetweenStyle("divide", StartsWith(cn, "divide-x"), value, pieces.important, BorderSide)))])
          else Failure(NotFound(state, pieces, dynamicKey, ["divideWidth"]))
        else Failure(ErrorSuggestions(state, pieces, None, dynamicKey))
  }

  /** The domains a divide colour is read from, in order. */
  const DivideColours := ["divideColor", "borderColor", "colors"]

  /** The key a divide opacity reads, before its sign is stripped: "divide-opacity" alone reads "default". */
  function DivideOpacityMatch(cn: string): Option<string> {
    Either(MatchAfter(cn, "divide-opacity"), if cn == "divide-opacity" then Some("default") else None)
  }

  /** Neither "divide-opacity" nor anything after it: the class reads no opacity. */
  predicate NamesNoOpacity(cn: string) {
    MatchAfter(cn, "divide-opacity").None? && cn != "divide-opacity"
  }

  /** A colour comes first: the part after "divide-" read as a colour goes through `withAlpha`. */
  lemma DivideColourFirst(state: State, pieces: Pieces, dynamicKey: string, c: ConfigValue)
    requires FirstIn(state, DivideColours, MatchAfter(pieces.className, "divide-")) == Success(Some(c))
    ensures Divide(state, pieces, dynamicKey)
      == Success([(Siblings, Obj(WithAlpha(state.host, c, "borderColor", "--divide-opacity", pieces.important)))])
  {
  }

  /**
   * Then an opacity: "divide-opacity-" and a key reads that key ("divide-opacity"
   * alone reads "default") in `divideOpacity`, then `opacity`; a key neither
   * has is "not found" in the opacity domain the theme has.
   */
  lemma DivideOpacitySecond(state: State, pieces: Pieces, dynamicKey: string, key: string)
    requires (pieces.className == "divide-opacity-" + key && key != "")
      || (pieces.className == "divide-opacity" && key == "default")
    requires NoneIn(state, DivideColours, MatchAfter(pieces.className, "divide-"))
    ensures var o := FirstIn(state, ["divideOpacity", "opacity"], Some(key));
      o.Success? && o.value.Some? ==>
        Divide(state, pieces, dynamicKey) == Success([(Siblings, Obj([("--divide-opacity", Str(Text(o.value.value)))]))])
    ensures NoneIn(state, ["divideOpacity", "opacity"], Some(key)) ==>
      Divide(state, pieces, dynamicKey) == Failure(NotFound(state, pieces, dynamicKey,
        [if Truthy(Theme(state.theme, Some("divideOpacity"))) then "divideOpacity" else "opacity"]))
  {
    if pieces.className != "divide-opacity" {
      MatchAfterPrefix(pieces.className, "divide-opacity", "-" + key);
      StripNegativeSign(key);
    }
    DivideOpacityStyle(state, pieces, dynamicKey, key);
  }

  lemma DivideOpacityStyle(state: State, pieces: Pieces, dynamicKey: string, key: string)
    requires DivideOpacityMatch(pieces.className).Some? && StripNegative(DivideOpacityMatch(pieces.className).value) == key
    requires NoneIn(state, DivideColours, MatchAfter(pieces.className, "divide-"))
    ensures var o := FirstIn(state, ["divideOpacity", "opacity"], Some(key));
      o.Success? && o.value.Some? ==>
        Divide(state, pieces, dynamicKey) == Success([(Siblings, Obj([("--divide-opacity", Str(Text(o.value.value)))]))])
    ensures NoneIn(state, ["divideOpacity", "opacity"], Some(key)) ==>
      Divide(state, pieces, dynamicKey) == Failure(NotFound(state, pieces, dynamicKey,
        [if Truthy(Theme(state.theme, Some("divideOpacity"))) then "divideOpacity" else "opacity"]))
  {
  }

  /**
   * Then a width: a class whose text after "divide-x" or "divide-y" is '-' and
   * a key (as in "divide-x-2", see `AxisMatch`), and no opacity, reads that key
   * in `divideWidth`, and the sides of the axis get it through the reverse
   * variable: right and left for x, top and bottom for y.
   */
  lemma DivideWidthThird(state: State, pieces: Pieces, dynamicKey: string, isX: bool, key: string, w: ConfigValue)
    requires MatchAfterEither(pieces.className, "divide-x", "divide-y") == Some("-" + key) && key != ""
    requires StartsWith(pieces.className, "divide-x") == isX
    requires NoneIn(state, DivideColours, MatchAfter(pieces.className, "divide-"))
    requires NamesNoOpacity(pieces.className)
    requires FirstIn(state, ["divideWidth"], Some(key)) == Success(Some(w))
    ensures var value := pieces.negative + AddPxTo0(Text(w));
      var variable := if isX then "--divide-x-reverse" else "--divide-y-reverse";
      var first := Str(ReverseFirst(value, variable, pieces.important));
      var second := Str(ReverseSecond(value, variable, pieces.important));
      Divide(state, pieces, dynamicKey) == Success([(Siblings, Obj(
        if isX then [(variable, Num(0)), ("borderRightWidth", first), ("borderLeftWidth", second)]
        else [(variable, Num(0)), ("borderTopWidth", second), ("borderBottomWidth", first)]))])
  {
    StripNegativeSign(key);
    DivideWidthStyle(state, pieces, dynamicKey, isX, key, w);
    BetweenStyleSides("divide", isX, pieces.negative + AddPxTo0(Text(w)), pieces.important, BorderSide);
    ReverseVariables();
    SideNames();
  }

  lemma DivideWidthStyle(state: State, pieces: Pieces, dynamicKey: string, isX: bool, key: string, w: ConfigValue)
    requires MatchAfterEither(pieces.className, "divide-x", "divide-y") == Some("-" + key)
    requires StripNegative("-" + key) == key
    requires StartsWith(pieces.className, "divide-x") == isX
    requires NoneIn(state, DivideColours, MatchAfter(pieces.className, "divide-"))
    requires NamesNoOpacity(pieces.className)
    requires FirstIn(state, ["divideWidth"], Some(key)) == Success(Some(w))
    ensures Divide(state, pieces, dynamicKey) == Success([(Siblings, Obj(BetweenStyle("divide", isX,
      pieces.negative + AddPxTo0(Text(w)), pieces.important, BorderSide)))])
  {
  }

  /** A class made of one of two same-length prefixes and a rest: the match is the rest, and the prefix tells the axis. */
  lemma AxisMatch(cn: string, px: string, py: string, isX: bool, rest: string)
    requires |px| == |py| && px != py && rest != ""
    requires cn == (if isX then px else py) + rest
    ensures MatchAfterEither(cn, px, py) == Some(rest)
    ensures StartsWith(cn, px) == isX
  {
    var p := if isX then px else py;
    MatchAfterEitherPrefix(cn, px, py, rest);
    assert cn[..|px|] == p;
  }

  /** A class that is none of the three is "not found" over the class vocabulary. */
  lemma DivideNotFound(state: State, pieces: Pieces, dynamicKey: string)
    requires NoneIn(state, DivideColours, MatchAfter(pieces.className, "divide-"))
    requires NamesNoOpacity(pieces.className)
    requires MatchAfterEither(pieces.className, "divide-x", "divide-y").None?
    requires pieces.className != "divide-x" && pieces.className != "divide-y"
    ensures Divide(state, pieces, dynamicKey) == Failure(ErrorSuggestions(state, pieces, None, dynamicKey))
  {
  }

  /**
   * `space`: the theme's `space` entry for the part after "space-x-" or
   * "space-y-" ("default" when there is none), split over the axis.
   */
  function Space(state: State, pieces: Pieces, dynamicKey: string): (r: Result<Entries, Error>)
    ensures r.Failure? ==> PluginError(r.error)
  {
    var cn := pieces.className;
    var classNameValue := Either(MatchAfterEither(cn, "space-x-", "space-y-"),
      if cn == "space-x" || cn == "space-y" then Some(cn) else None);
    match Theme(state.theme, Some("space"))
    case None => Failure(MissingThemeKey("space"))
    case Some(spaces) =>
      var configValue := Prop(spaces, classNameValue.GetOr("default"));
      if !Truthy(configValue) then Failure(NotFound(state, pieces, dynamicKey, ["space"]))
      else
        var value := pieces.negative + AddPxTo0(JsString(configValue.value));
        Success([(Siblings, Obj(BetweenStyle("space", StartsWith(cn, "space-x-"), value, pieces.important, MarginSide)))])
  }

  /**
   * As written, the bare class "space-x" looks up the key "space-x" itself,
   * not "default", and would style the y axis: with a `space` domain that
   * has only a default it is not found.
   */
  lemma BareSpaceXReadsItsOwnName(state: State, pieces: Pieces, dynamicKey: string, d: Value)
    requires pieces.className == "space-x" && state.theme.Obj?
    requires Get(state.theme.entries, "space") == Some(Obj([("default", d)]))
    ensures Space(state, pieces, dynamicKey) == Failure(NotFound(state, pieces, dynamicKey, ["space"]))
  {
    IndexOfIsFirst("space-x", "space-x-");
    IndexOfIsFirst("space-x", "space-y-");
    assert "space-x" != "default";
  }

  /**
   * "space-x-" or "space-y-" and a key reads that key in the theme's `space`:
   * a truthy entry is split over the sides of the axis through the reverse
   * variable (right and left for x, top and bottom for y); an entry that is
   * missing or falsy is "not found".
   */
  lemma SpaceSplitsOverAxis(state: State, pieces: Pieces, dynamicKey: string, isX: bool, key: string, spaces: Value)
    requires pieces.className == (if isX then "space-x-" else "space-y-") + key && key != ""
    requires Theme(state.theme, Some("space")) == Some(spaces)
    ensures Truthy(Prop(spaces, key)) ==>
      var value := pieces.negative + AddPxTo0(JsString(Prop(spaces, key).value));
      var variable := if isX then "--space-x-reverse" else "--space-y-reverse";
      var first := Str(ReverseFirst(value, variable, pieces.important));
      var second := Str(ReverseSecond(value, variable, pieces.important));
      Space(state, pieces, dynamicKey) == Success([(Siblings, Obj(
        if isX then [(variable, Num(0)), ("marginRight", first), ("marginLeft", second)]
        else [(variable, Num(0)), ("marginTop", second), ("marginBottom", first)]))])
    ensures !Truthy(Prop(spaces, key)) ==>
      Space(state, pieces, dynamicKey) == Failure(NotFound(state, pieces, dynamicKey, ["space"]))
  {
    AxisMatch(pieces.className, "space-x-", "space-y-", isX, key);
    SpaceIsBetween(state, pieces, dynamicKey, isX, key, spaces);
    if Truthy(Prop(spaces, key)) {
      BetweenStyleSides("space", isX, pieces.negative + AddPxTo0(JsString(Prop(spaces, key).value)), pieces.important,
        MarginSide);
      ReverseVariables();
      SideNames();
    }
  }

  lemma SpaceIsBetween(state: State, pieces: Pieces, dynamicKey: string, isX: bool, key: string, spaces: Value)
    requires MatchAfterEither(pieces.className, "space-x-", "space-y-") == Some(key)
    requires StartsWith(pieces.className, "space-x-") == isX
    requires Theme(state.theme, Some("space")) == Some(spaces)
    ensures Truthy(Prop(spaces, key)) ==> Space(state, pieces, dynamicKey) == Success([(Siblings, Obj(BetweenStyle("space",
      isX, pieces.negative + AddPxTo0(JsString(Prop(spaces, key).value)), pieces.important, MarginSide)))])
    ensures !Truthy(Prop(spaces, key)) ==>
      Space(state, pieces, dynamicKey) == Failure(NotFound(state, pieces, dynamicKey, ["space"]))
  {
  }

  // -------------------------------------------------------------------- text

  /** `handleSize`: a `[fontSize, lineHeight]` pair sets both, a line height only when truthy. */
  function FontSizeStyle(v: ConfigValue, important: string): (r: Entries)
    ensures |r| > 0 && r[0].0 == "fontSize" && (|r| == 1 || (|r| == 2 && r[1].0 == "lineHeight"))
    ensures v.CStr? ==> r == [("fontSize", Str(v.s + important))]
    ensures v.CArr? && |v.items| > 0 ==> r[0].1 == Str(JsString(v.items[0]) + important)
    ensures v.CArr? ==> (|r| == 2 <==> |v.items| > 1 && Truthy(Some(v.items[1])))
    ensures |r| == 2 ==> v.CArr? && r[1].1 == Str(JsString(v.items[1]) + important)
  {
    var items := match v case CArr(items) => items case CStr(s) => [Str(s)];
    var fontSize := if |items| > 0 then JsString(items[0]) else "undefined";
    var lineHeight := if |items| > 1 then Some(items[1]) else None;
    [("fontSize", Str(fontSize + important))]
      + (if Truthy(lineHeight) then [("lineHeight", Str(JsString(lineHeight.value) + important))] else [])
  }

  /** `text`: negatives refused; a colour (`textColor`) before a size (`fontSize`). */
  function TextPlugin(state: State, pieces: Pieces, dynamicKey: string): (r: Result<Entries, Error>)
    ensures pieces.hasNegative ==> r == Failure(NegativesNotSupported(pieces.className))
    ensures r.Failure? ==> PluginError(r.error)
  {
    if pieces.hasNegative then Failure(NegativesNotSupported(pieces.className))
    else
      var classValue := MatchAfter(pieces.className, "text-");
      var color :- FirstIn(state, ["textColor"], classValue);
      if color.Some? then Success(WithAlpha(state.host, color.value, "color", "--text-opacity", pieces.important))
      else
        var size :- FirstIn(state, ["fontSize"], classValue);
        if size.Some? then Success(FontSizeStyle(size.value, pieces.important))
        else Failure(NotFound(state, pieces, dynamicKey, ["textColor", "fontSize"]))
  }

  /** A colour comes first: a `textColor` entry goes through `withAlpha` on `color`. */
  lemma TextColourBeforeSize(state: State, pieces: Pieces, dynamicKey: string, c: ConfigValue)
    requires !pieces.hasNegative
    requires FirstIn(state, ["textColor"], MatchAfter(pieces.className, "text-")) == Success(Some(c))
    ensures TextPlugin(state, pieces, dynamicKey)
      == Success(WithAlpha(state.host, c, "color", "--text-opacity", pieces.important))
  {
  }

  /** Without a colour, a `fontSize` entry sets the size; neither is "not found" in both domains. */
  lemma TextSizeSecond(state: State, pieces: Pieces, dynamicKey: string)
    requires !pieces.hasNegative
    requires NoneIn(state, ["textColor"], MatchAfter(pieces.className, "text-"))
    ensures var size := FirstIn(state, ["fontSize"], MatchAfter(pieces.className, "text-"));
      size.Success? && size.value.Some? ==>
        TextPlugin(state, pieces, dynamicKey) == Success(FontSizeStyle(size.value.value, pieces.important))
    ensures NoneIn(state, ["fontSize"], MatchAfter(pieces.className, "text-")) ==>
      TextPlugin(state, pieces, dynamicKey) == Failure(NotFound(state, pieces, dynamicKey, ["textColor", "fontSize"]))
  {
  }

  // ---------------------------------------------------------------------- bg

  /** `bg`: a colour, else a size, else a position. */
  function Bg(state: State, pieces: Pieces, dynamicKey: string): (r: Result<Entries, Error>)
    ensures r.Failure? ==> PluginError(r.error)
  {
    var classValue := MatchAfter(pieces.className, "bg-");
    var color :- FirstIn(state, ["backgroundColor"], classValue);
    if color.Some? then Success(WithAlpha(state.host, color.value, "backgroundColor", "--bg-opacity", pieces.important))
    else
      var size :- FirstIn(state, ["backgroundSize"], classValue);
      if size.Some? then Success([("backgroundSize", Str(Text(size.value) + pieces.important))])
      else
        var position :- FirstIn(state, ["backgroundPosition"], classValue);
        if position.Some? then Success([("backgroundPosition", Str(Text(position.value) + pieces.important))])
        else Failure(NotFound(state, pieces, dynamicKey, ["backgroundColor", "backgroundSize", "backgroundPosition"]))
  }

  /** A colour comes first: a `backgroundColor` entry goes through `withAlpha`. */
  lemma BgColourFirst(state: State, pieces: Pieces, dynamicKey: string, c: ConfigValue)
    requires FirstIn(state, ["backgroundColor"], MatchAfter(pieces.className, "bg-")) == Success(Some(c))
    ensures Bg(state, pieces, dynamicKey)
      == Success(WithAlpha(state.host, c, "backgroundColor", "--bg-opacity", pieces.important))
  {
  }

  /**
   * Without a colour, a size; without a size, a position; with none of the
   * three, "not found" in all three domains.
   */
  lemma BgSizeThenPosition(state: State, pieces: Pieces, dynamicKey: string)
    requires NoneIn(state, ["backgroundColor"], MatchAfter(pieces.className, "bg-"))
    ensures var m := MatchAfter(pieces.className, "bg-"); var size := FirstIn(state, ["backgroundSize"], m);
      size.Success? && size.value.Some? ==>
        Bg(state, pieces, dynamicKey) == Success([("backgroundSize", Str(Text(size.value.value) + pieces.important))])
    ensures var m := MatchAfter(pieces.className, "bg-"); var position := FirstIn(state, ["backgroundPosition"], m);
      NoneIn(state, ["backgroundSize"], m) && position.Success? && position.value.Some? ==>
        Bg(state, pieces, dynamicKey) == Success([("backgroundPosition", Str(Text(position.value.value) + pieces.important))])
    ensures var m := MatchAfter(pieces.className, "bg-");
      NoneIn(state, ["backgroundSize"], m) && NoneIn(state, ["backgroundPosition"], m) ==>
        Bg(state, pieces, dynamicKey) == Failure(NotFound(state, pieces, dynamicKey,
          ["backgroundColor", "backgroundSize", "backgroundPosition"]))
  {
  }

  // ---------------------------------------------------------------- dispatch

  /** The plugins there are handlers for. */
  predicate IsCorePlugin(name: string) {
    name in ["placeholder", "container", "border", "divide", "space", "text", "bg"]
  }

  /** `callPlugin` / `handleCorePlugins`: the named plugin's style, or "no handler". */
  function CallPlugin(plugin: string, state: State, pieces: Pieces, dynamicKey: string): (r: Result<Entries, Error>)
    ensures !IsCorePlugin(plugin) <==> r == Failure(NoHandler(plugin))
    ensures r.Failure? && IsCorePlugin(plugin) ==> PluginError(r.error)
  {
    if IsCorePlugin(plugin) then CorePluginStyle(plugin, state, pieces, dynamicKey)
    else Failure(NoHandler(plugin))
  }

  /** The style of one of the core plugins, looked up by name. */
  function CorePluginStyle(plugin: string, state: State, pieces: Pieces, dynamicKey: string): (r: Result<Entries, Error>)
    requires IsCorePlugin(plugin)
    ensures r.Failure? ==> PluginError(r.error)
  {
    if plugin == "placeholder" then Placeholder(state, pieces, dynamicKey)
    else if plugin == "container" then Container(state, pieces)
    else if plugin == "border" then Border(state, pieces, dynamicKey)
    else if plugin == "divide" then Divide(state, pieces, dynamicKey)
    else if plugin == "space" then Space(state, pieces, dynamicKey)
    else if plugin == "text" then TextPlugin(state, pieces, dynamicKey)
    else Bg(state, pieces, dynamicKey)
  }

}
