/**
 * The handlers of the table-driven classes (`handleStatic`, `handleDynamic`,
 * `styleify`, macro.js:2617-2629 and 2698-2744) and the colour helper the
 * core plugins share (`hasAlpha`, `toRgba`, `withAlpha`, macro.js:1751-1789).
 */
module Handlers {
  import opened Wrappers
  import opened Strings
  import opened Json
  import opened Tables
  import opened Diagnostics
  import opened Context
  import opened Config
  import opened Pieces
  import opened Suggestions

  // ------------------------------------------------------------------ static

  /**
   * `handleStatic`: the `output` of the class's entry of the static table.
   * (The deep copy the source takes only shields the table from later
   * in-place merges, which values cannot suffer.)
   */
  function HandleStatic(statics: seq<(string, StaticEntry)>, className: string): (r: Option<Entries>)
    ensures r.Some? <==> (Lookup(statics, className).Some? && Lookup(statics, className).value.output.Some?
      && Lookup(statics, className).value.output.value.Obj?)
    ensures r.Some? ==> Lookup(statics, className).value.output == Some(Obj(r.value))
  {
    match Lookup(statics, className)
    case Some(entry) =>
      if entry.output.Some? && entry.output.value.Obj? then Some(entry.output.value.entries) else None
    case None => None
  }

  /** The static style of a class is its table output, whichever entry looks similar. */
  lemma StaticStyleIsTableOutput(statics: seq<(string, StaticEntry)>, className: string, output: Entries,
    config: Option<string>)
    requires (className, StaticEntry(Some(Obj(output)), config)) in statics
    requires forall i :: 0 <= i < |statics| && statics[i].0 == className ==> statics[i].1.output == Some(Obj(output))
    ensures HandleStatic(statics, className) == Some(output)
  {
    var e := Lookup(statics, className);
    var i :| 0 <= i < |statics| && statics[i] == (className, StaticEntry(Some(Obj(output)), config));
    assert e.Some?;
    var j :| 0 <= j < |statics| && statics[j] == (className, e.value);
  }

  // ----------------------------------------------------------------- dynamic

  /**
   * The theme key of a dynamic class: the class after its dynamic key and
   * the '-' that follows, with the negative in front.
   */
  function ValueKey(pieces: Pieces, dynamicKey: string): (r: string)
    ensures StartsWith(pieces.className, dynamicKey + "-") ==> r == pieces.negative + pieces.className[|dynamicKey| + 1..]
    ensures pieces.className == dynamicKey ==> r == pieces.negative
  {
    var n := |dynamicKey| + 1;
    pieces.negative + (if n <= |pieces.className| then pieces.className[n..] else "")
  }

  /**
   * `grabConfig`: the theme domain a descriptor reads, its fallback domain
   * when the first is missing or falsy.
   */
  function GrabConfig(state: State, d: Descriptor): Option<Value> {
    if d.config.Some? && d.config.value != "" && Truthy(Theme(state.theme, d.config)) then Theme(state.theme, d.config)
    else if d.configFallback.Some? && d.configFallback.value != "" then Theme(state.theme, d.configFallback)
    else None
  }

  /** The descriptors of a dynamic entry: `Array.isArray(c) ? c : [c]`. */
  function StyleSet(entry: DynamicEntry): seq<Descriptor> {
    match entry
    case Single(d) => [d]
    case Several(ds) => ds
  }

  /** The resolution of one descriptor. */
  function ResolveOne(state: State, d: Descriptor, key: string): Result<Option<ConfigValue>, Error> {
    GetConfigValue(GrabConfig(state, d), Some(key))
  }

  /**
   * The `map` over the descriptors: every descriptor is resolved, in order, so
   * the first resolution that fails fails the class, whichever comes first.
   */
  function ResolveAll(state: State, ds: seq<Descriptor>, key: string): (r: Result<seq<Option<ConfigValue>>, Error>)
    ensures r.Success? ==> (|r.value| == |ds|
      && forall i :: 0 <= i < |ds| ==> ResolveOne(state, ds[i], key) == Success(r.value[i]))
    ensures r.Success? <==> forall i :: 0 <= i < |ds| ==> ResolveOne(state, ds[i], key).Success?
    ensures r.Failure? ==> exists i :: (0 <= i < |ds| && ResolveOne(state, ds[i], key) == Failure(r.error)
      && forall j :: 0 <= j < i ==> ResolveOne(state, ds[j], key).Success?)
    decreases |ds|
  {
    if |ds| == 0 then Success([])
    else
      match ResolveOne(state, ds[0], key)
      case Failure(e) => Failure(e)
      case Success(v) =>
        match ResolveAll(state, ds[1..], key)
        case Failure(e) =>
          var i :| 0 <= i < |ds[1..]| && ResolveOne(state, ds[1..][i], key) == Failure(e)
            && forall j :: 0 <= j < i ==> ResolveOne(state, ds[1..][j], key).Success?;
          assert ResolveOne(state, ds[i + 1], key) == Failure(e);
          assert forall j :: 1 <= j < i + 1 ==> ds[j] == ds[1..][j - 1];
          Failure(e)
        case Success(vs) =>
          assert forall j :: 1 <= j < |ds| ==> ds[j] == ds[1..][j - 1];
          Success([v] + vs)
  }

  /** `vs[i]` is the first truthy resolution. */
  predicate FirstFoundAt(vs: seq<Option<ConfigValue>>, i: int) {
    0 <= i < |vs| && Found(vs[i]) && forall j :: 0 <= j < i ==> !Found(vs[j])
  }

  /** `.filter(item => item.value)[0]`, by index. */
  function FirstFound(vs: seq<Option<ConfigValue>>): (r: Option<nat>)
    ensures r.Some? ==> FirstFoundAt(vs, r.value)
    ensures r.None? <==> forall j :: 0 <= j < |vs| ==> !Found(vs[j])
    decreases |vs|
  {
    if |vs| == 0 then None
    else if Found(vs[0]) then Some(0)
    else match FirstFound(vs[1..])
      case None =>
        assert forall j :: 1 <= j < |vs| ==> vs[j] == vs[1..][j - 1];
        None
      case Some(i) =>
        assert forall j :: 1 <= j < i + 1 ==> vs[j] == vs[1..][j - 1];
        Some(i + 1)
  }

  /** `"" + v` for a resolved value. */
  function Text(c: ConfigValue): string {
    JsString(AsValue(c))
  }

  /**
   * The value text `styleify` writes after the negative: an array joined with
   * ", ", a string without its own leading '-' when the class is negative.
   */
  function Rendered(value: ConfigValue, negative: string): string {
    match value
    case CArr(items) => Join(seq(|items|, i requires 0 <= i < |items| => JsString(items[i])), ", ")
    case CStr(s) => if negative != "" then StripNegative(s) else s
  }

  /** The property names a descriptor writes; a missing `prop` is the key "undefined". */
  function PropNames(prop: Option<CssProp>): seq<string> {
    match prop
    case None => ["undefined"]
    case Some(One(name)) => [name]
    case Some(Many(names)) => names
  }

  /** `names.reduce((o, n) => Object.assign({}, o, {[n]: v}), acc)`. */
  function PutAll(acc: Entries, names: seq<string>, v: Value): (r: Entries)
    ensures forall k :: Get(r, k) == if k in names then Some(v) else Get(acc, k)
    ensures DistinctKeys(acc) ==> DistinctKeys(r)
    decreases |names|
  {
    if |names| == 0 then acc
    else
      var r := PutAll(Put(acc, names[0], v), names[1..], v);
      assert forall k :: k in names <==> k == names[0] || k in names[1..];
      r
  }

  /** `styleify`: every property of the descriptor gets the negative and the value. */
  function Styleify(prop: Option<CssProp>, value: ConfigValue, negative: string): (r: Entries)
    ensures forall k :: Get(r, k) == if k in PropNames(prop) then Some(Str(negative + Rendered(value, negative))) else None
    ensures DistinctKeys(r)
  {
    var text := Str(negative + Rendered(value, negative));
    match prop
    case Some(Many(names)) => PutAll([], names, text)
    case _ => [(PropNames(prop)[0], text)]
  }

  /** The domains the suggestions search: each descriptor's `config`. */
  function Configs(ds: seq<Descriptor>): seq<Option<string>> {
    seq(|ds|, i requires 0 <= i < |ds| => ds[i].config)
  }

  /**
   * `handleDynamic`: the first descriptor whose domain has the class's value
   * styles it; none, or a class ending in '-', is "not found".
   */
  function HandleDynamic(state: State, pieces: Pieces, dynamicKey: string, entry: DynamicEntry): (r: Result<Entries, Error>)
    ensures r.Success? ==> DistinctKeys(r.value)
  {
    var styleSet := StyleSet(entry);
    var key := ValueKey(pieces, dynamicKey);
    var values :- ResolveAll(state, styleSet, key);
    var first := FirstFound(values);
    if first.None? || EndsWith(pieces.className, "-") then
      Failure(ErrorSuggestions(state, pieces, Some(Configs(styleSet)), dynamicKey))
    else
      Success(Styleify(styleSet[first.value].prop, values[first.value].value, pieces.negative))
  }

  /**
   * When every descriptor resolves, one of them has a value and the class
   * does not end in '-', the class resolves; its properties are then those
   * of the first descriptor with a value, each holding the negative and that
   * value.
   */
  lemma DynamicStyleOfFirstFound(state: State, pieces: Pieces, dynamicKey: string, entry: DynamicEntry, i: nat)
    requires var ds := StyleSet(entry);
      i < |ds| && ResolveAll(state, ds, ValueKey(pieces, dynamicKey)).Success?
      && FirstFoundAt(ResolveAll(state, ds, ValueKey(pieces, dynamicKey)).value, i)
    requires !EndsWith(pieces.className, "-")
    ensures var ds := StyleSet(entry);
      var v := ResolveAll(state, ds, ValueKey(pieces, dynamicKey)).value[i].value;
      HandleDynamic(state, pieces, dynamicKey, entry).Success?
      && forall k :: (Get(HandleDynamic(state, pieces, dynamicKey, entry).value, k)
        == if k in PropNames(ds[i].prop) then Some(Str(pieces.negative + Rendered(v, pieces.negative))) else None)
  {
    var ds := StyleSet(entry);
    var values := ResolveAll(state, ds, ValueKey(pieces, dynamicKey)).value;
    var first := FirstFound(values);
    assert first == Some(i);
  }

  /** Conversely, a dynamic style means every descriptor resolved, one had a value, and no trailing '-'. */
  lemma DynamicStyleOnlyIfFound(state: State, pieces: Pieces, dynamicKey: string, entry: DynamicEntry)
    requires HandleDynamic(state, pieces, dynamicKey, entry).Success?
    ensures var values := ResolveAll(state, StyleSet(entry), ValueKey(pieces, dynamicKey));
      values.Success? && FirstFound(values.value).Some? && !EndsWith(pieces.className, "-")
  {
  }

  /** The first descriptor whose lookup fails fails the class with that lookup's error. */
  lemma LookupErrorFailsClass(state: State, pieces: Pieces, dynamicKey: string, entry: DynamicEntry)
    requires ResolveAll(state, StyleSet(entry), ValueKey(pieces, dynamicKey)).Failure?
    ensures HandleDynamic(state, pieces, dynamicKey, entry)
      == Failure(ResolveAll(state, StyleSet(entry), ValueKey(pieces, dynamicKey)).error)
  {
  }

  /**
   * Every descriptor resolved and none has a value: "not found", with the
   * suggestions searching each descriptor's `config` domain.
   */
  lemma NoValueNotFound(state: State, pieces: Pieces, dynamicKey: string, entry: DynamicEntry)
    requires var values := ResolveAll(state, StyleSet(entry), ValueKey(pieces, dynamicKey));
      values.Success? && forall j :: 0 <= j < |values.value| ==> !Found(values.value[j])
    ensures HandleDynamic(state, pieces, dynamicKey, entry)
      == Failure(ErrorSuggestions(state, pieces, Some(Configs(StyleSet(entry))), dynamicKey))
  {
  }

  /** A class ending in '-' never gets a dynamic style. */
  lemma TrailingDashNotFound(state: State, pieces: Pieces, dynamicKey: string, entry: DynamicEntry)
    requires EndsWith(pieces.className, "-")
    requires ResolveAll(state, StyleSet(entry), ValueKey(pieces, dynamicKey)).Success?
    ensures HandleDynamic(state, pieces, dynamicKey, entry)
      == Failure(ErrorSuggestions(state, pieces, Some(Configs(StyleSet(entry))), dynamicKey))
  {
  }

  /**
   * A negative class signs a string value once: a value the theme already
   * gives as negative ("-4px") keeps its one sign, any other is prefixed.
   * A positive class writes the value as it is.
   */
  lemma NegativeValueSignedOnce(prop: Option<CssProp>, v: string, name: string)
    requires name in PropNames(prop)
    ensures Get(Styleify(prop, CStr(v), "-"), name) == Some(Str(if |v| > 1 && v[0] == '-' then v else "-" + v))
    ensures Get(Styleify(prop, CStr(v), ""), name) == Some(Str(v))
  {
    assert "" + v == v;
    if |v| > 1 && v[0] == '-' {
      assert "-" + v[1..] == v;
    }
  }

  // ------------------------------------------------------------------ colour

  /** `hasAlpha`: a colour written with an alpha channel. */
  predicate HasAlpha(color: string) {
    StartsWith(color, "rgba(") || StartsWith(color, "hsla(")
    || (StartsWith(color, "#") && (|color| == 9 || |color| == 5))
  }

  /**
   * The colour the opacity variable can be applied to: a string the colour
   * library reads, with no alpha of its own and none in how it is written.
   */
  predicate OpacityAdjustable(host: Host, color: ConfigValue) {
    color.CStr? && host.parseColor(color.s).Some? && host.parseColor(color.s).value.alpha.None?
    && !HasAlpha(color.s)
  }

  /**
   * `withAlpha`: the colour as `rgba(r, g, b, var(variable))` with the
   * variable set to 1, when the colour is adjustable; the colour as written
   * otherwise (an unreadable colour included: the library's error is caught).
   */
  function WithAlpha(host: Host, color: ConfigValue, property: string, variable: string, important: string):
    (r: Entries)
    ensures Get(r, property).Some? && DistinctKeys(r)
    ensures !OpacityAdjustable(host, color) ==> r == [(property, Str(Text(color) + important))]
    ensures OpacityAdjustable(host, color) && variable != property ==>
      Get(r, variable) == Some(Str("1")) && Keys(r) == [variable, property]
    ensures OpacityAdjustable(host, color) ==> var c := host.parseColor(color.s).value;
      Get(r, property) == Some(Str("rgba(" + NatToString(c.r) + ", " + NatToString(c.g) + ", " + NatToString(c.b)
        + ", var(" + variable + "))" + important))
  {
    var plain := [(property, Str(Text(color) + important))];
    if !OpacityAdjustable(host, color) then plain
    else
      var c := host.parseColor(color.s).value;
      var rgba := "rgba(" + NatToString(c.r) + ", " + NatToString(c.g) + ", " + NatToString(c.b)
        + ", var(" + variable + "))" + important;
      Put([(variable, Str("1"))], property, Str(rgba))
  }

  /** An eight-digit hex colour keeps its own alpha: no variable is added. */
  lemma HexWithAlphaKept(host: Host, hex: string, property: string, variable: string, important: string)
    requires |hex| == 9 && hex[0] == '#'
    ensures WithAlpha(host, CStr(hex), property, variable, important) == [(property, Str(hex + important))]
  {
    assert HasAlpha(hex) by {
      assert hex[..1] == "#";
    }
  }

  /** An array colour (a colour given as channels) is written as it is. */
  lemma ArrayColourKept(host: Host, items: seq<Value>, property: string, variable: string, important: string)
    ensures WithAlpha(host, CArr(items), property, variable, important)
      == [(property, Str(JsString(Arr(items)) + important))]
  {
  }
}
