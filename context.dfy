/**
 * What one resolution pass is given: the resolved theme, the pre-processed
 * user plugins, the options, and the foreign functions the engine calls.
 */
module Context {
  import opened Wrappers
  import opened Json
  import opened Diagnostics
  import opened Tables

  /**
   * What the colour library reports for a colour: its channels, and its alpha
   * only when the alpha is not 1 (that is when `.rgb().array()` has a fourth item).
   */
  datatype Rgb = Rgb(r: nat, g: nat, b: nat, alpha: Option<real>)

  /**
   * The foreign functions: `createColor(c).rgb().array()` (`None` when it
   * throws) and `stringSimilarity.compareTwoStrings`.
   */
  datatype Host = Host(parseColor: string -> Option<Rgb>, similarity: (string, string) -> Rating)

  /** A declaration of a rule produced by `processPlugins`. */
  datatype Decl = Decl(prop: string, value: string)

  /** A rule produced by `processPlugins`; its selector may be missing. */
  datatype CssRule = CssRule(selector: Option<string>, decls: seq<Decl>)

  /** A top-level utility node: whether it is an at-rule, its name and its child rules. */
  datatype UtilityNode = UtilityNode(isAtRule: bool, name: string, rules: seq<CssRule>)

  /** The output of `processPlugins` for the configured user plugins. */
  datatype ProcessedPlugins = ProcessedPlugins(components: seq<CssRule>, utilities: seq<UtilityNode>)

  /**
   * The resolution state: the resolved theme (`state.config.theme`), the user
   * plugins (`None` when `state.config.plugins` is empty), the `sassyPseudo`
   * and `hasSuggestions` options, and the foreign functions.  The class
   * tables and the built-in variant table the engine imports travel with it,
   * so that every property holds for any tables; `EngineTables` says they
   * are the engine's own.
   */
  datatype State = State(
    theme: Value,
    plugins: Option<ProcessedPlugins>,
    sassyPseudo: bool,
    hasSuggestions: bool,
    host: Host,
    statics: seq<(string, StaticEntry)>,
    dynamics: seq<(string, DynamicEntry)>,
    variants: seq<(string, string)>)

  /** The state carries the engine's own static and dynamic tables. */
  predicate EngineTables(state: State) {
    state.statics == StaticTable() && state.dynamics == DynamicTable() && state.variants == VariantTable()
  }

  /** `dlv(v, path)`: descend while the current value is truthy. */
  function Dlv(v: Option<Value>, path: seq<string>): Option<Value>
    decreases |path|
  {
    if |path| == 0 then v
    else if Truthy(v) then Dlv(Prop(v.value, path[0]), path[1..])
    else None
  }

  /** The theme accessor `getTheme(theme)(grab)` (macro.js:28-32): no name gives the whole theme. */
  function Theme(theme: Value, grab: Option<string>): Option<Value> {
    if grab.None? || grab.value == "" then Some(theme) else Dlv(Some(theme), [grab.value])
  }
}
