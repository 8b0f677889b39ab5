/**
 * The fixed tables of the engine, transcribed entry for entry and in source
 * order: the dynamic table (macro.js:54-599), the static table
 * (macro.js:601-1638), the built-in variants (macro.js:1647-1705) and the
 * curated alias suggestions (macro.js:1792-1808).
 */
module Tables {
  import opened Wrappers
  import opened Json

  /** A `prop` field: one CSS property or several that share a value. */
  datatype CssProp = One(name: string) | Many(names: seq<string>)

  /** One `{prop, config, configFallback, plugin}` object of the dynamic table. */
  datatype Descriptor = Descriptor(
    prop: Option<CssProp>,
    config: Option<string>,
    configFallback: Option<string>,
    plugin: Option<string>)

  /** A dynamic-table value: a single descriptor object or an array of them. */
  datatype DynamicEntry = Single(d: Descriptor) | Several(ds: seq<Descriptor>)

  /** A static-table value: its `output` style and its `config` field (`false` reads as `None`). */
  datatype StaticEntry = StaticEntry(output: Option<Value>, config: Option<string>)

  /** `table[k]` for a table keyed by strings. */
  function Lookup<V>(table: seq<(string, V)>, k: string): (r: Option<V>)
    ensures r.Some? ==> (k, r.value) in table
    ensures r.None? ==> forall i :: 0 <= i < |table| ==> table[i].0 != k
  {
    if |table| == 0 then None
    else if table[0].0 == k then Some(table[0].1)
    else Lookup(table[1..], k)
  }

  function TableKeys<V>(table: seq<(string, V)>): seq<string> {
    seq(|table|, i requires 0 <= i < |table| => table[i].0)
  }

  function DynamicTable(): seq<(string, DynamicEntry)> {
    [
      ("container", Single(Descriptor(None, None, None, Some("container")))),
      ("object", Single(Descriptor(Some(One("objectPosition")), Some("objectPosition"), None, None))),
      ("top", Single(Descriptor(Some(One("top")), Some("inset"), None, None))),
      ("bottom", Single(Descriptor(Some(One("bottom")), Some("inset"), None, None))),
      ("right", Single(Descriptor(Some(One("right")), Some("inset"), None, None))),
      ("left", Single(Descriptor(Some(One("left")), Some("inset"), None, None))),
      ("inset-y", Single(Descriptor(Some(Many(["top", "bottom"])), Some("inset"), None, None))),
      ("inset-x", Single(Descriptor(Some(Many(["left", "right"])), Some("inset"), None, None))),
      ("inset", Single(Descriptor(Some(Many(["top", "right", "bottom", "left"])), Some("inset"), None, None))),
      ("z", Single(Descriptor(Some(One("zIndex")), Some("zIndex"), None, None))),
      ("space-y", Single(Descriptor(None, None, None, Some("space")))),
      ("space-x", Single(Descriptor(None, None, None, Some("space")))),
      ("divide-opacity", Single(Descriptor(None, None, None, Some("divide")))),
      ("divide-y", Single(Descriptor(None, None, None, Some("divide")))),
      ("divide-x", Single(Descriptor(None, None, None, Some("divide")))),
      ("divide", Single(Descriptor(None, None, None, Some("divide")))),
      ("flex-grow", Single(Descriptor(Some(One("flexGrow")), Some("flexGrow"), None, None))),
      ("flex-shrink", Single(Descriptor(Some(One("flexShrink")), Some("flexShrink"), None, None))),
      ("flex", Single(Descriptor(Some(One("flex")), Some("flex"), None, None))),
      ("order", Single(Descriptor(Some(One("order")), Some("order"), None, None))),
      ("grid-cols", Single(Descriptor(Some(One("gridTemplateColumns")), Some("gridTemplateColumns"), None, None))),
      ("col", Single(Descriptor(Some(One("gridColumn")), Some("gridColumn"), None, None))),
      ("col-start", Single(Descriptor(Some(One("gridColumnStart")), Some("gridColumnStart"), None, None))),
      ("col-end", Single(Descriptor(Some(One("gridColumnEnd")), Some("gridColumnEnd"), None, None))),
      ("grid-rows", Single(Descriptor(Some(One("gridTemplateRows")), Some("gridTemplateRows"), None, None))),
      ("row", Single(Descriptor(Some(One("gridRow")), Some("gridRow"), None, None))),
      ("row-start", Single(Descriptor(Some(One("gridRowStart")), Some("gridRowStart"), None, None))),
      ("row-end", Single(Descriptor(Some(One("gridRowEnd")), Some("gridRowEnd"), None, None))),
      ("gap", Single(Descriptor(Some(One("gap")), Some("gap"), None, None))),
      ("col-gap", Single(Descriptor(Some(One("columnGap")), Some("gap"), None, None))),
      ("row-gap", Single(Descriptor(Some(One("rowGap")), Some("gap"), None, None))),
      ("pt", Single(Descriptor(Some(One("paddingTop")), Some("padding"), None, None))),
      ("pr", Single(Descriptor(Some(One("paddingRight")), Some("padding"), None, None))),
      ("pb", Single(Descriptor(Some(One("paddingBottom")), Some("padding"), None, None))),
      ("pl", Single(Descriptor(Some(One("paddingLeft")), Some("padding"), None, None))),
      ("px", Single(Descriptor(Some(Many(["paddingLeft", "paddingRight"])), Some("padding"), None, None))),
      ("py", Single(Descriptor(Some(Many(["paddingTop", "paddingBottom"])), Some("padding"), None, None))),
      ("p", Single(Descriptor(Some(One("padding")), Some("padding"), None, None))),
      ("mt", Single(Descriptor(Some(One("marginTop")), Some("margin"), None, None))),
      ("mr", Single(Descriptor(Some(One("marginRight")), Some("margin"), None, None))),
      ("mb", Single(Descriptor(Some(One("marginBottom")), Some("margin"), None, None))),
      ("ml", Single(Descriptor(Some(One("marginLeft")), Some("margin"), None, None))),
      ("mx", Single(Descriptor(Some(Many(["marginLeft", "marginRight"])), Some("margin"), None, None))),
      ("my", Single(Descriptor(Some(Many(["marginTop", "marginBottom"])), Some("margin"), None, None))),
      ("m", Single(Descriptor(Some(One("margin")), Some("margin"), None, None))),
      ("w", Single(Descriptor(Some(One("width")), Some("width"), None, None))),
      ("min-w", Single(Descriptor(Some(One("minWidth")), Some("minWidth"), None, None))),
      ("max-w", Single(Descriptor(Some(One("maxWidth")), Some("maxWidth"), None, None))),
      ("h", Single(Descriptor(Some(One("height")), Some("height"), None, None))),
      ("min-h", Single(Descriptor(Some(One("minHeight")), Some("minHeight"), None, None))),
      ("max-h", Single(Descriptor(Some(One("maxHeight")), Some("maxHeight"), None, None))),
      ("font", Several([Descriptor(Some(One("fontFamily")), Some("fontFamily"), None, None), Descriptor(Some(One("fontWeight")), Some("fontWeight"), None, None)])),
      ("tracking", Single(Descriptor(Some(One("letterSpacing")), Some("letterSpacing"), None, None))),
      ("leading", Single(Descriptor(Some(One("lineHeight")), Some("lineHeight"), None, None))),
      ("list", Single(Descriptor(Some(One("listStyleType")), Some("listStyleType"), None, None))),
      ("placeholder", Single(Descriptor(None, None, None, Some("placeholder")))),
      ("text-opacity", Single(Descriptor(Some(One("--text-opacity")), Some("textOpacity"), Some("opacity"), None))),
      ("text", Single(Descriptor(None, None, None, Some("text")))),
      ("bg-opacity", Single(Descriptor(Some(One("--bg-opacity")), Some("backgroundOpacity"), Some("opacity"), None))),
      ("bg", Single(Descriptor(None, None, None, Some("bg")))),
      ("border-t", Single(Descriptor(Some(One("borderTopWidth")), Some("borderWidth"), None, None))),
      ("border-b", Single(Descriptor(Some(One("borderBottomWidth")), Some("borderWidth"), None, None))),
      ("border-l", Single(Descriptor(Some(One("borderLeftWidth")), Some("borderWidth"), None, None))),
      ("border-r", Single(Descriptor(Some(One("borderRightWidth")), Some("borderWidth"), None, None))),
      ("border-opacity", Single(Descriptor(Some(One("--border-opacity")), Some("borderOpacity"), Some("opacity"), None))),
      ("border", Single(Descriptor(None, None, None, Some("border")))),
      ("rounded-tl", Single(Descriptor(Some(One("borderTopLeftRadius")), Some("borderRadius"), None, None))),
      ("rounded-tr", Single(Descriptor(Some(One("borderTopRightRadius")), Some("borderRadius"), None, None))),
      ("rounded-br", Single(Descriptor(Some(One("borderBottomRightRadius")), Some("borderRadius"), None, None))),
      ("rounded-bl", Single(Descriptor(Some(One("borderBottomLeftRadius")), Some("borderRadius"), None, None))),
      ("rounded-t", Single(Descriptor(Some(Many(["borderTopLeftRadius", "borderTopRightRadius"])), Some("borderRadius"), None, None))),
      ("rounded-r", Single(Descriptor(Some(Many(["borderTopRightRadius", "borderBottomRightRadius"])), Some("borderRadius"), None, None))),
      ("rounded-b", Single(Descriptor(Some(Many(["borderBottomLeftRadius", "borderBottomRightRadius"])), Some("borderRadius"), None, None))),
      ("rounded-l", Single(Descriptor(Some(Many(["borderTopLeftRadius", "borderBottomLeftRadius"])), Some("borderRadius"), None, None))),
      ("rounded", Single(Descriptor(Some(One("borderRadius")), Some("borderRadius"), None, None))),
      ("shadow", Single(Descriptor(Some(One("boxShadow")), Some("boxShadow"), None, None))),
      ("opacity", Single(Descriptor(Some(One("opacity")), Some("opacity"), None, None))),
      ("transition", Single(Descriptor(Some(One("transitionProperty")), Some("transitionProperty"), None, None))),
      ("duration", Single(Descriptor(Some(One("transitionDuration")), Some("transitionDuration"), None, None))),
      ("ease", Single(Descriptor(Some(One("transitionTimingFunction")), Some("transitionTimingFunction"), None, None))),
      ("delay", Single(Descriptor(Some(One("transitionDelay")), Some("transitionDelay"), None, None))),
      ("scale-x", Single(Descriptor(Some(One("--transform-scale-x")), Some("scale"), None, None))),
      ("scale-y", Single(Descriptor(Some(One("--transform-scale-y")), Some("scale"), None, None))),
      ("scale", Single(Descriptor(Some(Many(["--transform-scale-x", "--transform-scale-y"])), Some("scale"), None, None))),
      ("rotate", Single(Descriptor(Some(One("--transform-rotate")), Some("rotate"), None, None))),
      ("translate-x", Single(Descriptor(Some(One("--transform-translate-x")), Some("translate"), None, None))),
      ("translate-y", Single(Descriptor(Some(One("--transform-translate-y")), Some("translate"), None, None))),
      ("skew-x", Single(Descriptor(Some(One("--transform-skew-x")), Some("skew"), None, None))),
      ("skew-y", Single(Descriptor(Some(One("--transform-skew-y")), Some("skew"), None, None))),
      ("origin", Single(Descriptor(Some(One("transformOrigin")), Some("transformOrigin"), None, None))),
      ("cursor", Single(Descriptor(Some(One("cursor")), Some("cursor"), None, None))),
      ("fill", Single(Descriptor(Some(One("fill")), Some("fill"), None, None))),
      ("stroke", Several([Descriptor(Some(One("stroke")), Some("stroke"), None, None), Descriptor(Some(One("strokeWidth")), Some("strokeWidth"), None, None)]))
    ]
  }

  function StaticTable(): seq<(string, StaticEntry)> {
    [
      ("box-border", StaticEntry(Some(Obj([("boxSizing", Str("border-box"))])), None)),
      ("box-content", StaticEntry(Some(Obj([("boxSizing", Str("content-box"))])), None)),
      ("hidden", StaticEntry(Some(Obj([("display", Str("none"))])), None)),
      ("block", StaticEntry(Some(Obj([("display", Str("block"))])), None)),
      ("inline-block", StaticEntry(Some(Obj([("display", Str("inline-block"))])), None)),
      ("inline", StaticEntry(Some(Obj([("display", Str("inline"))])), None)),
      ("flow-root", StaticEntry(Some(Obj([("display", Str("flow-root"))])), None)),
      ("flex", StaticEntry(Some(Obj([("display", Str("flex"))])), None)),
      ("inline-flex", StaticEntry(Some(Obj([("display", Str("inline-flex"))])), None)),
      ("grid", StaticEntry(Some(Obj([("display", Str("grid"))])), None)),
      ("inline-grid", StaticEntry(Some(Obj([("display", Str("inline-grid"))])), None)),
      ("table", StaticEntry(Some(Obj([("display", Str("table"))])), None)),
      ("table-caption", StaticEntry(Some(Obj([("display", Str("table-caption"))])), None)),
      ("table-cell", StaticEntry(Some(Obj([("display", Str("table-cell"))])), None)),
      ("table-column", StaticEntry(Some(Obj([("display", Str("table-column"))])), None)),
      ("table-column-group", StaticEntry(Some(Obj([("display", Str("table-column-group"))])), None)),
      ("table-footer-group", StaticEntry(Some(Obj([("display", Str("table-footer-group"))])), None)),
      ("table-header-group", StaticEntry(Some(Obj([("display", Str("table-header-group"))])), None)),
      ("table-row-group", StaticEntry(Some(Obj([("display", Str("table-row-group"))])), None)),
      ("table-row", StaticEntry(Some(Obj([("display", Str("table-row"))])), None)),
      ("float-right", StaticEntry(Some(Obj([("float", Str("right"))])), None)),
      ("float-left", StaticEntry(Some(Obj([("float", Str("left"))])), None)),
      ("float-none", StaticEntry(Some(Obj([("float", Str("none"))])), None)),
      ("clearfix", StaticEntry(Some(Obj([("::after", Obj([("content", Str("\"\"")), ("display", Str("table")), ("clear", Str("both"))]))])), None)),
      ("clear-left", StaticEntry(Some(Obj([("clear", Str("left"))])), None)),
      ("clear-right", StaticEntry(Some(Obj([("clear", Str("right"))])), None)),
      ("clear-both", StaticEntry(Some(Obj([("clear", Str("both"))])), None)),
      ("clear-none", StaticEntry(Some(Obj([("clear", Str("none"))])), None)),
      ("object-contain", StaticEntry(Some(Obj([("objectFit", Str("contain"))])), None)),
      ("object-cover", StaticEntry(Some(Obj([("objectFit", Str("cover"))])), None)),
      ("object-fill", StaticEntry(Some(Obj([("objectFit", Str("fill"))])), None)),
      ("object-none", StaticEntry(Some(Obj([("objectFit", Str("none"))])), None)),
      ("object-scale-down", StaticEntry(Some(Obj([("objectFit", Str("scale-down"))])), None)),
      ("overflow-auto", StaticEntry(Some(Obj([("overflow", Str("auto"))])), Some("overflow"))),
      ("overflow-hidden", StaticEntry(Some(Obj([("overflow", Str("hidden"))])), Some("overflow"))),
      ("overflow-visible", StaticEntry(Some(Obj([("overflow", Str("visible"))])), Some("overflow"))),
      ("overflow-scroll", StaticEntry(Some(Obj([("overflow", Str("scroll"))])), Some("overflow"))),
      ("overflow-x-auto", StaticEntry(Some(Obj([("overflowX", Str("auto"))])), Some("overflow"))),
      ("overflow-y-auto", StaticEntry(Some(Obj([("overflowY", Str("auto"))])), Some("overflow"))),
      ("overflow-x-hidden", StaticEntry(Some(Obj([("overflowX", Str("hidden"))])), Some("overflow"))),
      ("overflow-y-hidden", StaticEntry(Some(Obj([("overflowY", Str("hidden"))])), Some("overflow"))),
      ("overflow-x-visible", StaticEntry(Some(Obj([("overflowX", Str("visible"))])), Some("overflow"))),
      ("overflow-y-visible", StaticEntry(Some(Obj([("overflowY", Str("visible"))])), Some("overflow"))),
      ("overflow-x-scroll", StaticEntry(Some(Obj([("overflowX", Str("scroll"))])), Some("overflow"))),
      ("overflow-y-scroll", StaticEntry(Some(Obj([("overflowY", Str("scroll"))])), Some("overflow"))),
      ("scrolling-touch", StaticEntry(Some(Obj([("WebkitOverflowScrolling", Str("touch"))])), None)),
      ("scrolling-auto", StaticEntry(Some(Obj([("WebkitOverflowScrolling", Str("auto"))])), None)),
      ("static", StaticEntry(Some(Obj([("position", Str("static"))])), None)),
      ("fixed", StaticEntry(Some(Obj([("position", Str("fixed"))])), None)),
      ("absolute", StaticEntry(Some(Obj([("position", Str("absolute"))])), None)),
      ("relative", StaticEntry(Some(Obj([("position", Str("relative"))])), None)),
      ("sticky", StaticEntry(Some(Obj([("position", Str("sticky"))])), None)),
      ("visible", StaticEntry(Some(Obj([("visibility", Str("visible"))])), None)),
      ("invisible", StaticEntry(Some(Obj([("visibility", Str("hidden"))])), None)),
      ("space-x-reverse", StaticEntry(Some(Obj([("> :not(template) ~ :not(template)", Obj([("--space-x-reverse", Num(1))]))])), None)),
      ("space-y-reverse", StaticEntry(Some(Obj([("> :not(template) ~ :not(template)", Obj([("--space-y-reverse", Num(1))]))])), None)),
      ("divide-x-reverse", StaticEntry(Some(Obj([("> :not(template) ~ :not(template)", Obj([("--divide-x-reverse", Num(1))]))])), None)),
      ("divide-y-reverse", StaticEntry(Some(Obj([("> :not(template) ~ :not(template)", Obj([("--divide-y-reverse", Num(1))]))])), None)),
      ("flex-row", StaticEntry(Some(Obj([("flexDirection", Str("row"))])), None)),
      ("flex-row-reverse", StaticEntry(Some(Obj([("flexDirection", Str("row-reverse"))])), None)),
      ("flex-col", StaticEntry(Some(Obj([("flexDirection", Str("column"))])), None)),
      ("flex-col-reverse", StaticEntry(Some(Obj([("flexDirection", Str("column-reverse"))])), None)),
      ("flex-no-wrap", StaticEntry(Some(Obj([("flexWrap", Str("nowrap"))])), None)),
      ("flex-wrap", StaticEntry(Some(Obj([("flexWrap", Str("wrap"))])), None)),
      ("flex-wrap-reverse", StaticEntry(Some(Obj([("flexWrap", Str("wrap-reverse"))])), None)),
      ("items-stretch", StaticEntry(Some(Obj([("alignItems", Str("stretch"))])), None)),
      ("items-start", StaticEntry(Some(Obj([("alignItems", Str("flex-start"))])), None)),
      ("items-center", StaticEntry(Some(Obj([("alignItems", Str("center"))])), None)),
      ("items-end", StaticEntry(Some(Obj([("alignItems", Str("flex-end"))])), None)),
      ("items-baseline", StaticEntry(Some(Obj([("alignItems", Str("baseline"))])), None)),
      ("content-start", StaticEntry(Some(Obj([("alignContent", Str("flex-start"))])), None)),
      ("content-center", StaticEntry(Some(Obj([("alignContent", Str("center"))])), None)),
      ("content-end", StaticEntry(Some(Obj([("alignContent", Str("flex-end"))])), None)),
      ("content-between", StaticEntry(Some(Obj([("alignContent", Str("space-between"))])), None)),
      ("content-around", StaticEntry(Some(Obj([("alignContent", Str("space-around"))])), None)),
      ("self-auto", StaticEntry(Some(Obj([("alignSelf", Str("auto"))])), None)),
      ("self-start", StaticEntry(Some(Obj([("alignSelf", Str("flex-start"))])), None)),
      ("self-center", StaticEntry(Some(Obj([("alignSelf", Str("center"))])), None)),
      ("self-end", StaticEntry(Some(Obj([("alignSelf", Str("flex-end"))])), None)),
      ("self-stretch", StaticEntry(Some(Obj([("alignSelf", Str("stretch"))])), None)),
      ("justify-start", StaticEntry(Some(Obj([("justifyContent", Str("flex-start"))])), None)),
      ("justify-center", StaticEntry(Some(Obj([("justifyContent", Str("center"))])), None)),
      ("justify-end", StaticEntry(Some(Obj([("justifyContent", Str("flex-end"))])), None)),
      ("justify-between", StaticEntry(Some(Obj([("justifyContent", Str("space-between"))])), None)),
      ("justify-around", StaticEntry(Some(Obj([("justifyContent", Str("space-around"))])), None)),
      ("grid-flow-row", StaticEntry(Some(Obj([("gridAutoFlow", Str("row"))])), None)),
      ("grid-flow-col", StaticEntry(Some(Obj([("gridAutoFlow", Str("column"))])), None)),
      ("grid-flow-row-dense", StaticEntry(Some(Obj([("gridAutoFlow", Str("row dense"))])), None)),
      ("grid-flow-col-dense", StaticEntry(Some(Obj([("gridAutoFlow", Str("col dense"))])), None)),
      ("antialiased", StaticEntry(Some(Obj([("WebkitFontSmoothing", Str("antialiased")), ("MozOsxFontSmoothing", Str("grayscale"))])), None)),
      ("subpixel-antialiased", StaticEntry(Some(Obj([("WebkitFontSmoothing", Str("auto")), ("MozOsxFontSmoothing", Str("auto"))])), None)),
      ("italic", StaticEntry(Some(Obj([("fontStyle", Str("italic"))])), None)),
      ("not-italic", StaticEntry(Some(Obj([("fontStyle", Str("normal"))])), None)),
      ("list-inside", StaticEntry(Some(Obj([("listStylePosition", Str("inside"))])), None)),
      ("list-outside", StaticEntry(Some(Obj([("listStylePosition", Str("outside"))])), None)),
      ("text-left", StaticEntry(Some(Obj([("textAlign", Str("left"))])), None)),
      ("text-center", StaticEntry(Some(Obj([("textAlign", Str("center"))])), None)),
      ("text-right", StaticEntry(Some(Obj([("textAlign", Str("right"))])), None)),
      ("text-justify", StaticEntry(Some(Obj([("textAlign", Str("justify"))])), None)),
      ("underline", StaticEntry(Some(Obj([("textDecoration", Str("underline"))])), None)),
      ("line-through", StaticEntry(Some(Obj([("textDecoration", Str("line-through"))])), None)),
      ("no-underline", StaticEntry(Some(Obj([("textDecoration", Str("none"))])), None)),
      ("uppercase", StaticEntry(Some(Obj([("textTransform", Str("uppercase"))])), None)),
      ("lowercase", StaticEntry(Some(Obj([("textTransform", Str("lowercase"))])), None)),
      ("capitalize", StaticEntry(Some(Obj([("textTransform", Str("capitalize"))])), None)),
      ("normal-case", StaticEntry(Some(Obj([("textTransform", Str("none"))])), None)),
      ("align-baseline", StaticEntry(Some(Obj([("verticalAlign", Str("baseline"))])), None)),
      ("align-top", StaticEntry(Some(Obj([("verticalAlign", Str("top"))])), None)),
      ("align-middle", StaticEntry(Some(Obj([("verticalAlign", Str("middle"))])), None)),
      ("align-bottom", StaticEntry(Some(Obj([("verticalAlign", Str("bottom"))])), None)),
      ("align-text-top", StaticEntry(Some(Obj([("verticalAlign", Str("text-top"))])), None)),
      ("align-text-bottom", StaticEntry(Some(Obj([("verticalAlign", Str("text-bottom"))])), None)),
      ("whitespace-normal", StaticEntry(Some(Obj([("whiteSpace", Str("normal"))])), None)),
      ("whitespace-no-wrap", StaticEntry(Some(Obj([("whiteSpace", Str("nowrap"))])), None)),
      ("whitespace-pre", StaticEntry(Some(Obj([("whiteSpace", Str("pre"))])), None)),
      ("whitespace-pre-line", StaticEntry(Some(Obj([("whiteSpace", Str("pre-line"))])), None)),
      ("whitespace-pre-wrap", StaticEntry(Some(Obj([("whiteSpace", Str("pre-wrap"))])), None)),
      ("break-normal", StaticEntry(Some(Obj([("wordBreak", Str("normal")), ("overflowWrap", Str("normal"))])), Some("wordbreak"))),
      ("break-words", StaticEntry(Some(Obj([("overflowWrap", Str("break-word"))])), Some("wordbreak"))),
      ("break-all", StaticEntry(Some(Obj([("wordBreak", Str("break-all"))])), Some("wordbreak"))),
      ("truncate", StaticEntry(Some(Obj([("overflow", Str("hidden")), ("textOverflow", Str("ellipsis")), ("whiteSpace", Str("nowrap"))])), None)),
      ("bg-fixed", StaticEntry(Some(Obj([("backgroundAttachment", Str("fixed"))])), None)),
      ("bg-local", StaticEntry(Some(Obj([("backgroundAttachment", Str("local"))])), None)),
      ("bg-scroll", StaticEntry(Some(Obj([("backgroundAttachment", Str("scroll"))])), None)),
      ("bg-repeat", StaticEntry(Some(Obj([("backgroundRepeat", Str("repeat"))])), None)),
      ("bg-no-repeat", StaticEntry(Some(Obj([("backgroundRepeat", Str("no-repeat"))])), None)),
      ("bg-repeat-x", StaticEntry(Some(Obj([("backgroundRepeat", Str("repeat-x"))])), None)),
      ("bg-repeat-y", StaticEntry(Some(Obj([("backgroundRepeat", Str("repeat-y"))])), None)),
      ("bg-repeat-round", StaticEntry(Some(Obj([("backgroundRepeat", Str("round"))])), None)),
      ("bg-repeat-space", StaticEntry(Some(Obj([("backgroundRepeat", Str("space"))])), None)),
      ("border-solid", StaticEntry(Some(Obj([("borderStyle", Str("solid"))])), None)),
      ("border-dashed", StaticEntry(Some(Obj([("borderStyle", Str("dashed"))])), None)),
      ("border-dotted", StaticEntry(Some(Obj([("borderStyle", Str("dotted"))])), None)),
      ("border-double", StaticEntry(Some(Obj([("borderStyle", Str("double"))])), None)),
      ("border-none", StaticEntry(Some(Obj([("borderStyle", Str("none"))])), None)),
      ("border-collapse", StaticEntry(Some(Obj([("borderCollapse", Str("collapse"))])), None)),
      ("border-separate", StaticEntry(Some(Obj([("borderCollapse", Str("separate"))])), None)),
      ("table-auto", StaticEntry(Some(Obj([("tableLayout", Str("auto"))])), None)),
      ("table-fixed", StaticEntry(Some(Obj([("tableLayout", Str("fixed"))])), None)),
      ("appearance-none", StaticEntry(Some(Obj([("appearance", Str("none"))])), None)),
      ("outline-none", StaticEntry(Some(Obj([("outline", Num(0))])), None)),
      ("pointer-events-none", StaticEntry(Some(Obj([("pointerEvents", Str("none"))])), None)),
      ("pointer-events-auto", StaticEntry(Some(Obj([("pointerEvents", Str("auto"))])), None)),
      ("resize-none", StaticEntry(Some(Obj([("resize", Str("none"))])), None)),
      ("resize-y", StaticEntry(Some(Obj([("resize", Str("vertical"))])), None)),
      ("resize-x", StaticEntry(Some(Obj([("resize", Str("horizontal"))])), None)),
      ("resize", StaticEntry(Some(Obj([("resize", Str("both"))])), None)),
      ("select-none", StaticEntry(Some(Obj([("userSelect", Str("none"))])), None)),
      ("select-text", StaticEntry(Some(Obj([("userSelect", Str("text"))])), None)),
      ("select-all", StaticEntry(Some(Obj([("userSelect", Str("all"))])), None)),
      ("select-auto", StaticEntry(Some(Obj([("userSelect", Str("auto"))])), None)),
      ("sr-only", StaticEntry(Some(Obj([("position", Str("absolute")), ("width", Str("1px")), ("height", Str("1px")), ("padding", Str("0")), ("margin", Str("-1px")), ("overflow", Str("hidden")), ("clip", Str("rect(0, 0, 0, 0)")), ("whiteSpace", Str("nowrap")), ("borderWidth", Str("0"))])), Some("accessibility"))),
      ("not-sr-only", StaticEntry(Some(Obj([("position", Str("static")), ("width", Str("auto")), ("height", Str("auto")), ("padding", Str("0")), ("margin", Str("0")), ("overflow", Str("visible")), ("clip", Str("auto")), ("whiteSpace", Str("normal"))])), Some("accessibility"))),
      ("transform", StaticEntry(Some(Obj([("--transform-translate-x", Str("0")), ("--transform-translate-y", Str("0")), ("--transform-rotate", Str("0")), ("--transform-skew-x", Str("0")), ("--transform-skew-y", Str("0")), ("--transform-scale-x", Str("1")), ("--transform-scale-y", Str("1")), ("transform", Str("translateX(var(--transform-translate-x)) translateY(var(--transform-translate-y)) rotate(var(--transform-rotate)) skewX(var(--transform-skew-x)) skewY(var(--transform-skew-y)) scaleX(var(--transform-scale-x)) scaleY(var(--transform-scale-y))"))])), None)),
      ("content", StaticEntry(Some(Obj([("content", Str("\"\""))])), None))
    ]
  }

  function VariantTable(): seq<(string, string)> {
    [
      ("hover", ":hover"),
      ("focus", ":focus"),
      ("active", ":active"),
      ("visited", ":visited"),
      ("disabled", ":disabled"),
      ("first", ":first-child"),
      ("last", ":last-child"),
      ("odd", ":nth-child(odd)"),
      ("even", ":nth-child(even)"),
      ("group-hover", ".group:hover &"),
      ("group-focus", ".group:focus &"),
      ("focus-within", ":focus-within"),
      ("before", ":before"),
      ("after", ":after"),
      ("hocus", ":hover, :focus"),
      ("link", ":link"),
      ("target", ":target"),
      ("focus-visible", ":focus-visible"),
      ("checked", ":checked"),
      ("not-checked", ":not(:checked)"),
      ("default", ":default"),
      ("enabled", ":enabled"),
      ("indeterminate", ":indeterminate"),
      ("invalid", ":invalid"),
      ("valid", ":valid"),
      ("optional", ":optional"),
      ("required", ":required"),
      ("placeholder-shown", ":placeholder-shown"),
      ("read-only", ":read-only"),
      ("read-write", ":read-write"),
      ("not-first", ":not(:first-child)"),
      ("not-last", ":not(:last-child)"),
      ("not-only-child", ":not(:only-child)"),
      ("only-child", ":only-child"),
      ("only-of-type", ":only-of-type"),
      ("group-hocus", ".group:hover &, .group:focus &"),
      ("group-active", ".group:active &"),
      ("group-visited", ".group:visited &")
    ]
  }

  function AliasTable(): seq<(string, string)> {
    [
      ("align-center", "items-center"),
      ("center-align", "items-center"),
      ("flex-center", "items-center / justify-center"),
      ("inline-block", "block"),
      ("display-none", "hidden"),
      ("display-inline", "inline-block"),
      ("display-flex", "flex"),
      ("border-radius", "rounded"),
      ("flex-column", "flex-col"),
      ("flex-column-reverse", "flex-col-reverse"),
      ("text-italic", "italic"),
      ("text-normal", "not-italic")
    ]
  }
}
