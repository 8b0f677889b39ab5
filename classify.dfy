/**
 * Which handler a bare class goes to (`isStaticClass`,
 * `getDynamicProperties`, `getProperties`, macro.js:1707-1749): a static
 * class wins over a dynamic one, a dynamic one over a core plugin.
 */
module Classify {
  import opened Wrappers
  import opened Strings
  import opened Json
  import opened Tables

  /** The handler a class is sent to. */
  datatype Kind = Static | Dynamic | CorePlugin(plugin: string) | Unmatched

  /** `isStaticClass` on one entry: a non-empty `config`, or an output whose first key is non-empty. */
  predicate IsStaticEntry(e: StaticEntry) {
    (e.config.Some? && e.config.value != "")
    || (e.output.Some? && IsObjectLike(e.output.value) && |JsEntries(e.output.value)| > 0
        && JsEntries(e.output.value)[0].0 != "")
  }

  predicate IsStaticClass(table: seq<(string, StaticEntry)>, className: string) {
    match Lookup(table, className)
    case Some(e) => IsStaticEntry(e)
    case None => false
  }

  /** A dynamic key matches a class equal to it or starting with it and a '-'. */
  predicate KeyMatches(k: string, className: string) {
    StartsWith(className, k + "-") || className == k
  }

  /**
   * The `reduce` of `getDynamicProperties` (macro.js:1716-1718) from an
   * accumulator: a matching key replaces it only when strictly longer.
   */
  function LongestMatch(table: seq<(string, DynamicEntry)>, className: string, best: string): string
    decreases |table|
  {
    if |table| == 0 then best
    else
      var k := table[0].0;
      var next := if KeyMatches(k, className) && |best| < |k| then k else best;
      LongestMatch(table[1..], className, next)
  }

  /** The dynamic key of a class; "" when no key matches (JavaScript's `[]`, of length 0). */
  function DynamicKey(table: seq<(string, DynamicEntry)>, className: string): string {
    LongestMatch(table, className, "")
  }

  /** `table[i]` is a matching key that is strictly longer than every matching key before it and no shorter than any after. */
  predicate LongestFirst(table: seq<(string, DynamicEntry)>, className: string, i: int) {
    0 <= i < |table| && KeyMatches(table[i].0, className) && |table[i].0| > 0
    && (forall j :: 0 <= j < i && KeyMatches(table[j].0, className) ==> |table[j].0| < |table[i].0|)
    && (forall j :: i < j < |table| && KeyMatches(table[j].0, className) ==> |table[j].0| <= |table[i].0|)
  }

  /** No matching key in `table` is longer than `n`. */
  predicate Bounded(table: seq<(string, DynamicEntry)>, className: string, n: int) {
    forall j :: 0 <= j < |table| && KeyMatches(table[j].0, className) ==> |table[j].0| <= n
  }

  /** `r` is the matching key at `i`, longer than every matching key before it and no shorter than any after. */
  predicate LongestAt(table: seq<(string, DynamicEntry)>, className: string, r: string, i: int) {
    0 <= i < |table| && r == table[i].0 && KeyMatches(r, className)
    && (forall j :: 0 <= j < i && KeyMatches(table[j].0, className) ==> |table[j].0| < |r|)
    && (forall j :: i < j < |table| && KeyMatches(table[j].0, className) ==> |table[j].0| <= |r|)
  }

  /**
   * The scan keeps `best` when no matching key is longer, and otherwise ends
   * on the first of the longest matching keys.
   */
  lemma {:induction false} LongestMatchFrom(table: seq<(string, DynamicEntry)>, className: string, best: string)
    ensures var r := LongestMatch(table, className, best);
      (r == best && Bounded(table, className, |best|))
      || (|best| < |r| && exists i :: LongestAt(table, className, r, i))
    decreases |table|
  {
    if |table| > 0 {
      var k := table[0].0;
      var next := if KeyMatches(k, className) && |best| < |k| then k else best;
      LongestMatchFrom(table[1..], className, next);
      var r := LongestMatch(table[1..], className, next);
      assert LongestMatch(table, className, best) == r;
      if r == next && Bounded(table[1..], className, |next|) {
        if next == k && k != best {
          LongestAtHead(table, className);
        } else {
          BoundedTail(table, className, |best|);
        }
      } else {
        var i :| LongestAt(table[1..], className, r, i);
        LongestAtTail(table, className, r, i);
      }
    }
  }

  lemma BoundedTail(table: seq<(string, DynamicEntry)>, className: string, n: int)
    requires |table| > 0 && Bounded(table[1..], className, n)
    requires KeyMatches(table[0].0, className) ==> |table[0].0| <= n
    ensures Bounded(table, className, n)
  {
    forall j | 0 < j < |table| ensures table[j] == table[1..][j - 1] {
    }
  }

  lemma LongestAtHead(table: seq<(string, DynamicEntry)>, className: string)
    requires |table| > 0 && KeyMatches(table[0].0, className) && Bounded(table[1..], className, |table[0].0|)
    ensures LongestAt(table, className, table[0].0, 0)
  {
    forall j | 0 < j < |table| ensures table[j] == table[1..][j - 1] {
    }
  }

  lemma LongestAtTail(table: seq<(string, DynamicEntry)>, className: string, r: string, i: int)
    requires |table| > 0 && LongestAt(table[1..], className, r, i)
    requires KeyMatches(table[0].0, className) ==> |table[0].0| < |r|
    ensures LongestAt(table, className, r, i + 1)
  {
    forall j | 0 < j < |table| ensures table[j] == table[1..][j - 1] {
    }
  }

  /**
   * The dynamic key is the longest matching key, the first of several of
   * that length; "" exactly when no non-empty key matches.
   */
  lemma DynamicKeyIsLongestMatch(table: seq<(string, DynamicEntry)>, className: string)
    ensures var r := DynamicKey(table, className);
      (r == "" <==> forall j :: 0 <= j < |table| && KeyMatches(table[j].0, className) ==> table[j].0 == "")
      && (r != "" ==> exists i :: LongestFirst(table, className, i) && table[i].0 == r)
  {
    LongestMatchFrom(table, className, "");
    var r := DynamicKey(table, className);
    if r != "" {
      var i :| LongestAt(table, className, r, i);
      assert LongestFirst(table, className, i);
    }
  }

  /** What `getProperties` hands on. */
  datatype Properties = Properties(
    kind: Kind,
    dynamicKey: string,
    dynamicConfig: Option<DynamicEntry>,
    corePlugin: Option<string>)

  /** `Boolean(dynamicConfig.config)`: an array of descriptors always counts. */
  predicate IsDynamicEntry(e: Option<DynamicEntry>) {
    match e
    case Some(Several(_)) => true
    case Some(Single(d)) => d.config.Some? && d.config.value != ""
    case None => false
  }

  function PluginOf(e: Option<DynamicEntry>): Option<string> {
    match e
    case Some(Single(d)) => d.plugin
    case _ => None
  }

  /** The handler, in the order static, dynamic, core plugin. */
  function KindOf(isStatic: bool, isDynamic: bool, corePlugin: Option<string>): (k: Kind)
    ensures isStatic <==> k == Static
    ensures k == Dynamic <==> !isStatic && isDynamic
    ensures k.CorePlugin? <==> !isStatic && !isDynamic && corePlugin.Some? && corePlugin.value != ""
    ensures k.CorePlugin? ==> corePlugin == Some(k.plugin)
  {
    if isStatic then Static
    else if isDynamic then Dynamic
    else if corePlugin.Some? && corePlugin.value != "" then CorePlugin(corePlugin.value)
    else Unmatched
  }

  /**
   * `getProperties` (macro.js:1731-1749) over the two tables; an empty class
   * has no properties.
   */
  function GetPropertiesIn(statics: seq<(string, StaticEntry)>, dynamics: seq<(string, DynamicEntry)>, className: string):
    (r: Option<Properties>)
    ensures r.None? <==> className == ""
    ensures r.Some? ==> r.value.dynamicKey == DynamicKey(dynamics, className)
    ensures r.Some? ==> (r.value.kind == Static <==> IsStaticClass(statics, className))
    ensures r.Some? && r.value.dynamicKey == "" ==> r.value.kind == Static || r.value.kind == Unmatched
    ensures r.Some? && r.value.kind == Dynamic ==> r.value.dynamicConfig.Some?
  {
    if className == "" then None
    else
      var dynamicKey := DynamicKey(dynamics, className);
      var dynamicConfig := if dynamicKey == "" then None else Lookup(dynamics, dynamicKey);
      var corePlugin := PluginOf(dynamicConfig);
      Some(Properties(
        KindOf(IsStaticClass(statics, className), IsDynamicEntry(dynamicConfig), corePlugin),
        dynamicKey,
        dynamicConfig,
        corePlugin))
  }

  /** `getProperties` over the engine's own tables. */
  function GetProperties(className: string): Option<Properties> {
    GetPropertiesIn(StaticTable(), DynamicTable(), className)
  }
}

/** Two classifications worked out on small tables. */
module ClassifyExamples {
  import opened Wrappers
  import opened Strings
  import opened Json
  import opened Tables
  import opened Classify

  /** "border-t-2" against the keys "border" and "border-t": the longer key wins. */
  lemma LongerKeyWins(d1: DynamicEntry, d2: DynamicEntry)
    ensures DynamicKey([("border", d1), ("border-t", d2)], "border-t-2") == "border-t"
  {
    var t := [("border", d1), ("border-t", d2)];
    var c := "border-t-2";
    assert c[..7] == "border" + "-";
    assert KeyMatches(t[0].0, c);
    assert c[..9] == "border-t" + "-";
    assert KeyMatches(t[1..][0].0, c);
    assert t[1..][1..] == [];
    calc {
      LongestMatch(t, c, "");
      LongestMatch(t[1..], c, "border");
      LongestMatch(t[1..][1..], c, "border-t");
      "border-t";
    }
  }

  /** "flex" is both a static class and a dynamic key: the static entry decides. */
  lemma StaticWinsOverDynamic(d: DynamicEntry)
    ensures GetPropertiesIn([("flex", StaticEntry(Some(Obj([("display", Str("flex"))])), None))], [("flex", d)], "flex")
      == Some(Properties(Static, "flex", Some(d), PluginOf(Some(d))))
  {
    var statics := [("flex", StaticEntry(Some(Obj([("display", Str("flex"))])), None))];
    var t := [("flex", d)];
    assert IsStaticClass(statics, "flex");
    assert KeyMatches(t[0].0, "flex");
    assert t[1..] == [];
    calc {
      DynamicKey(t, "flex");
      LongestMatch(t[1..], "flex", "flex");
      "flex";
    }
  }
}
