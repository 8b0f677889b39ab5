/**
 * Classes that come from the user's own plugins (`parseSelector`,
 * `camelize`, `getComponentRules`, `getComponentMatches`,
 * `formatComponentMatches`, `handleUserPlugins`, macro.js:2531-2612).  The
 * plugins arrive already processed into component rules and utility
 * at-rules; a component is found by its selector, a utility by the class
 * name of the last rule that declares it.
 */
module UserPlugins {
  import opened Wrappers
  import opened Strings
  import opened Json
  import opened Diagnostics
  import opened Context
  import Merge
  import Modifiers

  predicate NoLineTerminator(s: string) {
    forall i :: 0 <= i < |s| ==> !IsLineTerminator(s[i])
  }

  /**
   * `/^\.(\S+)(\s+.*?)?$/` on a trimmed selector: a dot, a run of non-space
   * characters (the class name), and optionally white space and a rest on
   * one line.
   */
  function ClassOf(t: string): (r: Option<string>)
    ensures r.Some? ==> (r.value != "" && (forall c :: c in r.value ==> !IsJsSpace(c))
      && StartsWith(t, "." + r.value))
  {
    if |t| == 0 || t[0] != '.' then None
    else
      var n := RunLength(t[1..], NotJsSpace);
      var rest := t[1 + n..];
      if n == 0 then None
      else if NoLineTerminator(rest[RunLength(rest, IsJsSpace)..]) then
        assert t[..1 + n] == "." + t[1..1 + n];
        assert forall c :: c in t[1..1 + n] ==> !IsJsSpace(c) by {
          assert t[1..1 + n] == t[1..][..n];
        }
        Some(t[1..1 + n])
      else None
  }

  /**
   * `parseSelector`: the class name of a single-class selector; a list of
   * selectors is refused; anything else has no name.
   */
  function ParseSelector(selector: Option<string>): (r: Result<Option<string>, Error>)
    ensures r.Failure? <==> selector.Some? && Contains(selector.value, ",")
    ensures r.Failure? ==> r.error == MultipleSelectors(selector.value)
    ensures r.Success? && r.value.Some? ==> (selector.Some? && r.value.value != ""
      && (forall c :: c in r.value.value ==> !IsJsSpace(c))
      && StartsWith(Trim(selector.value), "." + r.value.value))
  {
    if selector.None? || selector.value == "" then
      assert !Contains("", ",") by {
        IndexOfIsFirst("", ",");
      }
      Success(None)
    else if Contains(selector.value, ",") then Failure(MultipleSelectors(selector.value))
    else Success(ClassOf(Trim(selector.value)))
  }

  /** A text without a comma has none to find. */
  lemma NoComma(s: string)
    requires forall i :: 0 <= i < |s| ==> s[i] != ','
    ensures !Contains(s, ",")
  {
    IndexOfIsFirst(s, ",");
    forall i | 0 <= i < |s| ensures !OccursAt(s, ",", i) {
      assert s[i..i + 1] == [s[i]];
    }
  }

  /** A text that neither starts nor ends with white space is its own trim. */
  lemma TrimUnchanged(s: string)
    requires |s| > 0 && !IsJsSpace(s[0]) && !IsJsSpace(s[|s| - 1])
    ensures Trim(s) == s
  {
    assert s[0..] == s;
  }

  /** A class name and a pseudo-class, neither with white space or a comma. */
  predicate ClassSelector(name: string, pseudo: string) {
    name != "" && (forall i :: 0 <= i < |name| ==> !IsJsSpace(name[i]) && name[i] != ',')
    && (forall i :: 0 <= i < |pseudo| ==> !IsJsSpace(pseudo[i]) && pseudo[i] != ',')
  }

  /** The selector `.name`, or `.name pseudo` when there is a pseudo-class. */
  function Selector(name: string, pseudo: string): string {
    "." + name + (if pseudo == "" then "" else " " + pseudo)
  }

  lemma ClassOfSelector(name: string, pseudo: string)
    requires ClassSelector(name, pseudo)
    ensures ClassOf(Selector(name, pseudo)) == Some(name)
  {
    var rest := if pseudo == "" then "" else " " + pseudo;
    var t := Selector(name, pseudo);
    assert t[1..] == name + rest;
    assert forall c :: c in name ==> !IsJsSpace(c) by {
      forall c | c in name ensures !IsJsSpace(c) {
        var i :| 0 <= i < |name| && name[i] == c;
      }
    }
    RunOfName(name, rest);
    assert t[1..1 + |name|] == name;
    assert t[1 + |name|..] == rest;
    if pseudo != "" {
      assert RunLength(rest, IsJsSpace) == 1 by {
        assert rest[1..][0] == pseudo[0];
      }
      assert rest[1..] == pseudo;
      assert NoLineTerminator(pseudo) by {
        forall i | 0 <= i < |pseudo| ensures !IsLineTerminator(pseudo[i]) {
          assert !IsJsSpace(pseudo[i]);
        }
      }
    } else {
      assert rest == "";
    }
  }

  /** Such a selector, with or without the pseudo-class, is parsed to the class name. */
  lemma ParseClassSelector(name: string, pseudo: string)
    requires ClassSelector(name, pseudo)
    ensures ParseSelector(Some(Selector(name, pseudo))) == Success(Some(name))
  {
    var s := Selector(name, pseudo);
    assert forall i :: 0 <= i < |s| ==> s[i] != ',' by {
      forall i | 0 <= i < |s| ensures s[i] != ',' {
        if 1 <= i < 1 + |name| {
          assert s[i] == name[i - 1];
        } else if i > 1 + |name| {
          assert s[i] == pseudo[i - 2 - |name|];
        }
      }
    }
    NoComma(s);
    assert !IsJsSpace(s[|s| - 1]) by {
      if pseudo == "" {
        assert s[|s| - 1] == name[|name| - 1];
      } else {
        assert s[|s| - 1] == pseudo[|pseudo| - 1];
      }
    }
    TrimUnchanged(s);
    ClassOfSelector(name, pseudo);
  }

  lemma {:induction false} RunOfName(name: string, pseudo: string)
    requires forall c :: c in name ==> !IsJsSpace(c)
    requires pseudo == "" || IsJsSpace(pseudo[0])
    ensures RunLength(name + pseudo, NotJsSpace) == |name|
    decreases |name|
  {
    if |name| > 0 {
      assert (name + pseudo)[1..] == name[1..] + pseudo;
      assert name[0] in name;
      assert forall c :: c in name[1..] ==> c in name;
      RunOfName(name[1..], pseudo);
    }
  }

  /** The key a parsed selector is stored under: a missing name becomes "undefined". */
  function SelectorKey(name: Option<string>): string {
    name.GetOr("undefined")
  }

  // ---------------------------------------------------------------- camelize

  /** The largest index in `[lo, hi)` whose character is not a line terminator. */
  function LastPlain(s: string, lo: nat, hi: nat): (r: Option<nat>)
    requires hi <= |s|
    ensures r.Some? ==> (lo <= r.value < hi && !IsLineTerminator(s[r.value])
      && forall j :: r.value < j < hi ==> IsLineTerminator(s[j]))
    ensures r.None? ==> forall j :: lo <= j < hi ==> IsLineTerminator(s[j])
    decreases hi
  {
    if hi <= lo then None
    else if !IsLineTerminator(s[hi - 1]) then Some(hi - 1)
    else LastPlain(s, lo, hi - 1)
  }

  /** Length of the run of non-word characters `s` starts with. */
  function NonWordRun(s: string): (n: nat)
    ensures n <= |s|
    ensures forall i :: 0 <= i < n ==> !IsWordChar(s[i])
    ensures n < |s| ==> IsWordChar(s[n])
  {
    if |s| == 0 || IsWordChar(s[0]) then 0 else 1 + NonWordRun(s[1..])
  }

  /**
   * One match of `\W+(.)` at a non-word character `s[i]`: the character
   * written for it and where the scan goes on.  The run of non-word
   * characters and the character after it give that character in upper
   * case; a run that reaches the end gives some of itself back (the regular
   * expression backtracks) so that its last character that `.` accepts is
   * the one upper-cased; with none, `s[i]` is kept and the scan moves on.
   */
  function SeparatorStep(s: string, i: nat): (r: (char, nat))
    requires i < |s|
    ensures i < r.1 <= |s|
  {
    var j := i + NonWordRun(s[i..]);
    if j < |s| then (ToUpperAscii(s[j]), j + 1)
    else match LastPlain(s, i + 1, |s|)
      case Some(k) => (ToUpperAscii(s[k]), k + 1)
      case None => (s[i], i + 1)
  }

  /** `s.replace(/\W+(.)/g, (m, c) => c.toUpperCase())` from index `i` on. */
  function CamelizeFrom(s: string, i: nat): string
    requires i <= |s|
    decreases |s| - i
  {
    if i == |s| then ""
    else if IsWordChar(s[i]) then [s[i]] + CamelizeFrom(s, i + 1)
    else
      var (c, next) := SeparatorStep(s, i);
      [c] + CamelizeFrom(s, next)
  }

  /** `camelize`: a CSS property name as a style key. */
  function Camelize(s: string): string {
    CamelizeFrom(s, 0)
  }

  /** A run of word characters is copied as it is. */
  lemma {:induction false} CamelizeWordRun(s: string, i: nat, j: nat)
    requires i <= j <= |s| && forall k :: i <= k < j ==> IsWordChar(s[k])
    ensures CamelizeFrom(s, i) == s[i..j] + CamelizeFrom(s, j)
    decreases j - i
  {
    if i < j {
      var rest := CamelizeFrom(s, i + 1);
      assert CamelizeFrom(s, i) == [s[i]] + rest by {
        assert IsWordChar(s[i]);
      }
      CamelizeWordRun(s, i + 1, j);
      assert s[i..j] == [s[i]] + s[i + 1..j];
    }
  }

  /** A name of word characters only is kept as it is. */
  lemma CamelizeKeepsWords(s: string)
    requires forall c :: c in s ==> IsWordChar(c)
    ensures Camelize(s) == s
  {
    assert forall k :: 0 <= k < |s| ==> s[k] in s;
    CamelizeWordRun(s, 0, |s|);
    assert s[0..|s|] == s;
  }

  lemma {:induction false} CamelizeFromIsWord(s: string, i: nat)
    requires i <= |s| && (|s| == 0 || IsWordChar(s[|s| - 1]))
    ensures forall c :: c in CamelizeFrom(s, i) ==> IsWordChar(c)
    decreases |s| - i
  {
    if i < |s| {
      if IsWordChar(s[i]) {
        CamelizeFromIsWord(s, i + 1);
      } else {
        var n := NonWordRun(s[i..]);
        assert i + n < |s|;
        assert IsWordChar(s[i + n]) by {
          assert s[i..][n] == s[i + n];
        }
        CamelizeFromIsWord(s, i + n + 1);
      }
    }
  }

  /**
   * When the name ends in a word character, every separator disappears:
   * the key holds word characters only.
   */
  lemma CamelizeRemovesSeparators(s: string)
    requires |s| == 0 || IsWordChar(s[|s| - 1])
    ensures forall c :: c in Camelize(s) ==> IsWordChar(c)
  {
    CamelizeFromIsWord(s, 0);
  }

  /** A dashed CSS property becomes its camel-case key: `a-b` gives `a` and `b` with its first letter raised. */
  lemma CamelizeDashed(a: string, b: string)
    requires b != "" && forall i :: 0 <= i < |a| ==> IsWordChar(a[i])
    requires forall i :: 0 <= i < |b| ==> IsWordChar(b[i])
    ensures Camelize(a + "-" + b) == a + [ToUpperAscii(b[0])] + b[1..]
  {
    var s := a + "-" + b;
    var n := |a|;
    assert CamelizeFrom(s, 0) == a + CamelizeFrom(s, n) by {
      CamelizeWordRun(s, 0, n);
      assert s[0..n] == a;
    }
    assert CamelizeFrom(s, n) == [ToUpperAscii(b[0])] + CamelizeFrom(s, n + 2) by {
      assert s[n] == '-' && s[n + 1] == b[0];
      assert !IsWordChar(s[n]);
      assert SeparatorStep(s, n) == (ToUpperAscii(b[0]), n + 2) by {
        assert NonWordRun(s[n..]) == 1 by {
          assert s[n..][0] == '-' && s[n..][1] == b[0];
        }
      }
    }
    assert CamelizeFrom(s, n + 2) == b[1..] by {
      CamelizeWordRun(s, n + 2, |s|);
      assert s[n + 2..|s|] == b[1..];
    }
  }

  // -------------------------------------------------------------- components

  /** The declarations of a rule as a style, in order: a later property overwrites an earlier one. */
  function DeclStyle(decls: seq<Decl>): (r: Entries)
    ensures DistinctKeys(r)
    decreases |decls|
  {
    if |decls| == 0 then []
    else
      var d := decls[|decls| - 1];
      Put(DeclStyle(decls[..|decls| - 1]), Camelize(d.prop), Str(d.value))
  }

  /** A key holds the value of the last declaration of that property. */
  lemma {:induction false} DeclStyleLastWins(decls: seq<Decl>, j: nat)
    requires j < |decls|
    requires forall i :: j < i < |decls| ==> Camelize(decls[i].prop) != Camelize(decls[j].prop)
    ensures Get(DeclStyle(decls), Camelize(decls[j].prop)) == Some(Str(decls[j].value))
    decreases |decls|
  {
    if j < |decls| - 1 {
      var init := decls[..|decls| - 1];
      assert init[j] == decls[j];
      assert forall i :: j < i < |init| ==> init[i] == decls[i];
      DeclStyleLastWins(init, j);
    }
  }

  /** A selector that `parseSelector` refuses. */
  predicate HasComma(selector: Option<string>) {
    selector.Some? && Contains(selector.value, ",")
  }

  /** The key a rule is stored under, or the error its selector raises. */
  function RuleKey(rule: CssRule): (r: Result<string, Error>)
    ensures r.Failure? <==> HasComma(rule.selector)
  {
    var name :- ParseSelector(rule.selector);
    Success(SelectorKey(name))
  }

  /**
   * `getComponentRules`: every rule's declarations under its class name (a
   * later rule for the same name replaces the earlier one).  The test for a
   * `null` name at 2545 never holds, since `parseSelector` answers
   * `undefined`; such rules are stored under "undefined".
   */
  function ComponentRules(rules: seq<CssRule>): (r: Result<Entries, Error>)
    ensures r.Success? ==> DistinctKeys(r.value)
    decreases |rules|
  {
    if |rules| == 0 then Success([])
    else
      var init := rules[..|rules| - 1];
      var last := rules[|rules| - 1];
      var acc :- ComponentRules(init);
      var key :- RuleKey(last);
      Success(Put(acc, key, Obj(DeclStyle(last.decls))))
  }

  lemma ComponentRulesStep(rules: seq<CssRule>)
    requires |rules| > 0
    ensures ComponentRules(rules).Failure? <==>
      ComponentRules(rules[..|rules| - 1]).Failure? || HasComma(rules[|rules| - 1].selector)
  {
  }

  lemma {:induction false} CommaFails(rules: seq<CssRule>, j: nat)
    requires j < |rules| && HasComma(rules[j].selector)
    ensures ComponentRules(rules).Failure?
    decreases |rules|
  {
    ComponentRulesStep(rules);
    if j < |rules| - 1 {
      assert rules[..|rules| - 1][j] == rules[j];
      CommaFails(rules[..|rules| - 1], j);
    }
  }

  lemma {:induction false} FailureHasComma(rules: seq<CssRule>) returns (j: nat)
    requires ComponentRules(rules).Failure?
    ensures j < |rules| && HasComma(rules[j].selector)
    decreases |rules|
  {
    ComponentRulesStep(rules);
    if HasComma(rules[|rules| - 1].selector) {
      j := |rules| - 1;
    } else {
      j := FailureHasComma(rules[..|rules| - 1]);
      assert rules[..|rules| - 1][j] == rules[j];
    }
  }

  /** The components fail exactly when one of their selectors is a list. */
  lemma ComponentRulesFail(rules: seq<CssRule>)
    ensures ComponentRules(rules).Failure? <==> exists j :: 0 <= j < |rules| && HasComma(rules[j].selector)
  {
    if ComponentRules(rules).Failure? {
      var j := FailureHasComma(rules);
    }
    forall j | 0 <= j < |rules| && HasComma(rules[j].selector) ensures ComponentRules(rules).Failure? {
      CommaFails(rules, j);
    }
  }

  /** `getComponentMatches`: the components named exactly by the class, or by the class and a pseudo-class. */
  function ComponentMatches(className: string, components: Entries): (r: Entries)
    ensures forall e :: e in r <==> e in components && (e.0 == className || StartsWith(e.0, className + ":"))
  {
    if |components| == 0 then []
    else
      var rest := ComponentMatches(className, components[1..]);
      var key := components[0].0;
      if key == className || StartsWith(key, className + ":") then [components[0]] + rest else rest
  }

  /**
   * `formatComponentMatches`: the exact match's style is copied in, a
   * match with a pseudo-class is nested under that pseudo-class (the key
   * with the class name replaced by nothing).
   */
  function FormatComponentMatches(matches: Entries, className: string): (r: Entries)
    decreases |matches|
  {
    if |matches| == 0 then []
    else
      var acc := FormatComponentMatches(matches[..|matches| - 1], className);
      var (key, value) := matches[|matches| - 1];
      var selector := ReplaceFirst(key, className, "");
      if selector != "" then Put(acc, selector, value) else Assign(acc, JsEntries(value))
  }

  /** The pseudo-class of a matching component is what follows the class name. */
  lemma SelectorOfMatch(key: string, className: string)
    requires StartsWith(key, className)
    ensures ReplaceFirst(key, className, "") == key[|className|..]
  {
    IndexOfIsFirst(key, className);
    assert OccursAt(key, className, 0);
  }

  /**
   * A class with an exact component and one with a pseudo-class gets the
   * component's declarations and, nested under the pseudo-class, the other
   * declarations.
   */
  lemma ComponentWithPseudo(className: string, style: Entries, pseudo: string, hover: Entries)
    requires DistinctKeys(style) && pseudo != "" && pseudo !in Keys(style)
    ensures FormatComponentMatches([(className, Obj(style)), (className + pseudo, Obj(hover))], className)
      == style + [(pseudo, Obj(hover))]
  {
    var m := [(className, Obj(style)), (className + pseudo, Obj(hover))];
    assert m[..1] == [(className, Obj(style))] && m[..1][..0] == [];
    SelectorOfMatch(className, className);
    assert className[|className|..] == "";
    Modifiers.AssignCopies(style);
    assert FormatComponentMatches(m[..1], className) == style;
    SelectorOfMatch(className + pseudo, className);
    assert (className + pseudo)[|className|..] == pseudo;
    Merge.PutNew(style, pseudo, Obj(hover));
  }

  // --------------------------------------------------------------- utilities

  /** The rules of one `@variants` block, in order: each (re)sets its class to its declarations. */
  function RulesTable(table: map<string, Entries>, rules: seq<CssRule>): Result<map<string, Entries>, Error>
    decreases |rules|
  {
    if |rules| == 0 then Success(table)
    else
      var t :- RulesTable(table, rules[..|rules| - 1]);
      var key :- RuleKey(rules[|rules| - 1]);
      Success(t[key := DeclStyle(rules[|rules| - 1].decls)])
  }

  /** Only `@variants` at-rules contribute utilities. */
  predicate IsVariantsBlock(node: UtilityNode) {
    node.isAtRule && node.name == "variants"
  }

  /** The `forEach` over the utilities (macro.js:2594-2612), as a fold over them in order. */
  function UtilityTable(nodes: seq<UtilityNode>): Result<map<string, Entries>, Error>
    decreases |nodes|
  {
    if |nodes| == 0 then Success(map[])
    else
      var t :- UtilityTable(nodes[..|nodes| - 1]);
      var last := nodes[|nodes| - 1];
      if IsVariantsBlock(last) then RulesTable(t, last.rules) else Success(t)
  }

  /** A class holds the declarations of the last rule in the block that names it. */
  lemma {:induction false} RulesTableLastWins(table: map<string, Entries>, rules: seq<CssRule>, j: nat, k: string)
    requires RulesTable(table, rules).Success?
    requires j < |rules| && RuleKey(rules[j]) == Success(k)
    requires forall i :: j < i < |rules| ==> RuleKey(rules[i]) != Success(k)
    ensures k in RulesTable(table, rules).value
    ensures RulesTable(table, rules).value[k] == DeclStyle(rules[j].decls)
    decreases |rules|
  {
    var init := rules[..|rules| - 1];
    if j < |rules| - 1 {
      assert init[j] == rules[j];
      assert forall i :: j < i < |init| ==> init[i] == rules[i];
      RulesTableLastWins(table, init, j, k);
    }
  }

  /** A class no rule in the block names keeps what it had before the block. */
  lemma {:induction false} RulesTableKeepsOthers(table: map<string, Entries>, rules: seq<CssRule>, k: string)
    requires RulesTable(table, rules).Success?
    requires forall i :: 0 <= i < |rules| ==> RuleKey(rules[i]) != Success(k)
    ensures (k in RulesTable(table, rules).value) == (k in table)
    ensures k in table ==> RulesTable(table, rules).value[k] == table[k]
    decreases |rules|
  {
    if |rules| > 0 {
      var init := rules[..|rules| - 1];
      assert forall i :: 0 <= i < |init| ==> init[i] == rules[i];
      RulesTableKeepsOthers(table, init, k);
    }
  }

  lemma DeclStyleStep(decls: seq<Decl>, k: nat)
    requires k < |decls|
    ensures DeclStyle(decls[..k + 1]) == Put(DeclStyle(decls[..k]), Camelize(decls[k].prop), Str(decls[k].value))
  {
    assert decls[..k + 1][..k] == decls[..k];
  }

  /**
   * `dset(table, [key], {})` and then one `dset` per declaration
   * (macro.js:2607-2610): the class's object is reset and filled in place.
   */
  method SetRuleClass(table: map<string, Entries>, key: string, decls: seq<Decl>) returns (t: map<string, Entries>)
    ensures t == table[key := DeclStyle(decls)]
  {
    var style: Entries := [];
    var k := 0;
    while k < |decls|
      invariant 0 <= k <= |decls|
      invariant style == DeclStyle(decls[..k])
    {
      DeclStyleStep(decls, k);
      style := Put(style, Camelize(decls[k].prop), Str(decls[k].value));
      k := k + 1;
    }
    assert decls[..k] == decls;
    t := table[key := style];
  }

  /** `rule.each` over one `@variants` block (macro.js:2600-2611). */
  method AddVariantsBlock(table: map<string, Entries>, rules: seq<CssRule>) returns (r: Result<map<string, Entries>, Error>)
    ensures r == RulesTable(table, rules)
  {
    var t := table;
    var j := 0;
    while j < |rules|
      invariant 0 <= j <= |rules|
      invariant RulesTable(table, rules[..j]) == Success(t)
    {
      var name := ParseSelector(rules[j].selector);
      if name.Failure? {
        RulesStepRefused(table, rules, j, t);
        return Failure(name.error);
      }
      RulesStep(table, rules, j, t);
      t := SetRuleClass(t, SelectorKey(name.value), rules[j].decls);
      j := j + 1;
    }
    assert rules[..j] == rules;
    return Success(t);
  }

  /**
   * The `forEach` over the utilities, as the source writes it: one table,
   * updated in place by each `@variants` block in turn.
   */
  method UtilityClasses(nodes: seq<UtilityNode>) returns (r: Result<map<string, Entries>, Error>)
    ensures r == UtilityTable(nodes)
  {
    var table: map<string, Entries> := map[];
    var i := 0;
    while i < |nodes|
      invariant 0 <= i <= |nodes|
      invariant UtilityTable(nodes[..i]) == Success(table)
    {
      assert nodes[..i + 1][..i] == nodes[..i];
      if IsVariantsBlock(nodes[i]) {
        var next := AddVariantsBlock(table, nodes[i].rules);
        if next.Failure? {
          UtilityFailStays(nodes, i + 1);
          return next;
        }
        table := next.value;
      }
      i := i + 1;
    }
    assert nodes[..i] == nodes;
    return Success(table);
  }

  /** One more rule of the block sets its class. */
  lemma RulesStep(table: map<string, Entries>, rules: seq<CssRule>, j: nat, t: map<string, Entries>)
    requires j < |rules| && RulesTable(table, rules[..j]) == Success(t) && RuleKey(rules[j]).Success?
    ensures RulesTable(table, rules[..j + 1]) == Success(t[RuleKey(rules[j]).value := DeclStyle(rules[j].decls)])
  {
    assert rules[..j + 1][..j] == rules[..j];
  }

  /** A rule whose selector is refused refuses the whole block. */
  lemma RulesStepRefused(table: map<string, Entries>, rules: seq<CssRule>, j: nat, t: map<string, Entries>)
    requires j < |rules| && RulesTable(table, rules[..j]) == Success(t) && RuleKey(rules[j]).Failure?
    ensures RulesTable(table, rules) == Failure(RuleKey(rules[j]).error)
  {
    assert rules[..j + 1][..j] == rules[..j];
    RulesFailStay(table, rules, j + 1);
  }

  lemma {:induction false} RulesFailStay(table: map<string, Entries>, rules: seq<CssRule>, j: nat)
    requires j <= |rules| && RulesTable(table, rules[..j]).Failure?
    ensures RulesTable(table, rules).Failure?
    ensures RulesTable(table, rules).error == RulesTable(table, rules[..j]).error
    decreases |rules| - j
  {
    if j < |rules| {
      assert rules[..j + 1][..j] == rules[..j];
      RulesFailStay(table, rules, j + 1);
    } else {
      assert rules[..j] == rules;
    }
  }

  lemma {:induction false} UtilityFailStays(nodes: seq<UtilityNode>, i: nat)
    requires i <= |nodes| && UtilityTable(nodes[..i]).Failure?
    ensures UtilityTable(nodes).Failure?
    ensures UtilityTable(nodes).error == UtilityTable(nodes[..i]).error
    decreases |nodes| - i
  {
    if i < |nodes| {
      assert nodes[..i + 1][..i] == nodes[..i];
      UtilityFailStays(nodes, i + 1);
    } else {
      assert nodes[..i] == nodes;
    }
  }

  // ------------------------------------------------------------------- entry

  /**
   * `handleUserPlugins`: nothing without plugins; the class's components
   * when there are any, else its utility (nothing when it has none).
   */
  function UserPluginStyle(plugins: Option<ProcessedPlugins>, className: string): (r: Result<Option<Entries>, Error>)
    ensures plugins.None? ==> r == Success(None)
  {
    match plugins
    case None => Success(None)
    case Some(p) =>
      var components :- ComponentRules(p.components);
      var matches := ComponentMatches(className, components);
      if |matches| > 0 then Success(Some(FormatComponentMatches(matches, className)))
      else
        var table :- UtilityTable(p.utilities);
        if className in table then Success(Some(table[className])) else Success(None)
  }

  /** `handleUserPlugins`, with the utilities gathered by the loops of `UtilityClasses`. */
  method HandleUserPlugins(plugins: Option<ProcessedPlugins>, className: string) returns (r: Result<Option<Entries>, Error>)
    ensures r == UserPluginStyle(plugins, className)
  {
    if plugins.None? {
      return Success(None);
    }
    var p := plugins.value;
    var components := ComponentRules(p.components);
    if components.Failure? {
      return Failure(components.error);
    }
    var matches := ComponentMatches(className, components.value);
    if |matches| > 0 {
      return Success(Some(FormatComponentMatches(matches, className)));
    }
    var table := UtilityClasses(p.utilities);
    if table.Failure? {
      return Failure(table.error);
    }
    if className in table.value {
      return Success(Some(table.value[className]));
    }
    return Success(None);
  }

  /** A component selector with a comma makes every class fail, whatever its name. */
  lemma SelectorListRefused(plugins: ProcessedPlugins, className: string, j: nat)
    requires j < |plugins.components| && HasComma(plugins.components[j].selector)
    ensures UserPluginStyle(Some(plugins), className).Failure?
  {
    ComponentRulesFail(plugins.components);
  }
}
