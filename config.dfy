/**
 * The theme-value resolver (`getConfigValue`, `matchChildKey`,
 * `normalizeValue`, macro.js:2631-2696): a value is found at most two levels
 * below the theme domain it starts from.
 */
module Config {
  import opened Wrappers
  import opened Strings
  import opened Json
  import opened Diagnostics

  /** What the resolver hands back: a string, or an array (kept as it is). */
  datatype ConfigValue = CStr(s: string) | CArr(items: seq<Value>)

  /** The JavaScript truthiness of a resolved value (every array is truthy). */
  predicate Found(c: Option<ConfigValue>) {
    match c
    case None => false
    case Some(CStr(s)) => s != ""
    case Some(CArr(_)) => true
  }

  function AsValue(c: ConfigValue): Value {
    match c
    case CStr(s) => Str(s)
    case CArr(items) => Arr(items)
  }

  /** `stripNegative` (macro.js:34): drops a leading '-' from a string of two or more characters. */
  function StripNegative(s: string): string {
    if |s| > 1 && s[0] == '-' then s[1..] else s
  }

  predicate IsDigit(c: char) {
    '0' <= c <= '9'
  }

  predicate AllZeros(s: string) {
    forall i :: 0 <= i < |s| ==> s[i] == '0'
  }

  predicate IsZeroDigit(c: char) { c == '0' }

  predicate NotExponentMark(c: char) { c != 'e' && c != 'E' }

  /** An exponent part after 'e': an optional sign and at least one digit. */
  predicate IsExponent(x: string) {
    var d := if |x| > 0 && (x[0] == '+' || x[0] == '-') then x[1..] else x;
    |d| > 0 && AllDigits(d)
  }

  predicate AllDigits(s: string) {
    forall i :: 0 <= i < |s| ==> IsDigit(s[i])
  }

  /** A decimal mantissa with at least one digit, at most one '.', and only zero digits. */
  predicate IsZeroMantissa(m: string) {
    var w := RunLength(m, IsZeroDigit);
    (w == |m| && w > 0) || (w < |m| && m[w] == '.' && AllZeros(m[w + 1..]) && (w > 0 || |m| > w + 1))
  }

  predicate IsZeroDecimal(u: string) {
    var e := RunLength(u, NotExponentMark);
    IsZeroMantissa(u[..e]) && (e == |u| || IsExponent(u[e + 1..]))
  }

  /**
   * `Number(s) === 0` for a string: blank text, a signed decimal zero with or
   * without exponent, or a zero written in hexadecimal, octal or binary.
   */
  predicate IsZeroNumeral(s: string) {
    var t := Trim(s);
    t == ""
    || IsZeroDecimal(t)
    || ((t[0] == '+' || t[0] == '-') && IsZeroDecimal(t[1..]))
    || (|t| > 2 && t[0] == '0' && t[1] in "xXoObB" && AllZeros(t[2..]))
  }

  /** `addPxTo0` (macro.js:26): a zero gets the unit "px", anything else is kept. */
  function AddPxTo0(s: string): string {
    if IsZeroNumeral(s) then s + "px" else s
  }

  /** A sign in front of a non-empty text is removed, and only that one sign. */
  lemma StripNegativeSign(t: string)
    requires t != ""
    ensures StripNegative("-" + t) == t
  {
    assert ("-" + t)[1..] == t;
  }

  /** A zero written with zero digits only ("0", "00") gets the unit. */
  lemma ZeroDigitsGetPx(s: string)
    requires |s| > 0 && AllZeros(s)
    ensures AddPxTo0(s) == s + "px"
  {
    TrimUnspaced(s);
    assert s[..|s|] == s;
  }

  /** A value that ends in a letter, such as a length with its unit, is kept. */
  lemma UnitValueKept(s: string)
    requires |s| > 0 && 'a' <= s[|s| - 1] <= 'z'
    ensures AddPxTo0(s) == s
  {
    var t := Trim(s);
    TrimKeepsLastLetter(s);
    NotZeroDecimal(t);
    if |t| > 1 {
      NotZeroDecimal(t[1..]);
    }
  }

  /** Trimming keeps a final letter. */
  lemma TrimKeepsLastLetter(s: string)
    requires |s| > 0 && 'a' <= s[|s| - 1] <= 'z'
    ensures var t := Trim(s); |t| > 0 && t[|t| - 1] == s[|s| - 1]
  {
    var k := RunLength(s, IsJsSpace);
    assert k < |s|;
    var u := TrimStart(s);
    assert u[|u| - 1] == s[|s| - 1];
  }

  /** A text ending in a letter is no decimal zero: neither its mantissa nor its exponent can end in one. */
  lemma NotZeroDecimal(t: string)
    requires |t| > 0 && 'a' <= t[|t| - 1] <= 'z'
    ensures !IsZeroDecimal(t)
  {
    var e := RunLength(t, NotExponentMark);
    if e == |t| {
      assert t[..e] == t;
      var w := RunLength(t, IsZeroDigit);
      if w < |t| - 1 {
        assert t[w + 1..][|t| - w - 2] == t[|t| - 1];
        assert !AllZeros(t[w + 1..]);
      } else if w == |t| - 1 {
        assert t[w] != '.';
      }
      assert !IsZeroMantissa(t);
    } else if e < |t| - 1 {
      var x := t[e + 1..];
      assert x[|x| - 1] == t[|t| - 1];
      var d := if |x| > 0 && (x[0] == '+' || x[0] == '-') then x[1..] else x;
      assert |x| > 0 && (x[0] == '+' || x[0] == '-') ==> |x| > 1;
      assert |d| > 0 && d[|d| - 1] == t[|t| - 1] && !IsDigit(d[|d| - 1]);
      assert !AllDigits(d);
    } else {
      assert t[e + 1..] == "";
    }
  }

  /** Strings, numbers and arrays can be handed back; objects and booleans cannot. */
  predicate Returnable(v: Value) {
    v.Str? || v.Num? || v.Arr?
  }

  /**
   * `normalizeValue` (macro.js:2631-2641): strings and arrays as they are,
   * numbers as text; anything else makes the error reporter itself fail.
   */
  function NormalizeValue(v: Value): (r: Result<ConfigValue, Error>)
    ensures r.Success? <==> Returnable(v)
    ensures r.Success? && !v.Arr? ==> r.value == CStr(JsString(v))
    ensures v.Arr? ==> r == Success(CArr(v.items))
    ensures r.Failure? ==> r.error == UnsupportedConfigValue(v)
  {
    match v
    case Str(s) => Success(CStr(s))
    case Arr(items) => Success(CArr(items))
    case Num(n) => Success(CStr(IntToString(n)))
    case _ => Failure(UnsupportedConfigValue(v))
  }

  /**
   * The grandchild one entry of `from` offers to `matchChildKey`
   * (macro.js:2646-2655): for an object-valued entry `key`, the part of the
   * matcher after `key` (without a leading '-') looked up in that entry,
   * when both are non-empty.
   */
  function ChildCandidate(key: string, value: Value, matcher: string): Option<Value> {
    if !IsObjectLike(value) then None
    else match SplitSecond(matcher, key)
      case None => None
      case Some(piece) =>
        if IsEmptyString(Some(piece)) then None
        else
          var objectMatch := Prop(value, StripNegative(piece));
          if IsEmpty(objectMatch) then None else objectMatch
  }

  /** What a qualifying grandchild makes the search return (macro.js:2656-2659). */
  function Returned(v: Value): Result<Option<string>, Error> {
    if Returnable(v) then Success(Some(JsString(v))) else Failure(NestedTooDeep(v))
  }

  /** The search over the entries in enumeration order: the first qualifying entry decides. */
  function ScanChildren(e: Entries, matcher: string): (r: Result<Option<string>, Error>)
    ensures r.Failure? ==> r.error.NestedTooDeep?
    decreases |e|
  {
    if |e| == 0 then Success(None)
    else match ChildCandidate(e[0].0, e[0].1, matcher)
      case Some(v) => Returned(v)
      case None => ScanChildren(e[1..], matcher)
  }

  /** The value `matchChildKey(from, matcher)` computes; `None` is `undefined`. */
  function FirstChildMatch(from: Value, matcher: Option<string>): (r: Result<Option<string>, Error>)
    ensures r.Failure? ==> r.error.NestedTooDeep?
  {
    if matcher.None? || matcher.value == "" then Success(None)
    else ScanChildren(JsEntries(from), matcher.value)
  }

  /**
   * `matchChildKey` (macro.js:2643-2667): the loop over `Object.entries(from)`
   * with its early exits.
   */
  method MatchChildKey(from: Value, matcher: Option<string>) returns (r: Result<Option<string>, Error>)
    ensures r == FirstChildMatch(from, matcher)
  {
    if matcher.None? || matcher.value == "" {
      return Success(None);
    }
    var list := JsEntries(from);
    for i := 0 to |list|
      invariant ScanChildren(list, matcher.value) == ScanChildren(list[i..], matcher.value)
    {
      assert list[i..][1..] == list[i + 1..];
      var key := list[i].0;
      var value := list[i].1;
      if !IsObjectLike(value) {
        continue;
      }
      var splitMatcher := SplitSecond(matcher.value, key);
      if IsEmptyString(splitMatcher) {
        continue;
      }
      var childKey := StripNegative(splitMatcher.value);
      var objectMatch := Prop(value, childKey);
      if IsEmpty(objectMatch) {
        continue;
      }
      if !Returnable(objectMatch.value) {
        return Failure(NestedTooDeep(objectMatch.value));
      }
      return Success(Some(JsString(objectMatch.value)));
    }
    return Success(None);
  }

  function WrapFound(r: Result<ConfigValue, Error>): Result<Option<ConfigValue>, Error> {
    match r
    case Success(c) => Success(Some(c))
    case Failure(e) => Failure(e)
  }

  /**
   * `getConfigValue(from, matcher)` (macro.js:2674-2696): in this order, the
   * domain's `default` for an empty matcher, the matcher's own entry, that
   * entry's `default`, then the first matching grandchild.  A `None` matcher
   * looks up the key "null", as JavaScript does.
   */
  function GetConfigValue(from: Option<Value>, matcher: Option<string>): (r: Result<Option<ConfigValue>, Error>)
    ensures !Truthy(from) ==> r == Success(None)
    ensures r.Failure? ==> r.error.NestedTooDeep? || r.error.UnsupportedConfigValue?
  {
    if !Truthy(from) then Success(None)
    else
      var f := from.value;
      var dflt := Prop(f, "default");
      if IsEmptyString(matcher) && !IsEmpty(dflt) then WrapFound(NormalizeValue(dflt.value))
      else
        var m := Prop(f, matcher.GetOr("null"));
        if m.Some? && Returnable(m.value) then WrapFound(NormalizeValue(m.value))
        else if m.Some? && m.value.Obj? && Truthy(Prop(m.value, "default")) then
          WrapFound(NormalizeValue(Prop(m.value, "default").value))
        else
          match FirstChildMatch(f, matcher)
          case Failure(e) => Failure(e)
          case Success(child) =>
            if child.Some? && child.value != "" then Success(Some(CStr(child.value))) else Success(None)
  }

  /** The order of the lookups, step 1: an empty matcher reads the domain's non-empty `default`. */
  lemma DefaultForEmptyMatcher(from: Value, matcher: Option<string>)
    requires Truthy(Some(from)) && IsEmptyString(matcher) && !IsEmpty(Prop(from, "default"))
    ensures GetConfigValue(Some(from), matcher) == WrapFound(NormalizeValue(Prop(from, "default").value))
  {
  }

  /** Step 2: otherwise a string, number or array at the matcher's own entry is the value. */
  lemma OwnEntrySecond(e: Entries, key: string, v: Value)
    requires DistinctKeys(e) && (key, v) in e && Trim(key) != "" && Returnable(v)
    ensures GetConfigValue(Some(Obj(e)), Some(key)) == WrapFound(NormalizeValue(v))
  {
    GetMember(e, key, v);
  }

  /** Step 3: otherwise an object at the matcher's entry gives its own truthy `default`. */
  lemma EntryDefaultThird(e: Entries, key: string, o: Entries, d: Value)
    requires DistinctKeys(e) && (key, Obj(o)) in e && Trim(key) != ""
    requires DistinctKeys(o) && ("default", d) in o && Truthy(Some(d))
    ensures GetConfigValue(Some(Obj(e)), Some(key)) == WrapFound(NormalizeValue(d))
  {
    GetMember(e, key, Obj(o));
    GetMember(o, "default", d);
  }

  /**
   * Step 4: otherwise (no entry, or one that is neither a value nor an object
   * with a truthy `default`) the first matching grandchild, as text; an
   * empty one is no value.
   */
  lemma ChildSearchLast(e: Entries, key: string)
    requires Trim(key) != ""
    requires Get(e, key).None? || (!Returnable(Get(e, key).value)
      && !(Get(e, key).value.Obj? && Truthy(Prop(Get(e, key).value, "default"))))
    ensures ScanChildren(e, key).Failure? ==>
      GetConfigValue(Some(Obj(e)), Some(key)) == Failure(ScanChildren(e, key).error)
    ensures ScanChildren(e, key).Success? ==>
      GetConfigValue(Some(Obj(e)), Some(key)) == (var c := ScanChildren(e, key).value;
        Success(if c.Some? && c.value != "" then Some(CStr(c.value)) else None))
  {
    assert !IsEmptyString(Some(key));
    var m := Prop(Obj(e), Some(key).GetOr("null"));
    assert m == Get(e, key);
    assert FirstChildMatch(Obj(e), Some(key)) == ScanChildren(e, key);
  }

  // ---------------------------------------------------------------- properties

  /** The values directly under `v`. */
  function ChildValues(v: Value): set<Value> {
    set p | p in JsEntries(v) :: p.1
  }

  /** The values one or two levels under `v`: all the resolver may reach. */
  function WithinTwoLevels(v: Value): set<Value> {
    ChildValues(v) + (set c, g | c in ChildValues(v) && g in ChildValues(c) :: g)
  }

  /** A resolved value is either a value normalised, or a value as text. */
  predicate Renders(v: Value, c: ConfigValue) {
    NormalizeValue(v) == Success(c) || (Returnable(v) && c == CStr(JsString(v)))
  }

  lemma {:induction false} ScanFindsFirstQualifyingChild(e: Entries, matcher: string, i: nat)
    requires i < |e| && ChildCandidate(e[i].0, e[i].1, matcher).Some?
    requires forall j :: 0 <= j < i ==> ChildCandidate(e[j].0, e[j].1, matcher).None?
    ensures ScanChildren(e, matcher) == Returned(ChildCandidate(e[i].0, e[i].1, matcher).value)
  {
    if i > 0 {
      ScanSkips(e, matcher);
      forall j | 0 <= j < i - 1 ensures ChildCandidate(e[1..][j].0, e[1..][j].1, matcher).None? {
        assert e[1..][j] == e[j + 1];
      }
      ScanFindsFirstQualifyingChild(e[1..], matcher, i - 1);
    }
  }

  /** An entry that does not qualify passes the search on to the next. */
  lemma ScanSkips(e: Entries, matcher: string)
    requires |e| > 0 && ChildCandidate(e[0].0, e[0].1, matcher).None?
    ensures ScanChildren(e, matcher) == ScanChildren(e[1..], matcher)
  {
  }

  lemma {:induction false} ScanWithoutQualifyingChild(e: Entries, matcher: string)
    requires forall j :: 0 <= j < |e| ==> ChildCandidate(e[j].0, e[j].1, matcher).None?
    ensures ScanChildren(e, matcher) == Success(None)
  {
    if |e| > 0 {
      assert ChildCandidate(e[0].0, e[0].1, matcher).None?;
      ScanWithoutQualifyingChild(e[1..], matcher);
    }
  }

  lemma ChildCandidateIsGrandchild(key: string, value: Value, matcher: string)
    requires ChildCandidate(key, value, matcher).Some?
    ensures ChildCandidate(key, value, matcher).value in ChildValues(value)
  {
    var piece := SplitSecond(matcher, key).value;
    var k := StripNegative(piece);
    assert (k, Prop(value, k).value) in JsEntries(value);
  }

  /** Whatever the search returns, or fails on, is a grandchild of the domain. */
  lemma {:induction false} ScanChildrenSource(e: Entries, matcher: string)
    ensures ScanChildren(e, matcher).Success? && ScanChildren(e, matcher).value.Some? ==>
      exists p, g :: p in e && g in ChildValues(p.1) && Returnable(g)
        && ScanChildren(e, matcher).value.value == JsString(g)
    ensures ScanChildren(e, matcher).Failure? ==>
      exists p, g :: p in e && g in ChildValues(p.1) && !Returnable(g)
        && ScanChildren(e, matcher).error == NestedTooDeep(g)
    decreases |e|
  {
    if |e| > 0 {
      match ChildCandidate(e[0].0, e[0].1, matcher)
      case Some(v) =>
        ChildCandidateIsGrandchild(e[0].0, e[0].1, matcher);
        assert e[0] in e;
      case None =>
        ScanChildrenSource(e[1..], matcher);
        forall p | p in e[1..] ensures p in e { }
    }
  }

  lemma PropIsChild(v: Value, k: string)
    ensures Prop(v, k).Some? ==> Prop(v, k).value in ChildValues(v)
  {
    if Prop(v, k).Some? {
      assert (k, Prop(v, k).value) in JsEntries(v);
    }
  }

  /** The grandchild search of a domain stays within two levels of it. */
  lemma ScanWithinTwoLevels(from: Value, matcher: string)
    ensures ScanChildren(JsEntries(from), matcher).Success? && ScanChildren(JsEntries(from), matcher).value.Some? ==>
      exists g :: g in WithinTwoLevels(from) && Returnable(g) && ScanChildren(JsEntries(from), matcher).value.value == JsString(g)
    ensures ScanChildren(JsEntries(from), matcher).Failure? ==>
      ScanChildren(JsEntries(from), matcher).error.value in WithinTwoLevels(from)
  {
    var res := ScanChildren(JsEntries(from), matcher);
    ScanChildrenSource(JsEntries(from), matcher);
    if res.Success? && res.value.Some? {
      var p, g :| p in JsEntries(from) && g in ChildValues(p.1) && Returnable(g) && res.value.value == JsString(g);
      GrandchildWithin(from, p, g);
    } else if res.Failure? {
      var p, g :| p in JsEntries(from) && g in ChildValues(p.1) && res.error == NestedTooDeep(g);
      GrandchildWithin(from, p, g);
    }
  }

  lemma GrandchildWithin(from: Value, p: (string, Value), g: Value)
    requires p in JsEntries(from) && g in ChildValues(p.1)
    ensures g in WithinTwoLevels(from)
  {
    assert p.1 in ChildValues(from);
  }

  /** A resolution outcome that stays within two levels of `from`. */
  predicate ResolvedWithin(from: Value, r: Result<Option<ConfigValue>, Error>) {
    (r.Success? && r.value.Some? ==> exists v :: v in WithinTwoLevels(from) && Renders(v, r.value.value))
    && (r.Failure? && r.error.NestedTooDeep? ==> r.error.value in WithinTwoLevels(from))
  }

  lemma NormalizedWithin(from: Value, v: Value)
    requires v in WithinTwoLevels(from)
    ensures ResolvedWithin(from, WrapFound(NormalizeValue(v)))
  {
    if NormalizeValue(v).Success? {
      assert Renders(v, NormalizeValue(v).value);
    }
  }

  /**
   * The two-level limit: a resolved value renders a child or a grandchild of
   * the theme domain, and a "nested too deep" error names a grandchild.
   */
  lemma GetConfigValueWithinTwoLevels(from: Value, matcher: Option<string>)
    ensures ResolvedWithin(from, GetConfigValue(Some(from), matcher))
  {
    var r := GetConfigValue(Some(from), matcher);
    if Truthy(Some(from)) {
      var dflt := Prop(from, "default");
      PropIsChild(from, "default");
      if IsEmptyString(matcher) && !IsEmpty(dflt) {
        NormalizedWithin(from, dflt.value);
      } else {
        var key := matcher.GetOr("null");
        var m := Prop(from, key);
        PropIsChild(from, key);
        if m.Some? && Returnable(m.value) {
          NormalizedWithin(from, m.value);
        } else if m.Some? && m.value.Obj? && Truthy(Prop(m.value, "default")) {
          var d := Prop(m.value, "default").value;
          PropIsChild(m.value, "default");
          assert d in WithinTwoLevels(from);
          NormalizedWithin(from, d);
        } else if matcher.Some? && matcher.value != "" {
          ScanWithinTwoLevels(from, matcher.value);
          var res := ScanChildren(JsEntries(from), matcher.value);
          if res.Success? && res.value.Some? && res.value.value != "" {
            var g :| g in WithinTwoLevels(from) && Returnable(g) && res.value.value == JsString(g);
            assert Renders(g, r.value.value);
          }
        }
      }
    }
  }

  /** "red-500" splits around the entry key "red" into "-500". */
  lemma SplitRed500()
    ensures SplitSecond("red-500", "red") == Some("-500")
  {
    assert IndexOf("red-500", "red") == Some(0) by {
      assert "red-500"[0..3] == "red";
    }
    assert "red-500"[3..] == "-500";
    assert IndexOfFrom("-500", "red", 1) == None by {
      assert "-500"[1..4] == "500";
      assert "500"[0] != "red"[0];
    }
    assert "-500"[0..3][0] != "red"[0];
  }

  lemma Red500Child(leaf: Value)
    requires !IsEmpty(Some(leaf))
    ensures ChildCandidate("red", Obj([("500", leaf)]), "red-500") == Some(leaf)
  {
    SplitRed500();
    assert StripNegative("-500") == "500";
    TrimUnspaced("-500");
  }

  lemma RedFirstChild(leaf: Value)
    requires !IsEmpty(Some(leaf))
    ensures FirstChildMatch(Obj([("red", Obj([("500", leaf)]))]), Some("red-500")) == Returned(leaf)
  {
    var e := [("red", Obj([("500", leaf)]))];
    Red500Child(leaf);
    assert e[1..] == [];
    assert ScanChildren(e, "red-500") == Returned(leaf);
  }

  /**
   * A nested colour: "red-500" reaches `red.500` through the child search;
   * a string there is the result, an object there is one level too deep.
   */
  lemma NestedColourResolves(leaf: Value)
    requires !IsEmpty(Some(leaf))
    ensures leaf.Str? && leaf.s != "" ==>
      GetConfigValue(Some(Obj([("red", Obj([("500", leaf)]))])), Some("red-500")) == Success(Some(CStr(leaf.s)))
    ensures leaf.Obj? ==>
      GetConfigValue(Some(Obj([("red", Obj([("500", leaf)]))])), Some("red-500")) == Failure(NestedTooDeep(leaf))
  {
    var from := Obj([("red", Obj([("500", leaf)]))]);
    RedFirstChild(leaf);
    TrimUnspaced("red-500");
    assert Prop(from, "red-500") == None;
    assert Prop(from, "default") == None;
  }
}
