/**
 * The suggestions a "class not found" error carries (`getCustomSuggestions`,
 * `flattenObject`, `targetTransforms`, `filterKeys`,
 * `normalizeDynamicConfig`, `matchConfig`, `getConfig`, `getSuggestions`,
 * `errorSuggestions`, macro.js:1792-1924 and 1978-1986).  With theme domains
 * to search ("config mode") the candidates are the domains' keys; without,
 * they are the class vocabulary of the two tables.
 */
module Suggestions {
  import opened Wrappers
  import opened Strings
  import opened Json
  import opened Tables
  import opened Diagnostics
  import opened Context
  import opened Config
  import opened Sorting
  import opened Pieces

  /** `getCustomSuggestions` (macro.js:1792-1808): the curated alias of a class. */
  function CustomSuggestion(className: string): Option<string> {
    Lookup(AliasTable(), className)
  }

  /**
   * `flattenObject` (macro.js:1810-1818) over the entries of `v` from index `i`
   * on: a nested object contributes its own flattened keys under `key`, a
   * scalar is set at its key; keys are joined by '-'.
   */
  function FlattenFrom(acc: Entries, v: Value, prefix: string, i: nat): Entries
    requires i <= |JsEntries(v)|
    decreases v, |JsEntries(v)| - i
  {
    var e := JsEntries(v);
    if i == |e| then acc
    else
      var k := e[i].0;
      var c := e[i].1;
      assert c < v by {
        if v.Arr? {
          assert c == v.items[i];
        }
      }
      var pre := if |prefix| > 0 then prefix + "-" else "";
      var next := if IsObjectLike(c) then Assign(acc, FlattenFrom([], c, pre + k, 0)) else Put(acc, pre + k, c);
      FlattenFrom(next, v, prefix, i + 1)
  }

  function Flatten(v: Value): Entries {
    FlattenFrom([], v, "", 0)
  }

  /** Every value of the entries is a scalar. */
  predicate Leaves(e: Entries) {
    forall j :: 0 <= j < |e| ==> !IsObjectLike(e[j].1)
  }

  lemma {:induction false} PutLeaves(e: Entries, k: string, v: Value)
    requires Leaves(e) && !IsObjectLike(v)
    ensures Leaves(Put(e, k, v))
  {
    if |e| > 0 && e[0].0 != k {
      PutLeaves(e[1..], k, v);
    }
  }

  lemma {:induction false} AssignLeaves(t: Entries, s: Entries)
    requires Leaves(t) && Leaves(s)
    ensures Leaves(Assign(t, s))
    decreases |s|
  {
    if |s| > 0 {
      PutLeaves(t, s[0].0, s[0].1);
      AssignLeaves(Put(t, s[0].0, s[0].1), s[1..]);
    }
  }

  lemma {:induction false} FlattenFromLeaves(acc: Entries, v: Value, prefix: string, i: nat)
    requires i <= |JsEntries(v)| && Leaves(acc)
    ensures Leaves(FlattenFrom(acc, v, prefix, i))
    decreases v, |JsEntries(v)| - i
  {
    var e := JsEntries(v);
    if i < |e| {
      var k := e[i].0;
      var c := e[i].1;
      assert c < v by {
        if v.Arr? {
          assert c == v.items[i];
        }
      }
      var pre := if |prefix| > 0 then prefix + "-" else "";
      if IsObjectLike(c) {
        FlattenFromLeaves([], c, pre + k, 0);
        AssignLeaves(acc, FlattenFrom([], c, pre + k, 0));
        FlattenFromLeaves(Assign(acc, FlattenFrom([], c, pre + k, 0)), v, prefix, i + 1);
      } else {
        PutLeaves(acc, pre + k, c);
        FlattenFromLeaves(Put(acc, pre + k, c), v, prefix, i + 1);
      }
    }
  }

  /**
   * `x` is a scalar found in `v` along a path whose keys, joined with '-'
   * after `prefix`, spell `k`.
   */
  ghost predicate LeafUnder(v: Value, prefix: string, k: string, x: Value)
    decreases v, 1
  {
    exists i :: 0 <= i < |JsEntries(v)| && LeafUnderEntry(v, prefix, i, k, x)
  }

  /** As `LeafUnder`, along a path that starts with the `i`-th entry of `v`. */
  ghost predicate LeafUnderEntry(v: Value, prefix: string, i: nat, k: string, x: Value)
    requires i < |JsEntries(v)|
    decreases v, 0
  {
    var c := JsEntries(v)[i].1;
    assert c < v by {
      if v.Arr? {
        assert c == v.items[i];
      }
    }
    var pre := if |prefix| > 0 then prefix + "-" else "";
    if IsObjectLike(c) then LeafUnder(c, pre + JsEntries(v)[i].0, k, x)
    else k == pre + JsEntries(v)[i].0 && x == c
  }

  /** Flattening leaves no object behind: every candidate value is a scalar. */
  lemma FlattenGivesLeaves(v: Value)
    ensures Leaves(Flatten(v))
    ensures forall p :: p in Flatten(v) ==> LeafUnder(v, "", p.0, p.1)
  {
    FlattenFromLeaves([], v, "", 0);
    FlattenFromSound([], v, "", 0);
    forall p | p in Flatten(v) ensures LeafUnder(v, "", p.0, p.1) {
      assert FromEntries(v, "", 0, p);
    }
  }

  lemma {:induction false} PutMember(e: Entries, k: string, v: Value)
    ensures forall p :: p in Put(e, k, v) ==> p in e || p == (k, v)
    decreases |e|
  {
    if |e| > 0 && e[0].0 != k {
      PutMember(e[1..], k, v);
      assert e == [e[0]] + e[1..];
    }
  }

  lemma {:induction false} AssignMember(t: Entries, s: Entries)
    ensures forall p :: p in Assign(t, s) ==> p in t || p in s
    decreases |s|
  {
    if |s| > 0 {
      PutMember(t, s[0].0, s[0].1);
      AssignMember(Put(t, s[0].0, s[0].1), s[1..]);
      assert s == [s[0]] + s[1..];
    }
  }

  /** `p` is a scalar of `v` found through one of its entries from the `i`-th on. */
  ghost predicate FromEntries(v: Value, prefix: string, i: nat, p: (string, Value)) {
    exists j :: i <= j < |JsEntries(v)| && LeafUnderEntry(v, prefix, j, p.0, p.1)
  }

  /** Each entry flattening adds is a scalar of `v` under its dashed path key. */
  lemma {:induction false} FlattenFromSound(acc: Entries, v: Value, prefix: string, i: nat)
    requires i <= |JsEntries(v)|
    ensures forall p :: p in FlattenFrom(acc, v, prefix, i) ==> p in acc || FromEntries(v, prefix, i, p)
    decreases v, |JsEntries(v)| - i
  {
    var e := JsEntries(v);
    if i < |e| {
      var k := e[i].0;
      var c := e[i].1;
      assert c < v by {
        if v.Arr? {
          assert c == v.items[i];
        }
      }
      var pre := if |prefix| > 0 then prefix + "-" else "";
      var next := if IsObjectLike(c) then Assign(acc, FlattenFrom([], c, pre + k, 0)) else Put(acc, pre + k, c);
      assert FlattenFrom(acc, v, prefix, i) == FlattenFrom(next, v, prefix, i + 1);
      FlattenFromSound(next, v, prefix, i + 1);
      if IsObjectLike(c) {
        FlattenFromSound([], c, pre + k, 0);
        AssignMember(acc, FlattenFrom([], c, pre + k, 0));
      } else {
        PutMember(acc, pre + k, c);
      }
      forall p | p in FlattenFrom(acc, v, prefix, i) && p !in acc ensures FromEntries(v, prefix, i, p) {
        if p in next {
          if IsObjectLike(c) {
            assert FromEntries(c, pre + k, 0, p);
            assert LeafUnder(c, pre + k, p.0, p.1);
          }
          assert LeafUnderEntry(v, prefix, i, p.0, p.1);
        } else {
          assert FromEntries(v, prefix, i + 1, p);
        }
      }
    }
  }

  /** A leading '-' marks a negative key. */
  predicate SignMatches(k: string, negativesOnly: bool) {
    StartsWith(k, "-") == negativesOnly
  }

  /** `filterKeys` (macro.js:1836-1843): only the keys whose sign matches. */
  function FilterKeys(e: Entries, negativesOnly: bool): (r: Entries)
    ensures forall j :: 0 <= j < |r| ==> SignMatches(r[j].0, negativesOnly)
    decreases |e|
  {
    if |e| == 0 then []
    else
      var r := FilterKeys(e[..|e| - 1], negativesOnly);
      var last := e[|e| - 1];
      if SignMatches(last.0, negativesOnly) then
        var r' := Put(r, last.0, last.1);
        assert forall j :: 0 <= j < |r'| ==> r'[j].0 in Keys(r) || r'[j].0 == last.0 by {
          forall j | 0 <= j < |r'| ensures r'[j].0 in Keys(r) || r'[j].0 == last.0 {
            assert Keys(r')[j] == r'[j].0;
          }
        }
        assert forall j :: 0 <= j < |r| ==> Keys(r)[j] == r[j].0;
        r'
      else r
  }

  /** With distinct keys, a key is kept with its value exactly when its sign matches. */
  lemma {:induction false} FilterKeysGet(e: Entries, negativesOnly: bool)
    requires DistinctKeys(e)
    ensures forall k :: Get(FilterKeys(e, negativesOnly), k) == if SignMatches(k, negativesOnly) then Get(e, k) else None
    decreases |e|
  {
    if |e| > 0 {
      var front := e[..|e| - 1];
      var last := e[|e| - 1];
      assert e == front + [last];
      DistinctFront(e);
      FreshInPrefix(e, |e| - 1);
      FilterKeysGet(front, negativesOnly);
      forall k ensures Get(e, k) == if k in Keys(front) then Get(front, k) else if k == last.0 then Some(last.1) else None {
        GetSnoc(front, last, k);
      }
    }
  }

  /** Flattening gives distinct keys: each is set with `Put` or `Object.assign`. */
  lemma {:induction false} FlattenFromDistinct(acc: Entries, v: Value, prefix: string, i: nat)
    requires i <= |JsEntries(v)| && DistinctKeys(acc)
    ensures DistinctKeys(FlattenFrom(acc, v, prefix, i))
    decreases v, |JsEntries(v)| - i
  {
    var e := JsEntries(v);
    if i < |e| {
      var k := e[i].0;
      var c := e[i].1;
      assert c < v by {
        if v.Arr? {
          assert c == v.items[i];
        }
      }
      var pre := if |prefix| > 0 then prefix + "-" else "";
      if IsObjectLike(c) {
        FlattenFromDistinct(Assign(acc, FlattenFrom([], c, pre + k, 0)), v, prefix, i + 1);
      } else {
        FlattenFromDistinct(Put(acc, pre + k, c), v, prefix, i + 1);
      }
    }
  }

  /** A domain's flattened theme keeps exactly the keys of the wanted sign, with their values. */
  lemma FlattenedDomainFiltered(v: Value, negativesOnly: bool)
    ensures forall k :: (Get(FilterKeys(Flatten(v), negativesOnly), k)
      == if SignMatches(k, negativesOnly) then Get(Flatten(v), k) else None)
  {
    FlattenFromDistinct([], v, "", 0);
    FilterKeysGet(Flatten(v), negativesOnly);
  }

  /**
   * `targetTransforms` (macro.js:1820-1834): "default" names the bare key, a
   * "-default" suffix is dropped, and the dynamic key is put in front (with
   * the sign of a negative target leading).
   */
  function TargetTransform(dynamicKey: string, target: string): string {
    var t1 := if target == "default" then "" else target;
    var t2 := if EndsWith(t1, "-default") then t1[..|t1| - 8] else t1;
    var prefix := if t2 != StripNegative(t2) then "-" else "";
    prefix + Join(NonEmpty([dynamicKey, StripNegative(t2)]), "-")
  }

  /** The bare "default" key suggests the dynamic key itself. */
  lemma TargetOfDefault(dynamicKey: string)
    requires dynamicKey != ""
    ensures TargetTransform(dynamicKey, "default") == dynamicKey
  {
    assert !EndsWith("", "-default");
    JoinPair(dynamicKey, "");
  }

  /** The dash-join of two parts, the empty ones dropped. */
  lemma JoinPair(a: string, b: string)
    ensures Join(NonEmpty([a, b]), "-") == if a == "" then b else if b == "" then a else a + "-" + b
  {
    assert [a, b][1..] == [b];
    assert [b][1..] == [];
    assert NonEmpty([b]) == if b == "" then [] else [b];
    if a != "" && b != "" {
      calc {
        Join(NonEmpty([a, b]), "-");
        Join([a, b], "-");
        a + "-" + Join([b], "-");
      }
    }
  }

  /** A plain key is appended to the dynamic key. */
  lemma TargetOfPlainKey(dynamicKey: string, target: string)
    requires dynamicKey != "" && target != "" && target != "default"
    requires target[0] != '-' && !EndsWith(target, "-default")
    ensures TargetTransform(dynamicKey, target) == dynamicKey + "-" + target
  {
    JoinPair(dynamicKey, target);
  }

  /** A negative key keeps its sign in front of the dynamic key. */
  lemma TargetOfNegativeKey(dynamicKey: string, target: string)
    requires dynamicKey != "" && target != ""
    requires !EndsWith("-" + target, "-default")
    ensures TargetTransform(dynamicKey, "-" + target) == "-" + dynamicKey + "-" + target
  {
    var t := "-" + target;
    assert t != "default" by {
      assert t[0] == '-';
    }
    assert StripNegative(t) == target;
    JoinPair(dynamicKey, target);
  }

  /** A candidate survives `normalizeDynamicConfig`'s filter. */
  predicate KeptFromDomain(c: Candidate) {
    !Contains(c.target, "-array-") && (c.rating.None? || c.rating.value >= 0.15)
  }

  function KeepFromDomain(cs: seq<Candidate>): (r: seq<Candidate>)
    ensures forall j :: 0 <= j < |r| ==> KeptFromDomain(r[j]) && r[j] in cs
    ensures forall j :: 0 <= j < |cs| && KeptFromDomain(cs[j]) ==> cs[j] in r
    decreases |cs|
  {
    if |cs| == 0 then []
    else
      var rest := KeepFromDomain(cs[1..]);
      assert forall j :: 0 < j < |cs| ==> cs[j] == cs[1..][j - 1];
      if KeptFromDomain(cs[0]) then [cs[0]] + rest else rest
  }

  /** The filter keeps the order: the kept part of a concatenation is the concatenation of the kept parts. */
  lemma {:induction false} KeepFromDomainAppend(a: seq<Candidate>, b: seq<Candidate>)
    ensures KeepFromDomain(a + b) == KeepFromDomain(a) + KeepFromDomain(b)
    decreases |a|
  {
    if |a| > 0 {
      assert (a + b)[1..] == a[1..] + b;
      KeepFromDomainAppend(a[1..], b);
    } else {
      assert a + b == b;
    }
  }

  /** The rating of one domain key, present only when there is an input to compare with. */
  function RateKey(state: State, key: string, input: Option<string>): Option<Rating> {
    if input.Some? && input.value != "" then Some(state.host.similarity("-" + key, input.value)) else None
  }

  /**
   * `normalizeDynamicConfig` (macro.js:1845-1864): the sign-matching keys of
   * one domain, flattened, as candidates.  A domain that is not in the theme
   * has no keys.
   */
  function DomainCandidates(state: State, domain: Option<Value>, input: Option<string>, dynamicKey: string,
    hasNegative: bool): (r: seq<Candidate>)
    ensures forall j :: 0 <= j < |r| ==> KeptFromDomain(r[j])
    ensures forall j :: 0 <= j < |r| ==> (r[j].rating.Some? <==> input.Some? && input.value != "")
  {
    var e := FilterKeys(if domain.Some? then Flatten(domain.value) else [], hasNegative);
    var all := seq(|e|, j requires 0 <= j < |e| =>
      Candidate(TargetTransform(dynamicKey, e[j].0), Some(JsString(e[j].1)), RateKey(state, e[j].0, input)));
    KeepFromDomain(all)
  }

  /**
   * `Object.assign(results, list)` for a list: its items overwrite the
   * accumulated ones index by index.
   */
  function Overlay(acc: seq<Candidate>, next: seq<Candidate>): (r: seq<Candidate>)
    ensures |r| == if |next| >= |acc| then |next| else |acc|
    ensures forall j :: 0 <= j < |r| ==> r[j] == if j < |next| then next[j] else acc[j]
    ensures forall j :: 0 <= j < |r| ==> r[j] in acc || r[j] in next
  {
    if |next| >= |acc| then next else next + acc[|next|..]
  }

  /** All domains overlaid, first to last. */
  function OverlayDomains(state: State, domains: seq<Option<string>>, input: Option<string>, dynamicKey: string,
    hasNegative: bool): (r: seq<Candidate>)
    ensures forall j :: 0 <= j < |r| ==> KeptFromDomain(r[j])
    ensures forall j :: 0 <= j < |r| ==> (r[j].rating.Some? <==> input.Some? && input.value != "")
    decreases |domains|
  {
    if |domains| == 0 then []
    else
      var acc := OverlayDomains(state, domains[..|domains| - 1], input, dynamicKey, hasNegative);
      Overlay(acc, DomainCandidates(state, Theme(state.theme, domains[|domains| - 1]), input, dynamicKey, hasNegative))
  }

  /** The candidate lists of the domains, in order. */
  function DomainLists(state: State, domains: seq<Option<string>>, input: Option<string>, dynamicKey: string,
    hasNegative: bool): (r: seq<seq<Candidate>>)
    ensures |r| == |domains|
  {
    seq(|domains|, i requires 0 <= i < |domains| =>
      DomainCandidates(state, Theme(state.theme, domains[i]), input, dynamicKey, hasNegative))
  }

  /** Lists overlaid first to last, as `OverlayDomains` does with the domains' lists. */
  function OverlayAll(lists: seq<seq<Candidate>>): seq<Candidate>
    decreases |lists|
  {
    if |lists| == 0 then [] else Overlay(OverlayAll(lists[..|lists| - 1]), lists[|lists| - 1])
  }

  /** List `i` is the last one with a candidate at index `j`. */
  predicate LastCovering(lists: seq<seq<Candidate>>, i: int, j: nat) {
    0 <= i < |lists| && j < |lists[i]| && forall k :: i < k < |lists| ==> j >= |lists[k]|
  }

  /** The `j`-th candidate of `r` is the `j`-th of the last list that has one there. */
  ghost predicate LastListWins(lists: seq<seq<Candidate>>, r: seq<Candidate>, j: nat) {
    j < |r| && exists i :: LastCovering(lists, i, j) && r[j] == lists[i][j]
  }

  /**
   * The overlay is as long as the longest list, and each of its candidates
   * is the one at that index in the last list that has one there.
   */
  lemma {:induction false} OverlayAllLastWins(lists: seq<seq<Candidate>>)
    ensures forall i :: 0 <= i < |lists| ==> |lists[i]| <= |OverlayAll(lists)|
    ensures forall j :: 0 <= j < |OverlayAll(lists)| ==> LastListWins(lists, OverlayAll(lists), j)
    decreases |lists|
  {
    if |lists| > 0 {
      var n := |lists|;
      var front := lists[..n - 1];
      OverlayAllLastWins(front);
      var acc := OverlayAll(front);
      var last := lists[n - 1];
      var r := OverlayAll(lists);
      assert r == Overlay(acc, last);
      forall i | 0 <= i < n ensures |lists[i]| <= |r| {
        if i < n - 1 {
          assert front[i] == lists[i];
        }
      }
      forall j | 0 <= j < |r| ensures LastListWins(lists, r, j) {
        if j < |last| {
          assert LastCovering(lists, n - 1, j) && r[j] == lists[n - 1][j];
        } else {
          assert j < |acc| && r[j] == acc[j];
          assert LastListWins(front, acc, j);
          var i :| LastCovering(front, i, j) && acc[j] == front[i][j];
          assert front[i] == lists[i];
          forall k | i < k < n ensures j >= |lists[k]| {
            if k < n - 1 {
              assert front[k] == lists[k];
            }
          }
          assert LastCovering(lists, i, j);
        }
      }
    }
  }

  /** `OverlayDomains` is the overlay of the domains' candidate lists. */
  lemma {:induction false} OverlayDomainsIsOverlayAll(state: State, domains: seq<Option<string>>,
    input: Option<string>, dynamicKey: string, hasNegative: bool)
    ensures OverlayDomains(state, domains, input, dynamicKey, hasNegative)
      == OverlayAll(DomainLists(state, domains, input, dynamicKey, hasNegative))
    decreases |domains|
  {
    if |domains| > 0 {
      var n := |domains|;
      OverlayDomainsIsOverlayAll(state, domains[..n - 1], input, dynamicKey, hasNegative);
      var lists := DomainLists(state, domains, input, dynamicKey, hasNegative);
      var front := DomainLists(state, domains[..n - 1], input, dynamicKey, hasNegative);
      assert front == lists[..n - 1] by {
        forall i | 0 <= i < n - 1 ensures front[i] == lists[i] {
          assert domains[..n - 1][i] == domains[i];
        }
      }
      assert lists[n - 1] == DomainCandidates(state, Theme(state.theme, domains[n - 1]), input, dynamicKey, hasNegative);
    }
  }

  /**
   * `Object.assign` over the domains (macro.js:1870-1872): the result is as
   * long as the longest domain list, and each candidate comes from the last
   * domain that has one at that index.
   */
  lemma OverlayLastDomainWins(state: State, domains: seq<Option<string>>, input: Option<string>,
    dynamicKey: string, hasNegative: bool)
    ensures var r := OverlayDomains(state, domains, input, dynamicKey, hasNegative);
      var lists := DomainLists(state, domains, input, dynamicKey, hasNegative);
      (forall i :: 0 <= i < |lists| ==> |lists[i]| <= |r|)
      && forall j :: 0 <= j < |r| ==> LastListWins(lists, r, j)
  {
    OverlayDomainsIsOverlayAll(state, domains, input, dynamicKey, hasNegative);
    OverlayAllLastWins(DomainLists(state, domains, input, dynamicKey, hasNegative));
  }

  /** The sort key of `b.rating - a.rating`: highest rating first; unrated lists keep their order. */
  function ByRating(c: Candidate): real {
    -(if c.rating.Some? then c.rating.value else 0.0)
  }

  /** `matchConfig` (macro.js:1866-1877). */
  function MatchConfig(state: State, domains: seq<Option<string>>, input: Option<string>, dynamicKey: string,
    hasNegative: bool): seq<Candidate>
  {
    SortBy(OverlayDomains(state, domains, input, dynamicKey, hasNegative), ByRating)
  }

  /** `c.rating >= bound`, false for an unrated candidate. */
  predicate RatedAtLeast(c: Candidate, bound: real) {
    c.rating.Some? && c.rating.value >= bound
  }

  /** `cs[i]` is the first candidate rated at least `bound`. */
  predicate FirstRatedAt(cs: seq<Candidate>, bound: real, i: int) {
    0 <= i < |cs| && RatedAtLeast(cs[i], bound) && forall j :: 0 <= j < i ==> !RatedAtLeast(cs[j], bound)
  }

  /** `cs.find(c => c.rating >= bound)`, by its target. */
  function FirstRated(cs: seq<Candidate>, bound: real): (r: Option<string>)
    ensures r.None? <==> forall j :: 0 <= j < |cs| ==> !RatedAtLeast(cs[j], bound)
    ensures r.Some? ==> exists i :: FirstRatedAt(cs, bound, i) && cs[i].target == r.value
    decreases |cs|
  {
    if |cs| == 0 then None
    else if RatedAtLeast(cs[0], bound) then
      assert FirstRatedAt(cs, bound, 0);
      Some(cs[0].target)
    else
      var r := FirstRated(cs[1..], bound);
      if r.Some? then
        var i :| FirstRatedAt(cs[1..], bound, i) && cs[1..][i].target == r.value;
        assert FirstRatedAt(cs, bound, i + 1);
        r
      else
        assert forall j :: 1 <= j < |cs| ==> cs[j] == cs[1..][j - 1];
        r
  }

  /**
   * Config mode (macro.js:1894-1907): the rated candidates; none gives the
   * first 20 unrated ones in domain order; a candidate rated 0.6 or more is
   * picked alone, otherwise the whole list is offered.
   */
  function ConfigSuggestions(state: State, className: string, hasNegative: bool, domains: seq<Option<string>>,
    dynamicKey: string): (r: Suggested)
    ensures !r.Disabled?
  {
    var matches := MatchConfig(state, domains, Some(className), dynamicKey, hasNegative);
    if |matches| == 0 then Candidates(Take(MatchConfig(state, domains, None, dynamicKey, hasNegative), 20))
    else match FirstRated(matches, 0.6)
      case Some(t) => Pick(t)
      case None => Candidates(matches)
  }

  /** The vocabulary: every static class, then every dynamic key followed by "-...". */
  function Vocabulary(state: State): seq<string> {
    TableKeys(state.statics) + Ellipsized(TableKeys(state.dynamics))
  }

  /** Each key followed by "-...". */
  function Ellipsized(keys: seq<string>): seq<string> {
    seq(|keys|, j requires 0 <= j < |keys| => keys[j] + "-...")
  }

  /** `findBestMatch(className, targets).ratings`, kept when above 0.25. */
  function RateVocabulary(state: State, className: string, targets: seq<string>): (r: seq<Candidate>)
    ensures forall j :: 0 <= j < |r| ==>
      (r[j].rating.Some? && r[j].rating.value > 0.25 && r[j].value.None? && r[j].target in targets)
    ensures forall j :: 0 <= j < |targets| && state.host.similarity(className, targets[j]) > 0.25 ==>
      Candidate(targets[j], None, Some(state.host.similarity(className, targets[j]))) in r
    decreases |targets|
  {
    if |targets| == 0 then []
    else
      var rating := state.host.similarity(className, targets[0]);
      var rest := RateVocabulary(state, className, targets[1..]);
      assert forall j :: 0 < j < |targets| ==> targets[j] == targets[1..][j - 1];
      if rating > 0.25 then [Candidate(targets[0], None, Some(rating))] + rest else rest
  }

  /** The ratings keep the vocabulary's order: rating a concatenation rates each part in turn. */
  lemma {:induction false} RateVocabularyAppend(state: State, className: string, a: seq<string>, b: seq<string>)
    ensures RateVocabulary(state, className, a + b)
      == RateVocabulary(state, className, a) + RateVocabulary(state, className, b)
    decreases |a|
  {
    if |a| > 0 {
      assert (a + b)[1..] == a[1..] + b;
      RateVocabularyAppend(state, className, a[1..], b);
    } else {
      assert a + b == b;
    }
  }

  /**
   * Vocabulary mode (macro.js:1911-1923): nothing above 0.25 gives no
   * suggestion; the first target rated 0.6 or more, in vocabulary order, is
   * picked alone; otherwise the six best.
   */
  function VocabularySuggestions(state: State, className: string, targets: seq<string>): (r: Suggested)
    ensures !r.Disabled?
  {
    var matches := RateVocabulary(state, className, targets);
    if |matches| == 0 then Candidates([])
    else match FirstRated(matches, 0.6)
      case Some(t) => Pick(t)
      case None => Candidates(Take(SortBy(matches, ByRating), 6))
  }

  /**
   * `getSuggestions` (macro.js:1879-1924): the alias first, then config mode
   * when domains are given, vocabulary mode otherwise.
   */
  function GetSuggestions(state: State, pieces: Pieces, domains: Option<seq<Option<string>>>, dynamicKey: string):
    (r: Result<Suggested, Error>)
    ensures r.Success? ==> !r.value.Disabled?
    ensures CustomSuggestion(pieces.className).Some? ==> r == Success(Pick(CustomSuggestion(pieces.className).value))
    ensures CustomSuggestion(pieces.className).None? && domains.Some? ==>
      r == if FirstMissing(state, domains.value).Some? then Failure(MissingThemeKey(FirstMissing(state, domains.value).value))
        else Success(ConfigSuggestions(state, pieces.className, pieces.hasNegative, domains.value, dynamicKey))
    ensures CustomSuggestion(pieces.className).None? && domains.None? ==>
      r == Success(VocabularySuggestions(state, pieces.className, Vocabulary(state)))
  {
    match CustomSuggestion(pieces.className)
    case Some(alias) => Success(Pick(alias))
    case None =>
      if domains.None? then Success(VocabularySuggestions(state, pieces.className, Vocabulary(state)))
      else
        match FirstMissing(state, domains.value)
        case Some(d) => Failure(MissingThemeKey(d))
        case None => Success(ConfigSuggestions(state, pieces.className, pieces.hasNegative, domains.value, dynamicKey))
  }

  /**
   * The first domain the theme does not have: `flattenObject(theme(d))`
   * throws a TypeError on it, before any candidate is rated.
   */
  function FirstMissing(state: State, domains: seq<Option<string>>): (r: Option<string>)
    ensures r.None? <==> forall j :: 0 <= j < |domains| ==> Theme(state.theme, domains[j]).Some?
    ensures r.Some? ==> exists i :: (0 <= i < |domains| && domains[i] == Some(r.value)
      && Theme(state.theme, domains[i]).None? && forall j :: 0 <= j < i ==> Theme(state.theme, domains[j]).Some?)
    decreases |domains|
  {
    if |domains| == 0 then None
    else if Theme(state.theme, domains[0]).None? then domains[0]
    else
      var r := FirstMissing(state, domains[1..]);
      assert forall j :: 0 < j < |domains| ==> domains[j] == domains[1..][j - 1];
      if r.Some? then
        var i :| (0 <= i < |domains[1..]| && domains[1..][i] == Some(r.value)
          && Theme(state.theme, domains[1..][i]).None? && forall j :: 0 <= j < i ==> Theme(state.theme, domains[1..][j]).Some?);
        assert domains[i + 1] == Some(r.value);
        r
      else r
  }

  /** A suggestion of length 0 (an empty list or an empty target) is reported as none. */
  predicate IsNone(s: Suggested) {
    (s.Pick? && s.target == "") || (s.Candidates? && |s.list| == 0)
  }

  /**
   * `errorSuggestions` (macro.js:1978-1986): the "not found" error, with no
   * suggestion work when suggestions are off.
   */
  function ErrorSuggestions(state: State, pieces: Pieces, domains: Option<seq<Option<string>>>, dynamicKey: string):
    (r: Error)
    ensures r.ClassNotFound? || r.MissingThemeKey?
    ensures r.MissingThemeKey? <==> (state.hasSuggestions && CustomSuggestion(pieces.className).None?
      && domains.Some? && FirstMissing(state, domains.value).Some?)
    ensures r.MissingThemeKey? ==> r.key == FirstMissing(state, domains.value).value
    ensures r.ClassNotFound? ==> (r.classNameRawNoVariants == pieces.classNameRawNoVariants
      && (r.suggestions.Disabled? <==> !state.hasSuggestions)
      && (r.suggestions.Pick? ==> r.suggestions.target != ""))
  {
    if !state.hasSuggestions then ClassNotFound(pieces.classNameRawNoVariants, Disabled)
    else
      match GetSuggestions(state, pieces, domains, dynamicKey)
      case Failure(e) => e
      case Success(s) => ClassNotFound(pieces.classNameRawNoVariants, if IsNone(s) then Candidates([]) else s)
  }

  lemma AliasesNonEmpty()
    ensures forall i :: 0 <= i < |AliasTable()| ==> AliasTable()[i].1 != ""
  {
  }

  /** A class with a curated alias is answered with that alias, whatever the mode. */
  lemma AliasComesFirst(state: State, pieces: Pieces, domains: Option<seq<Option<string>>>, dynamicKey: string)
    requires state.hasSuggestions && CustomSuggestion(pieces.className).Some?
    ensures ErrorSuggestions(state, pieces, domains, dynamicKey)
      == ClassNotFound(pieces.classNameRawNoVariants, Pick(CustomSuggestion(pieces.className).value))
  {
    AliasesNonEmpty();
    var alias := CustomSuggestion(pieces.className).value;
    assert (pieces.className, alias) in AliasTable();
  }

  /**
   * A config-mode list for a class offers only candidates whose target has no
   * "-array-", rated at least 0.15 but below 0.6, highest first.
   */
  lemma ConfigListIsRanked(state: State, className: string, hasNegative: bool, domains: seq<Option<string>>,
    dynamicKey: string)
    requires className != ""
    requires ConfigSuggestions(state, className, hasNegative, domains, dynamicKey).Candidates?
    requires |MatchConfig(state, domains, Some(className), dynamicKey, hasNegative)| > 0
    ensures var l := ConfigSuggestions(state, className, hasNegative, domains, dynamicKey).list;
      SortedBy(l, ByRating)
      && forall j :: 0 <= j < |l| ==>
        !Contains(l[j].target, "-array-") && l[j].rating.Some? && 0.15 <= l[j].rating.value < 0.6
  {
    var all := OverlayDomains(state, domains, Some(className), dynamicKey, hasNegative);
    var l := MatchConfig(state, domains, Some(className), dynamicKey, hasNegative);
    SortBySortsAndPermutes(all, ByRating);
    forall j | 0 <= j < |l|
      ensures !Contains(l[j].target, "-array-") && l[j].rating.Some? && 0.15 <= l[j].rating.value
    {
      assert l[j] in multiset(l);
      assert l[j] in multiset(all);
      var i :| 0 <= i < |all| && all[i] == l[j];
    }
  }

  /** A config-mode pick is the first candidate, in ranked order, rated 0.6 or more. */
  lemma ConfigPickIsFirstStrong(state: State, className: string, hasNegative: bool, domains: seq<Option<string>>,
    dynamicKey: string)
    requires ConfigSuggestions(state, className, hasNegative, domains, dynamicKey).Pick?
    ensures var l := MatchConfig(state, domains, Some(className), dynamicKey, hasNegative);
      exists i :: FirstRatedAt(l, 0.6, i)
        && l[i].target == ConfigSuggestions(state, className, hasNegative, domains, dynamicKey).target
  {
  }

  /** When no candidate is rated, the fallback is at most 20 unrated candidates in domain order. */
  lemma ConfigFallbackIsUnrated(state: State, className: string, hasNegative: bool, domains: seq<Option<string>>,
    dynamicKey: string)
    requires |MatchConfig(state, domains, Some(className), dynamicKey, hasNegative)| == 0
    ensures ConfigSuggestions(state, className, hasNegative, domains, dynamicKey)
      == Candidates(Take(OverlayDomains(state, domains, None, dynamicKey, hasNegative), 20))
    ensures var l := ConfigSuggestions(state, className, hasNegative, domains, dynamicKey).list;
      |l| <= 20 && forall j :: 0 <= j < |l| ==> l[j].rating.None?
  {
    var all := OverlayDomains(state, domains, None, dynamicKey, hasNegative);
    UnratedStaysPut(all);
    UnratedPrefix(all, 20);
  }

  /** Candidates without a rating all share one key, so the sort leaves them in place. */
  lemma UnratedStaysPut(all: seq<Candidate>)
    requires forall j :: 0 <= j < |all| ==> all[j].rating.None?
    ensures SortBy(all, ByRating) == all
  {
    assert SortedBy(all, ByRating) by {
      assert forall j :: 0 <= j < |all| ==> ByRating(all[j]) == 0.0;
    }
    SortByKeepsSorted(all, ByRating);
  }

  lemma UnratedPrefix(all: seq<Candidate>, n: nat)
    requires forall j :: 0 <= j < |all| ==> all[j].rating.None?
    ensures var l := Take(all, n); |l| <= n && forall j :: 0 <= j < |l| ==> l[j].rating.None?
  {
    var l := Take(all, n);
    assert forall j :: 0 <= j < |l| ==> l[j] == all[j];
  }

  /**
   * A vocabulary-mode list holds the six best matches (all of them when
   * there are fewer), rated above 0.25 but below 0.6, highest first: a match
   * left out is rated no higher than any kept one.
   */
  lemma VocabularyListIsTopSix(state: State, className: string, targets: seq<string>)
    requires VocabularySuggestions(state, className, targets).Candidates?
    ensures var l := VocabularySuggestions(state, className, targets).list;
      |l| <= 6 && SortedBy(l, ByRating)
      && forall j :: 0 <= j < |l| ==> l[j].rating.Some? && 0.25 < l[j].rating.value < 0.6 && l[j].target in targets
    ensures var l := VocabularySuggestions(state, className, targets).list;
      var matches := RateVocabulary(state, className, targets);
      |l| == (if |matches| < 6 then |matches| else 6)
      && forall c :: c in matches ==> c in l || forall j :: 0 <= j < |l| ==> c.rating.value <= l[j].rating.value
  {
    var matches := RateVocabulary(state, className, targets);
    if |matches| > 0 {
      var sorted := SortBy(matches, ByRating);
      SortBySortsAndPermutes(matches, ByRating);
      var l := Take(sorted, 6);
      forall j | 0 <= j < |l|
        ensures l[j].rating.Some? && 0.25 < l[j].rating.value < 0.6 && l[j].target in targets
      {
        assert l[j] == sorted[j];
        assert sorted[j] in multiset(matches);
        var i :| 0 <= i < |matches| && matches[i] == sorted[j];
      }
      BestSixKept(matches);
      forall c | c in matches && c !in l ensures forall j :: 0 <= j < |l| ==> c.rating.value <= l[j].rating.value {
        forall j | 0 <= j < |l| ensures c.rating.value <= l[j].rating.value {
          assert ByRating(l[j]) <= ByRating(c);
        }
      }
    }
  }

  /** The six kept after sorting by rating are rated at least as high as every match left out. */
  lemma BestSixKept(matches: seq<Candidate>)
    ensures var l := Take(SortBy(matches, ByRating), 6);
      forall c :: c in matches ==> c in l || forall j :: 0 <= j < |l| ==> ByRating(l[j]) <= ByRating(c)
  {
    var sorted := SortBy(matches, ByRating);
    SortBySortsAndPermutes(matches, ByRating);
    TakeKeepsSmallest(sorted, ByRating, 6);
    forall c | c in matches ensures c in sorted {
      assert c in multiset(sorted);
    }
  }

  /**
   * A vocabulary-mode pick is the first target, in vocabulary order, rated
   * 0.6 or more, even when a later target is rated higher.
   */
  lemma VocabularyPickIsFirstStrong(state: State, className: string, targets: seq<string>)
    requires VocabularySuggestions(state, className, targets).Pick?
    ensures exists i :: (FirstRatedAt(RateVocabulary(state, className, targets), 0.6, i)
      && RateVocabulary(state, className, targets)[i].target == VocabularySuggestions(state, className, targets).target)
  {
    var l := RateVocabulary(state, className, targets);
    assert |l| > 0;
    assert FirstRated(l, 0.6).Some?;
    var t := FirstRated(l, 0.6).value;
    assert VocabularySuggestions(state, className, targets) == Pick(t);
    var i :| FirstRatedAt(l, 0.6, i) && l[i].target == t;
    assert l[i].target == VocabularySuggestions(state, className, targets).target;
  }

  /** No target rated above 0.25 means no suggestion. */
  lemma VocabularyEmptyWhenNothingClose(state: State, className: string, targets: seq<string>)
    requires forall j :: 0 <= j < |targets| ==> state.host.similarity(className, targets[j]) <= 0.25
    ensures VocabularySuggestions(state, className, targets) == Candidates([])
  {
    RateVocabularyEmpty(state, className, targets);
  }

  lemma {:induction false} RateVocabularyEmpty(state: State, className: string, targets: seq<string>)
    requires forall j :: 0 <= j < |targets| ==> state.host.similarity(className, targets[j]) <= 0.25
    ensures RateVocabulary(state, className, targets) == []
    decreases |targets|
  {
    if |targets| > 0 {
      RateVocabularyEmpty(state, className, targets[1..]);
    }
  }
}
