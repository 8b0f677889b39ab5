/**
 * What happens to a class's style once a handler has produced it
 * (`mergeImportant`, `applyTransforms`, `addVariants`, macro.js:2418-2449 and
 * 2515-2529): the important mark is added to its values, and the style is
 * nested under the selectors of its variants.
 */
module Modifiers {
  import opened Wrappers
  import opened Json
  import opened Classify
  import opened Merge

  /** A scalar value with the important mark: `value + " !important"`. */
  function Marked(v: Value): Value {
    Str(JsString(v) + " !important")
  }

  /**
   * The `reduce` of `mergeImportant` over the entries of `v` from index `i`
   * on, with accumulator `acc`: a scalar entry is merged in with the mark; an
   * object-valued entry REPLACES the accumulator by its own result, and its
   * key is not kept (macro.js:2443-2445).
   */
  function ImportantFrom(acc: Entries, v: Value, i: nat): Entries
    requires i <= |JsEntries(v)|
    decreases v, |JsEntries(v)| - i
  {
    var e := JsEntries(v);
    if i == |e| then acc
    else
      var k := e[i].0;
      var c := e[i].1;
      assert c < v by {
        if v.Arr? {
          assert c == v.items[i];
        }
      }
      var next := if IsObjectLike(c) then ImportantFrom([], c, 0) else Put(acc, k, Marked(c));
      ImportantFrom(next, v, i + 1)
  }

  /** `mergeImportant(style, hasImportant)`. */
  function MergeImportant(style: Entries, hasImportant: bool): (r: Entries)
    ensures !hasImportant ==> r == style
  {
    if !hasImportant then style else ImportantFrom([], Obj(style), 0)
  }

  /** Every value is a scalar. */
  predicate Flat(style: Entries) {
    forall j :: 0 <= j < |style| ==> !IsObjectLike(style[j].1)
  }

  /** The style with every value marked, keys and order unchanged. */
  function MarkAll(style: Entries): (r: Entries)
    ensures |r| == |style| && Keys(r) == Keys(style)
  {
    seq(|style|, j requires 0 <= j < |style| => (style[j].0, Marked(style[j].1)))
  }

  lemma {:induction false} ImportantFromFlat(style: Entries, i: nat)
    requires i <= |style| && Flat(style) && DistinctKeys(style)
    ensures ImportantFrom(MarkAll(style)[..i], Obj(style), i) == MarkAll(style)
    decreases |style| - i
  {
    var m := MarkAll(style);
    if i < |style| {
      var k := style[i].0;
      assert m[i] == (k, Marked(style[i].1));
      FreshInPrefix(m, i);
      PutNew(m[..i], k, Marked(style[i].1));
      SliceSnoc(m, i);
      ImportantFromFlat(style, i + 1);
    } else {
      assert m[..i] == m;
    }
  }

  /**
   * A style whose values are all scalars gets every value marked, in place:
   * the same keys, in the same order.
   */
  lemma ImportantMarksFlatStyle(style: Entries)
    requires Flat(style) && DistinctKeys(style)
    ensures MergeImportant(style, true) == MarkAll(style)
  {
    ImportantFromFlat(style, 0);
    assert MarkAll(style)[..0] == [];
  }

  lemma {:induction false} LastObjectDecides(acc: Entries, style: Entries, i: nat)
    requires i < |style| && IsObjectLike(style[|style| - 1].1)
    ensures ImportantFrom(acc, Obj(style), i) == ImportantFrom([], style[|style| - 1].1, 0)
    decreases |style| - i
  {
    if i < |style| - 1 {
      var c := style[i].1;
      var next := if IsObjectLike(c) then ImportantFrom([], c, 0) else Put(acc, style[i].0, Marked(c));
      LastObjectDecides(next, style, i + 1);
    } else {
      assert ImportantFrom([], style[i].1, 0) == ImportantFrom([], style[|style| - 1].1, 0);
      assert |JsEntries(Obj(style))| == i + 1;
    }
  }

  /**
   * When the last entry of a style is an object (a nested selector), the
   * important version of the style is that object's own important version:
   * the earlier entries and the selector itself are dropped.
   */
  lemma ImportantLastObjectWins(style: Entries)
    requires |style| > 0 && IsObjectLike(style[|style| - 1].1)
    ensures MergeImportant(style, true) == ImportantFrom([], style[|style| - 1].1, 0)
  {
    LastObjectDecides([], style, 0);
  }

  /**
   * The consequence for a style that is one selector around flat
   * declarations (a `clearfix!`): the declarations are marked and the
   * selector is gone.
   */
  lemma ImportantDropsSelector(selector: string, inner: Entries)
    requires Flat(inner) && DistinctKeys(inner)
    ensures MergeImportant([(selector, Obj(inner))], true) == MarkAll(inner)
  {
    ImportantLastObjectWins([(selector, Obj(inner))]);
    ImportantMarksFlatStyle(inner);
  }

  /**
   * `applyTransforms` (macro.js:2522-2529): no style stays no style; a core
   * plugin's style is kept as it is, any other gets the important mark when
   * the class asks for it.
   */
  function ApplyTransforms(style: Option<Entries>, kind: Kind, hasImportant: bool): (r: Option<Entries>)
    ensures r.None? <==> style.None?
    ensures kind.CorePlugin? || !hasImportant ==> r == style
    ensures style.Some? && !kind.CorePlugin? ==> r == Some(MergeImportant(style.value, hasImportant))
  {
    match style
    case None => None
    case Some(s) => if kind.CorePlugin? then Some(s) else Some(MergeImportant(s, hasImportant))
  }

  /**
   * `addVariants` (macro.js:2418-2428): a copy of the result with the style
   * at the path of the rendered variants.  The `dlv` at 2425 reads a variable
   * that is not yet defined, so the old value at the path never enters.
   */
  function AddVariants(results: Entries, style: Entries, variants: seq<string>): (r: Entries)
    requires |variants| > 0
    ensures DistinctKeys(results) ==> DistinctKeys(r)
  {
    SetPath(results, variants, Obj(Assign([], style)))
  }

  lemma {:induction false} AssignFresh(style: Entries, i: nat)
    requires i <= |style| && DistinctKeys(style)
    ensures Assign(style[..i], style[i..]) == style
    decreases |style| - i
  {
    if i < |style| {
      var k := style[i].0;
      assert Keys(style)[i] == k;
      assert k !in Keys(style[..i]) by {
        forall j | 0 <= j < i ensures Keys(style[..i])[j] != k {
          assert Keys(style[..i])[j] == Keys(style)[j];
        }
      }
      PutNew(style[..i], k, style[i].1);
      assert style[..i] + [(k, style[i].1)] == style[..i + 1];
      assert style[i..][1..] == style[i + 1..];
      AssignFresh(style, i + 1);
    } else {
      assert style[..i] == style;
    }
  }

  /** `Object.assign({}, style)` copies a style with distinct keys exactly. */
  lemma AssignCopies(style: Entries)
    requires DistinctKeys(style)
    ensures Assign([], style) == style
  {
    AssignFresh(style, 0);
    assert style[..0] == [] && style[0..] == style;
  }

  /**
   * What `getStyles` does with a class that has variants (macro.js:3348): the
   * result merged with `addVariants`' copy holds, at the variant path, the
   * style found there before merged with the new style.
   */
  lemma VariantStyleLandsAtPath(results: Entries, style: Entries, variants: seq<string>)
    requires |variants| > 0 && DistinctAlong(results, variants) && DistinctKeys(style)
    ensures GetPath(DeepMerge(results, AddVariants(results, style, variants)), variants)
      == Some(MergeAt(GetPath(results, variants), Obj(style)))
  {
    AssignCopies(style);
    MergeWithSetPath(results, variants, Obj(style));
  }
}
