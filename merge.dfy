/**
 * The two object operations the engine borrows from libraries: the deep merge
 * that folds each class's fragment into the result (`lodash.merge`) and the
 * path update that nests a fragment under its variants (`clean-set`).  Both
 * are defined here on plain style objects.
 */
module Merge {
  import opened Wrappers
  import opened Json

  /**
   * Merging one value into another: two objects merge key by key, anything
   * else is replaced by the incoming value.
   */
  function MergeValue(t: Value, s: Value): Value
    decreases s, if s.Obj? then |s.entries| + 1 else 0
  {
    if t.Obj? && s.Obj? then Obj(MergeFrom(t.entries, s, 0)) else s
  }

  /** The entries of `s` from index `i` on, merged one after another into `t`. */
  function MergeFrom(t: Entries, s: Value, i: nat): (r: Entries)
    requires s.Obj? && i <= |s.entries|
    ensures DistinctKeys(t) ==> DistinctKeys(r)
    decreases s, |s.entries| - i
  {
    if i == |s.entries| then t
    else
      var k := s.entries[i].0;
      var v := s.entries[i].1;
      assert v < s;
      var merged := match Get(t, k) case Some(prev) => MergeValue(prev, v) case None => v;
      MergeFrom(Put(t, k, merged), s, i + 1)
  }

  /** What key `k` holds once `v` is merged into `t` (the step of `MergeFrom`). */
  function MergedEntry(t: Entries, k: string, v: Value): Value {
    match Get(t, k) case Some(prev) => MergeValue(prev, v) case None => v
  }

  /** `merge(target, source)`: the source's entries merged into the target, in order. */
  function DeepMerge(t: Entries, s: Entries): Entries {
    MergeFrom(t, Obj(s), 0)
  }

  /** What one key holds after a merge, given what the two sides hold. */
  function MergeOpt(t: Option<Value>, s: Option<Value>): Option<Value> {
    match (t, s)
    case (_, None) => t
    case (None, Some(v)) => Some(v)
    case (Some(a), Some(b)) => Some(MergeValue(a, b))
  }

  lemma MergeFromStep(t: Entries, s: Value, i: nat)
    requires s.Obj? && i < |s.entries|
    ensures MergeFrom(t, s, i) == MergeFrom(Put(t, s.entries[i].0, MergedEntry(t, s.entries[i].0, s.entries[i].1)), s, i + 1)
  {
  }

  /** In entries with distinct keys, a key does not occur again after its position. */
  lemma DistinctTail(e: Entries, i: nat)
    requires DistinctKeys(e) && i < |e|
    ensures Get(e[i + 1..], e[i].0) == None
  {
    var rest := e[i + 1..];
    forall j | 0 <= j < |rest| ensures rest[j].0 != e[i].0 {
      assert Keys(e)[i + 1 + j] == rest[j].0;
      assert Keys(e)[i] == e[i].0;
    }
    GetAbsent(rest, e[i].0);
  }

  lemma {:induction false} MergeFromGet(t: Entries, s: Value, i: nat, k: string)
    requires s.Obj? && i <= |s.entries| && DistinctKeys(s.entries)
    ensures Get(MergeFrom(t, s, i), k) == MergeOpt(Get(t, k), Get(s.entries[i..], k))
    decreases |s.entries| - i
  {
    if i < |s.entries| {
      var e := s.entries;
      var x, rest := e[i], e[i + 1..];
      MergeFromStep(t, s, i);
      MergeFromGet(Put(t, x.0, MergedEntry(t, x.0, x.1)), s, i + 1, k);
      SliceCons(e, i);
      if k == x.0 {
        DistinctTail(e, i);
      }
      MergeStepGet(t, x, rest, k);
    }
  }

  /** One step of `MergeFrom`, seen from key `k`. */
  lemma MergeStepGet(t: Entries, x: (string, Value), rest: Entries, k: string)
    requires k == x.0 ==> Get(rest, k) == None
    ensures MergeOpt(Get(Put(t, x.0, MergedEntry(t, x.0, x.1)), k), Get(rest, k)) == MergeOpt(Get(t, k), Get([x] + rest, k))
  {
    EntriesCons(x, rest);
  }

  lemma {:induction false} GetAbsent(e: Entries, k: string)
    requires forall j :: 0 <= j < |e| ==> e[j].0 != k
    ensures Get(e, k) == None
  {
    if |e| > 0 {
      GetAbsent(e[1..], k);
    }
  }

  /**
   * After a merge a key holds the target's value merged with the source's:
   * the target's alone when the source lacks it, the source's alone when the
   * target lacks it.
   */
  lemma DeepMergeGet(t: Entries, s: Entries, k: string)
    requires DistinctKeys(s)
    ensures Get(DeepMerge(t, s), k) == MergeOpt(Get(t, k), Get(s, k))
  {
    MergeFromGet(t, Obj(s), 0, k);
    assert s[0..] == s;
  }

  lemma {:induction false} PutNew(e: Entries, k: string, v: Value)
    requires k !in Keys(e)
    ensures Put(e, k, v) == e + [(k, v)]
  {
    if |e| > 0 {
      assert Keys(e)[0] == e[0].0;
      assert Keys(e[1..]) == Keys(e)[1..];
      PutNew(e[1..], k, v);
      assert e == [e[0]] + e[1..];
    }
  }

  lemma {:induction false} MergeFromFresh(s: Value, i: nat)
    requires s.Obj? && i <= |s.entries| && DistinctKeys(s.entries)
    ensures MergeFrom(s.entries[..i], s, i) == s.entries
    decreases |s.entries| - i
  {
    var e := s.entries;
    if i < |e| {
      var k := e[i].0;
      FreshInPrefix(e, i);
      assert Get(e[..i], k) == None;
      PutNew(e[..i], k, e[i].1);
      SliceSnoc(e, i);
      MergeFromFresh(s, i + 1);
    } else {
      assert e[..i] == e;
    }
  }

  /** Merging into an empty result gives the fragment itself. */
  lemma DeepMergeIntoEmpty(s: Entries)
    requires DistinctKeys(s)
    ensures DeepMerge([], s) == s
  {
    MergeFromFresh(Obj(s), 0);
    assert s[..0] == [];
  }

  /** `path` read through nested objects. */
  function GetPath(e: Entries, path: seq<string>): Option<Value>
    decreases |path|
  {
    if |path| == 0 then Some(Obj(e))
    else match Get(e, path[0])
      case None => None
      case Some(v) =>
        if |path| == 1 then Some(v)
        else if v.Obj? then GetPath(v.entries, path[1..])
        else None
  }

  /** The object found at the first step of a path, or a fresh one. */
  function ChildObject(e: Entries, k: string): Entries {
    match Get(e, k)
    case Some(Obj(c)) => c
    case _ => []
  }

  /**
   * `cleanSet(e, path, v)`: a copy of `e` in which `path` leads to `v`, with
   * objects created or copied along the way.
   */
  function SetPath(e: Entries, path: seq<string>, v: Value): (r: Entries)
    requires |path| > 0
    ensures DistinctKeys(e) ==> DistinctKeys(r)
    decreases |path|
  {
    if |path| == 1 then Put(e, path[0], v)
    else Put(e, path[0], Obj(SetPath(ChildObject(e, path[0]), path[1..], v)))
  }

  /** Reading the path back gives the value set. */
  lemma {:induction false} SetPathGet(e: Entries, path: seq<string>, v: Value)
    requires |path| > 0
    ensures GetPath(SetPath(e, path, v), path) == Some(v)
    decreases |path|
  {
    if |path| > 1 {
      SetPathGet(ChildObject(e, path[0]), path[1..], v);
    }
  }

  /** Keys other than the first step are untouched. */
  lemma SetPathSiblings(e: Entries, path: seq<string>, v: Value, k: string)
    requires |path| > 0 && k != path[0]
    ensures Get(SetPath(e, path, v), k) == Get(e, k)
  {
  }

  /** Every object along `path` has distinct keys. */
  predicate DistinctAlong(e: Entries, path: seq<string>)
    decreases |path|
  {
    DistinctKeys(e) && (|path| > 1 ==> DistinctAlong(ChildObject(e, path[0]), path[1..]))
  }

  /** The value at `path` with `v` merged into it (just `v` when there is none). */
  function MergeAt(at: Option<Value>, v: Value): Value {
    match at
    case Some(o) => MergeValue(o, v)
    case None => v
  }

  /**
   * Merging the result with its own copy that has `v` at `path` leaves at
   * `path` the old value there merged with `v`.
   */
  lemma {:induction false} MergeWithSetPath(e: Entries, path: seq<string>, v: Value)
    requires |path| > 0 && DistinctAlong(e, path)
    ensures GetPath(DeepMerge(e, SetPath(e, path, v)), path) == Some(MergeAt(GetPath(e, path), v))
    decreases |path|
  {
    var s := SetPath(e, path, v);
    var k := path[0];
    DeepMergeGet(e, s, k);
    if |path| == 1 {
    } else {
      var c := ChildObject(e, k);
      var inner := SetPath(c, path[1..], v);
      assert Get(s, k) == Some(Obj(inner));
      match Get(e, k)
      case Some(Obj(ce)) =>
        MergeWithSetPath(ce, path[1..], v);
        assert Get(DeepMerge(e, s), k) == Some(Obj(DeepMerge(ce, inner)));
      case Some(other) =>
        SetPathGet(c, path[1..], v);
      case None =>
        SetPathGet(c, path[1..], v);
    }
  }
}
