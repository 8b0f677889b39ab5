/**
 * JavaScript values as the engine reads and builds them: the resolved theme
 * tree, static-table outputs and style fragments.  An object is the sequence
 * of its entries in JavaScript's enumeration order; an object built by the
 * engine has distinct keys.
 */
module Json {
  import opened Wrappers
  import opened Strings

  datatype Value =
    | Str(s: string)
    | Num(n: int)
    | Bool(b: bool)
    | Arr(items: seq<Value>)
    | Obj(entries: seq<(string, Value)>)

  type Entries = seq<(string, Value)>

  predicate DistinctKeys(e: Entries) {
    Distinct(Keys(e))
  }

  predicate Distinct(ks: seq<string>) {
    forall i, j :: 0 <= i < j < |ks| ==> ks[i] != ks[j]
  }

  function Keys(e: Entries): seq<string> {
    seq(|e|, i requires 0 <= i < |e| => e[i].0)
  }

  /** `obj[k]` on an object's entries. */
  function Get(e: Entries, k: string): (r: Option<Value>)
    ensures r.Some? <==> k in Keys(e)
    ensures r.Some? ==> (k, r.value) in e
  {
    if |e| == 0 then None
    else if e[0].0 == k then assert Keys(e)[0] == k; Some(e[0].1)
    else assert Keys(e) == [e[0].0] + Keys(e[1..]); Get(e[1..], k)
  }

  /** In entries with distinct keys, the lookup finds the value paired with its key. */
  lemma GetMember(e: Entries, k: string, v: Value)
    requires DistinctKeys(e) && (k, v) in e
    ensures Get(e, k) == Some(v)
  {
    var i :| 0 <= i < |e| && e[i] == (k, v);
    assert Keys(e)[i] == k;
    var w := Get(e, k).value;
    var j :| 0 <= j < |e| && e[j] == (k, w);
    assert Keys(e)[j] == k;
  }

  /** A lookup in entries with one more at the end: the earlier entries are searched first. */
  lemma {:induction false} GetSnoc(e: Entries, x: (string, Value), k: string)
    ensures Get(e + [x], k) == if k in Keys(e) then Get(e, k) else if k == x.0 then Some(x.1) else None
    decreases |e|
  {
    if |e| == 0 {
      assert e + [x] == [x];
    } else {
      assert (e + [x])[1..] == e[1..] + [x];
      assert Keys(e) == [e[0].0] + Keys(e[1..]);
      GetSnoc(e[1..], x, k);
    }
  }

  /** Dropping the last entry keeps the keys distinct. */
  lemma DistinctFront(e: Entries)
    requires |e| > 0 && DistinctKeys(e)
    ensures DistinctKeys(e[..|e| - 1])
  {
    var f := e[..|e| - 1];
    forall i, j | 0 <= i < j < |Keys(f)| ensures Keys(f)[i] != Keys(f)[j] {
      assert Keys(f)[i] == Keys(e)[i] && Keys(f)[j] == Keys(e)[j];
    }
  }

  /** `obj[k] = v`: an existing key keeps its position, a new key goes last. */
  function Put(e: Entries, k: string, v: Value): (r: Entries)
    ensures Get(r, k) == Some(v)
    ensures forall k' :: k' != k ==> Get(r, k') == Get(e, k')
    ensures k in Keys(e) ==> Keys(r) == Keys(e)
    ensures k !in Keys(e) ==> Keys(r) == Keys(e) + [k]
    ensures DistinctKeys(e) ==> DistinctKeys(r)
    decreases |e|
  {
    if |e| == 0 then [(k, v)]
    else
      HeadTail(e);
      if e[0].0 == k then
        PutHere(e[0], e[1..], v);
        [(k, v)] + e[1..]
      else
        var rest := Put(e[1..], k, v);
        PutFurther(e[0], e[1..], k, v, rest);
        [e[0]] + rest
  }

  /** `Put` on an object whose first key is the one being set. */
  lemma PutHere(x: (string, Value), t: Entries, v: Value)
    ensures Get([(x.0, v)] + t, x.0) == Some(v)
    ensures forall k' :: k' != x.0 ==> Get([(x.0, v)] + t, k') == Get([x] + t, k')
    ensures Keys([(x.0, v)] + t) == Keys([x] + t)
    ensures Distinct(Keys([x] + t)) ==> Distinct(Keys([(x.0, v)] + t))
  {
    EntriesCons(x, t);
    EntriesCons((x.0, v), t);
  }

  /** `Put` past a first key that differs, given what `Put` did to the rest. */
  lemma PutFurther(x: (string, Value), t: Entries, k: string, v: Value, rest: Entries)
    requires x.0 != k
    requires Get(rest, k) == Some(v)
    requires forall k' :: k' != k ==> Get(rest, k') == Get(t, k')
    requires k in Keys(t) ==> Keys(rest) == Keys(t)
    requires k !in Keys(t) ==> Keys(rest) == Keys(t) + [k]
    requires DistinctKeys(t) ==> DistinctKeys(rest)
    ensures Get([x] + rest, k) == Some(v)
    ensures forall k' :: k' != k ==> Get([x] + rest, k') == Get([x] + t, k')
    ensures k in Keys([x] + t) ==> Keys([x] + rest) == Keys([x] + t)
    ensures k !in Keys([x] + t) ==> Keys([x] + rest) == Keys([x] + t) + [k]
    ensures DistinctKeys([x] + t) ==> DistinctKeys([x] + rest)
  {
    EntriesCons(x, t);
    EntriesCons(x, rest);
    DistinctCons(x.0, Keys(t));
    DistinctCons(x.0, Keys(rest));
  }

  /** How the keys, the lookups and the distinctness of `[x] + t` follow from those of `t`. */
  lemma EntriesCons(x: (string, Value), t: Entries)
    ensures Keys([x] + t) == [x.0] + Keys(t)
    ensures forall k :: Get([x] + t, k) == if x.0 == k then Some(x.1) else Get(t, k)
  {
    var e := [x] + t;
    assert e[0] == x && e[1..] == t;
    forall k ensures Get(e, k) == if x.0 == k then Some(x.1) else Get(t, k) {
    }
  }

  /** A sequence from index `i` on is its element at `i` followed by the rest. */
  lemma SliceCons<T>(e: seq<T>, i: nat)
    requires i < |e|
    ensures e[i..] == [e[i]] + e[i + 1..]
  {
  }

  /** In entries with distinct keys, the key at `i` is not among the keys before it. */
  lemma FreshInPrefix(e: Entries, i: nat)
    requires DistinctKeys(e) && i < |e|
    ensures e[i].0 !in Keys(e[..i])
  {
    assert Keys(e)[i] == e[i].0;
    forall j | 0 <= j < i ensures Keys(e[..i])[j] != e[i].0 {
      assert Keys(e[..i])[j] == Keys(e)[j];
    }
  }

  /** A non-empty sequence is its head followed by its tail. */
  lemma HeadTail<T>(e: seq<T>)
    requires |e| > 0
    ensures e == [e[0]] + e[1..]
  {
  }

  /** A prefix extended by the next element is the next prefix. */
  lemma SliceSnoc<T>(e: seq<T>, i: nat)
    requires i < |e|
    ensures e[..i] + [e[i]] == e[..i + 1]
  {
  }

  lemma DistinctCons(a: string, ks: seq<string>)
    ensures Distinct([a] + ks) <==> a !in ks && Distinct(ks)
  {
    var s := [a] + ks;
    if Distinct(s) {
      forall i, j | 0 <= i < j < |ks| ensures ks[i] != ks[j] {
        assert s[i + 1] == ks[i] && s[j + 1] == ks[j];
      }
      forall i | 0 <= i < |ks| ensures ks[i] != a {
        assert s[0] == a && s[i + 1] == ks[i];
        assert s[0] != s[i + 1];
      }
    }
    if a !in ks && Distinct(ks) {
      forall i, j | 0 <= i < j < |s| ensures s[i] != s[j] {
        if i == 0 {
          assert s[0] == a && s[j] == ks[j - 1] && ks[j - 1] in ks;
        } else {
          assert s[i] == ks[i - 1] && s[j] == ks[j - 1];
        }
      }
    }
  }

  /** `Object.assign(target, source)` on entries. */
  function Assign(target: Entries, source: Entries): (r: Entries)
    ensures DistinctKeys(target) ==> DistinctKeys(r)
    decreases |source|
  {
    if |source| == 0 then target
    else Assign(Put(target, source[0].0, source[0].1), source[1..])
  }

  lemma DistinctRest(e: Entries)
    requires |e| > 0 && DistinctKeys(e)
    ensures DistinctKeys(e[1..]) && e[0].0 !in Keys(e[1..])
  {
    var ks := Keys(e);
    forall i, j | 0 <= i < j < |Keys(e[1..])| ensures Keys(e[1..])[i] != Keys(e[1..])[j] {
      assert Keys(e[1..])[i] == ks[i + 1] && Keys(e[1..])[j] == ks[j + 1];
    }
    forall i | 0 <= i < |Keys(e[1..])| ensures Keys(e[1..])[i] != e[0].0 {
      assert Keys(e[1..])[i] == ks[i + 1] && ks[0] == e[0].0;
    }
  }

  /** After `Object.assign`, a key the source has holds the source's value; any other keeps the target's. */
  lemma {:induction false} AssignGet(target: Entries, source: Entries, k: string)
    requires DistinctKeys(source)
    ensures Get(Assign(target, source), k) == if k in Keys(source) then Get(source, k) else Get(target, k)
    decreases |source|
  {
    if |source| > 0 {
      var x, t := source[0], source[1..];
      assert source == [x] + t;
      EntriesCons(x, t);
      DistinctRest(source);
      AssignGet(Put(target, x.0, x.1), t, k);
    }
  }

  /** A key the source lacks keeps the target's value, whatever the source's keys. */
  lemma {:induction false} AssignGetOther(t: Entries, s: Entries, k: string)
    requires k !in Keys(s)
    ensures Get(Assign(t, s), k) == Get(t, k)
    decreases |s|
  {
    if |s| > 0 {
      assert Keys(s) == [s[0].0] + Keys(s[1..]);
      AssignGetOther(Put(t, s[0].0, s[0].1), s[1..], k);
    }
  }

  function IndexedEntries(items: seq<Value>): (r: Entries)
    ensures |r| == |items|
  {
    seq(|items|, i requires 0 <= i < |items| => (NatToString(i), items[i]))
  }

  /** `Object.entries(v)`: an array enumerates its indices; a scalar has no entries. */
  function JsEntries(v: Value): Entries {
    match v
    case Obj(e) => e
    case Arr(items) => IndexedEntries(items)
    case _ => []
  }

  /** `v[k]` for a value that is not `undefined`. */
  function Prop(v: Value, k: string): Option<Value> {
    Get(JsEntries(v), k)
  }

  /** `typeof v === 'object'` (arrays included). */
  predicate IsObjectLike(v: Value) {
    v.Obj? || v.Arr?
  }

  /** JavaScript truthiness, with `None` standing for `undefined`. */
  predicate Truthy(v: Option<Value>) {
    match v
    case None => false
    case Some(Str(s)) => s != ""
    case Some(Num(n)) => n != 0
    case Some(Bool(b)) => b
    case Some(_) => true
  }

  /** `isEmpty` (macro.js:24): undefined, a key-less object or array, or a blank string. */
  predicate IsEmpty(v: Option<Value>) {
    match v
    case None => true
    case Some(Str(s)) => Trim(s) == ""
    case Some(Arr(items)) => |items| == 0
    case Some(Obj(e)) => |e| == 0
    case Some(_) => false
  }

  /** `isEmpty` applied to a string that may be `undefined` or `null`. */
  predicate IsEmptyString(s: Option<string>) {
    s.None? || Trim(s.value) == ""
  }

  /** `String(v)`, also what `"" + v` produces. */
  function JsString(v: Value): string {
    match v
    case Str(s) => s
    case Num(n) => IntToString(n)
    case Bool(b) => if b then "true" else "false"
    case Arr(items) => Join(seq(|items|, i requires 0 <= i < |items| => JsString(items[i])), ",")
    case Obj(_) => "[object Object]"
  }
}
