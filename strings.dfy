/**
 * The JavaScript string operations the engine relies on, written out:
 * prefix and suffix tests, `indexOf`, `split(sep)[1]`, `replace` with a string
 * pattern, the `\s` character class, and the look-behind matches the core
 * plugins use ("the text after the first occurrence of a prefix").
 */
module Strings {
  import opened Wrappers

  /** JavaScript's `\s`: white space and line terminators. */
  predicate IsJsSpace(c: char) {
    c == ' ' || c == '\t' || c == '\n' || c == '\r' || c == '\U{000B}' || c == '\U{000C}'
    || c == '\U{00A0}' || c == '\U{1680}' || ('\U{2000}' <= c <= '\U{200A}')
    || c == '\U{2028}' || c == '\U{2029}' || c == '\U{202F}' || c == '\U{205F}'
    || c == '\U{3000}' || c == '\U{FEFF}'
  }

  predicate NotJsSpace(c: char) {
    !IsJsSpace(c)
  }

  /** The characters JavaScript's `.` does not match. */
  predicate IsLineTerminator(c: char) {
    c == '\n' || c == '\r' || c == '\U{2028}' || c == '\U{2029}'
  }

  /** JavaScript's `\w`. */
  predicate IsWordChar(c: char) {
    ('a' <= c <= 'z') || ('A' <= c <= 'Z') || ('0' <= c <= '9') || c == '_'
  }

  function ToUpperAscii(c: char): char {
    if 'a' <= c <= 'z' then (c as int - 32) as char else c
  }

  predicate StartsWith(s: string, p: string) {
    |p| <= |s| && s[..|p|] == p
  }

  predicate EndsWith(s: string, p: string) {
    |p| <= |s| && s[|s| - |p|..] == p
  }

  predicate OccursAt(s: string, p: string, i: int) {
    0 <= i && i + |p| <= |s| && s[i..i + |p|] == p
  }

  /** Length of the longest prefix of `s` whose characters all satisfy `inRun`. */
  function RunLength(s: string, inRun: char -> bool): (n: nat)
    ensures n <= |s|
    ensures forall i :: 0 <= i < n ==> inRun(s[i])
    ensures n < |s| ==> !inRun(s[n])
  {
    if |s| == 0 || !inRun(s[0]) then 0 else 1 + RunLength(s[1..], inRun)
  }

  function IndexOfFrom(s: string, p: string, start: nat): (r: Option<nat>)
    ensures r.Some? ==> start <= r.value && r.value + |p| <= |s|
    decreases |s| - start
  {
    if start + |p| > |s| then None
    else if s[start..start + |p|] == p then Some(start)
    else IndexOfFrom(s, p, start + 1)
  }

  /** `s.indexOf(p)`, with `None` for -1. */
  function IndexOf(s: string, p: string): (r: Option<nat>)
    ensures r.Some? ==> r.value + |p| <= |s|
  {
    IndexOfFrom(s, p, 0)
  }

  /** The search from `start` finds the first occurrence at or after `start`, or reports there is none. */
  lemma {:induction false} IndexOfFromIsFirst(s: string, p: string, start: nat)
    ensures IndexOfFrom(s, p, start).Some? ==> OccursAt(s, p, IndexOfFrom(s, p, start).value)
    ensures IndexOfFrom(s, p, start).Some? ==>
      forall i :: start <= i < IndexOfFrom(s, p, start).value ==> !OccursAt(s, p, i)
    ensures IndexOfFrom(s, p, start).None? ==> forall i :: start <= i ==> !OccursAt(s, p, i)
    decreases |s| - start
  {
    if start + |p| <= |s| && s[start..start + |p|] != p {
      IndexOfFromIsFirst(s, p, start + 1);
    }
  }

  /** `indexOf` reports the first occurrence, or that there is none. */
  lemma IndexOfIsFirst(s: string, p: string)
    ensures IndexOf(s, p).Some? ==> OccursAt(s, p, IndexOf(s, p).value)
    ensures IndexOf(s, p).Some? ==> forall i :: 0 <= i < IndexOf(s, p).value ==> !OccursAt(s, p, i)
    ensures IndexOf(s, p).None? ==> forall i :: !OccursAt(s, p, i)
  {
    IndexOfFromIsFirst(s, p, 0);
  }

  predicate Contains(s: string, p: string) {
    IndexOf(s, p).Some?
  }

  /** The text after the first occurrence of `p` in `s`, if there is one. */
  function AfterFirst(s: string, p: string): Option<string> {
    match IndexOf(s, p)
    case Some(i) => Some(s[i + |p|..])
    case None => None
  }

  /**
   * `dlv(s.match(/(?<=(p))([^]*)/), [0]) || null`: the text after the first
   * occurrence of `p`, with an empty remainder read as no match.
   */
  function MatchAfter(s: string, p: string): Option<string> {
    match AfterFirst(s, p)
    case Some(t) => if t == "" then None else Some(t)
    case None => None
  }

  /** A string that starts with `p`: the match is the rest. */
  lemma MatchAfterPrefix(s: string, p: string, rest: string)
    requires s == p + rest && rest != ""
    ensures MatchAfter(s, p) == Some(rest)
  {
    IndexOfIsFirst(s, p);
    assert OccursAt(s, p, 0);
    assert s[|p|..] == rest;
  }

  /**
   * The same for a look-behind with two alternatives of equal length
   * (`(?<=(divide)-(x|y))`): the earliest position preceded by either wins.
   */
  function MatchAfterEither(s: string, p: string, q: string): Option<string>
    requires |p| == |q|
  {
    match (IndexOf(s, p), IndexOf(s, q))
    case (Some(i), Some(j)) =>
      var k := if i <= j then i else j;
      if s[k + |p|..] == "" then None else Some(s[k + |p|..])
    case (Some(i), None) => MatchAfter(s, p)
    case (None, Some(j)) => MatchAfter(s, q)
    case (None, None) => None
  }

  /** A string that starts with either alternative: the match is the rest. */
  lemma MatchAfterEitherPrefix(s: string, p: string, q: string, rest: string)
    requires |p| == |q| && (s == p + rest || s == q + rest) && rest != ""
    ensures MatchAfterEither(s, p, q) == Some(rest)
  {
    IndexOfIsFirst(s, p);
    IndexOfIsFirst(s, q);
    assert s[|p|..] == rest;
    if s == p + rest {
      assert OccursAt(s, p, 0);
      MatchAfterPrefix(s, p, rest);
    } else {
      assert OccursAt(s, q, 0);
      MatchAfterPrefix(s, q, rest);
    }
  }

  /** `s.split(sep)[1]`: the second piece, when there are at least two. */
  function SplitSecond(s: string, sep: string): Option<string> {
    if sep == "" then
      (if |s| >= 2 then Some([s[1]]) else None)
    else
      match IndexOf(s, sep)
      case None => None
      case Some(i) =>
        var rest := s[i + |sep|..];
        match IndexOf(rest, sep)
        case Some(j) => Some(rest[..j])
        case None => Some(rest)
  }

  /** `s.replace(pat, rep)` with a string pattern: only the first occurrence is replaced. */
  function ReplaceFirst(s: string, pat: string, rep: string): string {
    match IndexOf(s, pat)
    case Some(i) => s[..i] + rep + s[i + |pat|..]
    case None => s
  }

  /** `s.replace(/ \| /g, ' ')`: the pipe dividers of a class list. */
  function StripPipes(s: string): (r: string)
    ensures |r| <= |s|
  {
    if |s| >= 3 && s[..3] == " | " then " " + StripPipes(s[3..])
    else if |s| == 0 then ""
    else [s[0]] + StripPipes(s[1..])
  }

  /** `s.match(/\S+/g) || []`: the maximal runs of non-space characters. */
  function Words(s: string): (r: seq<string>)
    ensures forall w :: w in r ==> w != [] && forall c :: c in w ==> !IsJsSpace(c)
    decreases |s|
  {
    if |s| == 0 then []
    else if IsJsSpace(s[0]) then Words(s[1..])
    else
      var n := RunLength(s, NotJsSpace);
      assert forall c :: c in s[..n] ==> !IsJsSpace(c);
      [s[..n]] + Words(s[n..])
  }

  /** A string with no '|' has no divider to strip. */
  lemma {:induction false} StripPipesNoPipe(s: string)
    requires '|' !in s
    ensures StripPipes(s) == s
    decreases |s|
  {
    if |s| > 0 {
      assert s[1..] == s[1..] && '|' !in s[1..];
      if |s| >= 3 {
        assert s[1] != '|';
        assert s[..3] != " | ";
      }
      StripPipesNoPipe(s[1..]);
      assert s == [s[0]] + s[1..];
    }
  }

  /** Before the first divider, a pipe-free part is kept and the divider becomes one space. */
  lemma {:induction false} StripPipesDivider(a: string, b: string)
    requires '|' !in a
    ensures StripPipes(a + " | " + b) == a + " " + StripPipes(b)
    decreases |a|
  {
    var s := a + " | " + b;
    if |a| == 0 {
      assert s == " | " + b && s[..3] == " | " && s[3..] == b;
    } else {
      assert s[1] == if |a| > 1 then a[1] else ' ';
      assert s[..3] != " | " by {
        assert s[1] != '|';
      }
      assert s[1..] == a[1..] + " | " + b;
      assert '|' !in a[1..];
      StripPipesDivider(a[1..], b);
      assert a == [a[0]] + a[1..];
    }
  }

  /** Pipe-free parts joined with " | " come out joined with single spaces. */
  lemma {:induction false} StripPipesJoin(parts: seq<string>)
    requires forall p :: p in parts ==> '|' !in p
    ensures StripPipes(Join(parts, " | ")) == Join(parts, " ")
    decreases |parts|
  {
    if |parts| == 1 {
      StripPipesNoPipe(parts[0]);
    } else if |parts| > 1 {
      assert Join(parts, " | ") == parts[0] + " | " + Join(parts[1..], " | ");
      StripPipesDivider(parts[0], Join(parts[1..], " | "));
      StripPipesJoin(parts[1..]);
    }
  }

  /** A space-free word followed by a space, or by nothing, is one run. */
  lemma {:induction false} WordRun(w: string, t: string)
    requires forall c :: c in w ==> !IsJsSpace(c)
    requires |t| > 0 ==> IsJsSpace(t[0])
    ensures RunLength(w + t, NotJsSpace) == |w|
    decreases |w|
  {
    if |w| > 0 {
      assert (w + t)[0] == w[0];
      assert (w + t)[1..] == w[1..] + t;
      WordRun(w[1..], t);
    } else {
      assert w + t == t;
    }
  }

  /** The words of a single-space join are the joined words, in order: each is a maximal run. */
  lemma {:induction false} WordsOfJoin(ws: seq<string>)
    requires forall w :: w in ws ==> w != [] && forall c :: c in w ==> !IsJsSpace(c)
    ensures Words(Join(ws, " ")) == ws
    decreases |ws|
  {
    if |ws| == 1 {
      var s := ws[0];
      assert s in ws;
      WordRun(s, "");
      assert s + "" == s;
      assert s[..|s|] == s && s[|s|..] == "";
    } else if |ws| > 1 {
      var w := ws[0];
      var t := Join(ws[1..], " ");
      var s := w + " " + t;
      assert w in ws;
      assert s == w + (" " + t);
      assert IsJsSpace((" " + t)[0]);
      WordRun(w, " " + t);
      assert s[..|w|] == w;
      assert s[|w|..] == " " + t;
      assert (" " + t)[1..] == t;
      assert Words(" " + t) == Words(t);
      assert forall v :: v in ws[1..] ==> v in ws;
      WordsOfJoin(ws[1..]);
      assert ws == [w] + ws[1..];
    }
  }

  function TrimStart(s: string): string {
    s[RunLength(s, IsJsSpace)..]
  }

  function TrimEnd(s: string): (r: string)
    ensures |r| <= |s|
  {
    if |s| > 0 && IsJsSpace(s[|s| - 1]) then TrimEnd(s[..|s| - 1]) else s
  }

  /** `s.trim()`. */
  function Trim(s: string): string {
    TrimEnd(TrimStart(s))
  }

  /** A string that neither starts nor ends with a space trims to itself. */
  lemma TrimUnspaced(s: string)
    requires |s| > 0 && !IsJsSpace(s[0]) && !IsJsSpace(s[|s| - 1])
    ensures Trim(s) == s
  {
    assert RunLength(s, IsJsSpace) == 0;
    assert s[0..] == s;
  }

  /** `parts.join(sep)`. */
  function Join(parts: seq<string>, sep: string): string {
    if |parts| == 0 then ""
    else if |parts| == 1 then parts[0]
    else parts[0] + sep + Join(parts[1..], sep)
  }

  /** `parts.filter(Boolean)`. */
  function NonEmpty(parts: seq<string>): (r: seq<string>)
    ensures forall p :: p in r <==> p in parts && p != ""
  {
    if |parts| == 0 then []
    else if parts[0] == "" then NonEmpty(parts[1..])
    else [parts[0]] + NonEmpty(parts[1..])
  }

  /** Filtering a pair keeps the non-empty parts, in order. */
  lemma NonEmptyPair(a: string, b: string)
    ensures NonEmpty([a, b]) == (if a == "" then [] else [a]) + (if b == "" then [] else [b])
  {
    assert [a, b][1..] == [b];
    assert [b][1..] == [];
    assert NonEmpty([b]) == (if b == "" then [] else [b]) + NonEmpty([]);
  }

  /** Two non-empty parts, filtered and joined, are the two parts around the separator. */
  lemma JoinNonEmptyPair(a: string, b: string, sep: string)
    requires a != "" && b != ""
    ensures Join(NonEmpty([a, b]), sep) == a + sep + b
  {
    NonEmptyPair(a, b);
    assert [a, b][1..] == [b];
  }

  /** Filtering keeps a list in which no part is empty. */
  lemma {:induction false} NonEmptyKeepsAll(parts: seq<string>)
    requires forall i :: 0 <= i < |parts| ==> parts[i] != ""
    ensures NonEmpty(parts) == parts
  {
    if |parts| > 0 {
      NonEmptyKeepsAll(parts[1..]);
    }
  }

  /** A join of non-empty parts, at least one, is not empty. */
  lemma {:induction false} JoinNonEmpty(parts: seq<string>, sep: string)
    requires |parts| > 0 && forall i :: 0 <= i < |parts| ==> parts[i] != ""
    ensures Join(parts, sep) != ""
  {
    if |parts| > 1 {
      assert |Join(parts, sep)| >= |parts[0]|;
    }
  }

  function NatToString(n: nat): (r: string)
    ensures |r| > 0
  {
    var d := "0123456789"[n % 10];
    if n < 10 then [d] else NatToString(n / 10) + [d]
  }

  /** `String(n)` for an integer. */
  function IntToString(n: int): string {
    if n < 0 then "-" + NatToString(-n) else NatToString(n)
  }
}
