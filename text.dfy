/** The handful of Python `str` operations the backend relies on, over `seq<char>`:
    whitespace tests, `strip`, `split`/`join`, `startswith`/`endswith`, substring search
    and ASCII `title()`. */
module Text {
  import opened Wrappers
  import opened Seqs

  /** Python's `str.isspace()` for a single character (the full set Python treats as
      whitespace, which is also what the `\s` regex class matches in `str` patterns). */
  predicate IsSpace(c: char) {
    c == ' ' || ('\t' <= c <= '\r') || ('\U{1c}' <= c <= '\U{1f}') || c == '\U{85}' || c == '\U{a0}'
    || c == '\U{1680}' || ('\U{2000}' <= c <= '\U{200a}') || c == '\U{2028}' || c == '\U{2029}'
    || c == '\U{202f}' || c == '\U{205f}' || c == '\U{3000}'
  }

  predicate AllSpace(s: string) {
    forall i :: 0 <= i < |s| ==> IsSpace(s[i])
  }

  /** Neither end of `s` is whitespace. */
  predicate Unpadded(s: string) {
    s == [] || (!IsSpace(s[0]) && !IsSpace(s[|s| - 1]))
  }

  /** `s.strip()`: drops the leading and the trailing whitespace. The result is empty exactly
      when `s` is all whitespace; otherwise neither of its ends is whitespace. */
  function Strip(s: string): (r: string)
    ensures |r| <= |s|
    ensures r == [] <==> AllSpace(s)
    ensures Unpadded(r)
    decreases |s|
  {
    if s != [] && IsSpace(s[0]) then
      assert AllSpace(s) <==> AllSpace(s[1..]) by {
        if AllSpace(s[1..]) {
          forall i | 0 <= i < |s| ensures IsSpace(s[i]) {
            if i > 0 { assert s[i] == s[1..][i - 1]; }
          }
        }
      }
      Strip(s[1..])
    else if s != [] && IsSpace(s[|s| - 1]) then
      assert !AllSpace(s) && !AllSpace(s[..|s| - 1]) by {
        assert |s| > 1 && s[..|s| - 1][0] == s[0];
      }
      Strip(s[..|s| - 1])
    else s
  }

  /** `strip()` removes only whitespace, and only at the ends: the result is a slice of `s`
      with nothing but whitespace before it and after it. */
  lemma {:induction false} StripTrims(s: string)
    ensures exists a, b :: 0 <= a <= b <= |s| && Strip(s) == s[a..b] && AllSpace(s[..a]) && AllSpace(s[b..])
    decreases |s|
  {
    if s != [] && IsSpace(s[0]) {
      var t := s[1..];
      StripTrims(t);
      var a, b :| 0 <= a <= b <= |t| && Strip(t) == t[a..b] && AllSpace(t[..a]) && AllSpace(t[b..]);
      SpaceFront(s, a, b);
      assert Strip(s) == s[a + 1..b + 1];
    } else if s != [] && IsSpace(s[|s| - 1]) {
      var t := s[..|s| - 1];
      StripTrims(t);
      var a, b :| 0 <= a <= b <= |t| && Strip(t) == t[a..b] && AllSpace(t[..a]) && AllSpace(t[b..]);
      SpaceBack(s, a, b);
      assert Strip(s) == s[a..b];
    } else {
      assert Strip(s) == s[0..|s|];
    }
  }

  /** A slice of `s[1..]` between whitespace, seen from `s` when `s` starts with whitespace. */
  lemma SpaceFront(s: string, a: int, b: int)
    requires s != [] && IsSpace(s[0]) && 0 <= a <= b <= |s| - 1
    requires AllSpace(s[1..][..a]) && AllSpace(s[1..][b..])
    ensures s[1..][a..b] == s[a + 1..b + 1]
    ensures AllSpace(s[..a + 1]) && AllSpace(s[b + 1..])
  {
    assert s[1..][b..] == s[b + 1..];
    var front := s[..a + 1];
    forall i | 0 <= i < |front| ensures IsSpace(front[i]) {
      if i > 0 { assert front[i] == s[1..][..a][i - 1]; }
    }
  }

  /** A slice of `s[..|s| - 1]` between whitespace, seen from `s` when `s` ends with whitespace. */
  lemma SpaceBack(s: string, a: int, b: int)
    requires s != [] && IsSpace(s[|s| - 1]) && 0 <= a <= b <= |s| - 1
    requires AllSpace(s[..|s| - 1][..a]) && AllSpace(s[..|s| - 1][b..])
    ensures s[..|s| - 1][a..b] == s[a..b]
    ensures AllSpace(s[..a]) && AllSpace(s[b..])
  {
    var t := s[..|s| - 1];
    assert t[..a] == s[..a];
    forall i | 0 <= i < |s| - b ensures IsSpace(s[b..][i]) {
      if i < |t| - b { assert s[b..][i] == t[b..][i]; }
    }
  }

  /** Stripping a string whose ends are not whitespace changes nothing. */
  lemma StripUnpadded(s: string)
    requires Unpadded(s)
    ensures Strip(s) == s
  {
  }

  /** `sep.join(parts)`. */
  function Join(parts: seq<string>, sep: string): string
  {
    if parts == [] then [] else if |parts| == 1 then parts[0] else parts[0] + sep + Join(parts[1..], sep)
  }

  /** `s.split(sep)` for a one-character separator: never empty, no piece holds the
      separator, and joining the pieces back gives `s`. */
  function Split(s: string, sep: char): (parts: seq<string>)
    ensures |parts| >= 1
    ensures forall k :: 0 <= k < |parts| ==> sep !in parts[k]
    ensures Join(parts, [sep]) == s
  {
    if s == [] then [[]]
    else
      var rest := Split(s[1..], sep);
      if s[0] == sep then
        [[]] + rest
      else
        var parts := [[s[0]] + rest[0]] + rest[1..];
        assert parts[1..] == rest[1..];
        HeadTail(s);
        parts
  }

  lemma {:induction false} SplitAfterPiece(w: string, sep: char, t: string)
    requires sep !in w
    ensures Split(w + [sep] + t, sep) == [w] + Split(t, sep)
    ensures Split(w, sep) == [w]
    decreases |w|
  {
    if w == [] {
      assert w + [sep] + t == [sep] + t;
      TailOfAppend([sep], t);
    } else {
      SplitAfterPiece(w[1..], sep, t);
      AppendAssoc(w, [sep], t);
      TailOfAppend(w, [sep] + t);
      AppendAssoc(w[1..], [sep], t);
      TailOfAppend([w[1..]], Split(t, sep));
      HeadTail(w);
    }
  }

  /** The other half of the round trip: splitting a join of separator-free pieces
      gives the pieces back. */
  lemma {:induction false} SplitJoin(parts: seq<string>, sep: char)
    requires |parts| >= 1
    requires forall k :: 0 <= k < |parts| ==> sep !in parts[k]
    ensures Split(Join(parts, [sep]), sep) == parts
    decreases |parts|
  {
    if |parts| == 1 {
      SplitAfterPiece(parts[0], sep, []);
    } else {
      SplitJoin(parts[1..], sep);
      SplitAfterPiece(parts[0], sep, Join(parts[1..], [sep]));
      HeadTail(parts);
    }
  }

  predicate StartsWith(s: string, prefix: string) {
    |prefix| <= |s| && s[..|prefix|] == prefix
  }

  predicate EndsWith(s: string, suffix: string) {
    |suffix| <= |s| && s[|s| - |suffix|..] == suffix
  }

  /** `pat` occurs in `s` starting at index `p`. */
  predicate OccursAt(s: string, pat: string, p: nat) {
    p <= |s| && StartsWith(s[p..], pat)
  }

  /** Python's `pat in s`. */
  predicate Contains(s: string, pat: string) {
    exists p: nat :: p <= |s| && OccursAt(s, pat, p)
  }

  /** The first occurrence of `pat` at or after index `i` (`s.find(pat, i)`). */
  function IndexFrom(s: string, pat: string, i: nat): (r: Option<nat>)
    requires i <= |s|
    ensures r.Some? ==> i <= r.value <= |s| && OccursAt(s, pat, r.value)
    ensures r.Some? ==> forall p: nat :: i <= p < r.value ==> !OccursAt(s, pat, p)
    ensures r.None? ==> forall p: nat :: i <= p <= |s| ==> !OccursAt(s, pat, p)
    decreases |s| - i
  {
    if OccursAt(s, pat, i) then Some(i) else if i == |s| then None else IndexFrom(s, pat, i + 1)
  }

  /** `IndexFrom` skips a stretch without occurrences. */
  lemma {:induction false} IndexFromSkips(s: string, pat: string, a: nat, b: nat)
    requires a <= b <= |s|
    requires forall x :: a <= x < b ==> !OccursAt(s, pat, x)
    ensures IndexFrom(s, pat, a) == IndexFrom(s, pat, b)
    decreases b - a
  {
    if a < b {
      IndexFromSkips(s, pat, a + 1, b);
    }
  }

  /** The last occurrence of `pat` at or before index `i`. */
  function LastIndexUpTo(s: string, pat: string, i: nat): (r: Option<nat>)
    requires i <= |s|
    ensures r.Some? ==> r.value <= i && OccursAt(s, pat, r.value)
    ensures r.Some? ==> forall p: nat :: r.value < p <= i ==> !OccursAt(s, pat, p)
    ensures r.None? ==> forall p: nat :: p <= i ==> !OccursAt(s, pat, p)
    decreases i
  {
    if OccursAt(s, pat, i) then Some(i) else if i == 0 then None else LastIndexUpTo(s, pat, i - 1)
  }

  /** `s.split(pat, 1)[-1]`: what follows the first `pat`, or all of `s` when there is none. */
  function AfterFirst(s: string, pat: string): string
  {
    match IndexFrom(s, pat, 0)
    case Some(k) => s[k + |pat|..]
    case None => s
  }

  /** `s.rsplit(pat, 1)[0]`: what precedes the last `pat`, or all of `s` when there is none. */
  function BeforeLast(s: string, pat: string): string
  {
    match LastIndexUpTo(s, pat, |s|)
    case Some(k) => s[..k]
    case None => s
  }

  /** `s.split(c)[0]`: the part of `s` before the first `c`. */
  function BeforeChar(s: string, c: char): (r: string)
    ensures c !in r && StartsWith(s, r)
    ensures r == s || s[|r|] == c
  {
    if s == [] || s[0] == c then [] else [s[0]] + BeforeChar(s[1..], c)
  }

  /** `s.rstrip("/")`. */
  function TrimTrailingSlashes(s: string): string
  {
    if s != [] && s[|s| - 1] == '/' then TrimTrailingSlashes(s[..|s| - 1]) else s
  }

  /** `s.replace(a, b)` for one-character `a` and `b`. */
  function ReplaceChar(s: string, a: char, b: char): string
  {
    seq(|s|, i requires 0 <= i < |s| => if s[i] == a then b else s[i])
  }

  predicate IsAsciiLetter(c: char) {
    'a' <= c <= 'z' || 'A' <= c <= 'Z'
  }

  function Upper(c: char): char {
    if 'a' <= c <= 'z' then (c as int - 32) as char else c
  }

  function Lower(c: char): char {
    if 'A' <= c <= 'Z' then (c as int + 32) as char else c
  }

  /** One character of `str.title()`: a letter is upper-cased at the start of a run of
      letters and lower-cased inside one; anything else is left alone. */
  function TitleChar(c: char, afterLetter: bool): char {
    if !IsAsciiLetter(c) then c else if afterLetter then Lower(c) else Upper(c)
  }

  function TitleFrom(s: string, afterLetter: bool): (r: string)
    ensures |r| == |s|
  {
    if s == [] then [] else [TitleChar(s[0], afterLetter)] + TitleFrom(s[1..], IsAsciiLetter(s[0]))
  }

  /** Python's `str.title()` over ASCII. */
  function Title(s: string): string {
    TitleFrom(s, false)
  }

  lemma {:induction false} TitleFromAt(s: string, afterLetter: bool, i: nat)
    requires i < |s|
    ensures TitleFrom(s, afterLetter)[i] == TitleChar(s[i], if i == 0 then afterLetter else IsAsciiLetter(s[i - 1]))
    decreases i
  {
    if i > 0 {
      TitleFromAt(s[1..], IsAsciiLetter(s[0]), i - 1);
    }
  }

  /** `str.title()` character by character: each letter is capitalised exactly when the
      character before it is not a letter. */
  lemma TitleAt(s: string)
    ensures |Title(s)| == |s|
    ensures forall i :: 0 <= i < |s| ==>
      Title(s)[i] == TitleChar(s[i], i > 0 && IsAsciiLetter(s[i - 1]))
  {
    forall i | 0 <= i < |s|
      ensures Title(s)[i] == TitleChar(s[i], i > 0 && IsAsciiLetter(s[i - 1]))
    {
      TitleFromAt(s, false, i);
    }
  }

  /** Title-casing an already title-cased string changes nothing. */
  lemma TitleIdempotent(s: string)
    ensures Title(Title(s)) == Title(s)
  {
    var t := Title(s);
    TitleAt(s);
    TitleAt(t);
    forall i | 0 <= i < |s| ensures Title(t)[i] == t[i] {
      TitleCharStable(s[i], i > 0 && IsAsciiLetter(s[i - 1]));
      if i > 0 {
        TitleCharStable(s[i - 1], i > 1 && IsAsciiLetter(s[i - 2]));
      }
    }
  }

  lemma TitleCharStable(c: char, afterLetter: bool)
    ensures IsAsciiLetter(TitleChar(c, afterLetter)) == IsAsciiLetter(c)
    ensures TitleChar(TitleChar(c, afterLetter), afterLetter) == TitleChar(c, afterLetter)
  {
  }

  /** `a` can be obtained from `b` by deleting elements. */
  predicate IsSubsequence<T(==)>(a: seq<T>, b: seq<T>) {
    if a == [] then true
    else if b == [] then false
    else (a[0] == b[0] && IsSubsequence(a[1..], b[1..])) || IsSubsequence(a, b[1..])
  }
}
