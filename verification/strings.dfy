/** String helpers standing in for the JavaScript string methods that the
    extraction code uses: `trim`, `toLowerCase`, `includes`, `indexOf`,
    `replace` with a string pattern, `split` on a character class, global
    regular-expression match counts and number-to-string conversion.
    Whitespace is ASCII-only; case covers ASCII and Latin-1 letters. */
module Strings {

  /** The whitespace that JavaScript's `trim` removes, restricted to ASCII. */
  predicate IsSpace(c: char) {
    c == ' ' || c == '\t' || c == '\n' || c == '\r' || c == '\U{B}' || c == '\U{C}'
  }

  predicate IsDigit(c: char) { '0' <= c <= '9' }

  predicate IsAsciiLetter(c: char) { 'a' <= c <= 'z' || 'A' <= c <= 'Z' }

  predicate AllDigits(s: string) { forall k :: 0 <= k < |s| ==> IsDigit(s[k]) }

  predicate AllSpace(s: string) { forall k :: 0 <= k < |s| ==> IsSpace(s[k]) }

  /** The capital letters whose lower case is 32 code points on: ASCII
      `A`-`Z` and Latin-1 `À`-`Þ` except `×`. */
  predicate IsUpper(c: char) {
    'A' <= c <= 'Z' || ('\U{C0}' <= c <= '\U{DE}' && c != '\U{D7}')
  }

  /** Their lower-case letters: `a`-`z` and `à`-`þ` except `÷`. */
  predicate IsLower(c: char) {
    'a' <= c <= 'z' || ('\U{E0}' <= c <= '\U{FE}' && c != '\U{F7}')
  }

  function LowerChar(c: char): (r: char)
    ensures !IsUpper(r)
  {
    if IsUpper(c) then (c as int + 32) as char else c
  }

  function UpperChar(c: char): char {
    if IsLower(c) then (c as int - 32) as char else c
  }

  /** `toLowerCase`, on ASCII and Latin-1 letters. */
  function Lower(s: string): (r: string)
    ensures |r| == |s|
    ensures forall k :: 0 <= k < |s| ==> r[k] == LowerChar(s[k])
  {
    seq(|s|, k requires 0 <= k < |s| => LowerChar(s[k]))
  }

  /** Text without capital letters is its own lower case. */
  lemma LowerNoUpper(s: string)
    requires forall k :: 0 <= k < |s| ==> !IsUpper(s[k])
    ensures Lower(s) == s
  {
  }

  // ---------------------------------------------------------------------
  // trim

  /** A string that `trim` leaves alone: empty, or no whitespace at either end. */
  predicate IsTrimmed(s: string) {
    s == [] || (!IsSpace(s[0]) && !IsSpace(s[|s| - 1]))
  }

  function TrimStart(s: string): (r: string)
    ensures |r| <= |s| && r == s[|s| - |r|..]
    ensures AllSpace(s[..|s| - |r|])
    ensures r == [] || !IsSpace(r[0])
    decreases |s|
  {
    if |s| > 0 && IsSpace(s[0]) then
      var r := TrimStart(s[1..]);
      assert s[..|s| - |r|] == [s[0]] + s[1..][..|s| - 1 - |r|];
      r
    else s
  }

  function TrimEnd(s: string): (r: string)
    ensures |r| <= |s| && r == s[..|r|]
    ensures AllSpace(s[|r|..])
    ensures r == [] || !IsSpace(r[|r| - 1])
    decreases |s|
  {
    if |s| > 0 && IsSpace(s[|s| - 1]) then
      var p := s[..|s| - 1];
      var r := TrimEnd(p);
      assert p[..|r|] == s[..|r|];
      assert s[|r|..] == p[|r|..] + [s[|s| - 1]];
      r
    else s
  }

  /** `String.prototype.trim`: no whitespace at either end of the result;
      `TrimSlice` says what was cut off. */
  function Trim(s: string): (r: string)
    ensures IsTrimmed(r) && |r| <= |s|
  {
    var t := TrimStart(s);
    var r := TrimEnd(t);
    assert r == [] || r[0] == t[0];
    r
  }

  /** The trimmed text is a slice of the input with only whitespace cut
      off on either side. */
  lemma TrimSlice(s: string) returns (i: nat)
    ensures i + |Trim(s)| <= |s| && Trim(s) == s[i..i + |Trim(s)|]
    ensures AllSpace(s[..i]) && AllSpace(s[i + |Trim(s)|..])
  {
    var t := TrimStart(s);
    var r := TrimEnd(t);
    assert Trim(s) == r;
    i := |s| - |t|;
    SuffixSlices(s, i, |r|);
  }

  lemma SuffixSlices<T>(s: seq<T>, i: nat, n: nat)
    requires i + n <= |s|
    ensures s[i..][..n] == s[i..i + n] && s[i..][n..] == s[i + n..]
  {
  }

  /** Trimming only drops characters. */
  lemma TrimChars(s: string)
    ensures forall x :: x in Trim(s) ==> x in s
  {
    var i := TrimSlice(s);
    SliceChars(s, i, i + |Trim(s)|);
  }

  lemma SliceChars(s: string, i: nat, j: nat)
    requires i <= j <= |s|
    ensures forall x :: x in s[i..j] ==> x in s
  {
    forall x | x in s[i..j] ensures x in s {
      var k :| 0 <= k < j - i && s[i..j][k] == x;
      assert s[i + k] == x;
    }
  }

  /** A text that does not end in whitespace only loses its leading whitespace. */
  lemma TrimNoTrailing(s: string)
    requires s != [] && !IsSpace(s[|s| - 1])
    ensures Trim(s) == TrimStart(s) && TrimStart(s) != []
  {
    TrimStartKeepsLast(s);
    var t := TrimStart(s);
    assert TrimEnd(t) == t;
  }

  lemma TrimStartKeepsLast(s: string)
    requires s != [] && !IsSpace(s[|s| - 1])
    ensures TrimStart(s) != [] && TrimStart(s)[|TrimStart(s)| - 1] == s[|s| - 1]
  {
    TrimStartSpaces(s);
  }

  /** What `TrimStart` drops is whitespace, position by position. */
  lemma TrimStartSpaces(s: string)
    ensures forall k :: 0 <= k < |s| - |TrimStart(s)| ==> IsSpace(s[k])
  {
    var n := |s| - |TrimStart(s)|;
    forall k | 0 <= k < n ensures IsSpace(s[k]) {
      assert s[k] == s[..n][k];
    }
  }

  /** Trimming a suffix of `s` that ends in a non-space character and has
      a non-space character at `d` drops only the whitespace before `d`. */
  lemma TrimSuffix(s: string, i: nat, d: nat) returns (p: nat)
    requires i <= d < |s| && !IsSpace(s[d]) && !IsSpace(s[|s| - 1])
    ensures i <= p <= d && Trim(s[i..]) == s[p..]
    ensures forall q :: i <= q < p ==> IsSpace(s[q])
  {
    var tail := s[i..];
    assert tail[|tail| - 1] == s[|s| - 1];
    TrimNoTrailing(tail);
    TrimStartSpaces(tail);
    var t := TrimStart(tail);
    p := |s| - |t|;
    assert tail[d - i] == s[d];
    assert p - i == |tail| - |t|;
    assert t == tail[p - i..] == s[p..];
    forall q | i <= q < p ensures IsSpace(s[q]) {
      assert s[q] == tail[q - i];
    }
  }

  /** One leading whitespace character before a trimmed text is cut off. */
  lemma TrimLeadingSpace(c: char, t: string)
    requires IsSpace(c) && IsTrimmed(t)
    ensures Trim([c] + t) == t
  {
    assert ([c] + t)[1..] == t;
    assert TrimStart([c] + t) == TrimStart(t) == t;
    assert TrimEnd(t) == t;
  }

  /** Trimming is idempotent: a trimmed string is a fixed point of `Trim`. */
  lemma TrimTrimmed(s: string)
    requires IsTrimmed(s)
    ensures Trim(s) == s
  {
    assert TrimStart(s) == s;
    assert TrimEnd(s) == s;
  }

  // ---------------------------------------------------------------------
  // substrings

  predicate OccursAt(s: string, pat: string, i: int) {
    0 <= i && i + |pat| <= |s| && s[i..i + |pat|] == pat
  }

  /** `s.indexOf(pat)`: a position at which `pat` occurs, -1 if none;
      `IndexOfFirst` shows it is the first. */
  function IndexOf(s: string, pat: string): (r: int)
    ensures r == -1 || OccursAt(s, pat, r)
    decreases |s|
  {
    if pat <= s then
      assert s[..|pat|] == pat;
      0
    else if |s| == 0 then
      -1
    else
      var k := IndexOf(s[1..], pat);
      if k == -1 then -1
      else
        assert s[k + 1..k + 1 + |pat|] == s[1..][k..k + |pat|];
        k + 1
  }

  /** Moving past the first character shifts every occurrence by one. */
  lemma OccursAtTail(s: string, pat: string, j: int)
    requires s != [] && 1 <= j
    ensures OccursAt(s, pat, j) <==> OccursAt(s[1..], pat, j - 1)
  {
    if j + |pat| <= |s| {
      var a, b := s[j..j + |pat|], s[1..][j - 1..j - 1 + |pat|];
      assert |a| == |b|;
      forall k | 0 <= k < |a| ensures a[k] == b[k] {
        assert a[k] == s[j + k] && b[k] == s[1..][j - 1 + k];
      }
      assert a == b;
    }
  }

  /** `IndexOf` finds the first occurrence, and -1 exactly when there is none. */
  lemma {:induction false} IndexOfFirst(s: string, pat: string)
    ensures IndexOf(s, pat) == -1 <==> forall j :: !OccursAt(s, pat, j)
    ensures forall j :: 0 <= j < IndexOf(s, pat) ==> !OccursAt(s, pat, j)
    decreases |s|
  {
    if pat <= s {
    } else if |s| == 0 {
    } else {
      IndexOfFirst(s[1..], pat);
      assert !OccursAt(s, pat, 0) by {
        if |pat| <= |s| {
          assert s[0..|pat|] == s[..|pat|];
        }
      }
      forall j | 1 <= j ensures OccursAt(s, pat, j) <==> OccursAt(s[1..], pat, j - 1) {
        OccursAtTail(s, pat, j);
      }
    }
  }

  /** An occurrence with none before it is the one `IndexOf` finds. */
  lemma IndexOfIsFirst(s: string, pat: string, j: nat)
    requires OccursAt(s, pat, j) && forall k :: 0 <= k < j ==> !OccursAt(s, pat, k)
    ensures IndexOf(s, pat) == j
  {
    IndexOfFirst(s, pat);
  }

  /** Deleting the first occurrence, found at `j`. */
  lemma DeleteFirstAt(s: string, pat: string, j: nat)
    requires OccursAt(s, pat, j) && forall k :: 0 <= k < j ==> !OccursAt(s, pat, k)
    ensures ReplaceFirst(s, pat, "") == s[..j] + s[j + |pat|..]
  {
    IndexOfIsFirst(s, pat, j);
    assert s[..j] + "" == s[..j];
  }

  /** `s.includes(pat)`. */
  predicate Contains(s: string, pat: string) {
    IndexOf(s, pat) >= 0
  }

  /** `s.includes(pat)` holds exactly when `pat` occurs somewhere in `s`. */
  lemma ContainsIffOccurs(s: string, pat: string)
    ensures Contains(s, pat) <==> exists i :: OccursAt(s, pat, i)
  {
    IndexOfFirst(s, pat);
  }

  /** A string contains each of its infixes. */
  lemma ContainsInfix(prefix: string, pat: string, suffix: string)
    ensures Contains(prefix + pat + suffix, pat)
  {
    var s := prefix + pat + suffix;
    assert s[|prefix|..|prefix| + |pat|] == pat;
    assert OccursAt(s, pat, |prefix|);
    IndexOfFirst(s, pat);
  }

  /** A pattern holding a character the text lacks does not occur in it. */
  lemma AbsentCharNotContained(s: string, pat: string, c: char)
    requires c in pat && c !in s
    ensures !Contains(s, pat)
  {
    ContainsIffOccurs(s, pat);
  }

  /** `s.includes(w1) || s.includes(w2) || …`, tried in list order. */
  predicate ContainsAny(s: string, words: seq<string>) {
    |words| > 0 && (Contains(s, words[0]) || ContainsAny(s, words[1..]))
  }

  /** A chain of `includes` tests holds exactly when one of the words occurs. */
  lemma {:induction false} ContainsAnyIff(s: string, words: seq<string>)
    ensures ContainsAny(s, words) <==> exists k :: 0 <= k < |words| && Contains(s, words[k])
  {
    if |words| > 0 {
      ContainsAnyIff(s, words[1..]);
      assert forall k :: 1 <= k < |words| ==> words[1..][k - 1] == words[k];
    }
  }

  /** Each word holds a character the text lacks: the one at position
      `at[k]` of `words[k]`. */
  predicate EachHasAbsent(s: string, words: seq<string>, at: seq<nat>) {
    |at| == |words| &&
    (|words| == 0 || (at[0] < |words[0]| && words[0][at[0]] !in s && EachHasAbsent(s, words[1..], at[1..])))
  }

  /** None of the words occurs when each holds a character the text lacks. */
  lemma {:induction false} NoWordContained(s: string, words: seq<string>, at: seq<nat>)
    requires EachHasAbsent(s, words, at)
    ensures !ContainsAny(s, words)
  {
    if |words| > 0 {
      AbsentCharNotContained(s, words[0], words[0][at[0]]);
      NoWordContained(s, words[1..], at[1..]);
    }
  }

  predicate EndsWith(s: string, suffix: string) {
    |suffix| <= |s| && s[|s| - |suffix|..] == suffix
  }

  /** `s.replace(pat, rep)` with a string pattern: only the first occurrence is replaced. */
  function ReplaceFirst(s: string, pat: string, rep: string): (r: string)
    ensures !Contains(s, pat) ==> r == s
  {
    var i := IndexOf(s, pat);
    if i < 0 then s else s[..i] + rep + s[i + |pat|..]
  }

  // ---------------------------------------------------------------------
  // global match counts

  /** The number of matches of `text.match(new RegExp(w, 'g'))`: occurrences
      of `w` found scanning left to right, a match resuming after the
      previous one (so matches never overlap). */
  function CountMatches(s: string, w: string): (n: nat)
    requires w != []
    ensures n * |w| <= |s|
    ensures n > 0 <==> Contains(s, w)
    decreases |s|
  {
    if |s| == 0 then 0
    else if w <= s then
      assert OccursAt(s, w, 0);
      var rest := CountMatches(s[|w|..], w);
      MulSucc(rest, |w|, |s|);
      1 + rest
    else
      var rest := CountMatches(s[1..], w);
      assert IndexOf(s, w) == if IndexOf(s[1..], w) == -1 then -1 else IndexOf(s[1..], w) + 1;
      rest
  }

  lemma MulSucc(a: nat, b: nat, c: int)
    requires a * b <= c - b
    ensures (a + 1) * b <= c
  {
  }

  function Repeat(w: string, k: nat): string {
    if k == 0 then [] else w + Repeat(w, k - 1)
  }

  lemma CountMatchesLeading(w: string, rest: string)
    requires w != []
    ensures CountMatches(w + rest, w) == 1 + CountMatches(rest, w)
  {
    var s := w + rest;
    assert w <= s;
    assert s[|w|..] == rest;
  }

  /** `k` back-to-back copies of a word are `k` matches of it. */
  lemma {:induction false} CountMatchesRepeat(w: string, k: nat)
    requires w != []
    ensures CountMatches(Repeat(w, k), w) == k
  {
    if k == 0 {
      assert Repeat(w, k) == [];
    } else {
      assert Repeat(w, k) == w + Repeat(w, k - 1);
      CountMatchesRepeat(w, k - 1);
      CountMatchesLeading(w, Repeat(w, k - 1));
    }
  }

  // ---------------------------------------------------------------------
  // split on a character class

  predicate Avoids(p: string, seps: set<char>) {
    forall k :: 0 <= k < |p| ==> p[k] !in seps
  }

  /** `s.split(/[...]/)` for a one-character class `seps`. */
  function Split(s: string, seps: set<char>): (pieces: seq<string>)
    ensures |pieces| >= 1
    ensures forall p :: p in pieces ==> Avoids(p, seps)
    decreases |s|
  {
    if |s| == 0 then [[]]
    else
      var rest := Split(s[1..], seps);
      if s[0] in seps then [[]] + rest
      else
        assert Avoids(rest[0], seps);
        assert forall p :: p in rest[1..] ==> p in rest;
        [[s[0]] + rest[0]] + rest[1..]
  }

  /** A string without separators is one piece. */
  lemma {:induction false} SplitWord(w: string, seps: set<char>)
    requires Avoids(w, seps)
    ensures Split(w, seps) == [w]
    decreases |w|
  {
    if |w| > 0 {
      SplitWord(w[1..], seps);
      assert [w[0]] + w[1..] == w;
    }
  }

  /** A word followed by a separator is the first piece; splitting goes on after it. */
  lemma {:induction false} SplitWordThenSep(w: string, c: char, s: string, seps: set<char>)
    requires Avoids(w, seps) && c in seps
    ensures Split(w + [c] + s, seps) == [w] + Split(s, seps)
    decreases |w|
  {
    var t := w + [c] + s;
    if |w| == 0 {
      assert t == [c] + s;
      assert t[1..] == s;
    } else {
      assert t[1..] == w[1..] + [c] + s;
      SplitWordThenSep(w[1..], c, s, seps);
      assert [w[0]] + w[1..] == w;
    }
  }

  function Concat(ps: seq<string>): string {
    if ps == [] then [] else ps[0] + Concat(ps[1..])
  }

  /** The input with every separator character deleted. */
  function Remove(s: string, seps: set<char>): string {
    if s == [] then [] else (if s[0] in seps then [] else [s[0]]) + Remove(s[1..], seps)
  }

  /** Splitting loses exactly the separators: gluing the pieces back
      together gives the input with its separators deleted. */
  lemma {:induction false} SplitConcat(s: string, seps: set<char>)
    ensures Concat(Split(s, seps)) == Remove(s, seps)
  {
    if |s| > 0 {
      var rest := Split(s[1..], seps);
      SplitConcat(s[1..], seps);
      if s[0] !in seps {
        assert rest == [rest[0]] + rest[1..];
        assert Concat(rest) == rest[0] + Concat(rest[1..]);
        var ps := [[s[0]] + rest[0]] + rest[1..];
        assert ps[1..] == rest[1..];
        assert Concat(ps) == [s[0]] + rest[0] + Concat(rest[1..]);
      } else {
        var ps := [[]] + rest;
        assert ps[1..] == rest;
      }
    }
  }

  /** One element of `.map(s => s.trim()).filter(Boolean)`. */
  function CleanOne(x: string): seq<string> {
    var t := Trim(x);
    if t == [] then [] else [t]
  }

  /** `.map(s => s.trim()).filter(Boolean)`. */
  function Clean(xs: seq<string>): (r: seq<string>)
    ensures |r| <= |xs|
    ensures forall e :: e in r ==> e != [] && IsTrimmed(e)
  {
    if xs == [] then [] else CleanOne(xs[0]) + Clean(xs[1..])
  }

  /** Cleaning works element by element, so it keeps the input order:
      cleaning a concatenation concatenates the cleaned parts. */
  lemma {:induction false} CleanAppend(xs: seq<string>, ys: seq<string>)
    ensures Clean(xs + ys) == Clean(xs) + Clean(ys)
  {
    if xs == [] {
      assert xs + ys == ys;
    } else {
      assert (xs + ys)[0] == xs[0];
      assert (xs + ys)[1..] == xs[1..] + ys;
      CleanAppend(xs[1..], ys);
      assert Clean(xs + ys) == CleanOne(xs[0]) + (Clean(xs[1..]) + Clean(ys));
    }
  }

  /** An element is kept exactly when it is the non-empty trim of some input. */
  lemma {:induction false} CleanMembership(xs: seq<string>, e: string)
    ensures e in Clean(xs) <==> e != [] && exists x :: x in xs && Trim(x) == e
  {
    if xs != [] {
      CleanMembership(xs[1..], e);
      assert forall x :: x in xs <==> x == xs[0] || x in xs[1..];
    }
  }

  /** An item `Clean` keeps as it is: non-empty and trimmed. */
  predicate CleanItem(x: string) {
    x != [] && IsTrimmed(x)
  }

  /** A list of clean items is left as it is. */
  lemma {:induction false} CleanFixed(xs: seq<string>)
    requires forall k :: 0 <= k < |xs| ==> CleanItem(xs[k])
    ensures Clean(xs) == xs
  {
    if xs != [] {
      var x, rest := xs[0], xs[1..];
      assert CleanOne(x) == [x] by {
        assert CleanItem(x);
        TrimTrimmed(x);
      }
      forall k | 0 <= k < |rest| ensures CleanItem(rest[k]) {
        assert rest[k] == xs[k + 1];
      }
      CleanFixed(rest);
      assert xs == [x] + rest;
    }
  }

  // ---------------------------------------------------------------------
  // content up to whitespace

  /** The text with its whitespace deleted. */
  function NoSpace(s: string): string {
    if s == [] then [] else (if IsSpace(s[0]) then [] else [s[0]]) + NoSpace(s[1..])
  }

  lemma {:induction false} NoSpaceAppend(a: string, b: string)
    ensures NoSpace(a + b) == NoSpace(a) + NoSpace(b)
  {
    if a == [] {
      assert a + b == b;
    } else {
      assert (a + b)[0] == a[0];
      assert (a + b)[1..] == a[1..] + b;
      NoSpaceAppend(a[1..], b);
    }
  }

  lemma {:induction false} NoSpaceTrimStart(s: string)
    ensures NoSpace(TrimStart(s)) == NoSpace(s)
    decreases |s|
  {
    if |s| > 0 && IsSpace(s[0]) {
      NoSpaceTrimStart(s[1..]);
    }
  }

  lemma {:induction false} NoSpaceTrimEnd(s: string)
    ensures NoSpace(TrimEnd(s)) == NoSpace(s)
    decreases |s|
  {
    if |s| > 0 && IsSpace(s[|s| - 1]) {
      var p, c := s[..|s| - 1], s[|s| - 1];
      NoSpaceTrimEnd(p);
      assert s == p + [c];
      NoSpaceAppend(p, [c]);
      assert NoSpace([c]) == [] + NoSpace([]);
    }
  }

  /** `trim` deletes nothing but whitespace. */
  lemma NoSpaceTrim(s: string)
    ensures NoSpace(Trim(s)) == NoSpace(s)
  {
    NoSpaceTrimStart(s);
    NoSpaceTrimEnd(TrimStart(s));
  }

  lemma {:induction false} ConcatAppend(a: seq<string>, b: seq<string>)
    ensures Concat(a + b) == Concat(a) + Concat(b)
  {
    if a == [] {
      assert a + b == b;
    } else {
      assert (a + b)[0] == a[0];
      assert (a + b)[1..] == a[1..] + b;
      ConcatAppend(a[1..], b);
    }
  }

  lemma ConcatCons(a: string, rest: seq<string>)
    ensures Concat([a] + rest) == a + Concat(rest)
  {
    assert ([a] + rest)[1..] == rest;
  }

  /** The items `.map(s => s.trim()).filter(Boolean)` keeps, glued
      together, are the input glued together, up to whitespace: only
      whitespace is lost. */
  lemma {:induction false} CleanNoSpace(xs: seq<string>)
    ensures NoSpace(Concat(Clean(xs))) == NoSpace(Concat(xs))
  {
    if xs != [] {
      var x := xs[0];
      CleanNoSpace(xs[1..]);
      ConcatAppend(CleanOne(x), Clean(xs[1..]));
      assert Concat(CleanOne(x)) == Trim(x) by {
        if Trim(x) != [] {
          assert Concat([Trim(x)]) == Trim(x) + Concat([]);
        }
      }
      NoSpaceAppend(Trim(x), Concat(Clean(xs[1..])));
      NoSpaceAppend(x, Concat(xs[1..]));
      NoSpaceTrim(x);
    }
  }

  /** A text without separators loses nothing to `Remove`. */
  lemma {:induction false} RemoveAvoids(s: string, seps: set<char>)
    requires Avoids(s, seps)
    ensures Remove(s, seps) == s
  {
    if s != [] {
      assert forall k :: 0 <= k < |s[1..]| ==> s[1..][k] == s[k + 1];
      RemoveAvoids(s[1..], seps);
      assert [s[0]] + s[1..] == s;
    }
  }

  // ---------------------------------------------------------------------
  // join

  /** `xs.join(sep)` for a one-character separator. */
  function Join(xs: seq<string>, sep: char): string {
    if xs == [] then [] else if |xs| == 1 then xs[0] else xs[0] + [sep] + Join(xs[1..], sep)
  }

  /** Splitting undoes joining, when no item holds a separator. */
  lemma {:induction false} SplitJoin(xs: seq<string>, sep: char, seps: set<char>)
    requires xs != [] && sep in seps
    requires forall k :: 0 <= k < |xs| ==> Avoids(xs[k], seps)
    ensures Split(Join(xs, sep), seps) == xs
  {
    if |xs| == 1 {
      SplitWord(xs[0], seps);
    } else {
      SplitJoin(xs[1..], sep, seps);
      SplitWordThenSep(xs[0], sep, Join(xs[1..], sep), seps);
      assert [xs[0]] + xs[1..] == xs;
    }
  }

  // ---------------------------------------------------------------------
  // numbers as text

  function DigitChar(d: nat): (c: char)
    requires d < 10
    ensures IsDigit(c)
  {
    ('0' as int + d) as char
  }

  /** Decimal notation of a natural number, without leading zeros. */
  function NatToDecimal(n: nat): (r: string)
    ensures |r| >= 1 && AllDigits(r)
    ensures n > 0 ==> r[0] != '0'
  {
    if n < 10 then [DigitChar(n)] else NatToDecimal(n / 10) + [DigitChar(n % 10)]
  }

  /** The value that a string of decimal digits denotes. */
  function DecimalValue(s: string): nat
    requires AllDigits(s)
  {
    if s == [] then 0 else DecimalValue(s[..|s| - 1]) * 10 + (s[|s| - 1] as int - '0' as int)
  }

  /** Reading the decimal notation back gives the number. */
  lemma {:induction false} DecimalRoundTrip(n: nat)
    ensures DecimalValue(NatToDecimal(n)) == n
  {
    if n >= 10 {
      var r := NatToDecimal(n);
      assert r[..|r| - 1] == NatToDecimal(n / 10);
      DecimalRoundTrip(n / 10);
    }
  }

  /** `String(n)` for an integer-valued JavaScript number. */
  function IntToString(n: int): string {
    if n < 0 then "-" + NatToDecimal(-n) else NatToDecimal(n)
  }

  /** `a || b` on strings: the first one unless it is empty. */
  function OrElse(a: string, b: string): (r: string)
    ensures r == a || r == b
    ensures r == "" <==> a == "" && b == ""
  {
    if a != "" then a else b
  }
}
