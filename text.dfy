/**
 * The handful of Python `str` operations the cron runner relies on:
 * `strip()`, `split()` with and without a separator, `startswith`, `in`,
 * `lower()`/`upper()` and the decimal rendering of an `int` in an f-string.
 */
module Text {

  /** The characters Python's `str.isspace()` accepts, which `split()` and `strip()` use. */
  predicate IsSpace(c: char) {
    c == ' ' || c == '\t' || c == '\n' || c == '\r' || c == '\U{0B}' || c == '\U{0C}'
    || ('\U{1C}' <= c <= '\U{1F}') || c == '\U{85}' || c == '\U{A0}' || c == '\U{1680}'
    || ('\U{2000}' <= c <= '\U{200A}') || c == '\U{2028}' || c == '\U{2029}'
    || c == '\U{202F}' || c == '\U{205F}' || c == '\U{3000}'
  }

  predicate NoSpace(s: string) {
    forall k :: 0 <= k < |s| ==> !IsSpace(s[k])
  }

  predicate AllSpace(s: string) {
    forall k :: 0 <= k < |s| ==> IsSpace(s[k])
  }

  /** `s` starts with `prefix` (Python's `s.startswith(prefix)`). */
  predicate StartsWith(s: string, prefix: string) {
    prefix <= s
  }

  // ---------------------------------------------------------------- strip()

  function TrimStart(s: string): (r: string)
    ensures |r| <= |s| && r == s[|s| - |r|..] && AllSpace(s[..|s| - |r|])
    ensures r == [] || !IsSpace(r[0])
  {
    if s != [] && IsSpace(s[0]) then TrimStart(s[1..]) else s
  }

  function TrimEnd(s: string): (r: string)
    ensures |r| <= |s| && r == s[..|r|] && AllSpace(s[|r|..])
    ensures r == [] || !IsSpace(r[|r| - 1])
  {
    if s != [] && IsSpace(s[|s| - 1]) then
      var init := s[..|s| - 1];
      var r := TrimEnd(init);
      assert init[..|r|] == s[..|r|];
      assert s[|r|..] == init[|r|..] + [s[|s| - 1]];
      r
    else s
  }

  /** `r` sits at offset `i` of `s` with nothing but whitespace around it. */
  ghost predicate Framed(s: string, r: string, i: int) {
    0 <= i && i + |r| <= |s| && s[i..i + |r|] == r && AllSpace(s[..i]) && AllSpace(s[i + |r|..])
  }

  /**
   * Whitespace trimmed from the front of `s` and then from the back leaves
   * `r` framed in `s`, with no whitespace at either end of `r`.
   */
  lemma TrimmedFramed(s: string, t: string, r: string)
    requires |t| <= |s| && t == s[|s| - |t|..] && AllSpace(s[..|s| - |t|])
    requires t == [] || !IsSpace(t[0])
    requires |r| <= |t| && r == t[..|r|] && AllSpace(t[|r|..])
    requires r == [] || !IsSpace(r[|r| - 1])
    ensures r == [] || (!IsSpace(r[0]) && !IsSpace(r[|r| - 1]))
    ensures Framed(s, r, |s| - |t|)
    ensures r == [] <==> AllSpace(s)
  {
    var i := |s| - |t|;
    assert s[i..i + |r|] == t[..|r|];
    assert s[i + |r|..] == t[|r|..];
    if r == [] {
      assert s[..i] == s;
    } else {
      assert r[0] == t[0] == s[i];
    }
  }

  /** Python's `s.strip()`: the text of `s` without its leading and trailing whitespace. */
  function Strip(s: string): (r: string)
    ensures r == [] || (!IsSpace(r[0]) && !IsSpace(r[|r| - 1]))
    ensures exists i :: Framed(s, r, i)
    ensures r == [] <==> AllSpace(s)
  {
    var t := TrimStart(s);
    var r := TrimEnd(t);
    TrimmedFramed(s, t, r);
    r
  }

  // ---------------------------------------------------------------- split()

  /** Length of the run of non-whitespace characters that starts `s`. */
  function WordLength(s: string): (n: nat)
    ensures n <= |s| && NoSpace(s[..n]) && (n < |s| ==> IsSpace(s[n]))
  {
    if s == [] || IsSpace(s[0]) then 0 else 1 + WordLength(s[1..])
  }

  /** Python's `s.split()`: the maximal runs of non-whitespace characters, in order. */
  function Fields(s: string): (r: seq<string>)
    ensures forall k :: 0 <= k < |r| ==> r[k] != [] && NoSpace(r[k])
    decreases |s|
  {
    if s == [] then []
    else if IsSpace(s[0]) then Fields(s[1..])
    else
      var n := WordLength(s);
      [s[..n]] + Fields(s[n..])
  }

  /** `" ".join(words)` */
  function JoinWithSpace(words: seq<string>): string {
    if |words| == 0 then []
    else if |words| == 1 then words[0]
    else words[0] + " " + JoinWithSpace(words[1..])
  }

  /** A word with no whitespace, followed by nothing or by whitespace, is read whole. */
  lemma WordLengthOfWord(w: string, rest: string)
    requires NoSpace(w)
    requires rest == [] || IsSpace(rest[0])
    ensures WordLength(w + rest) == |w|
  {
    var s := w + rest;
    assert s[..|w|] == w;
    assert rest != [] ==> s[|w|] == rest[0];
  }

  /** Splitting space-joined words gives the words back. */
  lemma {:induction false} FieldsOfJoin(words: seq<string>)
    requires forall k :: 0 <= k < |words| ==> words[k] != [] && NoSpace(words[k])
    ensures Fields(JoinWithSpace(words)) == words
  {
    if |words| == 1 {
      var w := words[0];
      WordLengthOfWord(w, []);
      assert w + [] == w;
      assert w[|w|..] == [];
    } else if |words| > 1 {
      var w := words[0];
      var tail := JoinWithSpace(words[1..]);
      var s := w + " " + tail;
      assert s == w + (" " + tail);
      WordLengthOfWord(w, " " + tail);
      assert s[..|w|] == w;
      assert s[|w|..] == " " + tail;
      assert (" " + tail)[1..] == tail;
      FieldsOfJoin(words[1..]);
      assert words == [w] + words[1..];
    }
  }

  /**
   * `gaps` and `words` describe a string as whitespace runs between
   * non-empty, whitespace-free words: one more gap than words, and every gap
   * strictly between two words non-empty.
   */
  predicate Separates(gaps: seq<string>, words: seq<string>) {
    && |gaps| == |words| + 1
    && (forall k :: 0 <= k < |words| ==> words[k] != [] && NoSpace(words[k]))
    && (forall k :: 0 <= k < |gaps| ==> AllSpace(gaps[k]))
    && (forall k :: 0 < k < |words| ==> gaps[k] != [])
  }

  /** `gaps[0] + words[0] + gaps[1] + ... + words[n-1] + gaps[n]` */
  function Interleave(gaps: seq<string>, words: seq<string>): string
    requires |gaps| == |words| + 1
    decreases words
  {
    if words == [] then gaps[0] else gaps[0] + words[0] + Interleave(gaps[1..], words[1..])
  }

  /** Leading whitespace does not change the fields. */
  lemma {:induction false} FieldsSkipSpace(g: string, s: string)
    requires AllSpace(g)
    ensures Fields(g + s) == Fields(s)
  {
    if g == [] {
      assert g + s == s;
    } else {
      assert (g + s)[0] == g[0];
      assert (g + s)[1..] == g[1..] + s;
      FieldsSkipSpace(g[1..], s);
    }
  }

  /** A word followed by nothing or by whitespace is the first field. */
  lemma FieldsOfWord(w: string, rest: string)
    requires w != [] && NoSpace(w)
    requires rest == [] || IsSpace(rest[0])
    ensures Fields(w + rest) == [w] + Fields(rest)
  {
    WordLengthOfWord(w, rest);
    var s := w + rest;
    assert s[0] == w[0];
    assert s[..|w|] == w;
    assert s[|w|..] == rest;
  }

  /** Words separated by any whitespace runs, with any whitespace around them, split back into the words. */
  lemma {:induction false} FieldsOfInterleave(gaps: seq<string>, words: seq<string>)
    requires Separates(gaps, words)
    ensures Fields(Interleave(gaps, words)) == words
  {
    if words == [] {
      FieldsSkipSpace(gaps[0], []);
      assert gaps[0] + [] == gaps[0];
    } else {
      var rest := Interleave(gaps[1..], words[1..]);
      assert Separates(gaps[1..], words[1..]) by {
        forall k | 0 < k < |words[1..]|
          ensures gaps[1..][k] != []
        {
          assert gaps[1..][k] == gaps[k + 1];
        }
      }
      FieldsOfInterleave(gaps[1..], words[1..]);
      if |words| > 1 {
        assert rest[0] == gaps[1][0];
      }
      FieldsOfWord(words[0], rest);
      assert Interleave(gaps, words) == gaps[0] + (words[0] + rest);
      FieldsSkipSpace(gaps[0], words[0] + rest);
      assert words == [words[0]] + words[1..];
    }
  }

  /** The whitespace runs around and between the fields of `s`. */
  function Gaps(s: string): (g: seq<string>)
    ensures |g| == |Fields(s)| + 1
    decreases |s|
  {
    if s == [] then [[]]
    else if IsSpace(s[0]) then
      var g := Gaps(s[1..]);
      g[0 := [s[0]] + g[0]]
    else [[]] + Gaps(s[WordLength(s)..])
  }

  lemma InterleavePrepend(c: char, g: seq<string>, words: seq<string>)
    requires |g| == |words| + 1
    ensures Interleave(g[0 := [c] + g[0]], words) == [c] + Interleave(g, words)
  {
    var g' := g[0 := [c] + g[0]];
    if words != [] {
      assert g'[1..] == g[1..];
    }
  }

  /** A word in front of a separated string, after an empty gap, keeps it separated. */
  lemma SeparatesCons(w: string, g: seq<string>, ws: seq<string>)
    requires Separates(g, ws) && w != [] && NoSpace(w)
    requires ws != [] ==> g[0] != []
    ensures Separates([[]] + g, [w] + ws)
    ensures Interleave([[]] + g, [w] + ws) == w + Interleave(g, ws)
  {
    var g' := [[]] + g;
    var ws' := [w] + ws;
    assert g'[1..] == g && ws'[1..] == ws;
    forall k | 0 < k < |ws'|
      ensures g'[k] != []
    {
      assert g'[k] == g[k - 1];
    }
  }

  /** Whitespace in front of a separated string joins its first gap. */
  lemma SeparatesPrepend(c: char, g: seq<string>, ws: seq<string>)
    requires Separates(g, ws) && IsSpace(c)
    ensures Separates(g[0 := [c] + g[0]], ws)
    ensures Interleave(g[0 := [c] + g[0]], ws) == [c] + Interleave(g, ws)
    ensures g[0 := [c] + g[0]][0] != []
  {
    InterleavePrepend(c, g, ws);
    assert AllSpace([c] + g[0]);
  }

  /** What `GapsSeparate` states about `s`. */
  predicate GapsFit(s: string) {
    && Separates(Gaps(s), Fields(s))
    && Interleave(Gaps(s), Fields(s)) == s
    && (s != [] && IsSpace(s[0]) ==> Gaps(s)[0] != [])
  }

  /**
   * Every string is its fields placed between its whitespace runs, and a
   * string that starts with whitespace has a non-empty first run.
   */
  lemma {:induction false} GapsSeparate(s: string)
    ensures GapsFit(s)
    decreases |s|
  {
    if s == [] {
    } else if IsSpace(s[0]) {
      GapsSeparate(s[1..]);
      SeparatesPrepend(s[0], Gaps(s[1..]), Fields(s[1..]));
      assert [s[0]] + s[1..] == s;
    } else {
      var n := WordLength(s);
      var rest := s[n..];
      GapsSeparate(rest);
      assert Fields(rest) != [] ==> rest != [] && IsSpace(rest[0]);
      SeparatesCons(s[..n], Gaps(rest), Fields(rest));
      assert s[..n] + rest == s;
    }
  }

  /**
   * `Fields` is Python's `split()`: `s` splits into `words` exactly when `s`
   * is those words with whitespace runs around and between them.
   */
  lemma FieldsCharacterised(s: string, words: seq<string>)
    ensures Fields(s) == words <==>
      exists gaps :: Separates(gaps, words) && Interleave(gaps, words) == s
  {
    if Fields(s) == words {
      GapsSeparate(s);
      assert Separates(Gaps(s), words) && Interleave(Gaps(s), words) == s;
    }
    if exists gaps :: Separates(gaps, words) && Interleave(gaps, words) == s {
      var gaps :| Separates(gaps, words) && Interleave(gaps, words) == s;
      FieldsOfInterleave(gaps, words);
    }
  }

  // ---------------------------------------------------------- split(sep)

  /** Index of the first `c` in `s`, or `|s|` when there is none. */
  function IndexOf(s: string, c: char): (i: nat)
    ensures i <= |s| && c !in s[..i] && (i < |s| ==> s[i] == c)
    ensures i == |s| <==> c !in s
  {
    if s == [] || s[0] == c then 0 else 1 + IndexOf(s[1..], c)
  }

  /** `sep.join(parts)` for a one-character separator. */
  function Join(parts: seq<string>, sep: char): string {
    if |parts| == 0 then []
    else if |parts| == 1 then parts[0]
    else parts[0] + [sep] + Join(parts[1..], sep)
  }

  /** Python's `s.split(sep)` for a one-character separator; joining the parts gives `s` back. */
  function Split(s: string, sep: char): (parts: seq<string>)
    ensures |parts| >= 1
    ensures forall k :: 0 <= k < |parts| ==> sep !in parts[k]
    ensures Join(parts, sep) == s
    decreases |s|
  {
    var i := IndexOf(s, sep);
    if i == |s| then [s]
    else
      var rest := Split(s[i + 1..], sep);
      var parts := [s[..i]] + rest;
      assert parts[1..] == rest;
      assert s == s[..i] + [sep] + s[i + 1..];
      parts
  }

  /** Splitting joined separator-free parts gives the parts back. */
  lemma {:induction false} SplitOfJoin(parts: seq<string>, sep: char)
    requires |parts| >= 1
    requires forall k :: 0 <= k < |parts| ==> sep !in parts[k]
    ensures Split(Join(parts, sep), sep) == parts
  {
    var p := parts[0];
    if |parts| == 1 {
      assert IndexOf(p, sep) == |p|;
    } else {
      var tail := Join(parts[1..], sep);
      var s := p + [sep] + tail;
      assert s[..|p|] == p;
      assert s[|p|] == sep;
      assert s[|p| + 1..] == tail;
      SplitOfJoin(parts[1..], sep);
      assert parts == [p] + parts[1..];
    }
  }

  // -------------------------------------------------------------- `in`

  /** `sub` occurs in `s` at offset `i`. */
  ghost predicate OccursAt(s: string, sub: string, i: int) {
    0 <= i && i + |sub| <= |s| && s[i..i + |sub|] == sub
  }

  /** Python's `sub in s`. */
  function Contains(s: string, sub: string): bool
    decreases |s|
  {
    StartsWith(s, sub) || (s != [] && Contains(s[1..], sub))
  }

  /** `Contains` holds exactly when `sub` occurs somewhere in `s`. */
  lemma {:induction false} ContainsIff(s: string, sub: string)
    ensures Contains(s, sub) <==> exists i :: OccursAt(s, sub, i)
  {
    if StartsWith(s, sub) {
      assert OccursAt(s, sub, 0);
    } else if s == [] {
    } else {
      ContainsIff(s[1..], sub);
      if Contains(s[1..], sub) {
        var i :| OccursAt(s[1..], sub, i);
        assert s[i + 1..i + 1 + |sub|] == s[1..][i..i + |sub|];
        assert OccursAt(s, sub, i + 1);
      }
      if exists i :: OccursAt(s, sub, i) {
        var i :| OccursAt(s, sub, i);
        assert s[0..|sub|] == s[..|sub|];
        assert i != 0;
        assert s[1..][i - 1..i - 1 + |sub|] == s[i..i + |sub|];
        assert OccursAt(s[1..], sub, i - 1);
      }
    }
  }

  // -------------------------------------------------------- lower(), upper()

  function LowerChar(c: char): char {
    if 'A' <= c <= 'Z' then (c as int + 32) as char else c
  }

  function UpperChar(c: char): char {
    if 'a' <= c <= 'z' then (c as int - 32) as char else c
  }

  /** Python's `s.lower()` on ASCII letters: no capital is left, and every other character stays. */
  function Lower(s: string): (r: string)
    ensures |r| == |s|
    ensures forall k :: 0 <= k < |r| ==> !('A' <= r[k] <= 'Z')
    ensures forall k :: 0 <= k < |s| ==> r[k] == s[k] || ('A' <= s[k] <= 'Z' && r[k] as int == s[k] as int + 32)
  {
    seq(|s|, k requires 0 <= k < |s| => LowerChar(s[k]))
  }

  /** Python's `s.upper()` on ASCII letters: no small letter is left, and every other character stays. */
  function Upper(s: string): (r: string)
    ensures |r| == |s|
    ensures forall k :: 0 <= k < |r| ==> !('a' <= r[k] <= 'z')
    ensures forall k :: 0 <= k < |s| ==> r[k] == s[k] || ('a' <= s[k] <= 'z' && r[k] as int == s[k] as int - 32)
  {
    seq(|s|, k requires 0 <= k < |s| => UpperChar(s[k]))
  }

  // ------------------------------------------------------ str(int)

  predicate IsDigit(c: char) {
    '0' <= c <= '9'
  }

  predicate AllDigits(s: string) {
    forall k :: 0 <= k < |s| ==> IsDigit(s[k])
  }

  function DigitChar(d: nat): char
    requires d < 10
  {
    ('0' as int + d) as char
  }

  /** The decimal digits of `n`, most significant first. */
  function NatToString(n: nat): (r: string)
    ensures r != [] && AllDigits(r)
    ensures |r| == 1 || r[0] != '0'
  {
    if n < 10 then [DigitChar(n)] else NatToString(n / 10) + [DigitChar(n % 10)]
  }

  /** Python's `str(i)` for an `int`: a minus sign for negatives, then the digits of `|i|`. */
  function IntToString(i: int): (r: string)
    ensures i >= 0 ==> r != [] && (|r| == 1 || r[0] != '0') && AllDigits(r) && DigitsValue(r) == i
    ensures i < 0 ==> |r| >= 2 && r[..1] == "-" && AllDigits(r[1..]) && DigitsValue(r[1..]) == -i && r[1] != '0'
  {
    if i < 0 then
      NatToStringRoundTrip(-i);
      var r := "-" + NatToString(-i);
      assert r[1..] == NatToString(-i);
      r
    else
      NatToStringRoundTrip(i);
      NatToString(i)
  }

  /** The number a string of decimal digits denotes. */
  function DigitsValue(s: string): nat
    requires AllDigits(s)
  {
    if s == [] then 0 else DigitsValue(s[..|s| - 1]) * 10 + (s[|s| - 1] as int - '0' as int)
  }

  /** Reading back the digits of `n` gives `n`. */
  lemma {:induction false} NatToStringRoundTrip(n: nat)
    ensures DigitsValue(NatToString(n)) == n
  {
    if n >= 10 {
      var r := NatToString(n);
      assert r[..|r| - 1] == NatToString(n / 10);
      NatToStringRoundTrip(n / 10);
    }
  }
}
