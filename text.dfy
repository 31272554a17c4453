/**
 * String helpers with Python's `str` semantics, used by every crawler:
 * `strip()`, `startswith`, `in` on substrings, `split(sep)`, `replace`
 * of one character, and slicing `s[:n]`.
 */
module Text {

  /** Python's `str.isspace()` for one character; `\s` in a `re` pattern
      on `str` matches the same set. */
  predicate IsSpace(c: char) {
    var n := c as int;
    (9 <= n <= 13) || (28 <= n <= 32) || n == 0x85 || n == 0xA0 || n == 0x1680 ||
    (0x2000 <= n <= 0x200A) || n == 0x2028 || n == 0x2029 || n == 0x202F ||
    n == 0x205F || n == 0x3000
  }

  predicate AllSpace(s: string) {
    forall i :: 0 <= i < |s| ==> IsSpace(s[i])
  }

  /** Python's `s.lstrip()`. */
  function LStrip(s: string): (r: string)
    ensures |r| <= |s|
  {
    if s != [] && IsSpace(s[0]) then LStrip(s[1..]) else s
  }

  /** Python's `s.rstrip()`. */
  function RStrip(s: string): (r: string)
    ensures |r| <= |s|
  {
    if s != [] && IsSpace(s[|s| - 1]) then RStrip(s[..|s| - 1]) else s
  }

  /** Python's `s.strip()`: no leading and no trailing whitespace; a string
      without whitespace at either end is kept as it is. */
  function Strip(s: string): (r: string)
    ensures |r| <= |s| && IsStripped(r)
    ensures IsStripped(s) ==> r == s
  {
    LStripIsSuffix(s);
    RStripIsPrefix(LStrip(s));
    RStripKeepsFirst(LStrip(s));
    RStrip(LStrip(s))
  }

  /** A stripped string: neither end is whitespace. */
  predicate IsStripped(s: string) {
    s == [] || (!IsSpace(s[0]) && !IsSpace(s[|s| - 1]))
  }

  lemma {:induction false} LStripIsSuffix(s: string)
    ensures var r := LStrip(s);
      |r| <= |s| && r == s[|s| - |r|..] && AllSpace(s[..|s| - |r|]) &&
      (r == [] || !IsSpace(r[0]))
  {
    if s != [] && IsSpace(s[0]) {
      LStripIsSuffix(s[1..]);
      var r := LStrip(s[1..]);
      assert s[1..][|s| - 1 - |r|..] == s[|s| - |r|..];
      assert s[..|s| - |r|] == [s[0]] + s[1..][..|s| - 1 - |r|];
    }
  }

  lemma {:induction false} RStripIsPrefix(s: string)
    ensures var r := RStrip(s);
      |r| <= |s| && r == s[..|r|] && AllSpace(s[|r|..]) &&
      (r == [] || !IsSpace(r[|r| - 1]))
  {
    if s != [] && IsSpace(s[|s| - 1]) {
      var t := s[..|s| - 1];
      RStripIsPrefix(t);
      var r := RStrip(t);
      assert t[..|r|] == s[..|r|];
      assert s[|r|..] == t[|r|..] + [s[|s| - 1]];
    }
  }

  lemma {:induction false} RStripKeepsFirst(s: string)
    requires s == [] || !IsSpace(s[0])
    ensures var r := RStrip(s); r == [] || !IsSpace(r[0])
  {
    if s != [] && IsSpace(s[|s| - 1]) {
      RStripKeepsFirst(s[..|s| - 1]);
    }
  }

  /** `strip()` returns a contiguous piece of its input with no whitespace at
      either end, and everything it removed was whitespace. */
  lemma StripIsSlice(s: string) returns (i: nat)
    ensures var r := Strip(s);
      IsStripped(r) && i <= |s| - |r| && r == s[i..i + |r|] &&
      AllSpace(s[..i]) && AllSpace(s[i + |r|..])
  {
    var l := LStrip(s);
    LStripIsSuffix(s);
    RStripIsPrefix(l);
    RStripKeepsFirst(l);
    var r := RStrip(l);
    i := |s| - |l|;
    assert r == s[i..i + |r|];
    assert s[i + |r|..] == l[|r|..];
  }

  /** `strip()` gives a stripped string made of characters of its input. */
  lemma StripFacts(s: string)
    ensures IsStripped(Strip(s))
    ensures forall c :: c in Strip(s) ==> c in s
  {
    var i := StripIsSlice(s);
    var r := Strip(s);
    assert forall j :: 0 <= j < |r| ==> r[j] == s[i + j];
  }

  /** `strip()` is empty exactly for all-whitespace strings. */
  lemma {:induction false} StripEmptyIff(s: string)
    ensures Strip(s) == [] <==> AllSpace(s)
  {
    var i := StripIsSlice(s);
    var r := Strip(s);
    if r == [] {
      forall k | 0 <= k < |s| ensures IsSpace(s[k]) {
        if k < i { assert s[..i][k] == s[k]; } else { assert s[i..][k - i] == s[k]; }
      }
    } else {
      assert r[0] == s[i];
    }
  }

  lemma {:induction false} LStripOfStripped(s: string)
    requires s == [] || !IsSpace(s[0])
    ensures LStrip(s) == s
  {
  }

  lemma {:induction false} RStripOfStripped(s: string)
    requires s == [] || !IsSpace(s[|s| - 1])
    ensures RStrip(s) == s
  {
  }

  /** Stripping twice is stripping once. */
  lemma StripIdempotent(s: string)
    ensures Strip(Strip(s)) == Strip(s)
  {
    var _ := StripIsSlice(s);
    var r := Strip(s);
    LStripOfStripped(r);
    RStripOfStripped(r);
  }

  /** A string that is already stripped is its own `strip()`. */
  lemma StripOfStripped(s: string)
    requires IsStripped(s)
    ensures Strip(s) == s
  {
    LStripOfStripped(s);
    RStripOfStripped(s);
  }

  /** Python's `s.startswith(p)`. */
  predicate StartsWith(s: string, p: string) {
    |p| <= |s| && s[..|p|] == p
  }

  /** Python's `p in s` for strings. */
  predicate ContainsSub(s: string, p: string) {
    StartsWith(s, p) || (s != [] && ContainsSub(s[1..], p))
  }

  /** Python's `s[:n]` for `n >= 0`. */
  function Take<T>(s: seq<T>, n: nat): (r: seq<T>)
    ensures |r| == if n < |s| then n else |s|
    ensures r == s[..|r|]
  {
    if n < |s| then s[..n] else s
  }

  /** Python's `s.replace(a, b)` where `a` and `b` are one character each. */
  function ReplaceChar(s: string, a: char, b: char): (r: string)
    ensures |r| == |s|
    ensures forall i :: 0 <= i < |s| ==> r[i] == (if s[i] == a then b else s[i])
  {
    if s == [] then [] else [if s[0] == a then b else s[0]] + ReplaceChar(s[1..], a, b)
  }

  /** Index of the first occurrence of `c` in `s`, or `|s|` when there is none. */
  function IndexOf(s: string, c: char): (k: nat)
    ensures k <= |s|
    ensures k < |s| ==> s[k] == c
    ensures forall j :: 0 <= j < k ==> s[j] != c
  {
    if s == [] then 0 else if s[0] == c then 0 else 1 + IndexOf(s[1..], c)
  }

  /** Python's `s.split(sep)` for a one-character separator. */
  function Split(s: string, sep: char): (parts: seq<string>)
    ensures |parts| >= 1
    ensures SeparatorFree(parts, sep)
    decreases |s|
  {
    var k := IndexOf(s, sep);
    if k == |s| then [s]
    else
      var rest := Split(s[k + 1..], sep);
      var parts := [s[..k]] + rest;
      assert forall i :: 1 <= i < |parts| ==> parts[i] == rest[i - 1];
      parts
  }

  /** No piece contains the separator. */
  predicate SeparatorFree(parts: seq<string>, sep: char) {
    forall i :: 0 <= i < |parts| ==> sep !in parts[i]
  }

  /** Python's `sep.join(parts)`. */
  function Join(parts: seq<string>, sep: char): string {
    if parts == [] then [] else if |parts| == 1 then parts[0]
    else parts[0] + [sep] + Join(parts[1..], sep)
  }

  /** `split` cuts at every separator and at nothing else: joining the
      pieces back gives the input. */
  lemma {:induction false} SplitJoin(s: string, sep: char)
    ensures Join(Split(s, sep), sep) == s
    decreases |s|
  {
    var k := IndexOf(s, sep);
    if k != |s| {
      var rest := s[k + 1..];
      SplitJoin(rest, sep);
      SplitCons(s, sep, k, rest);
    }
  }

  /** One step of `Split` and `Join` at the first separator. */
  lemma SplitCons(s: string, sep: char, k: nat, rest: string)
    requires k == IndexOf(s, sep) && k < |s| && rest == s[k + 1..]
    requires Join(Split(rest, sep), sep) == rest
    ensures Join(Split(s, sep), sep) == s
  {
    SplitAt(s, sep, k);
    assert s == s[..k] + [sep] + rest;
    JoinPrepend(s[..k], Split(rest, sep), sep);
  }

  lemma SplitAt(s: string, sep: char, k: nat)
    requires k == IndexOf(s, sep) && k < |s|
    ensures Split(s, sep) == [s[..k]] + Split(s[k + 1..], sep)
  {
  }

  lemma JoinPrepend(head: string, tail: seq<string>, sep: char)
    requires |tail| >= 1
    ensures Join([head] + tail, sep) == head + [sep] + Join(tail, sep)
  {
    assert ([head] + tail)[1..] == tail;
  }

  predicate IsDigit(c: char) {
    '0' <= c <= '9'
  }

  /** A date written `DDDD<sep>DD<sep>DD` with ASCII digits, such as `2025.12.18`. */
  predicate IsDateWith(s: string, sep: char) {
    |s| == 10 && s[4] == sep && s[7] == sep &&
    forall i :: 0 <= i < 10 && i != 4 && i != 7 ==> IsDigit(s[i])
  }
}
