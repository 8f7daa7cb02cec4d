/** The behaviour of Python's built-in `str` operations that the modelled
    code relies on: whitespace, `strip`, `split`, `join`, `find`/`rfind`,
    `in`, slicing with negative bounds, `lower`, `startswith`/`endswith`
    and the decimal rendering of an `int` in an f-string. */
module PyStr {

  /** `c.isspace()`: the characters Python counts as whitespace (bidirectional
      class WS, B or S, or general category Zs). */
  predicate IsSpace(c: char) {
    var n := c as int;
    (9 <= n <= 13) || (28 <= n <= 32) || n == 0x85 || n == 0xA0 || n == 0x1680
    || (0x2000 <= n <= 0x200A) || n == 0x2028 || n == 0x2029 || n == 0x202F
    || n == 0x205F || n == 0x3000
  }

  /** `not s.strip()`: the string is empty or only whitespace. */
  predicate IsBlank(s: string) {
    forall k :: 0 <= k < |s| ==> IsSpace(s[k])
  }

  /** A maximal run that `s.split()` can return: non-empty, no whitespace. */
  predicate IsWord(w: string) {
    w != [] && forall k :: 0 <= k < |w| ==> !IsSpace(w[k])
  }

  function LeadingSpaces(s: string): (n: nat)
    ensures n <= |s|
    ensures forall k :: 0 <= k < n ==> IsSpace(s[k])
    ensures n < |s| ==> !IsSpace(s[n])
  {
    if s == [] || !IsSpace(s[0]) then 0 else 1 + LeadingSpaces(s[1..])
  }

  function TrailingSpaces(s: string): (n: nat)
    ensures n <= |s|
    ensures forall k :: |s| - n <= k < |s| ==> IsSpace(s[k])
    ensures n < |s| ==> !IsSpace(s[|s| - 1 - n])
  {
    if s == [] || !IsSpace(s[|s| - 1]) then 0 else 1 + TrailingSpaces(s[..|s| - 1])
  }

  /** Where `s.strip()` starts in `s`. */
  function StripStart(s: string): nat {
    LeadingSpaces(s)
  }

  /** Where `s.strip()` ends in `s`. */
  function StripEnd(s: string): nat {
    if LeadingSpaces(s) == |s| then |s| else |s| - TrailingSpaces(s)
  }

  /** `s.strip()`: the span of `s` that starts and ends with a non-whitespace
      character, everything outside it being whitespace. */
  function Strip(s: string): (r: string)
    ensures StripStart(s) <= StripEnd(s) <= |s|
    ensures r == s[StripStart(s)..StripEnd(s)]
    ensures forall k :: 0 <= k < |s| && !(StripStart(s) <= k < StripEnd(s)) ==> IsSpace(s[k])
    ensures r == [] <==> IsBlank(s)
    ensures r != [] ==> !IsSpace(r[0]) && !IsSpace(r[|r| - 1])
  {
    s[StripStart(s)..StripEnd(s)]
  }

  lemma StripIdempotent(s: string)
    ensures Strip(Strip(s)) == Strip(s)
  {
    var r := Strip(s);
    if r != [] {
      assert LeadingSpaces(r) == 0;
      assert TrailingSpaces(r) == 0;
    }
  }

  /** Length of the run of non-whitespace characters at the front of `s`. */
  function WordLength(s: string): (n: nat)
    ensures n <= |s|
    ensures forall k :: 0 <= k < n ==> !IsSpace(s[k])
    ensures n < |s| ==> IsSpace(s[n])
  {
    if s == [] || IsSpace(s[0]) then 0 else 1 + WordLength(s[1..])
  }

  /** `s.split()` with no separator: the maximal runs of non-whitespace, in order. */
  function Words(s: string): (ws: seq<string>)
    ensures forall i :: 0 <= i < |ws| ==> IsWord(ws[i])
    decreases |s|
  {
    var t := s[LeadingSpaces(s)..];
    if t == [] then []
    else
      var n := WordLength(t);
      [t[..n]] + Words(t[n..])
  }

  lemma {:induction false} WordsOfBlank(s: string)
    ensures Words(s) == [] <==> IsBlank(s)
  {
    var t := s[LeadingSpaces(s)..];
    if t != [] {
      assert !IsSpace(s[LeadingSpaces(s)]);
    }
  }

  lemma WordsSkipSpace(c: char, x: string)
    requires IsSpace(c)
    ensures Words([c] + x) == Words(x)
  {
    var y := [c] + x;
    assert y[1..] == x;
    assert LeadingSpaces(y) == 1 + LeadingSpaces(x);
    assert y[LeadingSpaces(y)..] == x[LeadingSpaces(x)..];
  }

  /** `sep.join(parts)` */
  function Join(parts: seq<string>, sep: string): string
  {
    if |parts| == 0 then []
    else if |parts| == 1 then parts[0]
    else parts[0] + sep + Join(parts[1..], sep)
  }

  lemma JoinCons(head: string, rest: seq<string>, sep: string)
    requires |rest| >= 1
    ensures Join([head] + rest, sep) == head + sep + Join(rest, sep)
  {
    assert ([head] + rest)[1..] == rest;
  }

  lemma WordSpan(w: string, rest: string)
    requires IsWord(w)
    requires rest == [] || IsSpace(rest[0])
    ensures LeadingSpaces(w + rest) == 0
    ensures WordLength(w + rest) == |w|
  {
    var x := w + rest;
    assert forall k :: 0 <= k < |w| ==> x[k] == w[k];
    assert |w| < |x| ==> x[|w|] == rest[0];
  }

  /** A word followed by whitespace (or by nothing) is the first word. */
  lemma WordsCons(w: string, rest: string)
    requires IsWord(w)
    requires rest == [] || IsSpace(rest[0])
    ensures Words(w + rest) == [w] + Words(rest)
  {
    var x := w + rest;
    WordSpan(w, rest);
    assert x[LeadingSpaces(x)..] == x;
    assert x[..|w|] == w;
    assert x[|w|..] == rest;
    if rest == [] {
      assert Words(rest) == [];
    } else {
      assert Words(rest) == Words(rest[1..]) by {
        WordsSkipSpace(rest[0], rest[1..]);
        assert [rest[0]] + rest[1..] == rest;
      }
    }
  }

  /** Joining words with single spaces and splitting on whitespace gives the
      words back. */
  lemma {:induction false} WordsOfJoin(ws: seq<string>)
    requires forall i :: 0 <= i < |ws| ==> IsWord(ws[i])
    ensures Words(Join(ws, " ")) == ws
  {
    if |ws| == 1 {
      SingleWord(ws);
    } else if |ws| > 1 {
      var tail := ws[1..];
      assert forall i :: 0 <= i < |tail| ==> IsWord(tail[i]) by {
        forall i | 0 <= i < |tail| ensures IsWord(tail[i]) {
          assert tail[i] == ws[i + 1];
        }
      }
      WordsOfJoin(tail);
      JoinSpace(ws);
      WordThenSpace(ws[0], Join(tail, " "), tail);
      assert [ws[0]] + tail == ws;
    }
  }

  /** One word joined is itself, and splits back to itself. */
  lemma SingleWord(ws: seq<string>)
    requires |ws| == 1 && IsWord(ws[0])
    ensures Words(Join(ws, " ")) == ws
  {
    WordsCons(ws[0], []);
    assert ws[0] + [] == ws[0];
  }

  /** A word, a space, then text whose words are `tail`. */
  lemma WordThenSpace(w: string, rest: string, tail: seq<string>)
    requires IsWord(w) && Words(rest) == tail
    ensures Words(w + ([' '] + rest)) == [w] + tail
  {
    WordsCons(w, [' '] + rest);
    WordsSkipSpace(' ', rest);
  }

  lemma JoinSpace(ws: seq<string>)
    requires |ws| > 1
    ensures Join(ws, " ") == ws[0] + ([' '] + Join(ws[1..], " "))
  {
  }

  /** Position of the first `c` in `s`, or -1. */
  function IndexOf(s: string, c: char): (i: int)
    ensures -1 <= i < |s|
    ensures i == -1 <==> c !in s
    ensures 0 <= i ==> s[i] == c && c !in s[..i]
  {
    if s == [] then -1
    else if s[0] == c then 0
    else
      var j := IndexOf(s[1..], c);
      if j < 0 then -1
      else
        assert s[..j + 1] == [s[0]] + s[1..][..j];
        j + 1
  }

  /** `s.split(c)` for a one-character separator `c`: always at least one part. */
  function SplitOn(s: string, c: char): (parts: seq<string>)
    ensures |parts| >= 1
    ensures forall k :: 0 <= k < |parts| ==> c !in parts[k]
    decreases |s|
  {
    var i := IndexOf(s, c);
    if i < 0 then [s] else [s[..i]] + SplitOn(s[i + 1..], c)
  }

  /** Splitting and joining on the same character are inverse to each other:
      joining the parts gives the string back ... */
  lemma {:induction false} JoinOfSplit(s: string, c: char)
    ensures Join(SplitOn(s, c), [c]) == s
    decreases |s|
  {
    var i := IndexOf(s, c);
    if i >= 0 {
      var head, tail := s[..i], s[i + 1..];
      var rest := SplitOn(tail, c);
      assert s == head + [c] + tail;
      calc {
        Join(SplitOn(s, c), [c]);
        Join([head] + rest, [c]);
        { JoinCons(head, rest, [c]); }
        head + [c] + Join(rest, [c]);
        { JoinOfSplit(tail, c); }
        head + [c] + tail;
      }
    }
  }

  /** ... and splitting a join of parts free of the separator gives the parts. */
  lemma {:induction false} SplitOfJoin(parts: seq<string>, c: char)
    requires |parts| >= 1
    requires forall k :: 0 <= k < |parts| ==> c !in parts[k]
    ensures SplitOn(Join(parts, [c]), c) == parts
  {
    if |parts| == 1 {
      assert IndexOf(parts[0], c) == -1;
    } else {
      var p, rest := parts[0], Join(parts[1..], [c]);
      var j := p + [c] + rest;
      assert j[|p|] == c;
      assert j[..|p|] == p;
      assert IndexOf(j, c) == |p|;
      assert j[|p| + 1..] == rest;
      SplitOfJoin(parts[1..], c);
      assert [p] + parts[1..] == parts;
    }
  }

  /** `pat` occurs in `s` at position `i`. */
  predicate OccursAt(s: string, pat: string, i: int) {
    0 <= i && i + |pat| <= |s| && s[i..i + |pat|] == pat
  }

  /** `pat` occurs at `i` and nowhere before it. */
  predicate FirstOccurrence(s: string, pat: string, i: int) {
    OccursAt(s, pat, i) && forall k :: 0 <= k < i ==> !OccursAt(s, pat, k)
  }

  /** The first position `>= i` where `pat` occurs in `s`, or -1. */
  function FindFrom(s: string, pat: string, i: nat): (r: int)
    ensures r == -1 || (i <= r && OccursAt(s, pat, r))
    ensures forall k :: i <= k && (r == -1 || k < r) ==> !OccursAt(s, pat, k)
    decreases |s| + 1 - i
  {
    if i + |pat| > |s| then -1
    else if s[i..i + |pat|] == pat then i
    else FindFrom(s, pat, i + 1)
  }

  /** `pat in s` */
  function Contains(s: string, pat: string): (b: bool)
    ensures b <==> exists i :: OccursAt(s, pat, i)
  {
    FindFrom(s, pat, 0) != -1
  }

  /** How Python reads a slice bound `i` against a length `n`: negative bounds
      count from the end, and both sides are clipped to `[0, n]`. */
  function SliceIndex(i: int, n: nat): (r: nat)
    ensures r <= n
    ensures 0 <= i <= n ==> r == i
  {
    if i < 0 then (if i + n < 0 then 0 else i + n)
    else if i <= n then i
    else n
  }

  /** `s[i:j]` */
  function Slice(s: string, i: int, j: int): (r: string)
    ensures 0 <= i <= j <= |s| ==> r == s[i..j]
    ensures i < j ==> |r| <= j - i
  {
    var a, b := SliceIndex(i, |s|), SliceIndex(j, |s|);
    if a < b then s[a..b] else []
  }

  /** The last position in `[lo, i]` where `pat` occurs in `s`, or -1. */
  function LastFrom(s: string, pat: string, lo: nat, i: int): (r: int)
    ensures r == -1 || (lo <= r <= i && OccursAt(s, pat, r))
    ensures forall k :: lo <= k <= i && r < k ==> !OccursAt(s, pat, k)
    decreases i - lo + 1
  {
    if i < lo then -1
    else if OccursAt(s, pat, i) then i
    else LastFrom(s, pat, lo, i - 1)
  }

  /** `s.rfind(pat, start, end)`: the highest position at which `pat` lies
      wholly inside the slice `s[start:end]`, or -1. */
  function RFind(s: string, pat: string, start: int, end: int): (r: int)
    ensures r == -1 || (SliceIndex(start, |s|) <= r && r + |pat| <= SliceIndex(end, |s|) && OccursAt(s, pat, r))
    ensures forall k :: SliceIndex(start, |s|) <= k && k + |pat| <= SliceIndex(end, |s|) && r < k ==> !OccursAt(s, pat, k)
  {
    LastFrom(s, pat, SliceIndex(start, |s|), SliceIndex(end, |s|) - |pat|)
  }

  /** `s.startswith(p)` */
  predicate StartsWith(s: string, p: string) {
    |p| <= |s| && s[..|p|] == p
  }

  /** `s.endswith(p)` */
  predicate EndsWith(s: string, p: string) {
    |p| <= |s| && s[|s| - |p|..] == p
  }

  /** `c.lower()` for ASCII letters; every other character is left as it is. */
  function LowerChar(c: char): char {
    if 'A' <= c <= 'Z' then (c as int + 32) as char else c
  }

  /** `s.lower()`, character by character. */
  function Lower(s: string): (r: string)
    ensures |r| == |s| && forall k :: 0 <= k < |s| ==> r[k] == LowerChar(s[k])
  {
    seq(|s|, k requires 0 <= k < |s| => LowerChar(s[k]))
  }

  function DigitChar(d: nat): char
    requires d < 10
  {
    "0123456789"[d]
  }

  predicate IsDigit(c: char) {
    '0' <= c <= '9'
  }

  /** Decimal rendering of a natural number, as `str(n)` gives it. */
  function NatToString(n: nat): (r: string)
    ensures r != [] && forall k :: 0 <= k < |r| ==> IsDigit(r[k])
  {
    if n < 10 then [DigitChar(n)] else NatToString(n / 10) + [DigitChar(n % 10)]
  }

  /** `f"{i}"` for an `int`. */
  function IntToString(i: int): string {
    if i < 0 then "-" + NatToString(-i) else NatToString(i)
  }

  function DigitValue(c: char): nat
    requires IsDigit(c)
  {
    c as int - '0' as int
  }

  /** Reads a string of decimal digits back as a number. */
  function ParseNat(s: string): nat
    requires forall k :: 0 <= k < |s| ==> IsDigit(s[k])
  {
    if s == [] then 0 else 10 * ParseNat(s[..|s| - 1]) + DigitValue(s[|s| - 1])
  }

  /** The decimal rendering loses nothing: reading it back gives the number. */
  lemma {:induction false} NatToStringRoundTrip(n: nat)
    ensures ParseNat(NatToString(n)) == n
  {
    if n >= 10 {
      NatToStringRoundTrip(n / 10);
      var r := NatToString(n);
      assert r[..|r| - 1] == NatToString(n / 10);
    }
  }
}
