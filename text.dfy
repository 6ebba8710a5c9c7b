/**
 * String operations of the JavaScript runtime that the handlers rely on:
 * `indexOf`, `lastIndexOf`, `includes`, `split`, `replace` with a string
 * pattern, `startsWith`, ASCII `toLowerCase`, and the decimal and
 * hexadecimal renderings of `Number.prototype.toString`.
 * Strings are `seq<char>`, sequences of Unicode scalar values. JavaScript
 * counts UTF-16 code units instead; the two agree on text made of
 * characters of the Basic Multilingual Plane.
 */
module Text {

  /** `pat` occurs in `s` starting at position `i`. */
  predicate StartsAt(s: string, pat: string, i: int)
  {
    0 <= i && i + |pat| <= |s| && s[i..i + |pat|] == pat
  }

  /** `s.indexOf(pat, from)`: the least position `>= from` where `pat` occurs, or -1. */
  function IndexOfFrom(s: string, pat: string, from: nat): (r: int)
    ensures r == -1 || (from <= r && StartsAt(s, pat, r))
    ensures r == -1 ==> forall j :: from <= j ==> !StartsAt(s, pat, j)
    ensures r != -1 ==> forall j :: from <= j < r ==> !StartsAt(s, pat, j)
    decreases |s| - from
  {
    if from + |pat| > |s| then -1
    else if s[from..from + |pat|] == pat then from
    else IndexOfFrom(s, pat, from + 1)
  }

  /** `s.indexOf(pat)`. */
  function IndexOf(s: string, pat: string): (r: int)
    ensures r == -1 || StartsAt(s, pat, r)
    ensures r == -1 <==> forall j :: !StartsAt(s, pat, j)
    ensures r != -1 ==> forall j :: j < r ==> !StartsAt(s, pat, j)
  {
    IndexOfFrom(s, pat, 0)
  }

  /** The greatest position `<= k` where `pat` occurs, or -1. */
  function LastIndexOfUpTo(s: string, pat: string, k: int): (r: int)
    ensures r == -1 || (r <= k && StartsAt(s, pat, r))
    ensures r == -1 ==> forall j :: j <= k ==> !StartsAt(s, pat, j)
    ensures r != -1 ==> forall j :: r < j <= k ==> !StartsAt(s, pat, j)
    decreases k + 1
  {
    if k < 0 then -1
    else if StartsAt(s, pat, k) then k
    else LastIndexOfUpTo(s, pat, k - 1)
  }

  /** `s.lastIndexOf(pat)`: the greatest position where `pat` occurs, or -1. */
  function LastIndexOf(s: string, pat: string): (r: int)
    ensures r == -1 || StartsAt(s, pat, r)
    ensures r == -1 <==> forall j :: !StartsAt(s, pat, j)
    ensures r != -1 ==> forall j :: r < j ==> !StartsAt(s, pat, j)
  {
    LastIndexOfUpTo(s, pat, |s| - |pat|)
  }

  /** `s.includes(pat)`. */
  predicate Contains(s: string, pat: string)
  {
    IndexOf(s, pat) != -1
  }

  /** A one-character pattern occurs exactly where that character is. */
  lemma CharAt(s: string, c: char, p: int)
    ensures StartsAt(s, [c], p) <==> 0 <= p < |s| && s[p] == c
  {
    if 0 <= p < |s| {
      assert s[p..p + 1] == [s[p]];
    }
  }

  /** A string holding no `c` has none at any position. */
  lemma NotAt(s: string, c: char, p: int)
    requires !Contains(s, [c]) && 0 <= p < |s|
    ensures s[p] != c
  {
    CharAt(s, c, p);
  }

  /** In `base + [c] + ext` with no `c` in `ext`, the last `c` is the one after `base`. */
  lemma LastBeforeSuffix(base: string, c: char, ext: string)
    requires !Contains(ext, [c])
    ensures LastIndexOf(base + [c] + ext, [c]) == |base|
  {
    var s := base + [c] + ext;
    CharAt(s, c, |base|);
    forall j | |base| < j
      ensures !StartsAt(s, [c], j)
    {
      CharAt(s, c, j);
      if j < |s| {
        NotAt(ext, c, j - |base| - 1);
        assert s[j] == ext[j - |base| - 1];
      }
    }
  }

  /** `s.startsWith(pat)`. */
  predicate StartsWith(s: string, pat: string)
  {
    |pat| <= |s| && s[..|pat|] == pat
  }

  /** `s.split(sep)` for a non-empty separator. */
  function Split(s: string, sep: string): (r: seq<string>)
    requires |sep| > 0
    ensures |r| >= 1
    decreases |s|
  {
    var i := IndexOf(s, sep);
    if i == -1 then [s] else [s[..i]] + Split(s[i + |sep|..], sep)
  }

  /** No piece of a split holds the separator. */
  lemma {:induction false} SplitPiecesFree(s: string, sep: string)
    requires |sep| > 0
    ensures forall k :: 0 <= k < |Split(s, sep)| ==> !Contains(Split(s, sep)[k], sep)
    decreases |s|
  {
    var i := IndexOf(s, sep);
    if i != -1 {
      PrefixHasNoEarlierOccurrence(s, sep, i);
      SplitPiecesFree(s[i + |sep|..], sep);
      SplitOnce(s, sep, i);
    }
  }

  /** A prefix `s[..i]` holds no occurrence of `pat` when `s` holds none before `i`. */
  lemma PrefixHasNoEarlierOccurrence(s: string, pat: string, i: nat)
    requires |pat| > 0 && i <= |s|
    requires forall j :: j < i ==> !StartsAt(s, pat, j)
    ensures !Contains(s[..i], pat)
  {
    forall j | StartsAt(s[..i], pat, j)
      ensures false
    {
      assert s[..i][j..j + |pat|] == s[j..j + |pat|];
      assert StartsAt(s, pat, j);
    }
  }

  /** A text with no occurrence of the separator splits into itself alone. */
  lemma SplitWithout(s: string, sep: string)
    requires |sep| > 0 && !Contains(s, sep)
    ensures Split(s, sep) == [s]
  {
  }

  lemma LastPiece(a: seq<string>, b: seq<string>)
    requires |b| >= 1
    ensures (a + b)[|a + b| - 1] == b[|b| - 1]
  {
  }

  /** The first `c` of `base + [c] + ext` is at most at `|base|`. */
  lemma FirstAtMost(base: string, c: char, ext: string) returns (i: int)
    ensures i == IndexOf(base + [c] + ext, [c]) && 0 <= i <= |base|
  {
    CharAt(base + [c] + ext, c, |base|);
    i := IndexOf(base + [c] + ext, [c]);
  }

  lemma RestAfter(base: string, c: char, ext: string, i: nat)
    requires i <= |base|
    ensures i < |base| ==> (base + [c] + ext)[i + 1..] == base[i + 1..] + [c] + ext
    ensures i == |base| ==> (base + [c] + ext)[i + 1..] == ext
  {
  }

  /** Split on one character, `base + [c] + ext` ends with the piece `ext` when `ext` holds no `c`. */
  lemma {:induction false} SplitLastOfSuffix(base: string, c: char, ext: string)
    requires !Contains(ext, [c])
    ensures var pieces := Split(base + [c] + ext, [c]);
      pieces[|pieces| - 1] == ext
    decreases |base|
  {
    var s := base + [c] + ext;
    var i := FirstAtMost(base, c, ext);
    var rest := s[i + 1..];
    SplitOnce(s, [c], i);
    LastPiece([s[..i]], Split(rest, [c]));
    RestAfter(base, c, ext, i);
    if i < |base| {
      SplitLastOfSuffix(base[i + 1..], c, ext);
    } else {
      SplitWithout(ext, [c]);
    }
  }

  /** `parts.join(sep)`: the inverse of `Split`. */
  function Join(parts: seq<string>, sep: string): string
  {
    if |parts| == 0 then ""
    else if |parts| == 1 then parts[0]
    else parts[0] + sep + Join(parts[1..], sep)
  }

  lemma JoinCons(head: string, tail: seq<string>, sep: string)
    requires |tail| >= 1
    ensures Join([head] + tail, sep) == head + sep + Join(tail, sep)
  {
    assert ([head] + tail)[1..] == tail;
  }

  /** One step of `Split`: the text before the first separator, then the split of the rest. */
  lemma SplitStep(s: string, sep: string, i: int)
    requires |sep| > 0 && i == IndexOf(s, sep) && i != -1
    ensures Split(s, sep) == [s[..i]] + Split(s[i + |sep|..], sep)
    ensures s == s[..i] + sep + s[i + |sep|..]
  {
    SplitOnce(s, sep, i);
    PatternAt(s, sep, i);
  }

  lemma PatternAt(s: string, pat: string, i: int)
    requires StartsAt(s, pat, i)
    ensures s == s[..i] + pat + s[i + |pat|..]
  {
    assert s == s[..i] + s[i..i + |pat|] + s[i + |pat|..];
  }

  lemma SplitOnce(s: string, sep: string, i: int)
    requires |sep| > 0 && i == IndexOf(s, sep) && i != -1
    ensures Split(s, sep) == [s[..i]] + Split(s[i + |sep|..], sep)
  {
  }

  /** Splitting and joining again gives back the original text. */
  lemma {:induction false} JoinSplit(s: string, sep: string)
    requires |sep| > 0
    ensures Join(Split(s, sep), sep) == s
    decreases |s|
  {
    var i := IndexOf(s, sep);
    if i != -1 {
      var rest := s[i + |sep|..];
      SplitStep(s, sep, i);
      JoinSplit(rest, sep);
      JoinCons(s[..i], Split(rest, sep), sep);
    }
  }

  /** `s.replace(pat, rep)` with a string pattern: only the FIRST occurrence, wherever it is, is replaced. */
  function ReplaceFirst(s: string, pat: string, rep: string): (r: string)
    ensures IndexOf(s, pat) == -1 ==> r == s
    ensures IndexOf(s, pat) != -1 ==>
      var i := IndexOf(s, pat); r == s[..i] + rep + s[i + |pat|..]
  {
    var i := IndexOf(s, pat);
    if i == -1 then s else s[..i] + rep + s[i + |pat|..]
  }

  /** Removing a leading occurrence of a pattern that does not occur elsewhere earlier gives the rest. */
  lemma ReplaceLeading(pat: string, t: string)
    ensures ReplaceFirst(pat + t, pat, "") == t
  {
    assert StartsAt(pat + t, pat, 0) by {
      assert (pat + t)[0..|pat|] == pat;
    }
    assert (pat + t)[|pat|..] == t;
  }

  /** ASCII letter case folding as `toLowerCase` does it for ASCII text. */
  function LowerChar(c: char): (r: char)
    ensures 'A' <= c <= 'Z' ==> r as int == c as int + 32
    ensures !('A' <= c <= 'Z') ==> r == c
    ensures !('A' <= r <= 'Z')
    ensures 'a' <= r <= 'z' <==> 'a' <= c <= 'z' || 'A' <= c <= 'Z'
  {
    if 'A' <= c <= 'Z' then (c as int + 32) as char else c
  }

  /** `toLowerCase` on ASCII letters: the result has no upper-case letter, and text without one is left alone. */
  function Lower(s: string): (r: string)
    ensures |r| == |s|
    ensures forall k :: 0 <= k < |s| ==> r[k] == LowerChar(s[k])
    ensures (forall k :: 0 <= k < |s| ==> !('A' <= s[k] <= 'Z')) ==> r == s
  {
    seq(|s|, k requires 0 <= k < |s| => LowerChar(s[k]))
  }

  /** Lower-cased text never holds an upper-case ASCII letter. */
  lemma LowerHasNoUpper(s: string)
    ensures forall k :: 0 <= k < |s| ==> !('A' <= Lower(s)[k] <= 'Z')
  {
  }

  /** Lowering twice is lowering once. */
  lemma LowerIdempotent(s: string)
    ensures Lower(Lower(s)) == Lower(s)
  {
    LowerHasNoUpper(s);
  }

  /** Two texts lower to the same text exactly when they agree letter by letter up to ASCII case. */
  lemma LowerEqual(s: string, t: string)
    ensures Lower(s) == Lower(t) <==> |s| == |t| && forall k :: 0 <= k < |s| ==> LowerChar(s[k]) == LowerChar(t[k])
  {
    if |s| == |t| && forall k :: 0 <= k < |s| ==> LowerChar(s[k]) == LowerChar(t[k]) {
      assert forall k :: 0 <= k < |s| ==> Lower(s)[k] == Lower(t)[k];
    }
  }

  // ---------------------------------------------------------------------
  // Number rendering and parsing

  predicate IsDigit(c: char) { '0' <= c <= '9' }

  function DigitChar(d: nat): (c: char)
    requires d < 10
    ensures IsDigit(c) && c as int - '0' as int == d
  {
    ('0' as int + d) as char
  }

  /** `String(n)` for a non-negative integer: decimal digits, no leading zeros. */
  function Decimal(n: nat): (r: string)
    ensures |r| >= 1
    ensures forall k :: 0 <= k < |r| ==> IsDigit(r[k])
    ensures n >= 10 ==> r[0] != '0'
  {
    if n < 10 then [DigitChar(n)] else Decimal(n / 10) + [DigitChar(n % 10)]
  }

  function DigitValue(c: char): nat
    requires IsDigit(c)
  {
    c as int - '0' as int
  }

  /** The value of a string of decimal digits. */
  function DecimalValue(s: string): nat
    requires forall k :: 0 <= k < |s| ==> IsDigit(s[k])
  {
    if s == [] then 0
    else DecimalValue(s[..|s| - 1]) * 10 + DigitValue(s[|s| - 1])
  }

  lemma {:induction false} DecimalRoundTrip(n: nat)
    ensures DecimalValue(Decimal(n)) == n
  {
    if n >= 10 {
      DecimalRoundTrip(n / 10);
      var s := Decimal(n);
      assert s[..|s| - 1] == Decimal(n / 10);
    }
  }

  predicate IsHexDigit(c: char)
  {
    IsDigit(c) || 'a' <= c <= 'f' || 'A' <= c <= 'F'
  }

  function HexDigitValue(c: char): nat
  {
    if '0' <= c <= '9' then c as int - '0' as int
    else if 'a' <= c <= 'f' then c as int - 'a' as int + 10
    else if 'A' <= c <= 'F' then c as int - 'A' as int + 10
    else 0
  }

  /** A lower-case hexadecimal digit, as `toString(16)` writes it. */
  function HexChar(d: nat): (c: char)
    requires d < 16
    ensures IsDigit(c) || 'a' <= c <= 'f'
    ensures HexDigitValue(c) == d
  {
    if d < 10 then ('0' as int + d) as char else ('a' as int + d - 10) as char
  }

  /** `n.toString(16)` for a non-negative integer. */
  function Hex(n: nat): (r: string)
    ensures |r| >= 1
    ensures forall k :: 0 <= k < |r| ==> IsDigit(r[k]) || 'a' <= r[k] <= 'f'
    ensures n >= 16 ==> r[0] != '0'
  {
    if n < 16 then [HexChar(n)] else Hex(n / 16) + [HexChar(n % 16)]
  }

  /** The value of a string of hexadecimal digits. */
  function HexValue(s: string): nat
  {
    if s == [] then 0
    else HexValue(s[..|s| - 1]) * 16 + HexDigitValue(s[|s| - 1])
  }

  lemma {:induction false} HexRoundTrip(n: nat)
    ensures HexValue(Hex(n)) == n
  {
    if n >= 16 {
      HexRoundTrip(n / 16);
      var s := Hex(n);
      assert s[..|s| - 1] == Hex(n / 16);
    }
  }
}
