/** String helpers the client and the server share: ASCII case folding,
    JavaScript's `trim`, substring search (`includes`), and the first and last
    pieces of a `split`. Strings are sequences of characters; JavaScript's
    `toLowerCase` is modelled on ASCII letters only. */
module Text {

  predicate IsUpper(c: char) { 'A' <= c <= 'Z' }

  predicate IsDigit(c: char) { '0' <= c <= '9' }

  predicate IsLowerLetter(c: char) { 'a' <= c <= 'z' }

  /** `toLowerCase` on one character: ASCII capitals move down by 32, all else stays. */
  function LowerChar(c: char): (r: char)
    ensures IsUpper(c) ==> IsLowerLetter(r) && r as int == c as int + 32
    ensures !IsUpper(c) ==> r == c
    ensures !IsUpper(r)
  {
    if IsUpper(c) then (c as int + 32) as char else c
  }

  function Lower(s: string): (r: string)
    ensures |r| == |s|
    ensures forall i :: 0 <= i < |s| ==> r[i] == LowerChar(s[i])
    ensures forall i :: 0 <= i < |r| ==> !IsUpper(r[i])
  {
    seq(|s|, i requires 0 <= i < |s| => LowerChar(s[i]))
  }

  /** Lower-casing twice is lower-casing once. */
  lemma LowerIdempotent(s: string)
    ensures Lower(Lower(s)) == Lower(s)
  {
    var l := Lower(s);
    forall i | 0 <= i < |l| ensures Lower(l)[i] == l[i] {
      assert !IsUpper(l[i]);
    }
  }

  /** The characters ECMAScript's `String.prototype.trim` removes: the
      WhiteSpace production (tab, vertical tab, form feed, space, no-break
      space, byte-order mark and the Zs category) and the LineTerminator
      production (line feed, carriage return, line and paragraph separators). */
  predicate IsJsSpace(c: char) {
    var n := c as int;
    n == 0x09 || n == 0x0A || n == 0x0B || n == 0x0C || n == 0x0D || n == 0x20
    || n == 0xA0 || n == 0x1680 || (0x2000 <= n <= 0x200A) || n == 0x2028
    || n == 0x2029 || n == 0x202F || n == 0x205F || n == 0x3000 || n == 0xFEFF
  }

  /** The characters a regular-expression `.` does not match. */
  predicate IsLineTerminator(c: char) {
    c == '\n' || c == '\r' || c as int == 0x2028 || c as int == 0x2029
  }

  predicate AllSpace(s: string) {
    forall i :: 0 <= i < |s| ==> IsJsSpace(s[i])
  }

  function TrimStart(s: string): (r: string)
    ensures |r| <= |s| && r == s[|s| - |r|..]
    ensures AllSpace(s[..|s| - |r|])
    ensures r == [] || !IsJsSpace(r[0])
    decreases |s|
  {
    if s != [] && IsJsSpace(s[0]) then
      var r := TrimStart(s[1..]);
      SpaceHeadGrows(s, |s| - 1 - |r|);
      r
    else s
  }

  /** White space after a leading space is white space from the start. */
  lemma SpaceHeadGrows(s: string, n: nat)
    requires s != [] && IsJsSpace(s[0]) && n <= |s| - 1 && AllSpace(s[1..][..n])
    ensures AllSpace(s[..n + 1])
  {
    var head := s[..n + 1];
    var rest := s[1..][..n];
    forall k | 0 <= k < |head| ensures IsJsSpace(head[k]) {
      if k > 0 { assert head[k] == rest[k - 1]; }
    }
  }

  function TrimEnd(s: string): (r: string)
    ensures |r| <= |s| && r == s[..|r|]
    ensures AllSpace(s[|r|..])
    ensures r == [] || !IsJsSpace(r[|r| - 1])
    decreases |s|
  {
    if s != [] && IsJsSpace(s[|s| - 1]) then
      var r := TrimEnd(s[..|s| - 1]);
      SpaceTailGrows(s, |r|);
      r
    else s
  }

  /** White space before a trailing space is white space to the end. */
  lemma SpaceTailGrows(s: string, n: nat)
    requires s != [] && IsJsSpace(s[|s| - 1]) && n <= |s| - 1 && AllSpace(s[..|s| - 1][n..])
    ensures AllSpace(s[n..])
  {
    forall k | 0 <= k < |s| - n ensures IsJsSpace(s[n..][k]) {
      if k < |s| - 1 - n { assert s[n..][k] == s[..|s| - 1][n..][k]; }
    }
  }

  /** `s.trim()`: white space removed from both ends. */
  function Trim(s: string): (r: string)
    ensures |r| <= |s|
    ensures r == [] || (!IsJsSpace(r[0]) && !IsJsSpace(r[|r| - 1]))
    ensures r == [] <==> AllSpace(s)
  {
    var t := TrimStart(s);
    var r := TrimEnd(t);
    assert r == [] ==> AllSpace(s) by {
      if r == [] {
        assert t[0..] == t;
        assert t == [];
        assert s[..|s|] == s;
      }
    }
    r
  }

  /** What `trim` keeps is one infix of the input, and all it removes on
      either side is white space. */
  lemma TrimIsInfix(s: string)
    ensures exists i, j :: 0 <= i <= j <= |s| && Trim(s) == s[i..j]
                         && AllSpace(s[..i]) && AllSpace(s[j..])
  {
    var t := TrimStart(s);
    var r := TrimEnd(t);
    var i := |s| - |t|;
    assert Trim(s) == r;
    PrefixOfSuffix(s, t, r);
    assert 0 <= i <= i + |r| <= |s| && r == s[i..i + |r|] && AllSpace(s[..i]) && AllSpace(s[i + |r|..]);
  }

  /** A prefix `r` of a suffix `t` of `s` is an infix of `s`, and white
      space after `r` in `t` is white space after it in `s`. */
  lemma PrefixOfSuffix(s: string, t: string, r: string)
    requires |t| <= |s| && t == s[|s| - |t|..]
    requires |r| <= |t| && r == t[..|r|] && AllSpace(t[|r|..])
    ensures var i := |s| - |t|;
      r == s[i..i + |r|] && AllSpace(s[i + |r|..])
  {
    var i := |s| - |t|;
    assert s[i + |r|..] == t[|r|..];
  }

  /** A string that neither starts nor ends with white space trims to itself. */
  lemma TrimUnpadded(s: string)
    requires s == [] || (!IsJsSpace(s[0]) && !IsJsSpace(s[|s| - 1]))
    ensures Trim(s) == s
  {
  }

  /** `needle` occurs in `hay` starting at index `i`. */
  ghost predicate OccursAt(hay: string, needle: string, i: int) {
    0 <= i && i + |needle| <= |hay| && hay[i..i + |needle|] == needle
  }

  /** `hay.includes(needle)`. The empty needle occurs in every string. */
  function Includes(hay: string, needle: string): (r: bool)
    ensures r <==> exists i :: OccursAt(hay, needle, i)
    decreases |hay|
  {
    if |needle| > |hay| then
      false
    else if hay[..|needle|] == needle then
      assert OccursAt(hay, needle, 0);
      true
    else
      var rest := Includes(hay[1..], needle);
      assert rest ==> exists i :: OccursAt(hay, needle, i) by {
        if rest {
          var i :| OccursAt(hay[1..], needle, i);
          assert hay[1..][i..i + |needle|] == hay[i + 1..i + 1 + |needle|];
          assert OccursAt(hay, needle, i + 1);
        }
      }
      assert (exists i :: OccursAt(hay, needle, i)) ==> rest by {
        if exists i :: OccursAt(hay, needle, i) {
          var i :| OccursAt(hay, needle, i);
          assert i != 0;
          assert hay[1..][i - 1..i - 1 + |needle|] == hay[i..i + |needle|];
          assert OccursAt(hay[1..], needle, i - 1);
        }
      }
      rest
  }

  /** `s.split(sep).pop()`: the text after the last `sep`, or all of `s` when
      there is none. */
  function LastPiece(s: string, sep: char): (r: string)
    ensures |r| <= |s| && r == s[|s| - |r|..]
    ensures sep !in r
    ensures |r| < |s| ==> s[|s| - |r| - 1] == sep
    decreases |s|
  {
    if s == [] then []
    else if s[|s| - 1] == sep then []
    else
      var r := LastPiece(s[..|s| - 1], sep);
      SuffixGrows(s, r);
      r + [s[|s| - 1]]
  }

  /** A suffix of `s` without its last character, extended by that
      character, is a suffix of `s`. */
  lemma SuffixGrows(s: string, r: string)
    requires s != [] && |r| <= |s| - 1 && r == s[..|s| - 1][|s| - 1 - |r|..]
    ensures r + [s[|s| - 1]] == s[|s| - |r| - 1..]
    ensures |r| + 1 < |s| ==> s[|s| - |r| - 2] == s[..|s| - 1][|s| - 1 - |r| - 1]
  {
  }

  /** The last piece of a text that has `sep` followed by a `sep`-free
      suffix is that suffix, whatever comes before. */
  lemma {:induction false} LastPieceAfterSep(stem: string, sep: char, suffix: string)
    requires sep !in suffix
    ensures LastPiece(stem + [sep] + suffix, sep) == suffix
    decreases |suffix|
  {
    var s := stem + [sep] + suffix;
    if suffix != [] {
      var init := suffix[..|suffix| - 1];
      assert s[..|s| - 1] == stem + [sep] + init;
      assert s[|s| - 1] == suffix[|suffix| - 1];
      LastPieceAfterSep(stem, sep, init);
      assert init + [suffix[|suffix| - 1]] == suffix;
    } else {
      assert s[|s| - 1] == sep;
    }
  }

  /** `s.split(sep)[0]`: the text before the first `sep`, or all of `s` when
      there is none. */
  function FirstPiece(s: string, sep: char): (r: string)
    ensures |r| <= |s| && r == s[..|r|]
    ensures sep !in r
    ensures |r| < |s| ==> s[|r|] == sep
    decreases |s|
  {
    if s == [] || s[0] == sep then [] else [s[0]] + FirstPiece(s[1..], sep)
  }

  /** When the first `sep` sits at `n`, the first piece is the text before it. */
  lemma FirstPieceEndsAt(s: string, sep: char, n: int)
    requires 0 <= n < |s| && s[n] == sep
    requires forall k :: 0 <= k < n ==> s[k] != sep
    ensures FirstPiece(s, sep) == s[..n]
  {
  }

  /** A text in which the first two characters of `needle` never stand side
      by side does not contain `needle`. */
  lemma AbsentPair(hay: string, needle: string)
    requires |needle| >= 2
    requires forall i :: 0 <= i < |hay| - 1 ==> !(hay[i] == needle[0] && hay[i + 1] == needle[1])
    ensures forall i :: !OccursAt(hay, needle, i)
  {
    forall i ensures !OccursAt(hay, needle, i) {
      if 0 <= i && i + |needle| <= |hay| {
        assert hay[i..i + |needle|][0] == hay[i];
        assert hay[i..i + |needle|][1] == hay[i + 1];
      }
    }
  }

  /** The index of the last `c` in `s` (Python's `str.rfind`), or -1. */
  function LastIndexOf(s: string, c: char): (r: int)
    ensures -1 <= r < |s|
    ensures r >= 0 ==> s[r] == c
    ensures forall k :: r < k < |s| ==> s[k] != c
    decreases |s|
  {
    if s == [] then -1
    else if s[|s| - 1] == c then |s| - 1
    else LastIndexOf(s[..|s| - 1], c)
  }

  /** The length of the longest run of decimal digits at the start of `s`
      (what a greedy `\d+` consumes). */
  function DigitRun(s: string): (r: nat)
    ensures r <= |s|
    ensures forall k :: 0 <= k < r ==> IsDigit(s[k])
    ensures r == |s| || !IsDigit(s[r])
    decreases |s|
  {
    if s != [] && IsDigit(s[0]) then 1 + DigitRun(s[1..]) else 0
  }
}
