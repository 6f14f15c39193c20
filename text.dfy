/**
 * String helpers shared by the client and server models.
 *
 * Strings are sequences of Unicode code points. Go measures strings in
 * UTF-8 bytes, so `Utf8Len` gives the byte length Go's `len` reports.
 * Go and JavaScript disagree on what counts as white space for trimming:
 * Go's `strings.TrimSpace` uses the Unicode White_Space property, while
 * JavaScript's `String.prototype.trim` uses ECMAScript's WhiteSpace and
 * LineTerminator productions (they differ on U+0085 and U+FEFF).
 */
module Text {

  /** White space as Go's `unicode.IsSpace` defines it. */
  predicate IsGoSpace(c: char) {
    var n := c as int;
    (0x09 <= n <= 0x0D) || n == 0x20 || n == 0x85 || n == 0xA0 || n == 0x1680 ||
    (0x2000 <= n <= 0x200A) || n == 0x2028 || n == 0x2029 || n == 0x202F ||
    n == 0x205F || n == 0x3000
  }

  /** White space and line terminators as ECMAScript's `trim` strips them. */
  predicate IsJsSpace(c: char) {
    var n := c as int;
    (0x09 <= n <= 0x0D) || n == 0x20 || n == 0xA0 || n == 0x1680 ||
    (0x2000 <= n <= 0x200A) || n == 0x2028 || n == 0x2029 || n == 0x202F ||
    n == 0x205F || n == 0x3000 || n == 0xFEFF
  }

  predicate AllSatisfy(s: string, p: char -> bool) {
    forall i :: 0 <= i < |s| ==> p(s[i])
  }

  /** Removes the longest prefix of characters satisfying `p`. */
  function TrimLeft(s: string, p: char -> bool): (r: string)
    ensures |r| <= |s|
  {
    if s == [] then []
    else if p(s[0]) then TrimLeft(s[1..], p)
    else s
  }

  /** `TrimLeft` removes exactly a maximal run of leading characters satisfying `p`. */
  lemma {:induction false} TrimLeftSpec(s: string, p: char -> bool)
    ensures var r := TrimLeft(s, p);
      r == s[|s| - |r|..] && AllSatisfy(s[..|s| - |r|], p) && (r != [] ==> !p(r[0]))
  {
    if s != [] && p(s[0]) {
      TrimLeftSpec(s[1..], p);
      var r := TrimLeft(s[1..], p);
      assert s[1..][..|s| - 1 - |r|] == s[1..|s| - |r|];
    }
  }

  /** A run of `p` characters ended by one that is not `p` is exactly what `TrimLeft` removes. */
  lemma TrimLeftAt(s: string, p: char -> bool, i: nat)
    requires i <= |s| && AllSatisfy(s[..i], p) && (i < |s| ==> !p(s[i]))
    ensures TrimLeft(s, p) == s[i..]
  {
    TrimLeftSpec(s, p);
  }

  /** Removes the longest suffix of characters satisfying `p`. */
  function TrimRight(s: string, p: char -> bool): (r: string)
    ensures |r| <= |s|
  {
    if s == [] then []
    else if p(s[|s| - 1]) then TrimRight(s[..|s| - 1], p)
    else s
  }

  /** `TrimRight` removes exactly a maximal run of trailing characters satisfying `p`. */
  lemma {:induction false} TrimRightSpec(s: string, p: char -> bool)
    ensures var r := TrimRight(s, p);
      |r| <= |s| && r == s[..|r|] && (forall i :: |r| <= i < |s| ==> p(s[i])) && (r != [] ==> !p(r[|r| - 1]))
  {
    if s != [] && p(s[|s| - 1]) {
      var t := s[..|s| - 1];
      TrimRightSpec(t, p);
      var r := TrimRight(t, p);
      assert TrimRight(s, p) == r;
      assert t[..|r|] == s[..|r|];
      assert t[|r|..] == s[|r|..|s| - 1];
      forall i | |r| <= i < |s|
        ensures p(s[i])
      {
        if i < |s| - 1 {
          assert s[i] == t[|r|..][i - |r|];
        }
      }
    }
  }

  /** Where the result of `Trim` starts inside its argument. */
  function TrimStart(s: string, p: char -> bool): nat
  {
    |s| - |TrimLeft(s, p)|
  }

  /** Removes leading and trailing characters that satisfy `p`. */
  function Trim(s: string, p: char -> bool): (r: string)
    ensures |r| <= |s|
  {
    TrimRight(TrimLeft(s, p), p)
  }

  /**
   * `Trim` keeps a slice of its argument that neither starts nor ends with a
   * character satisfying `p`, and only what lies outside is removed.
   */
  lemma TrimSpec(s: string, p: char -> bool)
    ensures var r := Trim(s, p); var k := TrimStart(s, p);
      k + |r| <= |s| && r == s[k..k + |r|] &&
      AllSatisfy(s[..k], p) && AllSatisfy(s[k + |r|..], p) &&
      (r != [] ==> !p(r[0]) && !p(r[|r| - 1]))
  {
    var l := TrimLeft(s, p);
    var r := TrimRight(l, p);
    TrimLeftSpec(s, p);
    TrimRightSpec(l, p);
    var k := |s| - |l|;
    assert r == s[k..][..|r|];
    assert r == s[k..k + |r|];
    forall i | k + |r| <= i < |s|
      ensures p(s[i])
    {
      assert s[i] == l[i - k];
    }
  }

  /** A string with no trimmable character at either end is its own trim. */
  lemma TrimNoEdges(s: string, p: char -> bool)
    requires s == [] || (!p(s[0]) && !p(s[|s| - 1]))
    ensures Trim(s, p) == s
  {
  }

  /** A string made only of trimmable characters trims to "". */
  lemma {:induction false} TrimAll(s: string, p: char -> bool)
    requires AllSatisfy(s, p)
    ensures Trim(s, p) == []
  {
    TrimLeftAll(s, p);
  }

  lemma {:induction false} TrimLeftAll(s: string, p: char -> bool)
    requires AllSatisfy(s, p)
    ensures TrimLeft(s, p) == []
  {
    if s != [] {
      assert AllSatisfy(s[1..], p);
      TrimLeftAll(s[1..], p);
    }
  }

  /** Trimming is idempotent. */
  lemma TrimIdempotent(s: string, p: char -> bool)
    ensures Trim(Trim(s, p), p) == Trim(s, p)
  {
    TrimSpec(s, p);
    TrimNoEdges(Trim(s, p), p);
  }

  /** Go's `strings.TrimSpace`. */
  function GoTrim(s: string): string { Trim(s, IsGoSpace) }

  /** JavaScript's `String.prototype.trim`. */
  function JsTrim(s: string): string { Trim(s, IsJsSpace) }

  function LowerChar(c: char): char {
    if 'A' <= c <= 'Z' then (c as int + 32) as char else c
  }

  /** Lower-casing of ASCII letters; every other character is kept. */
  function Lower(s: string): (r: string)
    ensures |r| == |s|
  {
    if s == [] then [] else [LowerChar(s[0])] + Lower(s[1..])
  }

  /** `Lower` maps each character by itself. */
  lemma {:induction false} LowerAt(s: string, i: nat)
    requires i < |s|
    ensures Lower(s)[i] == LowerChar(s[i])
  {
    if i > 0 {
      LowerAt(s[1..], i - 1);
    }
  }

  /** Number of bytes the UTF-8 encoding of `c` takes. */
  function Utf8Width(c: char): nat {
    if c as int < 0x80 then 1
    else if c as int < 0x800 then 2
    else if c as int < 0x10000 then 3
    else 4
  }

  /** Go's `len` of a string: its UTF-8 byte length. */
  function Utf8Len(s: string): (n: nat)
    ensures |s| <= n <= 4 * |s|
    ensures n == 0 <==> s == []
  {
    if s == [] then 0 else Utf8Width(s[0]) + Utf8Len(s[1..])
  }

  /** An ASCII string is one byte per character. */
  lemma {:induction false} Utf8LenAscii(s: string)
    requires forall i :: 0 <= i < |s| ==> s[i] as int < 0x80
    ensures Utf8Len(s) == |s|
  {
    if s != [] {
      assert s[0] as int < 0x80;
      Utf8LenAscii(s[1..]);
    }
  }

  lemma {:induction false} Utf8LenAppend(a: string, b: string)
    ensures Utf8Len(a + b) == Utf8Len(a) + Utf8Len(b)
  {
    if a == [] {
      assert a + b == b;
    } else {
      assert (a + b)[0] == a[0];
      assert (a + b)[1..] == a[1..] + b;
      Utf8LenAppend(a[1..], b);
    }
  }

  predicate HasPrefix(s: string, p: string) {
    |p| <= |s| && s[..|p|] == p
  }

  predicate HasSuffix(s: string, p: string) {
    |p| <= |s| && s[|s| - |p|..] == p
  }

  predicate Contains(s: string, sub: string)
    decreases |s|
  {
    HasPrefix(s, sub) || (s != [] && Contains(s[1..], sub))
  }

  /** Joins `parts` with `sep` between neighbours, like `strings.Join`. */
  function Join(parts: seq<string>, sep: string): (r: string)
    ensures parts == [] ==> r == []
  {
    if parts == [] then []
    else if |parts| == 1 then parts[0]
    else parts[0] + sep + Join(parts[1..], sep)
  }

  lemma {:induction false} JoinSnoc(parts: seq<string>, x: string, sep: string)
    requires parts != []
    ensures Join(parts + [x], sep) == Join(parts, sep) + sep + x
  {
    if |parts| == 1 {
      assert (parts + [x])[1..] == [x];
    } else {
      assert (parts + [x])[1..] == parts[1..] + [x];
      JoinSnoc(parts[1..], x, sep);
    }
  }

  /** Joining two non-empty lists puts one separator between their joins. */
  lemma {:induction false} JoinAppend(a: seq<string>, b: seq<string>, sep: string)
    requires a != [] && b != []
    ensures Join(a + b, sep) == Join(a, sep) + sep + Join(b, sep)
    decreases |b|
  {
    if |b| == 1 {
      JoinSnoc(a, b[0], sep);
      assert a + b == a + [b[0]];
    } else {
      var b' := b[..|b| - 1];
      var x := b[|b| - 1];
      assert b == b' + [x];
      assert a + b == (a + b') + [x];
      JoinSnoc(a + b', x, sep);
      JoinAppend(a, b', sep);
      JoinSnoc(b', x, sep);
    }
  }

  /** Index of the first occurrence of `c` in `s`, or |s| when absent. */
  function IndexOf(s: string, c: char): (k: nat)
    ensures k <= |s|
    ensures k < |s| ==> s[k] == c
    ensures forall j :: 0 <= j < k ==> s[j] != c
  {
    if s == [] then 0
    else if s[0] == c then 0
    else 1 + IndexOf(s[1..], c)
  }

  /** Index of the last occurrence of `c` in `s`, or -1 when absent (`strings.LastIndex`). */
  function LastIndexOf(s: string, c: char): (k: int)
    ensures -1 <= k < |s|
    ensures k >= 0 ==> s[k] == c
    ensures forall j :: k < j < |s| ==> s[j] != c
  {
    if s == [] then -1
    else if s[|s| - 1] == c then |s| - 1
    else LastIndexOf(s[..|s| - 1], c)
  }

  /** The first occurrence pins down `IndexOf`. */
  lemma IndexOfAt(s: string, c: char, a: nat)
    requires a <= |s| && (a < |s| ==> s[a] == c)
    requires forall j :: 0 <= j < a ==> s[j] != c
    ensures IndexOf(s, c) == a
  {
  }

  /** The last occurrence pins down `LastIndexOf`. */
  lemma LastIndexOfAt(s: string, c: char, e: int)
    requires -1 <= e < |s| && (e >= 0 ==> s[e] == c)
    requires forall j :: e < j < |s| ==> s[j] != c
    ensures LastIndexOf(s, c) == e
  {
  }

  /**
   * Go's `strings.Split(s, sep)` for a one-character separator: the pieces
   * between consecutive separators, always one more than there are separators.
   */
  function Split(s: string, c: char): (parts: seq<string>)
    ensures parts != []
    ensures forall k :: 0 <= k < |parts| ==> c !in parts[k]
    decreases |s|
  {
    var i := IndexOf(s, c);
    if i == |s| then
      assert c !in s;
      [s]
    else
      assert c !in s[..i];
      [s[..i]] + Split(s[i + 1..], c)
  }

  lemma {:induction false} SplitJoin(s: string, c: char)
    ensures Join(Split(s, c), [c]) == s
    decreases |s|
  {
    var i := IndexOf(s, c);
    if i < |s| {
      SplitJoin(s[i + 1..], c);
      assert s == s[..i] + [c] + s[i + 1..];
    }
  }

  /** Number of occurrences of `c` in `s`. */
  function Count(s: string, c: char): nat {
    if s == [] then 0 else (if s[0] == c then 1 else 0) + Count(s[1..], c)
  }

  lemma {:induction false} CountSlices(s: string, c: char, i: nat)
    requires i < |s| && s[i] == c && c !in s[..i]
    ensures Count(s, c) == 1 + Count(s[i + 1..], c)
  {
    if i > 0 {
      assert s[0] != c by { assert s[0] == s[..i][0]; }
      assert s[1..][..i - 1] == s[1..i];
      assert s[1..][i..] == s[i + 1..];
      CountSlices(s[1..], c, i - 1);
    }
  }

  lemma {:induction false} CountAbsent(s: string, c: char)
    requires c !in s
    ensures Count(s, c) == 0
  {
    if s != [] {
      assert c !in s[1..];
      CountAbsent(s[1..], c);
    }
  }

  lemma {:induction false} SplitLength(s: string, c: char)
    ensures |Split(s, c)| == Count(s, c) + 1
    decreases |s|
  {
    var i := IndexOf(s, c);
    if i == |s| {
      CountAbsent(s, c);
    } else {
      assert c !in s[..i];
      CountSlices(s, c, i);
      SplitLength(s[i + 1..], c);
    }
  }

  function DigitChar(d: nat): char
    requires d < 10
  {
    ('0' as int + d) as char
  }

  /** Decimal digits of `n` without leading zeros, as `${n}` prints it. */
  function NatToString(n: nat): (r: string)
    ensures r != []
    ensures forall i :: 0 <= i < |r| ==> '0' <= r[i] <= '9'
    decreases n
  {
    if n < 10 then [DigitChar(n)] else NatToString(n / 10) + [DigitChar(n % 10)]
  }

  /** The value of a string of decimal digits. */
  function DecimalValue(s: string): nat
    requires forall i :: 0 <= i < |s| ==> '0' <= s[i] <= '9'
  {
    if s == [] then 0 else 10 * DecimalValue(s[..|s| - 1]) + (s[|s| - 1] as int - '0' as int)
  }

  lemma {:induction false} NatToStringValue(n: nat)
    ensures DecimalValue(NatToString(n)) == n
    decreases n
  {
    if n >= 10 {
      var r := NatToString(n);
      assert r[..|r| - 1] == NatToString(n / 10);
      NatToStringValue(n / 10);
    }
  }

  /** Distinct numbers print differently. */
  lemma NatToStringInjective(m: nat, n: nat)
    requires m != n
    ensures NatToString(m) != NatToString(n)
  {
    NatToStringValue(m);
    NatToStringValue(n);
  }
}
