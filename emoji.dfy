/**
 * `normalizeEmoji` (client/lib/emoji.ts): trims the input, removes every
 * variation selector (U+FE0E, U+FE0F) and zero-width (non-)joiner (U+200D,
 * U+200C), then removes the first skin-tone modifier (U+1F3FB to U+1F3FF)
 * only, since that regular expression has no `g` flag.
 */
module Emoji {
  import opened Text

  const VS15: char := '\U{FE0E}'
  const VS16: char := '\U{FE0F}'
  const ZWJ: char := '\U{200D}'
  const ZWNJ: char := '\U{200C}'

  /** The characters the global replace removes. */
  predicate IsJoiner(c: char) {
    c == VS15 || c == VS16 || c == ZWJ || c == ZWNJ
  }

  /** The Fitzpatrick modifiers U+1F3FB to U+1F3FF. */
  predicate IsSkinTone(c: char) {
    0x1F3FB <= c as int <= 0x1F3FF
  }

  // ---------------------------------------------------------------- subsequences

  /** `s` is `t` with some characters deleted, the rest in their order. */
  predicate Subseq(s: string, t: string)
    decreases |t|
  {
    if s == [] then true
    else if t == [] then false
    else (s[0] == t[0] && Subseq(s[1..], t[1..])) || Subseq(s, t[1..])
  }

  lemma {:induction false} SubseqRefl(t: string)
    ensures Subseq(t, t)
  {
    if t != [] { SubseqRefl(t[1..]); }
  }

  lemma SubseqDropFront(s: string, t: string)
    requires t != [] && Subseq(s, t[1..])
    ensures Subseq(s, t)
  {
  }

  lemma {:induction false} SubseqTrans(a: string, b: string, c: string)
    requires Subseq(a, b) && Subseq(b, c)
    ensures Subseq(a, c)
    decreases |c|
  {
    if a != [] {
      assert b != [] && c != [];
      if b[0] == c[0] && Subseq(b[1..], c[1..]) {
        if a[0] == b[0] && Subseq(a[1..], b[1..]) {
          SubseqTrans(a[1..], b[1..], c[1..]);
        } else {
          SubseqTrans(a, b[1..], c[1..]);
        }
      } else {
        SubseqTrans(a, b, c[1..]);
      }
    }
  }

  /** A contiguous slice is a subsequence. */
  lemma {:induction false} SubseqSlice(t: string, i: nat, j: nat)
    requires i <= j <= |t|
    ensures Subseq(t[i..j], t)
    decreases i, j
  {
    if i > 0 {
      assert t[1..][i - 1..j - 1] == t[i..j];
      SubseqSlice(t[1..], i - 1, j - 1);
    } else if j > 0 {
      assert t[..j][1..] == t[1..][0..j - 1];
      SubseqSlice(t[1..], 0, j - 1);
    }
  }

  /** Deleting one character leaves a subsequence. */
  lemma {:induction false} SubseqDeleteAt(t: string, k: nat)
    requires k < |t|
    ensures Subseq(t[..k] + t[k + 1..], t)
    decreases k
  {
    if k == 0 {
      assert t[..0] + t[1..] == t[1..];
      SubseqRefl(t[1..]);
    } else {
      var s := t[..k] + t[k + 1..];
      assert s[0] == t[0];
      assert s[1..] == t[1..][..k - 1] + t[1..][k..];
      SubseqDeleteAt(t[1..], k - 1);
    }
  }

  lemma {:induction false} SubseqLength(s: string, t: string)
    requires Subseq(s, t)
    ensures |s| <= |t|
    decreases |t|
  {
    if s != [] {
      if s[0] == t[0] && Subseq(s[1..], t[1..]) {
        SubseqLength(s[1..], t[1..]);
      } else {
        SubseqLength(s, t[1..]);
      }
    }
  }

  // ---------------------------------------------------------------- the two replaces

  /** The global replace of U+FE0E, U+FE0F, U+200D and U+200C by ''. */
  function StripJoiners(s: string): (r: string)
    ensures forall i :: 0 <= i < |r| ==> !IsJoiner(r[i])
  {
    if s == [] then [] else (if IsJoiner(s[0]) then [] else [s[0]]) + StripJoiners(s[1..])
  }

  /** The global replace keeps every other character, in order, and every occurrence of it. */
  lemma {:induction false} StripJoinersKeeps(s: string, c: char)
    requires !IsJoiner(c)
    ensures Subseq(StripJoiners(s), s)
    ensures Count(StripJoiners(s), c) == Count(s, c)
  {
    if s != [] {
      StripJoinersKeeps(s[1..], c);
      var rest := StripJoiners(s[1..]);
      if IsJoiner(s[0]) {
        assert StripJoiners(s) == rest;
      } else {
        assert StripJoiners(s) == [s[0]] + rest;
        assert ([s[0]] + rest)[1..] == rest;
      }
    }
  }

  /** Where a search for the first skin tone stops (|s| when there is none). */
  function ToneIndex(s: string): (k: nat)
    ensures k <= |s|
    ensures k < |s| ==> IsSkinTone(s[k])
    ensures forall j :: 0 <= j < k ==> !IsSkinTone(s[j])
  {
    if s == [] then 0 else if IsSkinTone(s[0]) then 0 else 1 + ToneIndex(s[1..])
  }

  /** `.replace(/[\u{1F3FB}-\u{1F3FF}]/u, '')`: removes the first skin tone only. */
  function RemoveFirstTone(s: string): (r: string)
    ensures ToneIndex(s) == |s| ==> r == s
    ensures ToneIndex(s) < |s| ==>
      |r| == |s| - 1 && r[..ToneIndex(s)] == s[..ToneIndex(s)] && r[ToneIndex(s)..] == s[ToneIndex(s) + 1..]
  {
    var k := ToneIndex(s);
    if k < |s| then s[..k] + s[k + 1..] else s
  }

  /** Number of skin tones in `s`. */
  function Tones(s: string): nat {
    if s == [] then 0 else (if IsSkinTone(s[0]) then 1 else 0) + Tones(s[1..])
  }

  lemma {:induction false} TonesAppend(a: string, b: string)
    ensures Tones(a + b) == Tones(a) + Tones(b)
  {
    if a == [] {
      assert a + b == b;
    } else {
      assert (a + b)[1..] == a[1..] + b;
      TonesAppend(a[1..], b);
    }
  }

  /** Deleting a skin tone removes exactly one from the count. */
  lemma DeleteToneCount(s: string, k: nat)
    requires k < |s| && IsSkinTone(s[k])
    ensures Tones(s[..k] + s[k + 1..]) == Tones(s) - 1
  {
    var p, q := s[..k], s[k + 1..];
    assert s == p + ([s[k]] + q);
    assert Tones([s[k]] + q) == 1 + Tones(q) by {
      assert ([s[k]] + q)[1..] == q;
    }
    TonesAppend(p, [s[k]] + q);
    TonesAppend(p, q);
  }

  /** Exactly one skin tone disappears when there is one, so any later ones survive. */
  lemma RemoveFirstToneCount(s: string)
    ensures Subseq(RemoveFirstTone(s), s)
    ensures Tones(RemoveFirstTone(s)) == if ToneIndex(s) < |s| then Tones(s) - 1 else Tones(s)
  {
    var k := ToneIndex(s);
    if k < |s| {
      SubseqDeleteAt(s, k);
      DeleteToneCount(s, k);
    } else {
      SubseqRefl(s);
    }
  }

  // ---------------------------------------------------------------- normalizeEmoji

  function NormalizeEmoji(e: string): (r: string)
    ensures e == "" ==> r == ""
    ensures forall i :: 0 <= i < |r| ==> !IsJoiner(r[i])
  {
    if e == "" then "" else RemoveFirstTone(StripJoiners(JsTrim(e)))
  }

  /**
   * The result is the trimmed input with every joiner and selector removed
   * and then its first skin tone removed: a subsequence of the input, so
   * never longer, with one skin tone fewer than the stripped text when it
   * had any.
   */
  lemma NormalizeEmojiSpec(e: string)
    ensures Subseq(NormalizeEmoji(e), e) && |NormalizeEmoji(e)| <= |e|
    ensures e != "" ==>
      var t := StripJoiners(JsTrim(e));
      Subseq(t, JsTrim(e)) &&
      Tones(NormalizeEmoji(e)) == if ToneIndex(t) < |t| then Tones(t) - 1 else Tones(t)
  {
    if e == "" {
      assert NormalizeEmoji(e) == [];
    } else {
      var tr := JsTrim(e);
      var t := StripJoiners(tr);
      TrimSpec(e, IsJsSpace);
      SubseqSlice(e, TrimStart(e, IsJsSpace), TrimStart(e, IsJsSpace) + |tr|);
      StripJoinersKeeps(tr, 'a');
      RemoveFirstToneCount(t);
      SubseqTrans(t, tr, e);
      SubseqTrans(RemoveFirstTone(t), t, e);
    }
    SubseqLength(NormalizeEmoji(e), e);
  }

  /** A second skin tone is kept: thumbs-up, light, medium becomes thumbs-up, medium. */
  lemma SecondToneKept()
    ensures NormalizeEmoji("\U{1F44D}\U{1F3FB}\U{1F3FD}") == "\U{1F44D}\U{1F3FD}"
  {
    var e := "\U{1F44D}\U{1F3FB}\U{1F3FD}";
    assert JsTrim(e) == e by {
      assert TrimLeft(e, IsJsSpace) == e;
      assert TrimRight(e, IsJsSpace) == e;
    }
    assert StripJoiners(e) == e by {
      assert StripJoiners(e[2..]) == e[2..];
      assert StripJoiners(e[1..]) == e[1..];
    }
    assert ToneIndex(e) == 1;
  }
}
