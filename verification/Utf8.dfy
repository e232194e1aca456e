/** UTF-8 as defined by section 4 of RFC 3629, and the two Go library
    transformations that failure text goes through. */
module Utf8 {
  import opened Base

  predicate IsTail(b: Byte) { 0x80 <= b <= 0xBF }

  /** What utf8.RuneStart answers: the octet is not a continuation octet. */
  predicate RuneStart(b: Byte) { !IsTail(b) }

  /** The length of the well-formed character at the head of s, or 0 when there is none. */
  function RuneLen(s: Bytes): (n: nat)
    ensures n <= 4 && n <= |s|
  {
    if s == [] then 0
    else if s[0] <= 0x7F then 1
    else if |s| >= 2 && 0xC2 <= s[0] <= 0xDF && IsTail(s[1]) then 2
    else if |s| >= 3 && ThreeLead(s[0], s[1]) && IsTail(s[2]) then 3
    else if |s| >= 4 && FourLead(s[0], s[1]) && IsTail(s[2]) && IsTail(s[3]) then 4
    else 0
  }

  predicate ThreeLead(a: Byte, b: Byte) {
    || (a == 0xE0 && 0xA0 <= b <= 0xBF)
    || (a == 0xED && 0x80 <= b <= 0x9F)
    || (0xE1 <= a <= 0xEF && a != 0xED && IsTail(b))
  }

  predicate FourLead(a: Byte, b: Byte) {
    || (a == 0xF0 && 0x90 <= b <= 0xBF)
    || (0xF1 <= a <= 0xF3 && IsTail(b))
    || (a == 0xF4 && 0x80 <= b <= 0x8F)
  }

  /** utf8.ValidString */
  predicate Valid(s: Bytes)
    decreases |s|
  {
    s == [] || (RuneLen(s) > 0 && Valid(s[RuneLen(s)..]))
  }

  predicate NulFree(s: Bytes) { forall i :: 0 <= i < |s| ==> s[i] != 0 }

  /** Text the database and the public contract accept. */
  predicate Clean(s: Bytes) { Valid(s) && NulFree(s) }

  /** The octets of U+FFFD. */
  const REPLACEMENT: Bytes := [0xEF, 0xBF, 0xBD]

  /** strings.ToValidUTF8(s, U+FFFD): each maximal run of ill-formed octets becomes one
      replacement character. `bad` says that the octet before s was ill-formed. */
  function ToValid(s: Bytes, bad: bool := false): Bytes
    decreases |s|
  {
    if s == [] then []
    else if RuneLen(s) == 0 then (if bad then [] else REPLACEMENT) + ToValid(s[1..], true)
    else s[..RuneLen(s)] + ToValid(s[RuneLen(s)..], false)
  }

  /** strings.ReplaceAll(s, "\x00", U+FFFD). */
  function ReplaceNul(s: Bytes): Bytes {
    if s == [] then []
    else (if s[0] == 0 then REPLACEMENT else [s[0]]) + ReplaceNul(s[1..])
  }

  // ----- Characters and boundaries -----

  lemma RuneLenOfPrefix(a: Bytes, b: Bytes)
    requires RuneLen(a) > 0
    ensures RuneLen(a + b) == RuneLen(a)
  {
  }

  /** A valid prefix neither hides nor causes a defect in what follows it. */
  lemma {:induction false} ValidConcat(a: Bytes, b: Bytes)
    requires Valid(a)
    ensures Valid(a + b) <==> Valid(b)
    decreases |a|
  {
    if a == [] {
      assert a + b == b;
    } else {
      var n := RuneLen(a);
      RuneLenOfPrefix(a, b);
      assert (a + b)[n..] == a[n..] + b;
      ValidConcat(a[n..], b);
    }
  }

  /** Inside one character every cut leaves an ill-formed head and starts on a continuation octet. */
  lemma InsideRune(s: Bytes, k: nat)
    requires 0 < k < RuneLen(s)
    ensures RuneLen(s[..k]) == 0 && !Valid(s[..k]) && IsTail(s[k])
  {
  }

  /** In valid text the character boundaries are exactly the positions that do not hold a
      continuation octet: what the backward scan of boundedFailure relies on. */
  lemma {:induction false} BoundaryIsRuneStart(s: Bytes, k: nat)
    requires Valid(s) && k <= |s|
    ensures Valid(s[..k]) <==> k == |s| || RuneStart(s[k])
    decreases |s|
  {
    if k == |s| {
      assert s[..k] == s;
    } else {
      var n := RuneLen(s);
      if k == 0 {
      } else if k < n {
        InsideRune(s, k);
      } else {
        BoundaryIsRuneStart(s[n..], k - n);
        assert RuneLen(s[..k]) == n && s[..k][n..] == s[n..][..k - n];
      }
    }
  }

  /** One character followed by valid text is valid. */
  lemma PrependRune(s: Bytes, m: nat)
    requires RuneLen(s) > 0 && RuneLen(s) + m <= |s| && Valid(s[RuneLen(s)..][..m])
    ensures Valid(s[..RuneLen(s) + m])
  {
    var n := RuneLen(s);
    var head := s[..n + m];
    assert RuneLen(head) == n;
    assert head[n..] == s[n..][..m];
  }

  // ----- ToValid -----

  lemma ReplacementIsClean()
    ensures Clean(REPLACEMENT)
  {
  }

  lemma {:induction false} ToValidIsValid(s: Bytes, bad: bool)
    ensures Valid(ToValid(s, bad))
    decreases |s|
  {
    if s != [] {
      var n := RuneLen(s);
      if n == 0 {
        ToValidIsValid(s[1..], true);
        ReplacementIsClean();
        ValidConcat(REPLACEMENT, ToValid(s[1..], true));
        assert [] + ToValid(s[1..], true) == ToValid(s[1..], true);
      } else {
        ToValidIsValid(s[n..], false);
        assert RuneLen(s[..n]) == n && s[..n][n..] == [];
        ValidConcat(s[..n], ToValid(s[n..], false));
      }
    }
  }

  /** Valid text in front of s is copied unchanged. */
  lemma {:induction false} ToValidKeepsPrefix(a: Bytes, s: Bytes)
    requires Valid(a)
    ensures ToValid(a + s) == a + ToValid(s)
    decreases |a|
  {
    if a == [] {
      assert a + s == s && a + ToValid(s) == ToValid(s);
    } else {
      var n := RuneLen(a);
      RuneLenOfPrefix(a, s);
      assert (a + s)[n..] == a[n..] + s && (a + s)[..n] == a[..n];
      ToValidKeepsPrefix(a[n..], s);
      PrependSplit(a, n, ToValid(s));
    }
  }

  lemma PrependSplit(a: Bytes, n: nat, t: Bytes)
    requires n <= |a|
    ensures a[..n] + (a[n..] + t) == a + t
  {
  }

  /** ToValid changes exactly the ill-formed texts. */
  lemma ToValidIdentity(s: Bytes)
    ensures ToValid(s) == s <==> Valid(s)
  {
  }

  // ----- ReplaceNul -----

  lemma {:induction false} ReplaceNulConcat(a: Bytes, b: Bytes)
    ensures ReplaceNul(a + b) == ReplaceNul(a) + ReplaceNul(b)
  {
    if a == [] {
      assert a + b == b;
    } else {
      assert (a + b)[1..] == a[1..] + b;
      ReplaceNulConcat(a[1..], b);
    }
  }

  lemma {:induction false} ReplaceNulIdentity(s: Bytes)
    requires NulFree(s)
    ensures ReplaceNul(s) == s
  {
    if s != [] {
      assert forall i :: 0 <= i < |s[1..]| ==> s[1..][i] == s[i + 1];
      ReplaceNulIdentity(s[1..]);
    }
  }

  lemma {:induction false} ReplaceNulIsNulFree(s: Bytes)
    ensures NulFree(ReplaceNul(s))
  {
    if s != [] {
      ReplaceNulIsNulFree(s[1..]);
    }
  }

  lemma {:induction false} ReplaceNulIsValid(s: Bytes)
    requires Valid(s)
    ensures Valid(ReplaceNul(s))
    decreases |s|
  {
    if s != [] {
      var n := RuneLen(s);
      ReplaceNulIsValid(s[n..]);
      assert s == s[..n] + s[n..];
      ReplaceNulConcat(s[..n], s[n..]);
      if s[0] == 0 {
        assert s[..n] == [0];
        assert ReplaceNul([0]) == REPLACEMENT + ReplaceNul([]);
        assert ReplaceNul([0]) == REPLACEMENT;
        ReplacementIsClean();
      } else {
        assert NulFree(s[..n]);
        ReplaceNulIdentity(s[..n]);
        assert RuneLen(s[..n]) == n && s[..n][n..] == [];
      }
      ValidConcat(ReplaceNul(s[..n]), ReplaceNul(s[n..]));
    }
  }

  /** ASCII text without NUL is clean. */
  lemma {:induction false} AsciiIsClean(s: Bytes)
    requires forall i :: 0 <= i < |s| ==> 0 < s[i] < 128
    ensures Clean(s)
  {
    if s != [] {
      AsciiIsClean(s[1..]);
    }
  }
}
