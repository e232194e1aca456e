/** boundedFailure of pkg/jobs/worker.go: arbitrary handler error text made fit for Fail. */
module FailureText {
  import opened Base
  import opened Utf8

  /** The octets of U+2026, the ellipsis that marks truncation. */
  const ELLIPSIS: Bytes := [0xE2, 0x80, 0xA6]

  const ROOM: nat := MAX_FAILURE_BYTES - |ELLIPSIS|

  function Capped(source: Bytes): Bytes {
    if |source| > MAX_FAILURE_BYTES then source[..ROOM] else source
  }

  function Sanitised(source: Bytes): Bytes { ReplaceNul(ToValid(Capped(source))) }

  predicate Fits(source: Bytes) {
    |source| <= MAX_FAILURE_BYTES && |Sanitised(source)| <= MAX_FAILURE_BYTES
  }

  /** The length of the longest valid prefix of text that is no longer than limit. */
  function LongestValid(text: Bytes, limit: nat): (k: nat)
    ensures k <= limit && k <= |text| && Valid(text[..k])
    ensures forall j :: k < j <= limit && j <= |text| ==> !Valid(text[..j])
  {
    if limit == 0 then 0
    else if limit <= |text| && Valid(text[..limit]) then limit
    else LongestValid(text, limit - 1)
  }

  /** The text sent to Fail for an error whose text is `source`. */
  function Bounded(source: Bytes): Bytes {
    var text := Sanitised(source);
    if Fits(source) then text else text[..LongestValid(text, ROOM)] + ELLIPSIS
  }

  /** What truncation keeps: the sent text without its ellipsis. */
  function Kept(source: Bytes): Bytes
    requires !Fits(source)
  {
    Bounded(source)[..|Bounded(source)| - |ELLIPSIS|]
  }

  lemma SanitisedIsClean(source: Bytes)
    ensures Clean(Sanitised(source))
  {
    var capped := Capped(source);
    ToValidIsValid(capped, false);
    ReplaceNulIsValid(ToValid(capped));
    ReplaceNulIsNulFree(ToValid(capped));
  }

  /** Moves `end` back to a rune start, as the source does, and lands on the longest valid prefix. */
  method BoundedFailure(source: Bytes) returns (text: Bytes)
    ensures text == Bounded(source)
  {
    var sourceLimit := MAX_FAILURE_BYTES;
    var truncated := |source| > sourceLimit;
    if truncated {
      sourceLimit := sourceLimit - |ELLIPSIS|;
    }
    var capped := source[..if |source| < sourceLimit then |source| else sourceLimit];
    var message := ToValid(capped);
    message := ReplaceNul(message);
    assert capped == Capped(source);
    SanitisedIsClean(source);
    if !truncated && |message| <= MAX_FAILURE_BYTES {
      return message;
    }
    var end := if |message| < ROOM then |message| else ROOM;
    assert message[..|message|] == message;
    LongestValidCapped(message, ROOM);
    while end < |message| && end > 0 && !RuneStart(message[end])
      invariant 0 <= end <= |message|
      invariant LongestValid(message, end) == LongestValid(message, ROOM)
      decreases end
    {
      BoundaryIsRuneStart(message, end);
      end := end - 1;
    }
    BoundaryIsRuneStart(message, end);
    text := message[..end] + ELLIPSIS;
  }

  lemma {:induction false} LongestValidCapped(text: Bytes, limit: nat)
    ensures LongestValid(text, if |text| < limit then |text| else limit) == LongestValid(text, limit)
  {
  }

  // ----- What callers rely on -----

  /** For every octet string: valid UTF-8, no NUL, at most 4096 octets. */
  lemma BoundedIsClean(source: Bytes)
    ensures Clean(Bounded(source)) && |Bounded(source)| <= MAX_FAILURE_BYTES
  {
    SanitisedIsClean(source);
    var text := Sanitised(source);
    if !Fits(source) {
      WithEllipsisIsClean(text[..LongestValid(text, ROOM)]);
    }
  }

  lemma WithEllipsisIsClean(head: Bytes)
    requires Clean(head) && |head| <= ROOM
    ensures Clean(head + ELLIPSIS) && |head + ELLIPSIS| <= MAX_FAILURE_BYTES
  {
    EllipsisIsValid();
    ValidConcat(head, ELLIPSIS);
  }

  lemma EllipsisIsValid()
    ensures Valid(ELLIPSIS)
  {
    assert RuneLen(ELLIPSIS) == 3 && ELLIPSIS[3..] == [];
  }

  /** Exactly the short clean texts are left alone. */
  lemma BoundedIdentity(source: Bytes)
    ensures Bounded(source) == source <==> Clean(source) && |source| <= MAX_FAILURE_BYTES
  {
    if Clean(source) && |source| <= MAX_FAILURE_BYTES {
      ToValidIdentity(source);
      ReplaceNulIdentity(source);
    }
    BoundedIsClean(source);
  }

  lemma BoundedIdempotent(source: Bytes)
    ensures Bounded(Bounded(source)) == Bounded(source)
  {
    BoundedIsClean(source);
    BoundedIdentity(Bounded(source));
  }

  /** Truncated text keeps as much as a character boundary allows: the kept part is a prefix of
      the sanitised text, ends on a boundary, and no longer valid prefix leaves room for the ellipsis. */
  lemma TruncationIsMaximal(source: Bytes)
    requires !Fits(source)
    ensures var k := |Kept(source)|;
            && k <= |Sanitised(source)|
            && Kept(source) == Sanitised(source)[..k]
            && Bounded(source) == Kept(source) + ELLIPSIS
            && (k == |Sanitised(source)| <= ROOM || ROOM - 4 < k <= ROOM)
            && Valid(Sanitised(source)[..k])
            && forall j :: k < j <= ROOM && j <= |Sanitised(source)| ==> !Valid(Sanitised(source)[..j])
  {
    SanitisedIsClean(source);
    var text := Sanitised(source);
    if |text| < ROOM {
      LongestValidCapped(text, ROOM);
      assert text[..|text|] == text;
    } else {
      NearestBoundary(text, ROOM);
    }
  }

  /** A valid text has a boundary among any four consecutive positions. */
  lemma {:induction false} NearestBoundary(text: Bytes, limit: nat)
    requires Valid(text) && limit <= |text|
    ensures limit < LongestValid(text, limit) + 4
    decreases |text|
  {
    if text != [] && limit >= 4 {
      var n := RuneLen(text);
      var rest := text[n..];
      NearestBoundary(rest, limit - n);
      var k := LongestValid(rest, limit - n);
      PrependRune(text, k);
    }
  }

  // ----- Is the kept text a prefix of what the handler wrote? -----

  /** The octets left over when a character is cut short are all ill-formed. */
  lemma CutRuneIsBad(s: Bytes, k: nat)
    requires 0 < k < RuneLen(s)
    ensures ToValid(s[..k]) == REPLACEMENT
  {
    var r := s[..k];
    assert RuneLen(r) == 0;
    assert forall i :: 0 < i < k ==> IsTail(r[i]);
    if k >= 2 { assert RuneLen(r[1..]) == 0; }
    if k >= 3 { assert r[1..][1..] == r[2..] && RuneLen(r[2..]) == 0; }
    AllTails(r[1..]);
    assert REPLACEMENT + [] == REPLACEMENT;
  }

  lemma {:induction false} AllTails(s: Bytes)
    requires forall i :: 0 <= i < |s| ==> IsTail(s[i])
    ensures ToValid(s, true) == []
  {
    if s != [] {
      AllTails(s[1..]);
    }
  }

  lemma CutPointShifted(s: Bytes, n: nat, k: nat, r: nat)
    requires 0 < n == RuneLen(s) && n + r <= k < |s|
    requires Valid(s[n..][..k - n - r]) && r < RuneLen(s[n..][k - n - r..])
    ensures Valid(s[..k - r]) && r < RuneLen(s[k - r..])
  {
    assert s[k - r..] == s[n..][k - n - r..];
    PrependRune(s, k - n - r);
  }

  /** A position k in valid text lies r octets into the character that it cuts. */
  lemma {:induction false} CutPoint(s: Bytes, k: nat) returns (r: nat)
    requires Valid(s) && k < |s|
    ensures r <= k && r <= 3 && Valid(s[..k - r]) && r < RuneLen(s[k - r..])
    decreases |s|
  {
    if k < RuneLen(s) {
      r := k;
      assert s[0..] == s;
    } else {
      r := CutPoint(s[RuneLen(s)..], k - RuneLen(s));
      CutPointShifted(s, RuneLen(s), k, r);
    }
  }

  /** What is kept of long clean text whose cut lies r octets into a character. */
  lemma KeptOfLongText(source: Bytes, r: nat)
    requires Clean(source) && |source| > MAX_FAILURE_BYTES
    requires r <= 3 && Valid(source[..ROOM - r]) && r < RuneLen(source[ROOM - r..])
    ensures Kept(source) == if r == 3 then source[..ROOM - r] + REPLACEMENT else source[..ROOM - r]
  {
    var whole := source[..ROOM - r];
    SanitisedLongText(source, r);
    var text := Sanitised(source);
    ReplacementIsClean();
    assert text[..|whole|] == whole;
    if r == 1 || r == 2 {
      BoundaryOfReplacement(whole, r);
    } else {
      ValidConcat(whole, REPLACEMENT);
      assert text[..ROOM] == text;
    }
  }

  lemma SanitisedLongText(source: Bytes, r: nat)
    requires Clean(source) && |source| > MAX_FAILURE_BYTES
    requires r <= 3 && Valid(source[..ROOM - r]) && r < RuneLen(source[ROOM - r..])
    ensures Sanitised(source) == source[..ROOM - r] + (if r == 0 then [] else REPLACEMENT)
  {
    var whole, part := source[..ROOM - r], source[ROOM - r..][..r];
    assert source[..ROOM] == whole + part;
    ToValidKeepsPrefix(whole, part);
    assert NulFree(whole);
    if r == 0 {
      assert part == [] && whole + [] == whole;
    } else {
      CutRuneIsBad(source[ROOM - r..], r);
    }
    ReplaceNulIdentity(whole + ToValid(part));
  }

  /** How far the cut at 4093 octets reaches into a character, and when that is three octets. */
  lemma CutOfLongText(source: Bytes) returns (r: nat)
    requires Clean(source) && |source| > MAX_FAILURE_BYTES
    ensures r <= 3 && Valid(source[..ROOM - r]) && r < RuneLen(source[ROOM - r..])
    ensures r == 3 <==> source[ROOM - 3] >= 0xF0
  {
    r := CutPoint(source, ROOM);
    LeadAt(source, ROOM, r);
  }

  lemma KeptUpToCut(source: Bytes) returns (r: nat)
    requires Clean(source) && |source| > MAX_FAILURE_BYTES
    ensures r <= 3 && (r == 3 <==> source[ROOM - 3] >= 0xF0)
    ensures Kept(source) == if r == 3 then source[..ROOM - r] + REPLACEMENT else source[..ROOM - r]
  {
    r := CutOfLongText(source);
    KeptOfLongText(source, r);
  }

  /** Long clean text keeps only its own characters unless the cut at 4093 octets falls after the
      third octet of a four-octet character; then the kept text ends in U+FFFD instead. */
  lemma KeptTextIsPrefix(source: Bytes)
    requires Clean(source) && |source| > MAX_FAILURE_BYTES
    ensures Kept(source) <= source <==> source[ROOM - 3] < 0xF0
  {
    var r := KeptUpToCut(source);
    PrefixTest(source, Kept(source), r);
  }

  lemma PrefixTest(source: Bytes, kept: Bytes, r: nat)
    requires |source| > MAX_FAILURE_BYTES && r <= 3 && (r == 3 <==> source[ROOM - 3] >= 0xF0)
    requires kept == if r == 3 then source[..ROOM - r] + REPLACEMENT else source[..ROOM - r]
    ensures kept <= source <==> source[ROOM - 3] < 0xF0
  {
  }

  /** With one or two octets of the replacement character inside the limit, the cut goes before it. */
  lemma BoundaryOfReplacement(whole: Bytes, r: nat)
    requires Valid(whole) && (r == 1 || r == 2) && |whole| + r == ROOM
    ensures LongestValid(whole + REPLACEMENT, ROOM) == |whole|
  {
    var text := whole + REPLACEMENT;
    ReplacementIsClean();
    ValidConcat(whole, REPLACEMENT);
    assert text[..|whole|] == whole;
    BoundaryIsRuneStart(text, |whole| + 1);
    BoundaryIsRuneStart(text, |whole| + 2);
  }

  /** Three octets into a character at position k means that a four-octet lead stands at k - 3. */
  lemma LeadAt(s: Bytes, k: nat, r: nat)
    requires Valid(s) && 3 <= k < |s| && r <= 3
    requires Valid(s[..k - r]) && r < RuneLen(s[k - r..])
    ensures r == 3 <==> s[k - 3] >= 0xF0
  {
    if r == 3 {
      LongRuneLead(s[k - 3..]);
    } else {
      BoundaryMeansShort(s, k, r);
    }
  }

  lemma BoundaryMeansShort(s: Bytes, k: nat, r: nat)
    requires Valid(s) && 3 <= k < |s| && r < 3 && Valid(s[..k - r])
    ensures s[k - 3] < 0xF0
  {
    if s[k - 3] >= 0xF0 {
      NoBoundaryInLongRune(s, k - 3, 3 - r);
    }
  }

  lemma LongRuneLead(s: Bytes)
    requires RuneLen(s) > 3
    ensures s[0] >= 0xF0
  {
  }

  lemma NoBoundaryInLongRune(s: Bytes, i: nat, d: nat)
    requires Valid(s) && 0 < d <= 3 && i + d < |s| && s[i] >= 0xF0
    ensures !Valid(s[..i + d])
  {
    LongRuneAt(s, i);
    TailIsNoBoundary(s, i + d);
  }

  lemma TailIsNoBoundary(s: Bytes, k: nat)
    requires Valid(s) && k < |s| && IsTail(s[k])
    ensures !Valid(s[..k])
  {
    BoundaryIsRuneStart(s, k);
  }

  lemma LongRuneAt(s: Bytes, i: nat)
    requires Valid(s) && i < |s| && s[i] >= 0xF0
    ensures i + 3 < |s| && IsTail(s[i + 1]) && IsTail(s[i + 2]) && IsTail(s[i + 3])
  {
    BoundaryIsRuneStart(s, i);
    ValidSuffix(s, i);
    TailsOfLongRune(s[i..]);
    assert s[i + 1] == s[i..][1] && s[i + 2] == s[i..][2] && s[i + 3] == s[i..][3];
  }

  lemma ValidSuffix(s: Bytes, k: nat)
    requires k < |s| && Valid(s) && Valid(s[..k])
    ensures Valid(s[k..]) && RuneLen(s[k..]) > 0
  {
    assert s == s[..k] + s[k..];
    ValidConcat(s[..k], s[k..]);
  }

  lemma TailsOfLongRune(s: Bytes)
    requires RuneLen(s) > 0 && s[0] >= 0xF0
    ensures |s| >= 4 && IsTail(s[1]) && IsTail(s[2]) && IsTail(s[3])
  {
  }

  /** Such a source exists: 4090 letters and then U+1F600 across the cut. */
  lemma KeptTextCanEndInReplacement()
    ensures exists source: Bytes :: !Fits(source) && Clean(source) && !(Kept(source) <= source)
  {
    var letters: Bytes := seq(ROOM - 3, _ => 97);
    var face: Bytes := [0xF0, 0x9F, 0x98, 0x80];
    var tail: Bytes := seq(3, _ => 97);
    AsciiIsClean(letters);
    AsciiIsClean(tail);
    assert RuneLen(face) == 4 && face[4..] == [];
    ValidConcat(face, tail);
    ValidConcat(letters, face + tail);
    var source := letters + (face + tail);
    KeptTextIsPrefix(source);
  }
}
