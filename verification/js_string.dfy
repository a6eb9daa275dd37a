/** The JavaScript string primitives the core relies on, over strings of
    Unicode scalar values (`seq<char>`), with their edge cases written out:
    `lastIndexOf` returns -1 when the character is absent, one-argument
    `substring` clamps its start into the string, `split` always yields at
    least one part. */
module JsString {

  /** LATIN CAPITAL LETTER I WITH DOT ABOVE: the one character whose
      lower-case form is two characters long (`i` and U+0307). */
  const DottedCapitalI: char := '\U{0130}'
  const CombiningDotAbove: char := '\U{0307}'

  predicate IsAsciiUpper(c: char) {
    'A' <= c <= 'Z'
  }

  /** Lower case of a single unit that keeps its length: ASCII capitals
      become small letters, every other unit is kept. */
  function LowerAscii(c: char): char {
    if IsAsciiUpper(c) then (c as int + 32) as char else c
  }

  /** The units `toLowerCase` produces for one unit. Besides the ASCII
      capitals, U+0130 becomes "i" followed by U+0307. Other non-ASCII
      letters are kept as they are (see README). */
  function LowerUnits(c: char): seq<char> {
    if c == DottedCapitalI then ['i', CombiningDotAbove] else [LowerAscii(c)]
  }

  /** `String.prototype.toLowerCase`. */
  function ToLowerCase(s: string): string
    decreases |s|
  {
    if s == [] then [] else ToLowerCase(s[..|s| - 1]) + LowerUnits(s[|s| - 1])
  }

  /** Without U+0130, lower-casing maps unit to unit and keeps the length,
      so an index into `s` is an index into its lower-case form. */
  lemma {:induction false} LowerKeepsPositions(s: string)
    requires DottedCapitalI !in s
    ensures |ToLowerCase(s)| == |s|
    ensures forall i :: 0 <= i < |s| ==> ToLowerCase(s)[i] == LowerAscii(s[i])
    decreases |s|
  {
    if s != [] {
      var init := s[..|s| - 1];
      assert forall i :: 0 <= i < |init| ==> init[i] == s[i];
      LowerKeepsPositions(init);
    }
  }

  /** Lower-casing works unit by unit, so it distributes over concatenation. */
  lemma {:induction false} LowerOfConcat(a: string, b: string)
    ensures ToLowerCase(a + b) == ToLowerCase(a) + ToLowerCase(b)
    decreases |b|
  {
    if b != [] {
      var n := |b| - 1;
      assert (a + b)[..|a + b| - 1] == a + b[..n];
      LowerOfConcat(a, b[..n]);
    } else {
      assert a + b == a;
    }
  }

  /** A unit that `toLowerCase` leaves as it is. */
  predicate NoCapital(c: char) {
    !IsAsciiUpper(c) && c != DottedCapitalI
  }

  /** A string without capitals (ASCII or U+0130) is its own lower case. */
  lemma LowerOfLowerCase(s: string)
    requires forall i :: 0 <= i < |s| ==> NoCapital(s[i])
    ensures ToLowerCase(s) == s
  {
    LowerKeepsPositions(s);
  }

  /** Lower-casing neither creates nor removes a '.'. */
  lemma {:induction false} LowerKeepsDots(s: string)
    ensures '.' in ToLowerCase(s) <==> '.' in s
    decreases |s|
  {
    if s != [] {
      var init := s[..|s| - 1];
      LowerKeepsDots(init);
      assert s == init + [s[|s| - 1]];
    }
  }

  /** `s.lastIndexOf(c)`: the position of the last `c`, or -1 when there is none. */
  function LastIndexOf(s: string, c: char): (r: int)
    ensures -1 <= r < |s|
    ensures r == -1 <==> c !in s
    ensures 0 <= r ==> s[r] == c
    ensures forall j :: r < j < |s| ==> s[j] != c
    decreases |s|
  {
    if s == [] then -1
    else if s[|s| - 1] == c then |s| - 1
    else LastIndexOf(s[..|s| - 1], c)
  }

  /** A position holding `c` with no `c` after it is the last index of `c`. */
  lemma LastIndexOfAt(s: string, c: char, k: int)
    requires 0 <= k < |s| && s[k] == c
    requires forall j :: k < j < |s| ==> s[j] != c
    ensures LastIndexOf(s, c) == k
  {
  }

  /** `s.indexOf(c)`: the position of the first `c`, or -1 when there is none. */
  function IndexOf(s: string, c: char): (r: int)
    ensures -1 <= r < |s|
    ensures r == -1 <==> c !in s
    ensures 0 <= r ==> s[r] == c && c !in s[..r]
    decreases |s|
  {
    if s == [] then -1
    else if s[0] == c then 0
    else
      var k := IndexOf(s[1..], c);
      assert k >= 0 ==> s[..k + 1] == [s[0]] + s[1..][..k];
      if k == -1 then -1 else k + 1
  }

  /** `s.substring(start)`: a start below 0 counts as 0 and one past the end
      as the end, so `substring(-1)` is the whole string. */
  function Substring(s: string, start: int): (r: string)
    ensures start <= 0 ==> r == s
    ensures 0 <= start <= |s| ==> r == s[start..]
    ensures |s| <= start ==> r == []
  {
    if start <= 0 then s else if start >= |s| then [] else s[start..]
  }

  /** `s.endsWith(suffix)`. */
  predicate EndsWith(s: string, suffix: string) {
    |suffix| <= |s| && s[|s| - |suffix|..] == suffix
  }

  /** The inverse of `Split`: the parts glued back together with `sep`. */
  function Join(parts: seq<string>, sep: char): string
    requires |parts| >= 1
    decreases |parts|
  {
    if |parts| == 1 then parts[0] else parts[0] + [sep] + Join(parts[1..], sep)
  }

  /** `s.split(sep)` for a one-character separator: the text between
      consecutive separators, with an empty part for a leading, trailing or
      doubled separator. It is never empty and no part holds `sep`. */
  function Split(s: string, sep: char): (parts: seq<string>)
    ensures |parts| >= 1
    ensures forall i :: 0 <= i < |parts| ==> sep !in parts[i]
    decreases |s|
  {
    var i := IndexOf(s, sep);
    if i == -1 then [s]
    else [s[..i]] + Split(s[i + 1..], sep)
  }

  /** Splitting loses nothing: the parts join back to the string. */
  lemma {:induction false} SplitJoinRoundTrip(s: string, sep: char)
    ensures Join(Split(s, sep), sep) == s
    decreases |s|
  {
    var i := IndexOf(s, sep);
    if i != -1 {
      var rest := Split(s[i + 1..], sep);
      SplitJoinRoundTrip(s[i + 1..], sep);
      assert Split(s, sep) == [s[..i]] + rest;
      assert ([s[..i]] + rest)[1..] == rest;
      assert s == s[..i] + [sep] + s[i + 1..];
    }
  }

  /** `s.split(sep).pop()`: the last part. */
  function LastPart(s: string, sep: char): string {
    var parts := Split(s, sep);
    parts[|parts| - 1]
  }

  /** The last part of a split is the text after the last separator (the
      whole string when there is none): `split` and `lastIndexOf` agree. */
  lemma {:induction false} LastPartAfterLastSeparator(s: string, sep: char)
    ensures LastPart(s, sep) == s[LastIndexOf(s, sep) + 1..]
    decreases |s|
  {
    var i := IndexOf(s, sep);
    if i == -1 {
      LastPartWithoutSeparator(s, sep);
    } else {
      var t := s[i + 1..];
      LastPartPastFirstSeparator(s, sep, i);
      LastPartAfterLastSeparator(t, sep);
      LastIndexOfAfter(s, sep, i);
    }
  }

  lemma LastPartWithoutSeparator(s: string, sep: char)
    requires sep !in s
    ensures LastPart(s, sep) == s && LastIndexOf(s, sep) == -1
  {
    assert Split(s, sep) == [s];
  }

  lemma LastPartPastFirstSeparator(s: string, sep: char, i: int)
    requires 0 <= i && i == IndexOf(s, sep)
    ensures LastPart(s, sep) == LastPart(s[i + 1..], sep)
  {
    var parts := Split(s, sep);
    var rest := Split(s[i + 1..], sep);
    assert parts == [s[..i]] + rest;
    assert parts[|parts| - 1] == rest[|rest| - 1];
  }

  /** Past a separator at `i`, the last separator of `s` is either `i`
      itself or the last separator of the rest, shifted. Either way the
      text after it is the text after the rest's last separator. */
  lemma LastIndexOfAfter(s: string, c: char, i: int)
    requires 0 <= i < |s| && s[i] == c
    ensures var t := s[i + 1..];
      var m := LastIndexOf(t, c);
      && LastIndexOf(s, c) == (if m == -1 then i else i + 1 + m)
      && s[LastIndexOf(s, c) + 1..] == t[m + 1..]
  {
    var t := s[i + 1..];
    var m := LastIndexOf(t, c);
    if m == -1 {
      forall j | i < j < |s| ensures s[j] != c {
        assert s[j] == t[j - i - 1];
      }
      LastIndexOfAt(s, c, i);
    } else {
      assert s[i + 1 + m] == t[m];
      forall j | i + 1 + m < j < |s| ensures s[j] != c {
        assert s[j] == t[j - i - 1];
      }
      LastIndexOfAt(s, c, i + 1 + m);
    }
  }
}
