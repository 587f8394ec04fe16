/** The string operations of the source that the model needs: str.strip and the tests built on it. */
module Text {

  /** The characters str.strip removes. */
  predicate IsSpace(c: char) {
    var n := c as int;
    || 0x09 <= n <= 0x0D || 0x1C <= n <= 0x20 || n == 0x85 || n == 0xA0 || n == 0x1680
    || 0x2000 <= n <= 0x200A || n == 0x2028 || n == 0x2029 || n == 0x202F || n == 0x205F || n == 0x3000
  }

  /** Tab to carriage return, the four separators, space, next line, no-break space, and the spaces of other scripts. */
  const BLANKS := "\t\n\U{0B}\U{0C}\r\U{1C}\U{1D}\U{1E}\U{1F} \U{85}\U{A0}\U{1680}\U{2000}\U{2001}\U{2002}\U{2003}"
    + "\U{2004}\U{2005}\U{2006}\U{2007}\U{2008}\U{2009}\U{200A}\U{2028}\U{2029}\U{202F}\U{205F}\U{3000}"

  lemma SpacesAre(c: char)
    ensures IsSpace(c) <==> c in BLANKS
  {
    assert forall i :: 0 <= i < |BLANKS| ==> IsSpace(BLANKS[i]);
    var n := c as int;
    if 0x09 <= n <= 0x0D {
      assert BLANKS[n - 0x09] == c;
    } else if 0x1C <= n <= 0x20 {
      assert BLANKS[n - 0x1C + 5] == c;
    } else if 0x2000 <= n <= 0x200A {
      assert BLANKS[n - 0x2000 + 13] == c;
    } else if IsSpace(c) {
      assert c in [BLANKS[10], BLANKS[11], BLANKS[12], BLANKS[24], BLANKS[25], BLANKS[26], BLANKS[27], BLANKS[28]];
    }
  }

  function StripLeft(s: string): (r: string)
    ensures r != "" ==> !IsSpace(r[0])
    ensures |r| <= |s| && r == s[|s| - |r|..]
  {
    if s != "" && IsSpace(s[0]) then StripLeft(s[1..]) else s
  }

  function StripRight(s: string): (r: string)
    ensures r != "" ==> !IsSpace(r[|r| - 1])
    ensures r <= s
  {
    if s != "" && IsSpace(s[|s| - 1]) then StripRight(s[..|s| - 1]) else s
  }

  function Strip(s: string): (r: string)
    ensures r != "" ==> !IsSpace(r[0]) && !IsSpace(r[|r| - 1])
  {
    StripRight(StripLeft(s))
  }

  /** What "not s.strip()" tests. */
  predicate Blank(s: string) {
    forall i :: 0 <= i < |s| ==> IsSpace(s[i])
  }

  lemma {:induction false} StripLeftKeeps(s: string)
    ensures forall i :: 0 <= i < |s| - |StripLeft(s)| ==> IsSpace(s[i])
  {
    if s != "" && IsSpace(s[0]) {
      StripLeftKeeps(s[1..]);
      assert forall i :: 0 < i < |s| ==> s[i] == s[1..][i - 1];
    }
  }

  lemma BlankIffStripsToNothing(s: string)
    ensures Blank(s) <==> Strip(s) == ""
  {
    StripLeftKeeps(s);
    var l := StripLeft(s);
    if l == "" {
      assert StripRight(l) == "";
    } else {
      assert !IsSpace(s[|s| - |l|]);
      StripRightKeepsFirst(l);
    }
  }

  lemma {:induction false} StripRightKeepsFirst(s: string)
    requires s != "" && !IsSpace(s[0])
    ensures StripRight(s) != "" && StripRight(s)[0] == s[0]
  {
    if IsSpace(s[|s| - 1]) {
      StripRightKeepsFirst(s[..|s| - 1]);
    }
  }

  /** A text without blanks at its ends is its own stripped form. */
  lemma StripKeeps(s: string)
    requires s != "" && !IsSpace(s[0]) && !IsSpace(s[|s| - 1])
    ensures Strip(s) == s && !Blank(s)
  {
    hide IsSpace;
    assert StripLeft(s) == s && StripRight(s) == s;
  }

  /** Stripping takes characters from the ends only, all of them blanks. */
  lemma StripTakesBlanks(s: string)
    ensures exists i, j :: StrippedBetween(s, i, j)
  {
    StripLeftKeeps(s);
    StripRightKeeps(StripLeft(s));
    var l, t := StripLeft(s), Strip(s);
    assert StrippedBetween(s, |s| - |l|, |s| - |l| + |t|);
  }

  /** What is left stands between places i and j; everything around it is blank. */
  ghost predicate StrippedBetween(s: string, i: int, j: int) {
    && 0 <= i <= j <= |s| && Strip(s) == s[i..j]
    && (forall k :: 0 <= k < i ==> IsSpace(s[k])) && (forall k :: j <= k < |s| ==> IsSpace(s[k]))
  }

  lemma {:induction false} StripRightKeeps(s: string)
    ensures forall i :: |StripRight(s)| <= i < |s| ==> IsSpace(s[i])
  {
    if s != "" && IsSpace(s[|s| - 1]) {
      StripRightKeeps(s[..|s| - 1]);
    }
  }

  lemma StripIdempotent(s: string)
    ensures Strip(Strip(s)) == Strip(s)
  {
    var t := Strip(s);
    if t != "" {
      assert StripLeft(t) == t;
      assert StripRight(t) == t;
    }
  }

  /** str.lower on ASCII letters. */
  function LowerChar(c: char): char {
    if 'A' <= c <= 'Z' then c + 32 as char else c
  }

  function Lower(s: string): (r: string)
    ensures |r| == |s|
    ensures forall i :: 0 <= i < |s| ==> r[i] == LowerChar(s[i])
  {
    seq(|s|, i requires 0 <= i < |s| => LowerChar(s[i]))
  }

  const UPPER := "ABCDEFGHIJKLMNOPQRSTUVWXYZ"
  const LOWER := "abcdefghijklmnopqrstuvwxyz"

  /** Every capital becomes its small letter; other characters stay. */
  lemma LowerLetters(c: char)
    ensures forall i :: 0 <= i < 26 ==> LowerChar(UPPER[i]) == LOWER[i]
    ensures c !in UPPER ==> LowerChar(c) == c
  {
    if 'A' <= c <= 'Z' {
      assert UPPER[c as int - 'A' as int] == c;
    }
  }

  /** name.strip().lower() */
  function Normalized(s: string): string {
    Lower(Strip(s))
  }

  lemma LowerKeepsSpaces(c: char)
    ensures IsSpace(LowerChar(c)) <==> IsSpace(c)
    ensures LowerChar(LowerChar(c)) == LowerChar(c)
  {
  }

  lemma {:induction false} StripLeftOfLower(s: string)
    ensures StripLeft(Lower(s)) == Lower(StripLeft(s))
  {
    hide IsSpace, LowerChar, Lower;
    if s != "" {
      LowerKeepsSpaces(s[0]);
    }
    if s != "" && IsSpace(s[0]) {
      StripLeftOfLower(s[1..]);
      assert Lower(s)[1..] == Lower(s[1..]);
    }
  }

  lemma {:induction false} StripRightOfLower(s: string)
    ensures StripRight(Lower(s)) == Lower(StripRight(s))
  {
    hide IsSpace, LowerChar, Lower;
    if s != "" {
      LowerKeepsSpaces(s[|s| - 1]);
    }
    if s != "" && IsSpace(s[|s| - 1]) {
      StripRightOfLower(s[..|s| - 1]);
      assert Lower(s)[..|s| - 1] == Lower(s[..|s| - 1]);
    }
  }

  lemma StripOfLower(s: string)
    ensures Strip(Lower(s)) == Lower(Strip(s))
  {
    StripLeftOfLower(s);
    StripRightOfLower(StripLeft(s));
  }

  lemma NormalizedIdempotent(s: string)
    ensures Strip(Normalized(s)) == Normalized(s) && Lower(Normalized(s)) == Normalized(s)
    ensures Normalized(Normalized(s)) == Normalized(s)
  {
    hide Strip, Lower, LowerChar;
    var t := Strip(s);
    StripOfLower(t);
    StripIdempotent(s);
    forall i | 0 <= i < |t|
      ensures Lower(Lower(t))[i] == Lower(t)[i]
    {
      LowerKeepsSpaces(t[i]);
    }
    assert Lower(Lower(t)) == Lower(t);
  }
}
