/** White space as Python's str methods and re's \s see it. */
module Text {
  predicate IsSpace(c: char) {
    var n := c as int;
    || 0x09 <= n <= 0x0d
    || 0x1c <= n <= 0x20
    || n == 0x85
    || n == 0xa0
    || n == 0x1680
    || 0x2000 <= n <= 0x200a
    || n == 0x2028
    || n == 0x2029
    || n == 0x202f
    || n == 0x205f
    || n == 0x3000
  }

  /** The white space of Unicode and the separators U+001C to U+001F, character by character. */
  lemma WhiteSpaceIs(c: char)
    ensures IsSpace(c) <==> c as int in {
              0x09, 0x0a, 0x0b, 0x0c, 0x0d, 0x1c, 0x1d, 0x1e, 0x1f, 0x20, 0x85, 0xa0, 0x1680,
              0x2000, 0x2001, 0x2002, 0x2003, 0x2004, 0x2005, 0x2006, 0x2007, 0x2008, 0x2009, 0x200a,
              0x2028, 0x2029, 0x202f, 0x205f, 0x3000}
  {
  }

  predicate Blank(s: string) {
    forall c :: c in s ==> IsSpace(c)
  }

  function StripLeft(s: string): string {
    if |s| > 0 && IsSpace(s[0]) then StripLeft(s[1..]) else s
  }

  function StripRight(s: string): string {
    if |s| > 0 && IsSpace(s[|s| - 1]) then StripRight(s[..|s| - 1]) else s
  }

  function Strip(s: string): string {
    StripRight(StripLeft(s))
  }

  lemma {:induction false} StripLeftCut(s: string) returns (k: nat)
    ensures k <= |s| && Blank(s[..k]) && StripLeft(s) == s[k..]
    ensures k < |s| ==> !IsSpace(s[k])
  {
    if |s| > 0 && IsSpace(s[0]) {
      k := StripLeftCut(s[1..]);
      assert s[..k + 1] == [s[0]] + s[1..][..k] && s[1..][k..] == s[k + 1..];
      k := k + 1;
    } else {
      k := 0;
    }
  }

  lemma {:induction false} StripRightCut(s: string) returns (k: nat)
    ensures k <= |s| && Blank(s[k..]) && StripRight(s) == s[..k]
    ensures k > 0 ==> !IsSpace(s[k - 1])
  {
    if |s| > 0 && IsSpace(s[|s| - 1]) {
      var front := s[..|s| - 1];
      k := StripRightCut(front);
      assert s[k..] == front[k..] + [s[|s| - 1]] && front[..k] == s[..k];
    } else {
      k := |s|;
    }
  }

  /** strip() cuts white space off both ends and only that: what is left starts and ends with something else. */
  lemma StripSpec(s: string) returns (i: nat, j: nat)
    ensures i <= j <= |s| && Strip(s) == s[i..j]
    ensures Blank(s[..i]) && Blank(s[j..])
    ensures i < j ==> !IsSpace(s[i]) && !IsSpace(s[j - 1])
    ensures Strip(s) == "" <==> Blank(s)
  {
    i := StripLeftCut(s);
    var t := s[i..];
    var k := StripRightCut(t);
    j := i + k;
    assert t[..k] == s[i..j] && t[k..] == s[j..];
    if i < j {
      assert s[j - 1] == t[k - 1] && t[0] == s[i];
      assert s[i] in s;
    } else {
      assert s == s[..i] + s[j..];
    }
  }
}
