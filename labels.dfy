/**
 * Text normalisation of the rider label, `x.astype(str).str.strip().str.lower()`,
 * as the station and route queries apply it before comparing with 'member'
 * and 'casual'. Only ASCII letters are case-folded and only ASCII whitespace
 * (what Python's `str.isspace` accepts below code point 128) is stripped.
 */
module Labels {

  /** Whitespace as `str.strip()` removes it, restricted to ASCII. */
  predicate IsSpace(c: char)
  {
    c == ' ' || 9 <= c as int <= 13 || 28 <= c as int <= 31
  }

  /** The number of whitespace characters `s` starts with. */
  function LeadingSpaces(s: string): (n: nat)
    ensures n <= |s|
    ensures forall m :: 0 <= m < n ==> IsSpace(s[m])
    ensures n == |s| || !IsSpace(s[n])
  {
    if s != [] && IsSpace(s[0]) then 1 + LeadingSpaces(s[1..]) else 0
  }

  /** Drops trailing whitespace: what remains is a prefix of `s` that does not end with a space. */
  function TrimEnd(s: string): (r: string)
    ensures |r| <= |s| && r == s[..|r|]
    ensures r == [] || !IsSpace(r[|r| - 1])
    ensures forall m :: |r| <= m < |s| ==> IsSpace(s[m])
  {
    if s != [] && IsSpace(s[|s| - 1]) then TrimEnd(s[..|s| - 1]) else s
  }

  /**
   * `str.strip()`: the run of `s` that starts after its leading whitespace and
   * has no whitespace at its end, everything cut off after it being whitespace.
   */
  function Strip(s: string): (r: string)
    ensures LeadingSpaces(s) + |r| <= |s|
    ensures r == s[LeadingSpaces(s)..LeadingSpaces(s) + |r|]
    ensures r == [] || (!IsSpace(r[0]) && !IsSpace(r[|r| - 1]))
    ensures forall m :: LeadingSpaces(s) + |r| <= m < |s| ==> IsSpace(s[m])
  {
    var i := LeadingSpaces(s);
    var r := TrimEnd(s[i..]);
    StripFacts(s, i, r);
    r
  }

  /** The trimmed rest `r` of `s` after `i` leading characters, `s[i]` not being whitespace, sits inside `s` as `Strip` promises. */
  lemma StripFacts(s: string, i: nat, r: string)
    requires i <= |s| && (i == |s| || !IsSpace(s[i]))
    requires |r| <= |s| - i && r == s[i..][..|r|]
    requires r == [] || !IsSpace(r[|r| - 1])
    requires forall m :: |r| <= m < |s| - i ==> IsSpace(s[i..][m])
    ensures i + |r| <= |s| && r == s[i..i + |r|]
    ensures r == [] || (!IsSpace(r[0]) && !IsSpace(r[|r| - 1]))
    ensures forall m :: i + |r| <= m < |s| ==> IsSpace(s[m])
  {
    assert forall m :: i + |r| <= m < |s| ==> s[m] == s[i..][m - i];
    if r != [] {
      assert r[0] == s[i];
    }
  }

  /** ASCII upper-case letters become lower case; every other character is kept. */
  function LowerChar(c: char): (d: char)
  {
    if 'A' <= c <= 'Z' then (c as int + 32) as char else c
  }

  /** `str.lower()` on ASCII: same length, each character folded, no upper-case letter left. */
  function Lower(s: string): (r: string)
    ensures |r| == |s|
    ensures forall i :: 0 <= i < |s| ==> r[i] == LowerChar(s[i])
    ensures forall i :: 0 <= i < |r| ==> !('A' <= r[i] <= 'Z')
  {
    if s == [] then [] else [LowerChar(s[0])] + Lower(s[1..])
  }

  /** `Lower(s)` is `t` when `t` is `s` folded character by character. */
  lemma LowerIs(s: string, t: string)
    requires |s| == |t| && forall i :: 0 <= i < |s| ==> LowerChar(s[i]) == t[i]
    ensures Lower(s) == t
  {
  }

  /** The radio choices fold to the stored labels. */
  lemma LowerChoices()
    ensures Lower("Member") == "member" && Lower("Casual") == "casual"
  {
    LowerIs("Member", "member");
    LowerIs("Casual", "casual");
  }

  /** The label as the station and route queries compare it. */
  function Normalize(text: string): string
  {
    Lower(Strip(text))
  }

  /** A label with no surrounding whitespace and no upper-case letter is its own normal form. */
  lemma AlreadyNormal(s: string)
    requires s != [] && !IsSpace(s[0]) && !IsSpace(s[|s| - 1])
    requires forall i :: 0 <= i < |s| ==> !('A' <= s[i] <= 'Z')
    ensures Normalize(s) == s
  {
    assert LeadingSpaces(s) == 0 && s[0..] == s;
    assert TrimEnd(s) == s;
    LowerIs(s, s);
  }

  /** The two canonical labels are their own normal forms, so an exact match is also a normalised one. */
  lemma CanonicalLabels()
    ensures Normalize("member") == "member"
    ensures Normalize("casual") == "casual"
  {
    AlreadyNormal("member");
    AlreadyNormal("casual");
  }

  /** Normalising a normalised label changes nothing. */
  lemma NormalizeIdempotent(text: string)
    ensures Normalize(Normalize(text)) == Normalize(text)
  {
    var n := Normalize(text);
    var t := Strip(text);
    assert n == [] || (!IsSpace(n[0]) && !IsSpace(n[|n| - 1])) by {
      if n != [] {
        assert n[0] == LowerChar(t[0]) && n[|n| - 1] == LowerChar(t[|t| - 1]);
      }
    }
    assert LeadingSpaces(n) == 0;
    assert TrimEnd(n) == n;
    assert Lower(n) == n;
  }
}
