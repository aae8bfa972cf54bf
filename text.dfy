/** The string primitives the normalisers are built from: Python's `str.strip()`,
    the `s.lower() == "nan"` test and the character-class deletion `re.sub(r"[^...]", "", s)`. */
module Text {

  /** The characters Python's `str.isspace()` accepts, which `str.strip()` removes. */
  predicate IsSpace(c: char) {
    || c == ' '
    || ('\t' <= c <= '\r')
    || ('\U{1C}' <= c <= '\U{1F}')
    || c == '\U{85}' || c == '\U{A0}' || c == '\U{1680}'
    || ('\U{2000}' <= c <= '\U{200A}')
    || c == '\U{2028}' || c == '\U{2029}' || c == '\U{202F}' || c == '\U{205F}' || c == '\U{3000}'
  }

  /** The ASCII decimal digits, the characters `\d` keeps in this model. */
  predicate IsDigit(c: char) {
    '0' <= c <= '9'
  }

  /** The class `[\d.]`: a digit or a decimal point. */
  predicate IsNumeric(c: char) {
    IsDigit(c) || c == '.'
  }

  /** Every character of `s` is whitespace (this includes the empty string). */
  predicate IsBlank(s: string) {
    forall i :: 0 <= i < |s| ==> IsSpace(s[i])
  }

  /** `s.lower() == "nan"`. Lower-casing never shortens a string, and the only
      characters whose lower case is `n` or `a` are `n`, `N`, `a` and `A`. */
  predicate IsNanText(s: string) {
    && |s| == 3
    && (s[0] == 'n' || s[0] == 'N')
    && (s[1] == 'a' || s[1] == 'A')
    && (s[2] == 'n' || s[2] == 'N')
  }

  /** The number of whitespace characters at the start of `s`. */
  function LeadingSpaces(s: string): (n: nat)
    ensures n <= |s|
    ensures forall i :: 0 <= i < n ==> IsSpace(s[i])
    ensures n < |s| ==> !IsSpace(s[n])
  {
    if s != [] && IsSpace(s[0]) then
      var n := LeadingSpaces(s[1..]);
      assert forall i :: 1 <= i < 1 + n ==> s[i] == s[1..][i - 1];
      1 + n
    else
      0
  }

  /** The number of whitespace characters at the end of `s`. */
  function TrailingSpaces(s: string): (n: nat)
    ensures n <= |s|
    ensures forall i :: |s| - n <= i < |s| ==> IsSpace(s[i])
    ensures n < |s| ==> !IsSpace(s[|s| - 1 - n])
  {
    if s != [] && IsSpace(s[|s| - 1]) then
      var n := TrailingSpaces(s[..|s| - 1]);
      assert forall i :: |s| - 1 - n <= i < |s| - 1 ==> s[i] == s[..|s| - 1][i];
      1 + n
    else
      0
  }

  /** Python's `s.strip()`: what is left of `s` once whitespace is removed from both ends. */
  function Strip(s: string): (r: string)
    ensures r == [] <==> IsBlank(s)
    ensures r != [] ==> !IsSpace(r[0]) && !IsSpace(r[|r| - 1])
  {
    var t := s[LeadingSpaces(s)..];
    t[..|t| - TrailingSpaces(t)]
  }

  /** `re.sub(r"[^K]", "", s)` for a character class K: the characters of `s`
      that `keep` accepts, in their original order. */
  function Retain(s: string, keep: char -> bool): (r: string)
    ensures |r| <= |s|
    ensures forall i :: 0 <= i < |r| ==> keep(r[i])
    ensures r == [] <==> forall i :: 0 <= i < |s| ==> !keep(s[i])
  {
    if s == [] then []
    else
      var rest := Retain(s[1..], keep);
      assert forall i :: 1 <= i < |s| ==> s[i] == s[1..][i - 1];
      (if keep(s[0]) then [s[0]] else []) + rest
  }

  /** The filter only deletes: every character it returns comes from `s`. */
  lemma {:induction false} RetainFrom(s: string, keep: char -> bool)
    ensures forall i :: 0 <= i < |Retain(s, keep)| ==> Retain(s, keep)[i] in s
  {
    if s != [] {
      RetainFrom(s[1..], keep);
      var head := if keep(s[0]) then [s[0]] else [];
      assert Retain(s, keep) == head + Retain(s[1..], keep);
      forall i | 0 <= i < |Retain(s, keep)| ensures Retain(s, keep)[i] in s {
        if i >= |head| {
          assert Retain(s, keep)[i] == Retain(s[1..], keep)[i - |head|];
          assert Retain(s[1..], keep)[i - |head|] in s[1..];
        }
      }
    }
  }

  /** Deleting characters distributes over concatenation: the filter is a homomorphism,
      so it keeps the accepted characters in order and nothing else. */
  lemma {:induction false} RetainConcat(a: string, b: string, keep: char -> bool)
    ensures Retain(a + b, keep) == Retain(a, keep) + Retain(b, keep)
  {
    if a != [] {
      var head := if keep(a[0]) then [a[0]] else [];
      assert (a + b)[0] == a[0] && (a + b)[1..] == a[1..] + b;
      RetainConcat(a[1..], b, keep);
      calc {
        Retain(a + b, keep);
        head + Retain(a[1..] + b, keep);
        head + (Retain(a[1..], keep) + Retain(b, keep));
        (head + Retain(a[1..], keep)) + Retain(b, keep);
        Retain(a, keep) + Retain(b, keep);
      }
    } else {
      assert a + b == b;
    }
  }

  /** A string made only of accepted characters survives the filter unchanged. */
  lemma {:induction false} RetainAll(s: string, keep: char -> bool)
    requires forall i :: 0 <= i < |s| ==> keep(s[i])
    ensures Retain(s, keep) == s
  {
    if s != [] {
      RetainAll(s[1..], keep);
    }
  }

  /** Filtering out every whitespace character first changes nothing: when `keep`
      rejects whitespace, the filter of the stripped string is the filter of the string. */
  lemma RetainStrip(s: string, keep: char -> bool)
    requires forall c :: keep(c) ==> !IsSpace(c)
    ensures Retain(Strip(s), keep) == Retain(s, keep)
  {
    var head, tail := StripSplit(s);
    BlankRetainsNothing(head, keep);
    BlankRetainsNothing(tail, keep);
    RetainBetween(head, Strip(s), tail, keep);
  }

  /** A string is its stripped form between two runs of whitespace. */
  lemma StripSplit(s: string) returns (head: string, tail: string)
    ensures s == head + Strip(s) + tail
    ensures IsBlank(head) && IsBlank(tail)
  {
    var a := LeadingSpaces(s);
    var t := s[a..];
    var r := t[..|t| - TrailingSpaces(t)];
    head, tail := s[..a], t[|r|..];
    LeadingBlank(s);
    TrailingBlank(t);
    Sandwich(s, a, |r|);
  }

  lemma Sandwich<T>(s: seq<T>, a: nat, k: nat)
    requires a + k <= |s|
    ensures s == s[..a] + s[a..][..k] + s[a..][k..]
  {
    assert s == s[..a] + s[a..];
    assert s[a..] == s[a..][..k] + s[a..][k..];
  }

  lemma LeadingBlank(s: string)
    ensures IsBlank(s[..LeadingSpaces(s)])
  {
    var head := s[..LeadingSpaces(s)];
    forall i | 0 <= i < |head| ensures IsSpace(head[i]) {
      assert head[i] == s[i];
    }
  }

  lemma TrailingBlank(t: string)
    ensures IsBlank(t[|t| - TrailingSpaces(t)..])
  {
    var k := |t| - TrailingSpaces(t);
    var tail := t[k..];
    forall i | 0 <= i < |tail| ensures IsSpace(tail[i]) {
      assert tail[i] == t[k + i];
    }
  }

  /** Deleting what the filter would delete anyway, on either side, changes nothing. */
  lemma RetainBetween(head: string, r: string, tail: string, keep: char -> bool)
    requires Retain(head, keep) == [] && Retain(tail, keep) == []
    ensures Retain(head + r + tail, keep) == Retain(r, keep)
  {
    RetainConcat(head + r, tail, keep);
    RetainConcat(head, r, keep);
    assert [] + Retain(r, keep) + [] == Retain(r, keep);
  }

  lemma BlankRetainsNothing(s: string, keep: char -> bool)
    requires forall c :: keep(c) ==> !IsSpace(c)
    requires IsBlank(s)
    ensures Retain(s, keep) == []
  {
  }
}
