/**
  The few java.lang.String, Character and Integer operations that the
  preprocessor and the tag handler rely on, stated as pure functions over
  `seq<char>`.
 */
module JavaText {

  /** `p` occurs in `s` starting at offset `k`. */
  predicate OccursAt(s: string, p: string, k: int)
  {
    0 <= k && k + |p| <= |s| && s[k..k + |p|] == p
  }

  /**
    `s.indexOf(p, from)`: the first offset at or after `from` where `p`
    occurs, or -1 when there is none. Only offsets up to `|s|` are used here.
   */
  function IndexOf(s: string, p: string, from: nat): (r: int)
    requires from <= |s|
    ensures r == -1 || (from <= r && OccursAt(s, p, r))
    decreases |s| - from
  {
    if from + |p| > |s| then -1
    else if s[from..from + |p|] == p then from
    else IndexOf(s, p, from + 1)
  }

  /** `indexOf` finds the first occurrence: none lies between `from` and its result. */
  lemma {:induction false} IndexOfFirst(s: string, p: string, from: nat)
    requires from <= |s|
    ensures var r := IndexOf(s, p, from);
      (r == -1 ==> forall k :: from <= k ==> !OccursAt(s, p, k))
      && (r != -1 ==> forall k :: from <= k < r ==> !OccursAt(s, p, k))
    decreases |s| - from
  {
    if from + |p| <= |s| && s[from..from + |p|] != p {
      IndexOfFirst(s, p, from + 1);
    }
  }

  /** A search resumed at `b` finds the same as one from `a`, when nothing lies in between. */
  lemma {:induction false} IndexOfSkip(s: string, p: string, a: nat, b: nat)
    requires a <= b <= |s|
    requires IndexOf(s, p, a) == -1 || IndexOf(s, p, a) >= b
    ensures IndexOf(s, p, b) == IndexOf(s, p, a)
    decreases b - a
  {
    if a < b {
      assert IndexOf(s, p, a) != a;
      assert IndexOf(s, p, a) == IndexOf(s, p, a + 1);
      IndexOfSkip(s, p, a + 1, b);
    }
  }

  /** A pattern with a character that does not occur from `from` on is not found. */
  lemma IndexOfNone(s: string, p: string, from: nat, d: nat)
    requires from <= |s| && d < |p| && p[d] !in s[from..]
    ensures IndexOf(s, p, from) == -1
  {
    forall k | from <= k && k + |p| <= |s| ensures !OccursAt(s, p, k) {
      assert s[k..k + |p|][d] == s[k + d];
      assert s[from..][k + d - from] == s[k + d];
    }
  }

  /** A match at `r` is the one found when, in between, character `d` of the pattern never lines up. */
  lemma IndexOfAt(s: string, p: string, from: nat, r: nat, d: nat)
    requires from <= r && OccursAt(s, p, r) && d < |p|
    requires p[d] !in s[from + d..r + d]
    ensures IndexOf(s, p, from) == r
  {
    IndexOfFirst(s, p, from);
    forall k | from <= k < r ensures !OccursAt(s, p, k) {
      assert s[from + d..r + d][k - from] == s[k + d];
      if k + |p| <= |s| {
        assert s[k..k + |p|][d] == s[k + d];
      }
    }
  }

  /** A position where some character of the pattern does not line up is passed over. */
  lemma IndexOfPast(s: string, p: string, from: nat, d: nat)
    requires from + |p| <= |s| && d < |p| && s[from + d] != p[d]
    ensures IndexOf(s, p, from) == IndexOf(s, p, from + 1)
  {
    assert s[from..from + |p|][d] == s[from + d];
  }

  /** Number of occurrences of the character `c` in `s`. */
  function Count(s: string, c: char): nat
  {
    if s == [] then 0 else (if s[0] == c then 1 else 0) + Count(s[1..], c)
  }

  /**
    `Character.isWhitespace`: the space, line and paragraph separators of
    Unicode except the non-breaking ones, and the ASCII controls
    TAB, LF, VT, FF, CR and FS, GS, RS, US.
   */
  predicate IsWhitespace(c: char)
  {
    c == ' ' || ('\t' <= c <= '\r') || ('\U{001C}' <= c <= '\U{001F}')
    || c == '\U{1680}' || ('\U{2000}' <= c <= '\U{2006}') || ('\U{2008}' <= c <= '\U{200A}')
    || c == '\U{2028}' || c == '\U{2029}' || c == '\U{205F}' || c == '\U{3000}'
  }

  /**
    Whether `c` is `equalsIgnoreCase`-equal to the lower-case ASCII letter or
    other ASCII character `d`: the same character, its ASCII upper-case form,
    or one of the non-ASCII characters whose Java case mapping reaches `d`
    (dotted capital I, dotless small i, long s, Kelvin sign).
   */
  predicate CharMatchesLower(c: char, d: char)
  {
    c == d
    || ('a' <= d <= 'z' && c as int == d as int - 32)
    || (d == 'i' && (c == '\U{0130}' || c == '\U{0131}'))
    || (d == 's' && c == '\U{017F}')
    || (d == 'k' && c == '\U{212A}')
  }

  /** `name.equalsIgnoreCase(constant)` for a constant written in lower case. */
  predicate EqualsIgnoreCase(name: string, constant: string)
  {
    |name| == |constant| && forall i :: 0 <= i < |name| ==> CharMatchesLower(name[i], constant[i])
  }

  function Digit(d: nat): (c: char)
    requires d < 10
    ensures '0' <= c <= '9'
  {
    "0123456789"[d]
  }

  /** `Integer.toString(n)` for a non-negative `n`: its decimal digits, most significant first. */
  function NatToString(n: nat): (r: string)
    ensures |r| > 0
    ensures forall i :: 0 <= i < |r| ==> '0' <= r[i] <= '9'
    ensures n < 10 ==> r == [Digit(n)]
  {
    if n < 10 then [Digit(n)] else NatToString(n / 10) + [Digit(n % 10)]
  }

  /** Reading the digits back gives the number: the decimal form is faithful. */
  function DigitsValue(s: string): int
  {
    if s == [] then 0 else DigitsValue(s[..|s| - 1]) * 10 + (s[|s| - 1] as int - '0' as int)
  }

  lemma {:induction false} NatToStringRoundTrip(n: nat)
    ensures DigitsValue(NatToString(n)) == n
  {
    if n >= 10 {
      NatToStringRoundTrip(n / 10);
      var r := NatToString(n);
      assert r[..|r| - 1] == NatToString(n / 10);
      assert "0123456789"[n % 10] as int - '0' as int == n % 10;
    } else {
      assert "0123456789"[n] as int - '0' as int == n;
    }
  }
}
