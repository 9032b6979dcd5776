/**
  Text utilities the handlers rely on: ASCII case folding and substring search
  (the `ILIKE '%term%'` filter of the search endpoint), decimal digits (Python's
  `str.isdigit` and `int(...)` on a digit string) and the decimal rendering of an
  identifier (Python's `str(id)`, used as the key of the category map).
*/
module Text {

  /** ASCII lower-casing of one character; every other character is left alone. */
  function LowerChar(c: char): char
  {
    if 'A' <= c <= 'Z' then (c as int + 32) as char else c
  }

  function Lower(s: string): string
  {
    seq(|s|, i requires 0 <= i < |s| => LowerChar(s[i]))
  }

  /** `t` occurs in `s` starting at position `i`. */
  ghost predicate OccursAt(t: string, s: string, i: int)
  {
    0 <= i && i + |t| <= |s| && s[i..i + |t|] == t
  }

  /** `t` occurs in `s` at some position: the meaning of `s LIKE '%t%'`. */
  ghost predicate Occurs(t: string, s: string)
  {
    exists i :: OccursAt(t, s, i)
  }

  /** Executable substring test: `t` is a prefix of `s` or of some suffix of `s`. */
  function Contains(s: string, t: string): bool
    decreases |s|
  {
    if |t| <= |s| && s[..|t|] == t then true
    else if s == [] then false
    else Contains(s[1..], t)
  }

  /** An occurrence in the tail of `s` is an occurrence in `s`, one position later. */
  lemma OccursInTail(t: string, s: string, i: int)
    requires s != [] && OccursAt(t, s[1..], i)
    ensures OccursAt(t, s, i + 1)
  {
    assert s[i + 1..i + 1 + |t|] == s[1..][i..i + |t|];
  }

  /** An occurrence in `s` past position 0 is an occurrence in the tail of `s`. */
  lemma OccursPastHead(t: string, s: string, i: int)
    requires OccursAt(t, s, i) && i > 0
    ensures OccursAt(t, s[1..], i - 1)
  {
    assert s[1..][i - 1..i - 1 + |t|] == s[i..i + |t|];
  }

  lemma {:induction false} ContainsIffOccurs(s: string, t: string)
    ensures Contains(s, t) <==> Occurs(t, s)
    decreases |s|
  {
    if |t| <= |s| && s[..|t|] == t {
      assert OccursAt(t, s, 0);
    } else if s != [] {
      ContainsIffOccurs(s[1..], t);
      if Occurs(t, s[1..]) {
        var i :| OccursAt(t, s[1..], i);
        OccursInTail(t, s, i);
      }
      if Occurs(t, s) {
        var i :| OccursAt(t, s, i);
        assert i != 0;
        OccursPastHead(t, s, i);
      }
    }
  }

  /** Case-insensitive containment, as `ILIKE '%term%'` without wildcards inside `term`. */
  function ContainsIgnoreCase(text: string, term: string): bool
  {
    Contains(Lower(text), Lower(term))
  }

  lemma ContainsIgnoreCaseMeaning(text: string, term: string)
    ensures ContainsIgnoreCase(text, term) <==> Occurs(Lower(term), Lower(text))
  {
    ContainsIffOccurs(Lower(text), Lower(term));
  }

  /** A non-empty term whose first character never occurs in `s` is not contained in `s`. */
  lemma {:induction false} FirstCharAbsent(s: string, t: string)
    requires t != [] && forall i :: 0 <= i < |s| ==> s[i] != t[0]
    ensures !Contains(s, t)
    decreases |s|
  {
    if s != [] {
      assert s[0] != t[0];
      FirstCharAbsent(s[1..], t);
    }
  }

  /** A term whose first letter (ignoring case) does not occur in `text` does not match it. */
  lemma LetterAbsentNoMatch(text: string, term: string)
    requires term != [] && forall i :: 0 <= i < |text| ==> LowerChar(text[i]) != LowerChar(term[0])
    ensures !ContainsIgnoreCase(text, term)
  {
    FirstCharAbsent(Lower(text), Lower(term));
  }

  predicate IsDigit(c: char)
  {
    '0' <= c <= '9'
  }

  predicate AllDigits(s: string)
  {
    forall i :: 0 <= i < |s| ==> IsDigit(s[i])
  }

  /** Python's `str.isdigit()` restricted to ASCII: non-empty and made of digits only. */
  predicate IsDigitString(s: string)
  {
    |s| > 0 && AllDigits(s)
  }

  /** Python's `int(s)` on a string of decimal digits. */
  function ParseDigits(s: string): nat
    requires AllDigits(s)
    decreases |s|
  {
    if s == [] then 0
    else ParseDigits(s[..|s| - 1]) * 10 + (s[|s| - 1] as int - '0' as int)
  }

  function DigitChar(d: nat): char
    requires d < 10
  {
    ('0' as int + d) as char
  }

  /** Python's `str(n)` for a non-negative integer. */
  function NatToString(n: nat): string
    decreases n
  {
    if n < 10 then [DigitChar(n)] else NatToString(n / 10) + [DigitChar(n % 10)]
  }

  /** `int(str(n)) == n`, and `str(n)` is a digit string. */
  lemma {:induction false} ParseNatToString(n: nat)
    ensures IsDigitString(NatToString(n))
    ensures ParseDigits(NatToString(n)) == n
    decreases n
  {
    if n >= 10 {
      ParseNatToString(n / 10);
      var s := NatToString(n);
      assert s[..|s| - 1] == NatToString(n / 10);
    }
  }

  /** Distinct identifiers have distinct decimal renderings. */
  lemma NatToStringInjective(a: nat, b: nat)
    ensures NatToString(a) == NatToString(b) <==> a == b
  {
    ParseNatToString(a);
    ParseNatToString(b);
  }
}
