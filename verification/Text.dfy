/** String searching, splitting and decimal numerals, as the standard library of the
    modelled program defines them (`split`, `split_once`, `rsplit_once`, `parse`). */
module Text {
  import opened Prelude

  /** `sep` occurs in `s` at index `i`. */
  predicate OccursAt(s: string, sep: string, i: int) {
    0 <= i && i + |sep| <= |s| && s[i..i + |sep|] == sep
  }

  /** Index of the first occurrence of `sep` at or after `from`. */
  function FindFrom(s: string, sep: string, from: nat): (r: Option<nat>)
    requires from <= |s|
    ensures r.Some? ==> from <= r.value && OccursAt(s, sep, r.value)
    ensures r.Some? ==> forall j :: from <= j < r.value ==> !OccursAt(s, sep, j)
    ensures r.None? ==> forall j :: from <= j ==> !OccursAt(s, sep, j)
    decreases |s| - from
  {
    if OccursAt(s, sep, from) then Some(from)
    else if from == |s| then None
    else FindFrom(s, sep, from + 1)
  }

  /** Index of the last occurrence of `sep` at or before `upTo`. */
  function FindLast(s: string, sep: string, upTo: nat): (r: Option<nat>)
    ensures r.Some? ==> r.value <= upTo && OccursAt(s, sep, r.value)
    ensures r.Some? ==> forall j :: r.value < j <= upTo ==> !OccursAt(s, sep, j)
    ensures r.None? ==> forall j :: 0 <= j <= upTo ==> !OccursAt(s, sep, j)
  {
    if OccursAt(s, sep, upTo) then Some(upTo)
    else if upTo == 0 then None
    else FindLast(s, sep, upTo - 1)
  }

  /** `s.split_once(sep)` */
  function SplitOnce(s: string, sep: string): (r: Option<(string, string)>)
    ensures r.Some? ==> s == r.value.0 + sep + r.value.1
  {
    match FindFrom(s, sep, 0)
    case None => None
    case Some(i) => Some((s[..i], s[i + |sep|..]))
  }

  /** `s.rsplit_once(sep)` */
  function RSplitOnce(s: string, sep: string): (r: Option<(string, string)>)
    ensures r.Some? ==> s == r.value.0 + sep + r.value.1
  {
    match FindLast(s, sep, |s|)
    case None => None
    case Some(i) => Some((s[..i], s[i + |sep|..]))
  }

  /** `s.split(sep)`: left to right, occurrences not overlapping. */
  function Split(s: string, sep: string): (r: seq<string>)
    requires sep != ""
    ensures |r| > 0
    decreases |s|
  {
    match FindFrom(s, sep, 0)
    case None => [s]
    case Some(i) => [s[..i]] + Split(s[i + |sep|..], sep)
  }

  /** The tokens written out with `sep` between them. */
  function Join(tokens: seq<string>, sep: string): string
    requires |tokens| > 0
  {
    if |tokens| == 1 then tokens[0] else tokens[0] + sep + Join(tokens[1..], sep)
  }

  /** The characters of a separator do not occur in the token. */
  predicate Avoids(token: string, c: char) { c !in token }

  predicate AllAvoid(tokens: seq<string>, c: char) {
    forall t :: t in tokens ==> Avoids(t, c)
  }

  /** A separator made of one repeated character cannot straddle the end of a token without it. */
  predicate Uniform(sep: string, c: char) {
    sep != "" && forall i :: 0 <= i < |sep| ==> sep[i] == c
  }

  lemma FirstAfterToken(a: string, rest: string, sep: string, c: char)
    requires Avoids(a, c) && Uniform(sep, c)
    ensures FindFrom(a + sep + rest, sep, 0) == Some(|a|)
  {
    var s := a + sep + rest;
    assert s[|a|..|a| + |sep|] == sep;
    forall j | 0 <= j < |a| ensures !OccursAt(s, sep, j) {
      if j + |sep| <= |s| {
        assert s[j..j + |sep|][0] == a[j] != sep[0];
      }
    }
    assert OccursAt(s, sep, |a|);
  }

  lemma NoneInToken(a: string, sep: string, c: char)
    requires Avoids(a, c) && Uniform(sep, c)
    ensures FindFrom(a, sep, 0) == None
  {
    forall j | 0 <= j ensures !OccursAt(a, sep, j) {
      if j + |sep| <= |a| {
        assert a[j..j + |sep|][0] == a[j] != sep[0];
      }
    }
  }

  lemma LastBeforeToken(prefix: string, t: string, sep: string, c: char)
    requires Avoids(t, c) && Uniform(sep, c)
    ensures RSplitOnce(prefix + sep + t, sep) == Some((prefix, t))
  {
    var s := prefix + sep + t;
    assert s[|prefix|..|prefix| + |sep|] == sep;
    forall j | |prefix| < j <= |s| ensures !OccursAt(s, sep, j) {
      if j + |sep| <= |s| {
        assert s[j..j + |sep|][|sep| - 1] == t[j - 1 - |prefix|] != sep[|sep| - 1];
      }
    }
    assert OccursAt(s, sep, |prefix|);
    assert FindLast(s, sep, |s|) == Some(|prefix|);
    assert s[..|prefix|] == prefix;
    assert s[|prefix| + |sep|..] == t;
  }

  lemma SplitOnceAtToken(a: string, rest: string, sep: string, c: char)
    requires Avoids(a, c) && Uniform(sep, c)
    ensures SplitOnce(a + sep + rest, sep) == Some((a, rest))
  {
    FirstAfterToken(a, rest, sep, c);
    var s := a + sep + rest;
    assert s[..|a|] == a;
    assert s[|a| + |sep|..] == rest;
  }

  lemma SplitFirstToken(a: string, rest: string, sep: string, c: char)
    requires Avoids(a, c) && Uniform(sep, c)
    ensures Split(a + sep + rest, sep) == [a] + Split(rest, sep)
  {
    FirstAfterToken(a, rest, sep, c);
    hide FindFrom, Avoids, Uniform;
    var s := a + sep + rest;
    assert s[..|a|] == a && s[|a| + |sep|..] == rest;
  }

  lemma SplitOneToken(a: string, sep: string, c: char)
    requires Avoids(a, c) && Uniform(sep, c)
    ensures Split(a, sep) == [a]
  {
    NoneInToken(a, sep, c);
  }

  /** Splitting undoes joining when no token holds the separator's character. */
  lemma {:induction false} SplitJoin(tokens: seq<string>, sep: string, c: char)
    requires |tokens| > 0 && AllAvoid(tokens, c) && Uniform(sep, c)
    ensures Split(Join(tokens, sep), sep) == tokens
  {
    hide Split, Avoids, Uniform;
    assert Avoids(tokens[0], c);
    if |tokens| == 1 {
      SplitOneToken(tokens[0], sep, c);
    } else {
      SplitFirstToken(tokens[0], Join(tokens[1..], sep), sep, c);
      SplitJoin(tokens[1..], sep, c);
      assert tokens == [tokens[0]] + tokens[1..];
    }
  }

  lemma {:induction false} JoinAppend(tokens: seq<string>, last: string, sep: string)
    requires |tokens| > 0
    ensures Join(tokens + [last], sep) == Join(tokens, sep) + sep + last
  {
    var all := tokens + [last];
    if |tokens| == 1 {
      assert all[1..] == [last];
    } else {
      assert all[1..] == tokens[1..] + [last];
      JoinAppend(tokens[1..], last, sep);
    }
  }

  // ----- decimal numerals -----

  predicate IsDigit(c: char) { '0' <= c <= '9' }

  function DigitChar(d: nat): (c: char)
    requires d < 10
    ensures IsDigit(c) && c as int - '0' as int == d
  {
    ('0' as int + d) as char
  }

  predicate AllDigits(s: string) { forall i :: 0 <= i < |s| ==> IsDigit(s[i]) }

  /** Decimal digits of `n`, most significant first. */
  function Digits(n: nat): (s: string)
    ensures s != "" && AllDigits(s)
  {
    if n < 10 then [DigitChar(n)] else Digits(n / 10) + [DigitChar(n % 10)]
  }

  function DigitsValue(s: string): nat
    requires AllDigits(s)
  {
    if s == "" then 0
    else DigitsValue(s[..|s| - 1]) * 10 + (s[|s| - 1] as int - '0' as int)
  }

  lemma {:induction false} DigitsRoundTrip(n: nat)
    ensures DigitsValue(Digits(n)) == n
  {
    if n >= 10 {
      DigitsRoundTrip(n / 10);
      var s := Digits(n);
      assert s[..|s| - 1] == Digits(n / 10);
    }
  }

  /** A signed decimal numeral as the source prints an integer. */
  function PrintInt(n: int): string {
    if n < 0 then "-" + Digits(-n) else Digits(n)
  }

  /** `parse` of a signed integer type with the given bounds: an optional sign, then at
      least one digit, and a value within the bounds. */
  function ParseSigned(s: string, lo: int, hi: int): (r: Option<int>)
    ensures r.Some? ==> lo <= r.value <= hi
  {
    var negative := s != "" && s[0] == '-';
    var digits := if s != "" && (s[0] == '-' || s[0] == '+') then s[1..] else s;
    if digits == "" || !AllDigits(digits) then None
    else
      var magnitude: int := DigitsValue(digits);
      var v := if negative then -magnitude else magnitude;
      if lo <= v <= hi then Some(v) else None
  }

  /** `parse` of an unsigned integer type: only a plus sign is tolerated. */
  function ParseUnsigned(s: string, hi: nat): (r: Option<nat>)
    ensures r.Some? ==> r.value <= hi
  {
    var digits := if s != "" && s[0] == '+' then s[1..] else s;
    if digits == "" || !AllDigits(digits) then None
    else if DigitsValue(digits) <= hi then Some(DigitsValue(digits)) else None
  }

  lemma PrintParseSigned(n: int, lo: int, hi: int)
    requires lo <= n <= hi
    ensures ParseSigned(PrintInt(n), lo, hi) == Some(n)
  {
    if n < 0 {
      DigitsRoundTrip(-n);
      assert PrintInt(n)[1..] == Digits(-n);
    } else {
      DigitsRoundTrip(n);
      assert IsDigit(Digits(n)[0]);
    }
  }

  lemma PrintParseUnsigned(n: nat, hi: nat)
    requires n <= hi
    ensures ParseUnsigned(Digits(n), hi) == Some(n)
  {
    DigitsRoundTrip(n);
    assert IsDigit(Digits(n)[0]);
  }

  /** Printed integers never contain the given non-numeric character. */
  lemma PrintIntAvoids(n: int, c: char)
    requires !IsDigit(c) && c != '-'
    ensures Avoids(PrintInt(n), c)
  {
    var digits := Digits(if n < 0 then -n else n);
    assert forall i :: 0 <= i < |digits| ==> digits[i] != c;
  }

  /** The numeral as a reader counts it. */
  lemma {:induction false} DigitsValueIs(s: string, d: char)
    requires AllDigits(s) && '0' <= d <= '9'
    ensures AllDigits(s + [d]) && DigitsValue(s + [d]) == 10 * DigitsValue(s) + (d as int - 48)
    ensures DigitsValue("") == 0
  {
    assert (s + [d])[..|s|] == s;
  }

  /** `s` is a sign or nothing, and then at least one decimal digit. */
  predicate IsNumeral(s: string, sign: string, digits: string) {
    && s == sign + digits && (sign == "" || sign == "+" || sign == "-") && digits != ""
    && forall i :: 0 <= i < |digits| ==> '0' <= digits[i] <= '9'
  }

  function NumeralValue(sign: string, digits: string): int
    requires forall i :: 0 <= i < |digits| ==> '0' <= digits[i] <= '9'
  {
    var magnitude: int := DigitsValue(digits);
    if sign == "-" then -magnitude else magnitude
  }

  /** Which strings are read as integers between the bounds, and as which: the numerals of one
      within the bounds, and nothing else. */
  lemma SignedExactly(s: string, lo: int, hi: int)
    ensures forall sign, digits :: IsNumeral(s, sign, digits) ==>
              ParseSigned(s, lo, hi) ==
              if lo <= NumeralValue(sign, digits) <= hi then Some(NumeralValue(sign, digits)) else None
    ensures (forall sign, digits :: !IsNumeral(s, sign, digits)) ==> ParseSigned(s, lo, hi) == None
  {
    forall sign, digits | IsNumeral(s, sign, digits)
      ensures ParseSigned(s, lo, hi) ==
              if lo <= NumeralValue(sign, digits) <= hi then Some(NumeralValue(sign, digits)) else None
    {
      NumeralIsRead(s, sign, digits, lo, hi);
    }
    if ParseSigned(s, lo, hi).Some? {
      var sign := if s[0] == '-' || s[0] == '+' then s[..1] else "";
      assert IsNumeral(s, sign, s[|sign|..]);
    }
  }

  lemma NumeralIsRead(s: string, sign: string, digits: string, lo: int, hi: int)
    requires IsNumeral(s, sign, digits)
    ensures ParseSigned(s, lo, hi) ==
            if lo <= NumeralValue(sign, digits) <= hi then Some(NumeralValue(sign, digits)) else None
  {
    hide DigitsValue;
    assert s[|sign|..] == digits && s[0] == (if sign == "" then digits[0] else sign[0]);
  }

  /** The same for unsigned integers, which tolerate a plus sign only. */
  lemma UnsignedExactly(s: string, hi: nat)
    ensures forall sign, digits :: IsNumeral(s, sign, digits) && sign != "-" ==>
              ParseUnsigned(s, hi) == if DigitsValue(digits) <= hi then Some(DigitsValue(digits)) else None
    ensures (forall sign, digits :: !(IsNumeral(s, sign, digits) && sign != "-")) ==> ParseUnsigned(s, hi) == None
  {
    hide DigitsValue;
    forall sign, digits | IsNumeral(s, sign, digits) && sign != "-"
      ensures ParseUnsigned(s, hi) == if DigitsValue(digits) <= hi then Some(DigitsValue(digits)) else None
    {
      assert s[|sign|..] == digits && s[0] == (if sign == "" then digits[0] else sign[0]);
    }
    if ParseUnsigned(s, hi).Some? {
      var sign := if s[0] == '+' then s[..1] else "";
      assert IsNumeral(s, sign, s[|sign|..]);
    }
  }
}
