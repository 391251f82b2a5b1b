/** Small value types and the ASCII approximations of the
    Python string operations the checker relies on: `str.lower()`,
    `str.strip()`, the regular-expression classes `\s` and `\d`, and
    `int(...)` on decimal digit strings. */
module Common {

  datatype Option<T> = None | Some(value: T)

  datatype Result<T, E> = Ok(value: T) | Err(error: E)


  /** Python's `str.isspace()` (and the regex class `\s`) restricted to ASCII:
      tab, line feed, vertical tab, form feed, carriage return, the four
      information separators 0x1C-0x1F, and space. */
  predicate IsSpace(c: char) {
    9 <= c as int <= 13 || 28 <= c as int <= 32
  }

  predicate IsDigit(c: char) {
    '0' <= c <= '9'
  }

  predicate IsUpper(c: char) {
    'A' <= c <= 'Z'
  }

  function LowerChar(c: char): (r: char)
    ensures IsUpper(c) ==> r as int == c as int + 32
    ensures !IsUpper(c) ==> r == c
    ensures !IsUpper(r)
  {
    if IsUpper(c) then (c as int + 32) as char else c
  }

  /** `s.lower()` for ASCII letters; every other character is kept. */
  function Lower(s: string): (r: string)
    ensures |r| == |s|
    ensures forall i :: 0 <= i < |s| ==> r[i] == LowerChar(s[i])
  {
    if s == [] then [] else [LowerChar(s[0])] + Lower(s[1..])
  }

  lemma {:induction false} LowerIdempotent(s: string)
    ensures Lower(Lower(s)) == Lower(s)
  {
    var l := Lower(s);
    var ll := Lower(l);
    assert |ll| == |l|;
    forall i | 0 <= i < |l| ensures ll[i] == l[i] {
      assert ll[i] == LowerChar(l[i]);
      assert !IsUpper(l[i]);
    }
  }

  lemma {:induction false} LowerOfLowerCase(s: string)
    requires forall i :: 0 <= i < |s| ==> !IsUpper(s[i])
    ensures Lower(s) == s
  {
    var l := Lower(s);
    forall i | 0 <= i < |s| ensures l[i] == s[i] {
      assert l[i] == LowerChar(s[i]);
    }
  }

  predicate AllSpaces(s: string) {
    forall i :: 0 <= i < |s| ==> IsSpace(s[i])
  }

  predicate AllDigits(s: string) {
    forall i :: 0 <= i < |s| ==> IsDigit(s[i])
  }

  /** `s` without its leading whitespace: a suffix of `s` that does not
      start with whitespace. */
  function DropSpaces(s: string): (r: string)
    ensures |r| <= |s|
    ensures r != [] ==> !IsSpace(r[0])
  {
    if s != [] && IsSpace(s[0]) then DropSpaces(s[1..]) else s
  }

  /** `DropSpaces` removes a whitespace prefix. */
  lemma {:induction false} DropSpacesRun(s: string)
    ensures DropSpaces(s) == s[|s| - |DropSpaces(s)|..]
    ensures AllSpaces(s[..|s| - |DropSpaces(s)|])
    decreases |s|
  {
    if s != [] && IsSpace(s[0]) {
      DropSpacesRun(s[1..]);
      var n := |s| - |DropSpaces(s)|;
      assert s[1..][n - 1..] == s[n..];
      assert s[..n] == [s[0]] + s[1..][..|s[1..]| - |DropSpaces(s[1..])|];
    }
  }

  /** `s` without its trailing whitespace: a prefix of `s` that does not
      end with whitespace. */
  function DropTrailingSpaces(s: string): (r: string)
    ensures |r| <= |s|
    ensures r != [] ==> !IsSpace(r[|r| - 1])
  {
    if s != [] && IsSpace(s[|s| - 1]) then DropTrailingSpaces(s[..|s| - 1]) else s
  }

  /** `DropTrailingSpaces` removes a whitespace suffix. */
  lemma {:induction false} DropTrailingSpacesRun(s: string)
    ensures DropTrailingSpaces(s) == s[..|DropTrailingSpaces(s)|]
    ensures AllSpaces(s[|DropTrailingSpaces(s)|..])
    decreases |s|
  {
    if s != [] && IsSpace(s[|s| - 1]) {
      var init := s[..|s| - 1];
      DropTrailingSpacesRun(init);
      var n := |DropTrailingSpaces(s)|;
      assert init[..n] == s[..n];
      assert s[n..] == init[n..] + [s[|s| - 1]];
    }
  }

  /** `s.strip()`: drops leading and trailing whitespace. The result is `s`
      with a whitespace prefix and a whitespace suffix cut off, and it
      neither starts nor ends with whitespace. */
  function Strip(s: string): (r: string)
    ensures |r| <= |s|
    ensures r != [] ==> !IsSpace(r[0]) && !IsSpace(r[|r| - 1])
    ensures (s == [] || (!IsSpace(s[0]) && !IsSpace(s[|s| - 1]))) ==> r == s
    ensures exists a, e :: 0 <= a <= e <= |s| && r == s[a..e] && AllSpaces(s[..a]) && AllSpaces(s[e..])
  {
    StripStart(DropSpaces(s));
    StripSliced(s);
    DropTrailingSpaces(DropSpaces(s))
  }

  /** Cutting trailing whitespace keeps a first character that is not whitespace. */
  lemma StripStart(t: string)
    requires t != [] ==> !IsSpace(t[0])
    ensures DropTrailingSpaces(t) != [] ==> DropTrailingSpaces(t)[0] == t[0]
  {
    DropTrailingSpacesRun(t);
  }

  lemma StripSliced(s: string)
    ensures exists a, e :: 0 <= a <= e <= |s| && DropTrailingSpaces(DropSpaces(s)) == s[a..e]
                        && AllSpaces(s[..a]) && AllSpaces(s[e..])
  {
    var a, e := StripBounds(s);
  }

  lemma StripBounds(s: string) returns (a: nat, e: nat)
    ensures a <= e <= |s| && DropTrailingSpaces(DropSpaces(s)) == s[a..e]
    ensures AllSpaces(s[..a]) && AllSpaces(s[e..])
  {
    var t := DropSpaces(s);
    var r := DropTrailingSpaces(t);
    DropSpacesRun(s);
    DropTrailingSpacesRun(t);
    a := |s| - |t|;
    e := a + |r|;
    assert t == s[a..];
    assert r == t[..|r|];
    assert s[e..] == t[|r|..];
  }

  /** Length of the longest prefix of `s` made of ASCII digits. */
  function DigitSpan(s: string): (n: nat)
    ensures n <= |s|
    ensures forall i :: 0 <= i < n ==> IsDigit(s[i])
    ensures n < |s| ==> !IsDigit(s[n])
  {
    if s != [] && IsDigit(s[0]) then 1 + DigitSpan(s[1..]) else 0
  }

  function Pow10(k: nat): (r: nat)
    ensures r >= 1
  {
    if k == 0 then 1 else 10 * Pow10(k - 1)
  }

  /** `int(ds)` for a string of ASCII digits (leading zeros allowed): a
      string of k digits denotes a number below 10^k. */
  function DigitsValue(ds: string): (r: nat)
    requires AllDigits(ds)
    ensures r < Pow10(|ds|)
  {
    if ds == [] then 0
    else
      assert IsDigit(ds[|ds| - 1]);
      DigitsValue(ds[..|ds| - 1]) * 10 + (ds[|ds| - 1] as int - '0' as int)
  }

  /** Leading zeros do not change the value. */
  lemma {:induction false} LeadingZero(ds: string)
    requires AllDigits(ds)
    ensures DigitsValue("0" + ds) == DigitsValue(ds)
    decreases |ds|
  {
    var zs := "0" + ds;
    if ds == [] {
      assert zs[..0] == [];
    } else {
      var init := ds[..|ds| - 1];
      assert zs[..|zs| - 1] == "0" + init;
      assert zs[|zs| - 1] == ds[|ds| - 1];
      LeadingZero(init);
    }
  }

  /** The decimal rendering of a natural number, without leading zeros. */
  function NatToDigits(n: nat): (r: string)
    ensures r != [] && AllDigits(r)
  {
    if n < 10 then [('0' as int + n) as char]
    else NatToDigits(n / 10) + [('0' as int + n % 10) as char]
  }

  lemma {:induction false} DigitsRoundTrip(n: nat)
    ensures DigitsValue(NatToDigits(n)) == n
  {
    var r := NatToDigits(n);
    if n >= 10 {
      DigitsRoundTrip(n / 10);
      assert r[..|r| - 1] == NatToDigits(n / 10);
    }
  }

  /** `s.startswith(prefix)` */
  predicate StartsWith(s: string, prefix: string) {
    prefix <= s
  }
}
