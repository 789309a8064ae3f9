/** Text primitives of .NET's `string` as the camera pipeline uses them,
    restricted to ASCII: white space (`char.IsWhiteSpace`, `Trim`, regex
    `\s`), ordinal case-insensitive comparison (`OrdinalIgnoreCase`),
    decimal digits (regex `\d`, `int.TryParse`, `int.ToString`). */
module Text {
  import opened Wrappers

  const Int32Max: int := 0x7FFF_FFFF

  /** ASCII white space: tab, line feed, vertical tab, form feed, carriage
      return and space. */
  predicate IsWhiteSpace(c: char) {
    c == ' ' || '\t' <= c <= '\r'
  }

  predicate IsDigit(c: char) {
    '0' <= c <= '9'
  }

  /** The regex class `[A-Za-z]`. */
  predicate IsLetter(c: char) {
    'A' <= c <= 'Z' || 'a' <= c <= 'z'
  }

  /** `string.IsNullOrWhiteSpace` on a non-null string. */
  predicate IsBlank(s: string) {
    forall i :: 0 <= i < |s| ==> IsWhiteSpace(s[i])
  }

  predicate AllDigits(s: string) {
    forall i :: 0 <= i < |s| ==> IsDigit(s[i])
  }

  // ---------------------------------------------------------------- Trim

  /** The first position at or after `i` that does not hold white space. */
  function SkipWhite(s: string, i: nat): (r: nat)
    requires i <= |s|
    ensures i <= r <= |s| && (r == |s| || !IsWhiteSpace(s[r]))
    ensures forall m :: i <= m < r ==> IsWhiteSpace(s[m])
    decreases |s| - i
  {
    if i < |s| && IsWhiteSpace(s[i]) then SkipWhite(s, i + 1) else i
  }

  /** The end of `s[lo..j]` once its trailing white space is dropped. */
  function SkipWhiteBack(s: string, lo: nat, j: nat): (r: nat)
    requires lo <= j <= |s|
    ensures lo <= r <= j && (r == lo || !IsWhiteSpace(s[r - 1]))
    ensures forall m :: r <= m < j ==> IsWhiteSpace(s[m])
    decreases j - lo
  {
    if lo < j && IsWhiteSpace(s[j - 1]) then SkipWhiteBack(s, lo, j - 1) else j
  }

  /** `string.Trim()`: skip white space from the front, then from the back,
      and keep what lies between. */
  function Trim(s: string): string {
    var lo := SkipWhite(s, 0);
    s[lo..SkipWhiteBack(s, lo, |s|)]
  }

  /** `Trim` removes a white-space prefix and a white-space suffix and
      nothing else, and leaves neither end on white space; it is empty
      exactly for blank text. */
  lemma TrimSlice(s: string) returns (i: nat)
    ensures i + |Trim(s)| <= |s| && Trim(s) == s[i..i + |Trim(s)|]
    ensures IsBlank(s[..i]) && IsBlank(s[i + |Trim(s)|..])
    ensures Trim(s) != [] ==> !IsWhiteSpace(Trim(s)[0]) && !IsWhiteSpace(Trim(s)[|Trim(s)| - 1])
    ensures Trim(s) == [] <==> IsBlank(s)
  {
    i := SkipWhite(s, 0);
    var e := SkipWhiteBack(s, i, |s|);
    assert s[0..i] == s[..i];
    if e == i {
      assert i == |s|;
      assert s[..i] == s;
    }
  }

  /** A text that neither starts nor ends with white space is its own
      trim. */
  lemma TrimKeeps(s: string)
    requires s != [] ==> !IsWhiteSpace(s[0]) && !IsWhiteSpace(s[|s| - 1])
    ensures Trim(s) == s
  {
    assert [] + s + [] == s;
    TrimUnique([], s, []);
  }

  /** Trimming leaves nothing exactly when the text is blank. */
  lemma TrimEmpty(s: string)
    ensures Trim(s) == [] <==> IsBlank(s)
  {
    var _ := TrimSlice(s);
  }

  lemma BlankConcat(x: string, y: string)
    requires IsBlank(x) && IsBlank(y)
    ensures IsBlank(x + y)
  {
    forall k | 0 <= k < |x + y| ensures IsWhiteSpace((x + y)[k]) {
      if k >= |x| { assert (x + y)[k] == y[k - |x|]; }
    }
  }

  /** Text that is `r` padded with white space on both sides trims to `r`,
      when `r` itself neither starts nor ends with white space. */
  lemma TrimUnique(a: string, r: string, c: string)
    requires IsBlank(a) && IsBlank(c)
    requires r != [] ==> !IsWhiteSpace(r[0]) && !IsWhiteSpace(r[|r| - 1])
    ensures Trim(a + r + c) == r
  {
    var s := a + r + c;
    var i := TrimSlice(s);
    if r == [] {
      assert s == a + c;
      BlankConcat(a, c);
    } else {
      assert s[|a|] == r[0];
      assert s[|a| + |r| - 1] == r[|r| - 1];
      assert s[|a|..|a| + |r|] == r;
    }
  }

  lemma Regroup(a: string, x: string, y: string, z: string, c: string)
    ensures a + (x + y + z) + c == (a + x) + y + (z + c)
  {
  }

  /** White space around `b` does not change what `b` trims to. */
  lemma TrimPadded(a: string, b: string, c: string)
    requires IsBlank(a) && IsBlank(c)
    ensures Trim(a + b + c) == Trim(b)
  {
    var i := TrimSlice(b);
    var t := Trim(b);
    var n := |t|;
    var b1, b2 := b[..i], b[i + n..];
    assert b == b1 + t + b2;
    BlankConcat(a, b1);
    BlankConcat(b2, c);
    Regroup(a, b1, t, b2, c);
    TrimUnique(a + b1, t, b2 + c);
  }

  // -------------------------------------------- ordinal, case-insensitive

  /** The ordinal case fold of one ASCII character. */
  function ToUpper(c: char): char {
    if 'a' <= c <= 'z' then (c as int - 32) as char else c
  }

  /** `string.Equals(a, b, StringComparison.OrdinalIgnoreCase)`. */
  predicate EqualsIgnoreCase(a: string, b: string) {
    |a| == |b| && forall i :: 0 <= i < |a| ==> ToUpper(a[i]) == ToUpper(b[i])
  }

  /** `s.StartsWith(prefix, StringComparison.OrdinalIgnoreCase)`. */
  predicate StartsWithIgnoreCase(s: string, prefix: string) {
    |prefix| <= |s| && EqualsIgnoreCase(s[..|prefix|], prefix)
  }

  /** `s.EndsWith(suffix, StringComparison.OrdinalIgnoreCase)`. */
  predicate EndsWithIgnoreCase(s: string, suffix: string) {
    |suffix| <= |s| && EqualsIgnoreCase(s[|s| - |suffix|..], suffix)
  }

  /** `t` occurs in `s` at position `i`, ignoring case. */
  predicate MatchesAt(s: string, t: string, i: nat) {
    i + |t| <= |s| && EqualsIgnoreCase(s[i..i + |t|], t)
  }

  /** `s.IndexOf(t, StringComparison.OrdinalIgnoreCase)`, scanning from
      position `from`: the first position at which `t` occurs. */
  function IndexOfIgnoreCase(s: string, t: string, from: nat): (r: Option<nat>)
    requires from <= |s|
    ensures r.Some? ==> from <= r.value && MatchesAt(s, t, r.value)
    ensures r.Some? ==> forall j :: from <= j < r.value ==> !MatchesAt(s, t, j)
    ensures r.None? ==> forall j :: from <= j <= |s| ==> !MatchesAt(s, t, j)
    decreases |s| - from
  {
    if MatchesAt(s, t, from) then Some(from)
    else if from == |s| then None
    else IndexOfIgnoreCase(s, t, from + 1)
  }

  /** `s.Contains(t, StringComparison.OrdinalIgnoreCase)`. */
  predicate ContainsIgnoreCase(s: string, t: string) {
    IndexOfIgnoreCase(s, t, 0).Some?
  }

  /** `Contains` holds exactly when `t` occurs somewhere in `s`. */
  lemma ContainsIgnoreCaseIff(s: string, t: string)
    ensures ContainsIgnoreCase(s, t) <==> exists i :: 0 <= i <= |s| && MatchesAt(s, t, i)
  {
    if ContainsIgnoreCase(s, t) {
      var i := IndexOfIgnoreCase(s, t, 0).value;
      assert MatchesAt(s, t, i);
    }
  }

  // ------------------------------------------------------ decimal numbers

  function DigitValue(c: char): nat
    requires IsDigit(c)
  {
    c as int - '0' as int
  }

  /** The value of a run of decimal digits, most significant first. */
  function DecimalValue(ds: string): nat
    requires AllDigits(ds)
  {
    if ds == [] then 0 else 10 * DecimalValue(ds[..|ds| - 1]) + DigitValue(ds[|ds| - 1])
  }

  function DigitChar(d: nat): (c: char)
    requires d < 10
    ensures IsDigit(c) && DigitValue(c) == d
  {
    ('0' as int + d) as char
  }

  /** `n.ToString()` for a non-negative `n`. */
  function FormatNat(n: nat): (r: string)
    ensures r != [] && AllDigits(r)
  {
    if n < 10 then [DigitChar(n)] else FormatNat(n / 10) + [DigitChar(n % 10)]
  }

  /** `n.ToString()` with an ASCII minus sign. */
  function FormatInt(n: int): string {
    if n < 0 then "-" + FormatNat(-n) else FormatNat(n)
  }

  /** Reading back what `FormatNat` writes gives the number again. */
  lemma {:induction false} FormatNatRoundTrip(n: nat)
    ensures DecimalValue(FormatNat(n)) == n
  {
    if n >= 10 {
      FormatNatRoundTrip(n / 10);
      var s := FormatNat(n);
      assert s[..|s| - 1] == FormatNat(n / 10);
    }
  }
}
