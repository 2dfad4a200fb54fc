/** NUL-terminated strings and the decimal notation of `printf("%d")` and `strtol`. */
module CStrings {

  const NUL: char := '\0'

  const BUFFER_SIZE: nat := 2048  // general/include/definitions.h:21

  /** What a C function sees of a buffer: everything before its first NUL. */
  function CStr(s: string): (r: string)
    ensures r <= s && NUL !in r
    ensures |r| == |s| || s[|r|] == NUL
  {
    if s == "" || s[0] == NUL then "" else
      var r := [s[0]] + CStr(s[1..]);
      assert forall c :: c in r ==> c == s[0] || c in CStr(s[1..]);
      r
  }

  /** A prefix without NUL that is followed by a NUL, or by nothing, is the C string. */
  lemma {:induction false} CStrIs(s: string, r: string)
    requires r <= s && NUL !in r
    requires |r| == |s| || s[|r|] == NUL
    ensures CStr(s) == r
  {
    if r != "" {
      assert s[0] == r[0] && s[0] in r;
      assert forall c :: c in r[1..] ==> c in r;
      CStrIs(s[1..], r[1..]);
    }
  }

  function Zeros(n: nat): (r: string)
    ensures |r| == n && forall k :: 0 <= k < n ==> r[k] == NUL
  {
    seq(n, _ => NUL)
  }

  predicate IsDigit(c: char) { '0' <= c <= '9' }

  predicate AllDigits(s: string) { forall k :: 0 <= k < |s| ==> IsDigit(s[k]) }

  function DecimalNat(n: nat): (r: string)
    ensures r != "" && AllDigits(r)
  {
    var last := ['0' + (n % 10) as char];
    if n < 10 then last else DecimalNat(n / 10) + last
  }

  /** `%d` */
  function Decimal(n: int): (r: string)
    ensures r != ""
    ensures forall c :: c in r ==> IsDigit(c) || c == '-'
  {
    if n < 0 then "-" + DecimalNat(-n) else DecimalNat(n)
  }

  /** The number a run of digits denotes. */
  function DigitsValue(s: string): nat
    requires AllDigits(s)
  {
    if s == "" then 0
    else 10 * DigitsValue(s[..|s| - 1]) + (s[|s| - 1] - '0') as int
  }

  /** Printing a number and reading its digits gives the number back. */
  lemma {:induction false} DecimalRoundTrip(n: nat)
    ensures DigitsValue(DecimalNat(n)) == n
  {
    var r := DecimalNat(n);
    if n >= 10 {
      DecimalRoundTrip(n / 10);
      assert r[..|r| - 1] == DecimalNat(n / 10);
    } else {
      assert r[..|r| - 1] == "";
    }
  }

  /** Numbers are written digit by digit, the last digit last. */
  lemma DecimalIs(n: nat, d: nat)
    requires d < 10
    ensures DecimalNat(d) == [('0' as int + d) as char]
    ensures n > 0 ==> DecimalNat(10 * n + d) == DecimalNat(n) + [('0' as int + d) as char]
    ensures Decimal(n) == DecimalNat(n) && (n > 0 ==> Decimal(0 - n as int) == "-" + DecimalNat(n))
  {
    assert n > 0 ==> (10 * n + d) / 10 == n && (10 * n + d) % 10 == d;
  }

  function Pow10(k: nat): (p: nat)
    ensures p >= 1
  {
    if k == 0 then 1 else 10 * Pow10(k - 1)
  }

  /** A number prints in at most k digits exactly when it is below 10^k. */
  lemma {:induction false} DecimalLength(n: nat, k: nat)
    requires k >= 1
    ensures |DecimalNat(n)| <= k <==> n < Pow10(k)
  {
    if k == 1 {
      assert Pow10(1) == 10;
      if n >= 10 { assert |DecimalNat(n / 10)| >= 1; }
    } else if n < 10 {
      assert Pow10(k) >= 10;
    } else {
      DecimalLength(n / 10, k - 1);
      assert Pow10(k) == 10 * Pow10(k - 1);
    }
  }

  /** The index of the first `c`, or the length if there is none. */
  function Find(s: string, c: char): (i: nat)
    ensures i <= |s| && (i < |s| ==> s[i] == c)
    ensures forall k :: 0 <= k < i ==> s[k] != c
  {
    if s == "" || s[0] == c then 0 else 1 + Find(s[1..], c)
  }

  lemma {:induction false} FindIs(s: string, c: char, i: nat)
    requires i <= |s| && (i < |s| ==> s[i] == c) && c !in s[..i]
    ensures Find(s, c) == i
  {
    if i > 0 {
      assert s[..i][0] == s[0] && s[1..][..i - 1] == s[..i][1..];
      FindIs(s[1..], c, i - 1);
    }
  }

  // ---------- cutting strings ----------

  /** Cuts at every character of `seps`; the pieces keep the order and may be empty. */
  function Split(s: string, seps: string): (pieces: seq<string>)
    ensures pieces != []
  {
    if s == "" then [""]
    else if s[0] in seps then [""] + Split(s[1..], seps)
    else var rest := Split(s[1..], seps); [[s[0]] + rest[0]] + rest[1..]
  }

  lemma {:induction false} SplitAtSeparator(a: string, c: char, b: string, seps: string)
    requires c in seps
    ensures Split(a + [c] + b, seps) == Split(a, seps) + Split(b, seps)
  {
    if a == "" {
      assert ([] + [c] + b)[1..] == b;
    } else {
      assert (a + [c] + b)[1..] == a[1..] + [c] + b;
      SplitAtSeparator(a[1..], c, b, seps);
    }
  }

  lemma {:induction false} SplitWithout(s: string, seps: string)
    requires forall c :: c in s ==> c !in seps
    ensures Split(s, seps) == [s]
  {
    if s != "" {
      assert forall c :: c in s[1..] ==> c in s;
      SplitWithout(s[1..], seps);
      assert [s[0]] + s[1..] == s;
    }
  }

  /** The pieces that are not empty. */
  function NonEmpty(pieces: seq<string>): seq<string> {
    if pieces == [] then []
    else (if pieces[0] == "" then [] else [pieces[0]]) + NonEmpty(pieces[1..])
  }

  lemma CutAt<T>(s: seq<T>, i: nat)
    requires i < |s|
    ensures s == s[..i] + [s[i]] + s[i + 1..]
  {
  }

  lemma Associate<T>(a: seq<T>, b: seq<T>, c: seq<T>)
    ensures a + (b + c) == a + b + c
  {
  }
}
