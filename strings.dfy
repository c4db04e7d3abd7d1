/**
 * String helpers shared by the models: substring search (JavaScript's
 * `includes`/`indexOf`, Python's `in`) and decimal rendering of integers
 * (Python's `str` on an int).
 */
module Strings {
  import opened Wrappers

  /** `t` occurs in `s` starting at index `k`. */
  predicate OccursAt(s: string, t: string, k: nat) {
    k + |t| <= |s| && s[k..k + |t|] == t
  }

  /** `s.includes(t)` / `t in s`; the empty string occurs in every string. */
  predicate Contains(s: string, t: string)
    decreases |s|
  {
    t <= s || (|s| > 0 && Contains(s[1..], t))
  }

  /** Index of the first occurrence of `t` in `s`, if any. */
  function IndexOf(s: string, t: string): (r: Option<nat>)
    ensures r.Some? ==> OccursAt(s, t, r.value)
    ensures r.Some? ==> forall k: nat :: k < r.value ==> !OccursAt(s, t, k)
    ensures r.None? ==> forall k: nat :: !OccursAt(s, t, k)
    decreases |s|
  {
    if t <= s then Some(0)
    else if |s| == 0 then None
    else
      var rest := IndexOf(s[1..], t);
      assert !OccursAt(s, t, 0);
      forall k: nat | k > 0 ensures OccursAt(s, t, k) == OccursAt(s[1..], t, k - 1) {
        OccursAtShift(s, t, k - 1);
      }
      if rest.Some? then Some(rest.value + 1) else None
  }

  /** An occurrence one place further into `s` is an occurrence in `s[1..]`. */
  lemma OccursAtShift(s: string, t: string, k: nat)
    requires |s| > 0
    ensures OccursAt(s, t, k + 1) == OccursAt(s[1..], t, k)
  {
    if k + 1 + |t| <= |s| {
      assert s[k + 1..k + 1 + |t|] == s[1..][k..k + |t|];
    }
  }

  /** `Contains` holds exactly when there is an occurrence, i.e. when `IndexOf` finds one. */
  lemma {:induction false} ContainsIffIndexOf(s: string, t: string)
    ensures Contains(s, t) <==> IndexOf(s, t).Some?
    decreases |s|
  {
    if t <= s {
    } else if |s| == 0 {
    } else {
      ContainsIffIndexOf(s[1..], t);
    }
  }

  /** A prefix of `s` that ends before the first occurrence of `t` does not contain `t`. */
  lemma {:induction false} NoOccurrenceBeforeFirst(s: string, t: string, k: nat)
    requires k <= |s|
    requires forall j: nat :: j < k ==> !OccursAt(s, t, j)
    requires |t| > 0
    ensures !Contains(s[..k], t)
  {
    ContainsIffIndexOf(s[..k], t);
    var r := IndexOf(s[..k], t);
    if r.Some? {
      var j := r.value;
      assert s[..k][j..j + |t|] == s[j..j + |t|];
      assert OccursAt(s, t, j);
    }
  }

  /** The last index of character `c` in `s`, as JavaScript's `lastIndexOf` (absent: -1). */
  function LastIndexOf(s: string, c: char): (r: int)
    ensures -1 <= r < |s|
    ensures r >= 0 ==> s[r] == c
    ensures forall k :: r < k < |s| ==> s[k] != c
  {
    if |s| == 0 then -1
    else if s[|s| - 1] == c then |s| - 1
    else LastIndexOf(s[..|s| - 1], c)
  }

  function DigitChar(d: nat): (c: char)
    requires d < 10
    ensures '0' <= c <= '9'
  {
    "0123456789"[d]
  }

  function DigitValue(c: char): nat
    requires '0' <= c <= '9'
  {
    (c as int) - ('0' as int)
  }

  predicate AllDigits(s: string) {
    forall k :: 0 <= k < |s| ==> '0' <= s[k] <= '9'
  }

  /** Decimal digits of `n`, without leading zeros. */
  function NatToString(n: nat): (r: string)
    ensures |r| > 0 && AllDigits(r)
  {
    if n < 10 then [DigitChar(n)] else NatToString(n / 10) + [DigitChar(n % 10)]
  }

  /** Python's `str` on an integer: a minus sign before the digits of a negative number. */
  function IntToString(i: int): (r: string)
    ensures i >= 0 ==> r == NatToString(i)
    ensures i < 0 ==> r == "-" + NatToString(-i)
  {
    if i < 0 then "-" + NatToString(-i) else NatToString(i)
  }

  /** Reads a string of decimal digits back as a number. */
  function DecimalValue(s: string): nat
    requires AllDigits(s)
  {
    if |s| == 0 then 0 else DecimalValue(s[..|s| - 1]) * 10 + DigitValue(s[|s| - 1])
  }

  /** Reads Python's `str` of an integer back: an optional minus sign, then at least one digit. */
  function ReadInt(s: string): (r: Option<int>)
    ensures r.Some? ==> |s| > 0 && (r.value < 0 ==> s[0] == '-')
  {
    if |s| >= 2 && s[0] == '-' && AllDigits(s[1..]) then Some(0 - DecimalValue(s[1..]) as int)
    else if |s| >= 1 && AllDigits(s) then Some(DecimalValue(s))
    else None
  }

  /** Rendering an integer and reading it back gives the integer; the rendering holds no comma. */
  lemma IntRoundTrip(i: int)
    ensures ReadInt(IntToString(i)) == Some(i)
    ensures ',' !in IntToString(i)
  {
    var s := IntToString(i);
    if i < 0 {
      assert s[1..] == NatToString(-i);
      DecimalRoundTrip(-i);
    } else {
      assert '0' <= s[0] <= '9';
      DecimalRoundTrip(i);
    }
  }

  /** Rendering a number in decimal and reading it back gives the number. */
  lemma {:induction false} DecimalRoundTrip(n: nat)
    ensures DecimalValue(NatToString(n)) == n
  {
    if n >= 10 {
      DecimalRoundTrip(n / 10);
      var s := NatToString(n);
      assert s[..|s| - 1] == NatToString(n / 10);
    }
  }
}
