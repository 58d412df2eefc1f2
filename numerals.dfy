/** Java's text view of an `int`: `Integer.toString` (what `println(score)`
    writes), `String.trim` and `Integer.parseInt` (what the score loader and
    the high-score reader apply to a line). */
module Numerals {

  datatype Option<+T> = None | Some(value: T)

  const MinInt32: int := -0x8000_0000
  const MaxInt32: int := 0x7fff_ffff

  /** A Java `int`. */
  type Int32 = n: int | -0x8000_0000 <= n <= 0x7fff_ffff

  predicate IsDigit(c: char) { '0' <= c <= '9' }

  predicate AllDigits(s: string) { forall i :: 0 <= i < |s| ==> IsDigit(s[i]) }

  function DigitValue(c: char): (d: nat)
    requires IsDigit(c)
    ensures d < 10
  {
    c as int - '0' as int
  }

  function DigitChar(d: nat): (c: char)
    requires d < 10
    ensures IsDigit(c) && DigitValue(c) == d
  {
    ('0' as int + d) as char
  }

  /** The number a string of decimal digits denotes, most significant first. */
  function DigitsValue(s: string): nat
    requires AllDigits(s)
  {
    if s == [] then 0 else DigitsValue(s[..|s| - 1]) * 10 + DigitValue(s[|s| - 1])
  }

  /** `Integer.toString(n)` for `n >= 0`: the decimal digits, no leading zero. */
  function NatToString(n: nat): (s: string)
    ensures |s| >= 1 && AllDigits(s)
    ensures DigitsValue(s) == n
    ensures s[0] == '0' ==> n == 0
  {
    if n < 10 then [DigitChar(n)]
    else
      var front := NatToString(n / 10);
      var s := front + [DigitChar(n % 10)];
      assert s[..|s| - 1] == front;
      s
  }

  /** `Integer.toString(n)`: a minus sign for negative numbers, then the digits. */
  function IntToString(n: int): string
  {
    if n < 0 then "-" + NatToString(-n) else NatToString(n)
  }

  /** The text of n is non-empty, starts with `-` exactly when n is
      negative, and the digits after the sign denote the magnitude of n. */
  lemma IntToStringShape(n: int)
    ensures var s := IntToString(n);
      && s != [] && (s[0] == '-' <==> n < 0)
      && AllDigits(if n < 0 then s[1..] else s)
      && DigitsValue(if n < 0 then s[1..] else s) == if n < 0 then -n else n
  {
    if n < 0 {
      assert IntToString(n)[1..] == NatToString(-n);
    }
  }

  /** The characters `String.trim` strips: every code point up to U+0020. */
  predicate IsTrimmable(c: char) { c <= ' ' }

  /** The first loop of `trim`: from `st`, skip strippable characters. */
  function TrimFront(s: string, st: nat): (st': nat)
    requires st <= |s|
    ensures st <= st' <= |s|
    ensures forall k :: st <= k < st' ==> IsTrimmable(s[k])
    ensures st' == |s| || !IsTrimmable(s[st'])
    decreases |s| - st
  {
    if st < |s| && IsTrimmable(s[st]) then TrimFront(s, st + 1) else st
  }

  /** The second loop of `trim`: lower the end `len` past strippable
      characters, never below `st`. */
  function TrimBack(s: string, st: nat, len: nat): (len': nat)
    requires st <= len <= |s|
    ensures st <= len' <= len
    ensures forall k :: len' <= k < len ==> IsTrimmable(s[k])
    ensures len' == st || !IsTrimmable(s[len' - 1])
  {
    if st < len && IsTrimmable(s[len - 1]) then TrimBack(s, st, len - 1) else len
  }

  /** `String.trim`: the part of s left when the strippable characters at
      both ends are cut off; it neither starts nor ends with one. */
  function Trim(s: string): (r: string)
    ensures r == [] || (!IsTrimmable(r[0]) && !IsTrimmable(r[|r| - 1]))
  {
    var st := TrimFront(s, 0);
    var len := TrimBack(s, st, |s|);
    s[st..len]
  }

  /** `trim` keeps a contiguous part of s and cuts only strippable
      characters before and after it. */
  lemma TrimCutsOnlyEnds(s: string)
    ensures exists st, len ::
      && 0 <= st <= len <= |s| && Trim(s) == s[st..len]
      && (forall k :: 0 <= k < st ==> IsTrimmable(s[k]))
      && (forall k :: len <= k < |s| ==> IsTrimmable(s[k]))
  {
    var st := TrimFront(s, 0);
    var len := TrimBack(s, st, |s|);
    assert Trim(s) == s[st..len];
  }

  /** Text that neither starts nor ends with a strippable character is left
      as it is by `trim`. */
  lemma TrimUntouched(s: string)
    requires s == [] || (!IsTrimmable(s[0]) && !IsTrimmable(s[|s| - 1]))
    ensures Trim(s) == s
  {
    assert TrimFront(s, 0) == 0;
    assert TrimBack(s, 0, |s|) == |s|;
    assert s[0..|s|] == s;
  }

  /** Trimming twice is trimming once. */
  lemma TrimIdempotent(s: string)
    ensures Trim(Trim(s)) == Trim(s)
  {
    TrimUntouched(Trim(s));
  }

  /** `Integer.parseInt(s)` (radix 10): an optional `-` or `+`, then at least
      one decimal digit, and a value that fits in an `int`; anything else is
      the `NumberFormatException`, here `None`. */
  function ParseInt(s: string): (r: Option<Int32>)
    ensures r.Some? ==> s != [] && AllDigits(if s[0] == '-' || s[0] == '+' then s[1..] else s)
  {
    if |s| == 0 then None
    else if s[0] == '-' || s[0] == '+' then
      if |s| == 1 || !AllDigits(s[1..]) then None
      else
        var v: int := if s[0] == '-' then -(DigitsValue(s[1..]) as int) else DigitsValue(s[1..]);
        if MinInt32 <= v <= MaxInt32 then Some(v) else None
    else if AllDigits(s) && DigitsValue(s) <= MaxInt32 then Some(DigitsValue(s))
    else None
  }

  /** `parseInt` reads back exactly what `toString` wrote, for every `int`. */
  lemma ParseIntToString(n: Int32)
    ensures ParseInt(IntToString(n)) == Some(n)
  {
    var digits := NatToString(if n < 0 then -(n as int) else n as int);
    if n < 0 {
      assert IntToString(n)[1..] == digits;
    }
  }

  /** Nothing Java's `trim` strips occurs in the text of a number. */
  lemma TrimIntToString(n: int)
    ensures Trim(IntToString(n)) == IntToString(n)
  {
    var s := IntToString(n);
    var digits := NatToString(if n < 0 then -(n as int) else n as int);
    assert s[0] == '-' || IsDigit(s[0]);
    assert s[|s| - 1] == digits[|digits| - 1];
    TrimUntouched(s);
  }

  /** The text of a number never contains a character other than `-` and digits. */
  lemma IntToStringOnlySignAndDigits(n: int, c: char)
    requires c != '-' && !IsDigit(c)
    ensures c !in IntToString(n)
  {
    var digits := NatToString(if n < 0 then -(n as int) else n as int);
    if n < 0 {
      assert IntToString(n) == "-" + digits;
    }
  }
}
