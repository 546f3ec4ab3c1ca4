/** The few pieces of JavaScript runtime behaviour the pages rely on:
    optional values, thrown errors as a result type, string truthiness,
    the `<`/`>` order on strings and the conversion of a whole number to
    its decimal text in a template literal. */
module Js {

  datatype Option<+T> = None | Some(value: T)

  /** A call that either returns a value or throws. */
  datatype Result<+T, +E> = Ok(value: T) | Err(error: E)

  /** `if (s)` on a string: only the empty string is falsy. */
  predicate Truthy(s: string)
  {
    s != ""
  }

  /** `a < b` on two strings: lexicographic comparison, a proper prefix
      coming first. */
  predicate Less(a: string, b: string)
    decreases |a|
  {
    if b == [] then false
    else if a == [] then true
    else if a[0] != b[0] then a[0] < b[0]
    else Less(a[1..], b[1..])
  }

  lemma {:induction false} LessIrreflexive(a: string)
    ensures !Less(a, a)
    decreases |a|
  {
    if a != [] {
      LessIrreflexive(a[1..]);
    }
  }

  lemma {:induction false} LessTransitive(a: string, b: string, c: string)
    requires Less(a, b) && Less(b, c)
    ensures Less(a, c)
    decreases |a|
  {
    if a != [] && a[0] == b[0] && b[0] == c[0] {
      LessTransitive(a[1..], b[1..], c[1..]);
    }
  }

  /** Any two different strings are ordered one way or the other. */
  lemma {:induction false} LessTotal(a: string, b: string)
    ensures a == b || Less(a, b) || Less(b, a)
    decreases |a|
  {
    if a != [] && b != [] && a[0] == b[0] {
      LessTotal(a[1..], b[1..]);
      if a[1..] == b[1..] {
        assert a == [a[0]] + a[1..] && b == [b[0]] + b[1..];
      }
    }
  }

  /** The empty string sits below every other string. */
  lemma EmptyIsLeast(a: string)
    ensures !Less(a, "")
    ensures a != "" ==> Less("", a)
  {
  }

  function DigitChar(d: nat): (c: char)
    requires d < 10
  {
    ('0' as int + d) as char
  }

  predicate IsDigit(c: char)
  {
    '0' <= c <= '9'
  }

  function DigitValue(c: char): (d: nat)
    requires IsDigit(c)
  {
    c as int - '0' as int
  }

  /** `${n}` for a whole number `n >= 0`: its decimal digits, no leading zero. */
  function Decimal(n: nat): (s: string)
    ensures |s| >= 1
    ensures forall i :: 0 <= i < |s| ==> IsDigit(s[i])
    ensures |s| > 1 ==> s[0] != '0'
    decreases n
  {
    if n < 10 then [DigitChar(n)] else Decimal(n / 10) + [DigitChar(n % 10)]
  }

  /** Reads a digit string back as a number (the inverse of Decimal). */
  function ParseDecimal(s: string): (n: nat)
    requires forall i :: 0 <= i < |s| ==> IsDigit(s[i])
    decreases |s|
  {
    if s == [] then 0 else ParseDecimal(s[..|s| - 1]) * 10 + DigitValue(s[|s| - 1])
  }

  lemma {:induction false} DecimalRoundTrip(n: nat)
    ensures ParseDecimal(Decimal(n)) == n
    decreases n
  {
    if n >= 10 {
      var s := Decimal(n);
      assert s[..|s| - 1] == Decimal(n / 10);
      DecimalRoundTrip(n / 10);
    }
  }

  /** Different numbers print differently. */
  lemma DecimalInjective(m: nat, n: nat)
    requires Decimal(m) == Decimal(n)
    ensures m == n
  {
    DecimalRoundTrip(m);
    DecimalRoundTrip(n);
  }

  /** `groups.flat()`: the groups concatenated in order. */
  function Flat<T>(groups: seq<seq<T>>): seq<T>
    decreases |groups|
  {
    if groups == [] then [] else groups[0] + Flat(groups[1..])
  }

  lemma {:induction false} FlatSnoc<T>(groups: seq<seq<T>>, g: seq<T>)
    ensures Flat(groups + [g]) == Flat(groups) + g
    decreases |groups|
  {
    if groups != [] {
      assert (groups + [g])[1..] == groups[1..] + [g];
      FlatSnoc(groups[1..], g);
    }
  }

  /** The `filter` the pages apply to per-year groups: the callback hands back
      the (truthy) array for a non-empty group and `undefined` otherwise, so
      exactly the empty groups are dropped. */
  function DropEmpty<T>(groups: seq<seq<T>>): (r: seq<seq<T>>)
    ensures forall k :: 0 <= k < |r| ==> r[k] != []
    ensures |r| <= |groups|
    ensures forall g :: g in r ==> g in groups
    ensures forall g :: g in groups && g != [] ==> g in r
    decreases |groups|
  {
    if groups == [] then []
    else
      assert forall g :: g in groups ==> g == groups[0] || g in groups[1..];
      if groups[0] == [] then DropEmpty(groups[1..])
      else [groups[0]] + DropEmpty(groups[1..])
  }

  /** Empty groups contribute nothing to the flattened list. */
  lemma {:induction false} FlatDropEmpty<T>(groups: seq<seq<T>>)
    ensures Flat(DropEmpty(groups)) == Flat(groups)
    decreases |groups|
  {
    if groups != [] {
      FlatDropEmpty(groups[1..]);
      if groups[0] != [] {
        assert ([groups[0]] + DropEmpty(groups[1..]))[1..] == DropEmpty(groups[1..]);
      }
    }
  }
}
