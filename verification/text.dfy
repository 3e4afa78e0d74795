/**
 * The string primitives the controller relies on, with the behaviour of Rust's standard
 * library: `str::split` on a single character, `str::parse::<u32>` / `str::parse::<i32>`
 * (radix 10, optional sign, overflow is an error) and `i32::to_string`.
 * Text is `seq<char>`, one element per character.
 */
module Text {
  import opened Wrappers

  const U32Max: int := 0xFFFF_FFFF
  const I32Max: int := 0x7FFF_FFFF
  /** The magnitude of `i32::MIN`. */
  const I32MinMagnitude: int := 0x8000_0000

  // ---------------------------------------------------------------------------
  // Splitting on a separator

  /** Number of occurrences of `c` in `s`. */
  function Count(s: string, c: char): nat {
    if s == [] then 0 else (if s[0] == c then 1 else 0) + Count(s[1..], c)
  }

  /**
   * `s.split(sep).collect()`: the maximal pieces between separators, in order. The empty
   * string yields one empty piece and adjacent separators yield an empty piece between them.
   */
  function Split(s: string, sep: char): (parts: seq<string>)
    ensures |parts| >= 1
    ensures |parts| == Count(s, sep) + 1
    ensures forall i :: 0 <= i < |parts| ==> sep !in parts[i]
  {
    if s == [] then [[]]
    else
      var rest := Split(s[1..], sep);
      if s[0] == sep then [[]] + rest
      else [[s[0]] + rest[0]] + rest[1..]
  }

  /** The inverse of `Split`: the pieces glued back together with `sep` between them. */
  function Join(parts: seq<string>, sep: char): string
    requires |parts| >= 1
  {
    if |parts| == 1 then parts[0] else parts[0] + [sep] + Join(parts[1..], sep)
  }

  /** Joining three pieces puts one separator between each neighbouring pair. */
  lemma Join3(a: string, b: string, c: string, sep: char)
    ensures Join([a, b, c], sep) == a + [sep] + b + [sep] + c
  {
    assert [a, b, c][1..] == [b, c];
    assert [b, c][1..] == [c];
    assert Join([b, c], sep) == b + [sep] + c;
    assert a + [sep] + (b + [sep] + c) == a + [sep] + b + [sep] + c;
  }

  /** Splitting loses nothing: joining the pieces restores the input. */
  lemma {:induction false} JoinSplit(s: string, sep: char)
    ensures Join(Split(s, sep), sep) == s
  {
    if s != [] {
      var rest := Split(s[1..], sep);
      JoinSplit(s[1..], sep);
      if s[0] == sep {
        assert Split(s, sep)[1..] == rest;
      } else {
        var parts := Split(s, sep);
        if |rest| == 1 {
          assert parts == [[s[0]] + rest[0]];
        } else {
          assert parts[1..] == rest[1..];
          assert Join(rest, sep) == rest[0] + [sep] + Join(rest[1..], sep);
        }
      }
    }
  }

  /** Splitting a separator-free piece followed by a separator and more text. */
  lemma {:induction false} SplitPrefix(a: string, sep: char, rest: string)
    requires sep !in a
    ensures Split(a + [sep] + rest, sep) == [a] + Split(rest, sep)
  {
    if a != [] {
      assert (a + [sep] + rest)[1..] == a[1..] + [sep] + rest;
      SplitPrefix(a[1..], sep, rest);
      assert [a[0]] + a[1..] == a;
    } else {
      assert (a + [sep] + rest)[1..] == rest;
    }
  }

  /** A separator-free string is a single piece. */
  lemma {:induction false} SplitNoSeparator(a: string, sep: char)
    requires sep !in a
    ensures Split(a, sep) == [a]
  {
    if a != [] {
      SplitNoSeparator(a[1..], sep);
      assert [a[0]] + a[1..] == a;
    }
  }

  /** Splitting is the inverse of joining separator-free pieces. */
  lemma {:induction false} SplitJoin(parts: seq<string>, sep: char)
    requires |parts| >= 1
    requires forall i :: 0 <= i < |parts| ==> sep !in parts[i]
    ensures Split(Join(parts, sep), sep) == parts
  {
    if |parts| == 1 {
      SplitNoSeparator(parts[0], sep);
    } else {
      SplitJoin(parts[1..], sep);
      SplitPrefix(parts[0], sep, Join(parts[1..], sep));
      assert [parts[0]] + parts[1..] == parts;
    }
  }

  // ---------------------------------------------------------------------------
  // Decimal digits

  predicate IsDigit(c: char) {
    '0' <= c <= '9'
  }

  predicate AllDigits(s: string) {
    forall i :: 0 <= i < |s| ==> IsDigit(s[i])
  }

  /** The number a string of ASCII digits denotes, most significant digit first. */
  function DigitsValue(s: string): nat
    requires AllDigits(s)
  {
    if s == [] then 0 else DigitsValue(s[..|s| - 1]) * 10 + (s[|s| - 1] as int - '0' as int)
  }

  /** Decimal rendering of a natural number, without leading zeros. */
  function Decimal(n: nat): (s: string)
    ensures |s| >= 1 && AllDigits(s)
    ensures n > 0 ==> s[0] != '0'
    ensures |s| > 1 ==> s[0] != '0'
  {
    var d := ['0' + (n % 10) as char];
    if n < 10 then d else Decimal(n / 10) + d
  }

  /** Reading back a rendered number gives the number. */
  lemma {:induction false} DigitsValueDecimal(n: nat)
    ensures DigitsValue(Decimal(n)) == n
  {
    var d := ['0' + (n % 10) as char];
    if n >= 10 {
      DigitsValueDecimal(n / 10);
      var s := Decimal(n / 10) + d;
      assert s[..|s| - 1] == Decimal(n / 10);
    }
  }

  /** A leading zero does not change the value of a digit string. */
  lemma {:induction false} DigitsValueLeadingZero(s: string)
    requires AllDigits(s)
    ensures AllDigits("0" + s) && DigitsValue("0" + s) == DigitsValue(s)
  {
    if s != [] {
      var t := "0" + s;
      assert t[..|t| - 1] == "0" + s[..|s| - 1];
      DigitsValueLeadingZero(s[..|s| - 1]);
    }
  }

  // ---------------------------------------------------------------------------
  // str::parse for u32 and i32

  /**
   * `s.parse::<u32>()`: an optional `+`, then one or more ASCII digits (leading zeros allowed);
   * a lone sign, any other character or a value above `u32::MAX` is an error.
   */
  function ParseU32(s: string): (r: Option<nat>)
    ensures r.Some? ==> r.value <= U32Max
    ensures r.Some? ==> s != [] && '-' !in s
    ensures r.Some? && s[0] != '+' ==> AllDigits(s) && r.value == DigitsValue(s)
    ensures r.Some? && s[0] == '+' ==> |s| >= 2 && AllDigits(s[1..]) && r.value == DigitsValue(s[1..])
    ensures s != [] && AllDigits(s) ==> (r.Some? <==> DigitsValue(s) <= U32Max)
    ensures |s| >= 2 && s[0] == '+' && AllDigits(s[1..]) ==> (r.Some? <==> DigitsValue(s[1..]) <= U32Max)
  {
    if s == [] || s == "+" || s == "-" then None
    else
      var digits := if s[0] == '+' then s[1..] else s;
      if !AllDigits(digits) then None
      else
        var v := DigitsValue(digits);
        if v <= U32Max then Some(v) else None
  }

  /**
   * `s.parse::<i32>()`: as for `u32`, but a leading `-` negates, and the value must lie in
   * `i32::MIN ..= i32::MAX`.
   */
  function ParseI32(s: string): (r: Option<int>)
    ensures r.Some? ==> -I32MinMagnitude <= r.value <= I32Max
    ensures r.Some? ==> s != [] && (r.value < 0 ==> s[0] == '-')
    ensures r.Some? && s[0] != '+' && s[0] != '-' ==> AllDigits(s) && r.value == DigitsValue(s)
    ensures r.Some? && s[0] == '+' ==> |s| >= 2 && AllDigits(s[1..]) && r.value == DigitsValue(s[1..])
    ensures r.Some? && s[0] == '-' ==> |s| >= 2 && AllDigits(s[1..]) && r.value == -(DigitsValue(s[1..]) as int)
    ensures s != [] && AllDigits(s) ==> (r.Some? <==> DigitsValue(s) <= I32Max)
    ensures |s| >= 2 && s[0] == '+' && AllDigits(s[1..]) ==> (r.Some? <==> DigitsValue(s[1..]) <= I32Max)
    ensures |s| >= 2 && s[0] == '-' && AllDigits(s[1..]) ==> (r.Some? <==> DigitsValue(s[1..]) <= I32MinMagnitude)
  {
    if s == [] || s == "+" || s == "-" then None
    else if s[0] == '-' then
      var digits := s[1..];
      if !AllDigits(digits) then None
      else
        var v := DigitsValue(digits);
        if v <= I32MinMagnitude then Some(-(v as int)) else None
    else
      var digits := if s[0] == '+' then s[1..] else s;
      if !AllDigits(digits) then None
      else
        var v := DigitsValue(digits);
        if v <= I32Max then Some(v) else None
  }

  /** `u32` parse round trip: every value in range reads back from its rendering, with or without `+`. */
  lemma ParseU32Decimal(n: nat)
    requires n <= U32Max
    ensures ParseU32(Decimal(n)) == Some(n)
    ensures ParseU32("+" + Decimal(n)) == Some(n)
  {
    DigitsValueDecimal(n);
    assert ("+" + Decimal(n))[1..] == Decimal(n);
  }

  /** `u32` parsing accepts leading zeros: one more zero gives the same result. */
  lemma ParseU32LeadingZero(s: string)
    requires s != [] && AllDigits(s)
    ensures ParseU32("0" + s) == ParseU32(s)
  {
    DigitsValueLeadingZero(s);
  }

  /** `i32::to_string`: an optional `-` followed by the decimal magnitude. */
  function ShowInt(x: int): (s: string)
    ensures |s| >= 1
    ensures s[0] == '-' <==> x < 0
    ensures x >= 0 ==> AllDigits(s) && DigitsValue(s) == x
    ensures x < 0 ==> AllDigits(s[1..]) && DigitsValue(s[1..]) == -x
    ensures x >= 0 && |s| > 1 ==> s[0] != '0'
    ensures x < 0 ==> |s| >= 2 && s[1] != '0'
  {
    if x < 0 then
      DigitsValueDecimal(-x);
      var s := "-" + Decimal(-x);
      assert s[1..] == Decimal(-x);
      s
    else
      DigitsValueDecimal(x);
      Decimal(x)
  }

  /** `i32` round trip: `x.to_string().parse::<i32>() == Ok(x)` for every `i32` value. */
  lemma ParseI32ShowInt(x: int)
    requires -I32MinMagnitude <= x <= I32Max
    ensures ParseI32(ShowInt(x)) == Some(x)
  {
    if x < 0 {
      DigitsValueDecimal(-x);
      assert ShowInt(x)[1..] == Decimal(-x);
    } else {
      DigitsValueDecimal(x);
    }
  }

  /** A number above `u32::MAX` is rejected even though every character is a digit. */
  lemma ParseU32Overflow(n: nat)
    requires n > U32Max
    ensures ParseU32(Decimal(n)) == None
  {
    DigitsValueDecimal(n);
  }

  /** A number above `i32::MAX` is rejected, with or without `+`; below `i32::MIN` likewise. */
  lemma ParseI32Overflow(n: nat)
    requires n > I32Max
    ensures ParseI32(Decimal(n)) == None
    ensures ParseI32("+" + Decimal(n)) == None
    ensures n > I32MinMagnitude ==> ParseI32("-" + Decimal(n)) == None
  {
    DigitsValueDecimal(n);
    assert ("+" + Decimal(n))[1..] == Decimal(n);
    assert ("-" + Decimal(n))[1..] == Decimal(n);
  }

  // ---------------------------------------------------------------------------
  // Prefixes

  /** `s.starts_with(p)`. */
  predicate StartsWith(s: string, p: string)
    ensures StartsWith(s, p) <==> exists rest: string :: s == p + rest
  {
    if |p| <= |s| && s[..|p|] == p then
      assert s == p + s[|p|..];
      true
    else
      assert forall rest: string :: s == p + rest ==> s[..|p|] == p;
      false
  }
}
