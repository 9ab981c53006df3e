/** The C strings and decimal numbers of a stat block. */
module Text {
  import opened Bytes

  datatype Option<+T> = None | Some(value: T)

  const INT_MAX: nat := 0x7FFF_FFFF

  /** The C string that starts a piece of memory. */
  function CString(s: Data): (r: Data)
    ensures |r| <= |s|
  {
    if s == [] || s[0] == 0 then [] else [s[0]] + CString(s[1..])
  }

  function DigitCount(n: nat): nat
  {
    if n < 10 then 1 else DigitCount(n / 10) + 1
  }

  /** What `%ld` prints. */
  function Decimal(n: nat): (r: Data)
    ensures |r| == DigitCount(n)
    ensures forall i :: 0 <= i < |r| ==> IsDigit(r[i])
  {
    if n < 10 then [48 + n] else Decimal(n / 10) + [48 + n % 10]
  }

  predicate IsDigit(b: byte)
  {
    48 <= b <= 57
  }

  predicate IsSpace(b: byte)
  {
    b == 32 || 9 <= b <= 13
  }

  function LeadingDigits(s: Data): (r: Data)
    ensures |r| <= |s|
    ensures forall i :: 0 <= i < |r| ==> IsDigit(r[i])
  {
    if s == [] || !IsDigit(s[0]) then [] else [s[0]] + LeadingDigits(s[1..])
  }

  function DigitsValue(s: Data): nat
    requires forall i :: 0 <= i < |s| ==> IsDigit(s[i])
  {
    if s == [] then 0
    else
      assert IsDigit(s[|s| - 1]);
      10 * DigitsValue(s[..|s| - 1]) + (s[|s| - 1] as int - 48)
  }

  /** What `stoi` makes of a string; None stands for its exceptions. */
  function Stoi(s: Data): Option<int>
  {
    if s == [] then None
    else if IsSpace(s[0]) then Stoi(s[1..])
    else
      var negative := s[0] == 45;
      var digits := LeadingDigits(if negative || s[0] == 43 then s[1..] else s);
      var value := DigitsValue(digits);
      if digits == [] then None
      else if negative then (if value > INT_MAX + 1 then None else Some(0 - value as int))
      else if value > INT_MAX then None
      else Some(value)
  }

  lemma {:induction false} DecimalValue(n: nat)
    ensures DigitsValue(Decimal(n)) == n
  {
    if n >= 10 {
      DecimalValue(n / 10);
      assert Decimal(n)[..|Decimal(n)| - 1] == Decimal(n / 10);
    } else {
      assert [48 + n][..0] == [];
    }
  }

  /** A digit more makes ten times the number and the digit. */
  lemma DecimalDigits(n: nat, d: nat)
    requires d < 10
    ensures Decimal(d) == [48 + d]
    ensures n > 0 ==> Decimal(10 * n + d) == Decimal(n) + [48 + d]
  {
    assert (10 * n + d) / 10 == n;
  }

  lemma {:induction false} AllDigits(s: Data)
    requires forall i :: 0 <= i < |s| ==> IsDigit(s[i])
    ensures LeadingDigits(s) == s
  {
    if s != [] {
      AllDigits(s[1..]);
    }
  }

  /** `stoi` reads back a printed size exactly when the size fits an int. */
  lemma StoiOfDecimal(n: nat)
    ensures Stoi(Decimal(n)) == if n <= INT_MAX then Some(n) else None
  {
    var d := Decimal(n);
    AllDigits(d);
    DecimalValue(n);
    assert IsDigit(d[0]);
  }

  lemma {:induction false} CStringOfText(t: Data, rest: Data)
    requires forall i :: 0 <= i < |t| ==> t[i] != 0
    requires rest != [] && rest[0] == 0
    ensures CString(t + rest) == t
  {
    if t == [] {
      assert t + rest == rest;
    } else {
      CStringOfText(t[1..], rest);
      assert (t + rest)[1..] == t[1..] + rest;
    }
  }

  /** Without a zero byte, a piece of memory is read to its end. */
  lemma {:induction false} CStringOfAll(t: Data)
    requires forall i :: 0 <= i < |t| ==> t[i] != 0
    ensures CString(t) == t
  {
    if t != [] {
      CStringOfAll(t[1..]);
    }
  }

  // ------------------------------------------------------ what stoi reads

  predicate AreSpaces(s: Data)
  {
    forall i :: 0 <= i < |s| ==> s[i] in {9, 10, 11, 12, 13, 32}
  }

  predicate AreDigits(s: Data)
  {
    forall i :: 0 <= i < |s| ==> 48 <= s[i] <= 57
  }

  /** What is left behind the digits does not start with another one. */
  predicate NoMoreDigits(s: Data)
  {
    s == [] || !(48 <= s[0] <= 57)
  }

  lemma {:induction false} SpacesSkipped(spaces: Data, s: Data)
    requires AreSpaces(spaces)
    ensures Stoi(spaces + s) == Stoi(s)
  {
    if spaces == [] {
      assert spaces + s == s;
    } else {
      SpacesSkipped(spaces[1..], s);
      assert (spaces + s)[1..] == spaces[1..] + s;
    }
  }

  lemma {:induction false} DigitsTaken(digits: Data, tail: Data)
    requires AreDigits(digits) && NoMoreDigits(tail)
    ensures LeadingDigits(digits + tail) == digits
  {
    if digits == [] {
      assert digits + tail == tail;
    } else {
      DigitsTaken(digits[1..], tail);
      assert (digits + tail)[1..] == digits[1..] + tail;
    }
  }

  /** `stoi` skips spaces, takes one sign and the digits behind it, and ignores the rest; it throws when there is no digit
      or when the number does not fit an int. */
  lemma StoiReads(spaces: Data, sign: Data, digits: Data, tail: Data)
    requires AreSpaces(spaces) && sign in {[], [43], [45]} && AreDigits(digits) && NoMoreDigits(tail)
    requires digits == [] && sign == [] ==> tail == [] || (tail[0] !in {43, 45} && !AreSpaces([tail[0]]))
    ensures var value := DigitsValue(digits);
            Stoi(spaces + sign + digits + tail)
            == if digits == [] then None
               else if sign == [45] then if value <= 0x8000_0000 then Some(0 - value) else None
               else if value <= 0x7FFF_FFFF then Some(value as int) else None
  {
    assert spaces + sign + digits + tail == spaces + (sign + digits + tail);
    SpacesSkipped(spaces, sign + digits + tail);
    NumberRead(sign, digits, tail);
  }

  lemma NumberRead(sign: Data, digits: Data, tail: Data)
    requires sign in {[], [43], [45]} && AreDigits(digits) && NoMoreDigits(tail)
    requires digits == [] && sign == [] ==> tail == [] || (tail[0] !in {43, 45} && !AreSpaces([tail[0]]))
    ensures var value := DigitsValue(digits);
            Stoi(sign + digits + tail)
            == if digits == [] then None
               else if sign == [45] then if value <= 0x8000_0000 then Some(0 - value) else None
               else if value <= 0x7FFF_FFFF then Some(value as int) else None
  {
    hide LeadingDigits, DigitsValue;
    DigitsTaken(digits, tail);
    var s := sign + digits + tail;
    if sign != [] {
      assert s[0] == sign[0] && s[1..] == digits + tail;
    } else if digits != [] {
      assert s == digits + tail && s[0] == digits[0];
    } else {
      assert s == tail && digits + tail == tail;
      assert tail != [] ==> [tail[0]][0] == tail[0];
    }
  }
}
