/** The parts of Go's strings and strconv packages that the models rely on. */
module Strings {
  import opened Prelude

  // ----- strings.Split and strings.Join with a one-character separator -----

  function Split(s: string, sep: char): (parts: seq<string>)
    ensures |parts| >= 1
    ensures forall i :: 0 <= i < |parts| ==> sep !in parts[i]
  {
    if s == "" then [""]
    else
      var rest := Split(s[1..], sep);
      if s[0] == sep then [""] + rest else [[s[0]] + rest[0]] + rest[1..]
  }

  function Join(parts: seq<string>, sep: char): string
    requires |parts| >= 1
  {
    if |parts| == 1 then parts[0] else parts[0] + [sep] + Join(parts[1..], sep)
  }

  lemma {:induction false} SplitPlain(s: string, sep: char)
    requires sep !in s
    ensures Split(s, sep) == [s]
  {
    if s != "" {
      SplitPlain(s[1..], sep);
      assert [s[0]] + s[1..] == s;
    }
  }

  lemma {:induction false} SplitAt(a: string, sep: char, b: string)
    requires sep !in a
    ensures Split(a + [sep] + b, sep) == [a] + Split(b, sep)
  {
    var s := a + [sep] + b;
    if a == "" {
      assert s[1..] == b;
    } else {
      SplitAt(a[1..], sep, b);
      assert s[1..] == a[1..] + [sep] + b;
      assert [a[0]] + a[1..] == a;
    }
  }

  /** Splitting what was joined gives the parts back. */
  lemma {:induction false} SplitJoin(parts: seq<string>, sep: char)
    requires |parts| >= 1
    requires forall i :: 0 <= i < |parts| ==> sep !in parts[i]
    ensures Split(Join(parts, sep), sep) == parts
  {
    if |parts| == 1 {
      SplitPlain(parts[0], sep);
    } else {
      SplitJoin(parts[1..], sep);
      SplitAt(parts[0], sep, Join(parts[1..], sep));
    }
  }

  /** Joining what was split gives the text back. */
  lemma {:induction false} JoinSplit(s: string, sep: char)
    ensures Join(Split(s, sep), sep) == s
  {
    if s != "" {
      var rest := Split(s[1..], sep);
      JoinSplit(s[1..], sep);
      if s[0] == sep {
        assert ([""] + rest)[1..] == rest;
      } else {
        var parts := [[s[0]] + rest[0]] + rest[1..];
        assert parts[1..] == rest[1..];
      }
    }
  }

  // ----- Decimal integers -----

  const MIN_INT: int := -0x8000_0000_0000_0000
  const MAX_INT: int := 0x7fff_ffff_ffff_ffff

  /** Go's int on the platforms the router targets. */
  predicate IsInt(n: int) {
    MIN_INT <= n <= MAX_INT
  }

  predicate IsDigit(c: char) {
    '0' <= c <= '9'
  }

  function DigitChar(d: nat): (c: char)
    requires d < 10
    ensures IsDigit(c)
  {
    '0' + d as char
  }

  function DigitValue(c: char): (d: nat)
    requires IsDigit(c)
    ensures d < 10 && DigitChar(d) == c
  {
    c as int - '0' as int
  }

  function Digits(n: nat): (s: string)
    ensures |s| >= 1
    ensures forall i :: 0 <= i < |s| ==> IsDigit(s[i])
  {
    if n < 10 then [DigitChar(n)] else Digits(n / 10) + [DigitChar(n % 10)]
  }

  /** strconv.Itoa, and fmt's %d. */
  function Itoa(n: int): string {
    if n < 0 then "-" + Digits(-n) else Digits(n)
  }

  predicate AllDigits(s: string) {
    forall i :: 0 <= i < |s| ==> IsDigit(s[i])
  }

  function Value(s: string): nat
    requires AllDigits(s)
  {
    if s == "" then 0 else 10 * Value(s[..|s| - 1]) + DigitValue(s[|s| - 1])
  }

  /** strconv.Atoi: an optional sign, at least one digit, and a value that fits. */
  function Atoi(s: string): Option<int> {
    var signed := s != "" && (s[0] == '-' || s[0] == '+');
    var digits := if signed then s[1..] else s;
    if digits == "" || !AllDigits(digits) then None
    else
      var n: int := if signed && s[0] == '-' then -(Value(digits) as int) else Value(digits);
      if IsInt(n) then Some(n) else None
  }

  lemma {:induction false} ValueOfDigits(n: nat)
    ensures Value(Digits(n)) == n
  {
    if n >= 10 {
      ValueOfDigits(n / 10);
      assert Digits(n)[..|Digits(n)| - 1] == Digits(n / 10);
    } else {
      assert Digits(n)[..0] == "";
    }
  }

  lemma AtoiOfItoa(n: int)
    requires IsInt(n)
    ensures Atoi(Itoa(n)) == Some(n)
  {
    if n < 0 {
      ValueOfDigits(-n);
      assert Itoa(n)[1..] == Digits(-n);
    } else {
      ValueOfDigits(n);
      assert IsDigit(Digits(n)[0]);
    }
  }

  /** Only digits are read, after at most one sign. */
  lemma AtoiShape(s: string)
    ensures Atoi(s).Some? ==>
              s != "" && (IsDigit(s[0]) || (s[0] in ['+', '-'] && |s| > 1))
              && forall i :: 1 <= i < |s| ==> IsDigit(s[i])
  {
    if Atoi(s).Some? {
      var signed := s != "" && (s[0] == '-' || s[0] == '+');
      var digits := if signed then s[1..] else s;
      assert digits != "" && AllDigits(digits);
      if signed {
        assert forall i :: 1 <= i < |s| ==> s[i] == digits[i - 1];
      } else {
        assert digits == s && IsDigit(digits[0]);
      }
    }
  }

  /** The order of digits, and the signs. */
  lemma DecimalNotation()
    ensures Atoi("21") == Some(21) && Atoi("+7") == Some(7) && Atoi("-7") == Some(-7)
    ensures Itoa(21) == "21" && Itoa(-7) == "-7"
  {
    assert "21"[..1] == "2" && "2"[..0] == "" && "7"[..0] == "";
    assert "+7"[1..] == "7" && "-7"[1..] == "7";
    assert Value("2") == 2 && Value("21") == 21 && Value("7") == 7;
    assert Digits(2) == "2" && Digits(21) == "21" && Digits(7) == "7";
  }

  lemma ItoaChars(n: int)
    ensures forall i :: 0 <= i < |Itoa(n)| ==> IsDigit(Itoa(n)[i]) || Itoa(n)[i] == '-'
    ensures Itoa(n) != ""
  {
  }
}
