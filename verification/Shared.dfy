/** What several components use. */
module Shared {
  datatype Option<+T> = None | Some(value: T)

  function Min(a: int, b: int): int { if a < b then a else b }

  predicate Digit(c: char) { '0' <= c <= '9' }

  predicate Digits(s: string) { forall i :: 0 <= i < |s| ==> Digit(s[i]) }

  function DigitValue(c: char): int
    requires Digit(c)
  {
    c as int - '0' as int
  }

  /** The number a digit string denotes, continuing from v. */
  function DecimalValue(v: int, digits: string): int
    requires Digits(digits)
    decreases |digits|
  {
    if digits == [] then v else DecimalValue(v * 10 + DigitValue(digits[0]), digits[1..])
  }

  /** Decimal notation, as an output stream prints an integer. */
  function Decimal(n: nat): string {
    if n < 10 then ['0' + n as char] else Decimal(n / 10) + ['0' + (n % 10) as char]
  }

  lemma {:induction false} DecimalDigits(n: nat)
    ensures Decimal(n) != [] && Digits(Decimal(n)) && (Decimal(n)[0] == '0' ==> n == 0)
  {
    if n >= 10 { DecimalDigits(n / 10); }
  }

  /** One digit more is ten times as much and the digit. */
  lemma {:induction false} ValueOfDigits(v: int, digits: string, c: char)
    requires Digits(digits) && Digit(c)
    ensures Digits(digits + [c])
    ensures DecimalValue(v, digits + [c]) == 10 * DecimalValue(v, digits) + (c as int - '0' as int)
    decreases |digits|
  {
    if digits == [] {
      assert digits + [c] == [c] && [c][1..] == [];
    } else {
      assert (digits + [c])[1..] == digits[1..] + [c];
      ValueOfDigits(v * 10 + DigitValue(digits[0]), digits[1..], c);
    }
  }

  lemma {:induction false} DecimalHasValue(n: nat)
    ensures Digits(Decimal(n)) && DecimalValue(0, Decimal(n)) == n
  {
    DecimalDigits(n);
    if n >= 10 {
      DecimalDigits(n / 10);
      DecimalHasValue(n / 10);
      ValueOfDigits(0, Decimal(n / 10), '0' + (n % 10) as char);
    } else {
      assert Decimal(n)[1..] == "";
    }
  }

  lemma Assoc<T>(a: seq<T>, b: seq<T>, c: seq<T>)
    ensures (a + b) + c == a + (b + c)
  {
  }

  function Reversed<T>(s: seq<T>): (r: seq<T>)
    ensures |r| == |s|
  {
    if s == [] then [] else Reversed(s[1..]) + [s[0]]
  }

  lemma {:induction false} ReversedAt<T>(s: seq<T>, k: nat)
    requires k < |s|
    ensures Reversed(s)[k] == s[|s| - 1 - k]
  {
    if k < |s| - 1 { ReversedAt(s[1..], k); }
  }

  lemma {:induction false} ReversedKeeps<T>(s: seq<T>, x: T)
    requires x in s
    ensures x in Reversed(s)
  {
    if x != s[0] { ReversedKeeps(s[1..], x); }
  }

  function Lower(c: char): char {
    if 'A' <= c <= 'Z' then (c as int + 32) as char else c
  }

  /** An int after wrap-around. */
  function Int32(x: int): int { (x + 0x8000_0000) % 0x1_0000_0000 - 0x8000_0000 }
}
