/**
 * The pieces of Python 3's text handling that the baby-names extractor
 * relies on: the character classes `\w`, `\d` and `\s` of its regular
 * expressions (restricted to ASCII), the ordering of `str` values that
 * `list.sort` uses, and `int()` applied to a string of decimal digits.
 */
module Text {

  datatype Option<+T> = None | Some(value: T) {
    predicate IsFailure() { None? }

    function PropagateFailure<U>(): Option<U>
      requires None?
    {
      None
    }

    function Extract(): T
      requires Some?
    {
      value
    }
  }

  /** The regular-expression character classes used by the extractor. */
  datatype CharClass = Word | Digit | Space {
    /**
     * `\w` is `[A-Za-z0-9_]`, `\d` is `[0-9]`, and `\s` is the ASCII part of
     * Python's whitespace: space, tab through carriage return (9-13), and
     * the information separators 28-31.
     */
    predicate Has(c: char) {
      match this
      case Word => 'a' <= c <= 'z' || 'A' <= c <= 'Z' || '0' <= c <= '9' || c == '_'
      case Digit => '0' <= c <= '9'
      case Space => c == ' ' || 9 <= c as int <= 13 || 28 <= c as int <= 31
    }
  }

  /** Every character of `s` belongs to `cls` (true of the empty string). */
  predicate AllIn(s: string, cls: CharClass) {
    forall k :: 0 <= k < |s| ==> cls.Has(s[k])
  }

  /** No word character is a whitespace character, and every one sorts above the space. */
  lemma WordCharsAboveSpace(c: char)
    requires Word.Has(c)
    ensures !Space.Has(c) && ' ' < c
  {
  }

  // ---------------------------------------------------------------------
  // Python's ordering of str values: code point by code point, a proper
  // prefix sorting first.
  // ---------------------------------------------------------------------

  /** Python's `a <= b` on two strings. */
  predicate LexLe(a: string, b: string) {
    a == [] || (b != [] && (a[0] < b[0] || (a[0] == b[0] && LexLe(a[1..], b[1..]))))
  }

  /** Python's `a < b` on two strings. */
  predicate LexLt(a: string, b: string) {
    LexLe(a, b) && a != b
  }

  lemma {:induction false} LexLeReflexive(a: string)
    ensures LexLe(a, a)
  {
    if a != [] {
      LexLeReflexive(a[1..]);
    }
  }

  lemma {:induction false} LexLeTotal(a: string, b: string)
    ensures LexLe(a, b) || LexLe(b, a)
  {
    if a != [] && b != [] && a[0] == b[0] {
      LexLeTotal(a[1..], b[1..]);
    }
  }

  lemma {:induction false} LexLeAntisymmetric(a: string, b: string)
    requires LexLe(a, b) && LexLe(b, a)
    ensures a == b
  {
    if a != [] && b != [] {
      LexLeAntisymmetric(a[1..], b[1..]);
      assert a == [a[0]] + a[1..];
      assert b == [b[0]] + b[1..];
    }
  }

  lemma {:induction false} LexLeTransitive(a: string, b: string, c: string)
    requires LexLe(a, b) && LexLe(b, c)
    ensures LexLe(a, c)
  {
    if a != [] && a[0] == b[0] && b[0] == c[0] {
      LexLeTransitive(a[1..], b[1..], c[1..]);
    }
  }

  // ---------------------------------------------------------------------
  // int() of a digit string
  // ---------------------------------------------------------------------

  function DigitValue(c: char): nat {
    if '0' <= c <= '9' then c as int - '0' as int else 0
  }

  /** Python's `int(s)` for a string `s` of ASCII decimal digits; leading zeros are allowed. */
  function DecimalValue(s: string): nat {
    if s == [] then 0 else 10 * DecimalValue(s[..|s| - 1]) + DigitValue(s[|s| - 1])
  }
}
