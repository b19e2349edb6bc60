/** Digits in names: resource names and component names end in numbers. */
module Text {

  predicate Digit(c: char) { '0' <= c <= '9' }

  /** A number as a name spells it: one or more digits. */
  predicate IsNumeral(s: string) { s != "" && forall c :: c in s ==> Digit(c) }
}
