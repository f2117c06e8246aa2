/** Characters that more than one text format tells apart. */
module Chars {
  predicate IsDigit(c: char) { '0' <= c <= '9' }
}
