/** What several modules say about strings. */
module Strings {

  predicate Without(text: string, c: char) {
    forall i :: 0 <= i < |text| ==> text[i] != c
  }
}
