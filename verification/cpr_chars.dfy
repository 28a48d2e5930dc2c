/**
 * The character classes and constants the CPR detector is built from
 * (include/cpr-detector.hpp).
 */
module CprChars {

  /**
   * make_predicate(d1, ..., dn) applied to c. The source builds it by variadic
   * recursion: one character compares for equality, several are the
   * disjunction of the first with the predicate of the rest.
   */
  predicate MakePredicate(ds: seq<char>, c: char)
    requires |ds| >= 1
    decreases |ds|
  {
    if |ds| == 1 then c == ds[0]
    else c == ds[0] || MakePredicate(ds[1..], c)
  }

  /** The predicate built from d1, ..., dn holds of exactly the characters listed. */
  lemma {:induction false} MakePredicateIsMembership(ds: seq<char>, c: char)
    requires |ds| >= 1
    ensures MakePredicate(ds, c) <==> c in ds
    decreases |ds|
  {
    if |ds| > 1 {
      MakePredicateIsMembership(ds[1..], c);
      assert ds == [ds[0]] + ds[1..];
    }
  }

  predicate IsNonzeroDigit(c: char)
  {
    '0' < c && c <= '9'
  }

  predicate IsDigit(c: char)
  {
    '0' <= c && c <= '9'
  }

  /** The two digit tests are the character classes their names promise. */
  lemma DigitClasses(c: char)
    ensures IsDigit(c) <==> c in "0123456789"
    ensures IsNonzeroDigit(c) <==> c in "123456789"
    ensures IsNonzeroDigit(c) <==> IsDigit(c) && c != '0'
  {
  }

  /** The separators allowed after the year: space, dash and slash. */
  predicate IsSeparator(c: char)
  {
    c == ' ' || c == '-' || c == '/'
  }

  /**
   * The characters that may precede a candidate and follow a match. NUL
   * is listed twice in the source; tab is accepted here but not as a separator.
   */
  predicate IsPreviousOk(c: char)
  {
    c == '\0' || c == ' ' || c == '\n' || c == '\t'
  }

  /** Both constant predicates are the make_predicate instances the source declares. */
  lemma PredicatesAreMade(c: char)
    ensures IsSeparator(c) == MakePredicate(" -/", c)
    ensures IsPreviousOk(c) == MakePredicate(['\0', ' ', '\n', '\t', '\0'], c)
  {
    MakePredicateIsMembership(" -/", c);
    MakePredicateIsMembership(['\0', ' ', '\n', '\t', '\0'], c);
  }

  predicate IsSpace(c: char)
  {
    c == ' '
  }

  /** The weights of the modulus-11 check, one per digit. */
  const Modulus11Factors: seq<int> := [4, 3, 2, 7, 6, 5, 4, 3, 2, 1]
}
