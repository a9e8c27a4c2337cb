/** Document identifiers. Request parameters arrive as strings; `isValidObjectId` accepts a
    24-digit hexadecimal string in either letter case, and a query casts such a string to an
    ObjectId, whose canonical spelling is lower-case. Stored references are canonical. */
module Ids {
  import opened Text

  type Id = string

  predicate IsHexDigit(c: char) {
    '0' <= c <= '9' || 'a' <= c <= 'f' || 'A' <= c <= 'F'
  }

  /** mongoose `isValidObjectId` on a string. */
  predicate IsValidObjectId(s: string) {
    |s| == 24 && forall i :: 0 <= i < |s| ==> IsHexDigit(s[i])
  }

  /** The ObjectId a query filter casts a valid parameter to, as its canonical string. */
  function Cast(s: string): (r: Id)
    ensures |r| == |s|
    ensures IsValidObjectId(s) ==> IsValidObjectId(r) && Canonical(r)
  {
    Lower(s)
  }

  /** A canonical id has no upper-case hex digit: the spelling `ObjectId.toString()` gives. */
  predicate Canonical(s: string) {
    forall i :: 0 <= i < |s| ==> !('A' <= s[i] <= 'Z')
  }

  /** The string form of an ObjectId the driver generates. */
  predicate IsGeneratedId(s: string) {
    IsValidObjectId(s) && Canonical(s)
  }

  /** Casting a canonical spelling changes nothing. */
  lemma CastCanonical(s: string)
    requires Canonical(s)
    ensures Cast(s) == s
  {
  }
}
