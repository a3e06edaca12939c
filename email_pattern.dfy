/** The email address pattern a new user's address must match, written out
    as a predicate on the address. The pattern accepts a local part of at
    most 64 characters made of dot-separated atoms over letters, digits, `_`
    and `-`; an `@`; one character other than `-`; and then dot-separated
    labels over letters, digits and `-` of which there are at least two, the
    last one made of two or more letters. */
module EmailPattern {

  predicate IsLetter(c: char) {
    ('A' <= c <= 'Z') || ('a' <= c <= 'z')
  }

  predicate IsDigit(c: char) {
    '0' <= c <= '9'
  }

  /** A character of a local-part atom. */
  predicate IsAtomChar(c: char) {
    IsLetter(c) || IsDigit(c) || c == '_' || c == '-'
  }

  /** A character of a domain label. */
  predicate IsLabelChar(c: char) {
    IsLetter(c) || IsDigit(c) || c == '-'
  }

  /** Non-empty pieces joined by single dots: no dot at either end and no two
      dots in a row. */
  predicate WellDotted(s: string) {
    && |s| > 0
    && s[0] != '.'
    && s[|s| - 1] != '.'
    && forall i :: 0 <= i < |s| - 1 && s[i] == '.' ==> s[i + 1] != '.'
  }

  /** The part before the `@`: between 1 and 64 characters, atoms joined by
      dots. */
  predicate LocalPart(l: string) {
    && |l| <= 64
    && WellDotted(l)
    && forall i :: 0 <= i < |l| ==> l[i] == '.' || IsAtomChar(l[i])
  }

  /** What follows the first character of the domain: two or more labels
      joined by dots, the last of them two or more letters. */
  predicate Labels(r: string) {
    && WellDotted(r)
    && (forall i :: 0 <= i < |r| ==> r[i] == '.' || IsLabelChar(r[i]))
    && exists j :: 0 <= j < |r| - 2 && IsLastDot(r, j)
  }

  /** `r[j]` is the dot before a final label of letters only. */
  predicate IsLastDot(r: string, j: int)
    requires 0 <= j < |r|
  {
    r[j] == '.' && forall k :: j < k < |r| ==> IsLetter(r[k])
  }

  /** The part after the `@`: one character other than `-`, then the labels. */
  predicate DomainPart(d: string) {
    |d| > 0 && d[0] != '-' && Labels(d[1..])
  }

  /** The address matches the pattern: it splits at an `@` into a local part
      and a domain part. */
  predicate Matches(s: string) {
    exists p :: 0 <= p < |s| && s[p] == '@' && LocalPart(s[..p]) && DomainPart(s[p + 1..])
  }

  /** An address without an `@` never matches. */
  lemma NoAtNoMatch(s: string)
    requires forall i :: 0 <= i < |s| ==> s[i] != '@'
    ensures !Matches(s)
  {
  }

  /** `user.com` is rejected. */
  lemma RejectsMissingAt()
    ensures !Matches("user.com")
  {
    NoAtNoMatch("user.com");
  }

  /** An address whose local part is longer than 64 characters is rejected. */
  lemma RejectsLongLocalPart(s: string, p: nat)
    requires p < |s| && s[p] == '@' && p > 64
    requires forall i :: 0 <= i < p ==> s[i] != '@'
    ensures !Matches(s)
  {
    forall q | 0 <= q < |s| && s[q] == '@' ensures !LocalPart(s[..q]) {
      if q > p {
        assert s[..q][p] == '@';
      }
    }
  }

  /** `user@user.com` is accepted. */
  lemma AcceptsPlainAddress()
    ensures Matches("user@user.com")
  {
    var s := "user@user.com";
    assert s[..4] == "user";
    assert s[5..] == "user.com";
    assert "user.com"[1..] == "ser.com";
    assert IsLastDot("ser.com", 3);
    assert Labels("ser.com");
    assert LocalPart(s[..4]) && DomainPart(s[5..]);
  }
}
