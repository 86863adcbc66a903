/**
 * The waitlist form's email check, `validateEmail` in src/pages/Index.tsx: a test of the
 * regular expression `^[^\s@]+@[^\s@]+\.[^\s@]+$` against the whole input.
 *
 * Three views of the same language are given and proved equal:
 *  - MatchesPattern: the regular expression read as a decomposition of the string;
 *  - WellFormed: a structural description (no whitespace, exactly one '@', a non-empty local
 *    part, a '.' inside the domain that is neither its first nor its last character);
 *  - Matcher: a compiled, single-pass matcher.
 * ValidateEmail runs the matcher, and its contract states both equalities.
 */
module EmailValidation {

  /** `\s` in an ECMAScript regular expression: the WhiteSpace and LineTerminator code points. */
  predicate IsSpace(c: char) {
    c == '\t' || c == '\n' || c == '\U{000B}' || c == '\U{000C}' || c == '\r' || c == ' ' ||
    c == '\U{00A0}' || c == '\U{1680}' || ('\U{2000}' <= c <= '\U{200A}') ||
    c == '\U{2028}' || c == '\U{2029}' || c == '\U{202F}' || c == '\U{205F}' ||
    c == '\U{3000}' || c == '\U{FEFF}'
  }

  /** The character class `[^\s@]`. Note that '.' belongs to it. */
  predicate IsAtomChar(c: char) {
    !IsSpace(c) && c != '@'
  }

  predicate AllAtomChars(t: string) {
    forall i :: 0 <= i < |t| ==> IsAtomChar(t[i])
  }

  /**
   * The language of `^[^\s@]+@[^\s@]+\.[^\s@]+$`: the string is a non-empty run of `[^\s@]`,
   * the '@' at index `at`, a non-empty run, the '.' at index `dot`, and a non-empty run.
   */
  ghost predicate MatchesPattern(s: string) {
    exists at, dot ::
      0 < at && at + 1 < dot < |s| - 1 && s[at] == '@' && s[dot] == '.' &&
      AllAtomChars(s[..at]) && AllAtomChars(s[at + 1..dot]) && AllAtomChars(s[dot + 1..])
  }

  ghost predicate NoSpace(s: string) {
    forall i :: 0 <= i < |s| ==> !IsSpace(s[i])
  }

  /** Index `at` holds the only '@' of `s`. */
  ghost predicate SoleAt(s: string, at: int) {
    0 <= at < |s| && s[at] == '@' && forall i :: 0 <= i < |s| && s[i] == '@' ==> i == at
  }

  /** The domain `s[at + 1..]` has a '.' that is neither its first nor its last character. */
  ghost predicate InnerDot(s: string, at: int) {
    exists dot :: 0 <= at && at + 1 < dot < |s| - 1 && s[dot] == '.'
  }

  /** The structural reading of a valid address. */
  ghost predicate WellFormed(s: string) {
    NoSpace(s) && exists at :: SoleAt(s, at) && 0 < at && InnerDot(s, at)
  }

  /** Length of the longest prefix of `s` made of `[^\s@]` characters. */
  function AtomPrefixLength(s: string): (n: nat)
    ensures n <= |s| && AllAtomChars(s[..n])
    ensures n < |s| ==> !IsAtomChar(s[n])
  {
    if s == [] || !IsAtomChar(s[0]) then 0
    else
      var m := AtomPrefixLength(s[1..]);
      assert s[..m + 1] == [s[0]] + s[1..][..m];
      m + 1
  }

  /**
   * The regular-expression test. Since `[^\s@]` excludes '@', the first part of a match is the
   * longest `[^\s@]` prefix and must be followed by the '@'; the rest must be `[^\s@]`
   * throughout with a '.' strictly inside it.
   */
  function Matcher(email: string): bool {
    var at := AtomPrefixLength(email);
    0 < at && at + 3 <= |email| && email[at] == '@' &&
    AllAtomChars(email[at + 1..]) && '.' in email[at + 2..|email| - 1]
  }

  /** Every string the matcher accepts is in the language of the regular expression. */
  lemma MatcherSound(s: string)
    requires Matcher(s)
    ensures MatchesPattern(s)
  {
    var n := AtomPrefixLength(s);
    var domain := s[n + 1..];
    var inner := s[n + 2..|s| - 1];
    var j :| 0 <= j < |inner| && inner[j] == '.';
    var dot := n + 2 + j;
    assert s[dot] == inner[j];
    var host, tld := s[n + 1..dot], s[dot + 1..];
    forall i | 0 <= i < |host| ensures IsAtomChar(host[i]) {
      assert host[i] == domain[i];
    }
    forall i | 0 <= i < |tld| ensures IsAtomChar(tld[i]) {
      assert tld[i] == domain[dot - n + i];
    }
    assert 0 < n && n + 1 < dot < |s| - 1 && s[n] == '@' && s[dot] == '.';
  }

  /** The longest `[^\s@]` prefix ends at the first character outside the class. */
  lemma AtomPrefixEndsAt(s: string, at: nat)
    requires at < |s| && AllAtomChars(s[..at]) && !IsAtomChar(s[at])
    ensures AtomPrefixLength(s) == at
  {
    var n := AtomPrefixLength(s);
    var local, prefix := s[..at], s[..n];
    assert forall i :: 0 <= i < at ==> local[i] == s[i];
    assert forall i :: 0 <= i < n ==> prefix[i] == s[i];
  }

  /** A run, a '.', and a run, all of `[^\s@]`, make one run of `[^\s@]`. */
  lemma JoinAtoms(host: string, tld: string)
    requires AllAtomChars(host) && AllAtomChars(tld)
    ensures AllAtomChars(host + ['.'] + tld)
  {
    var domain := host + ['.'] + tld;
    forall i | 0 <= i < |domain| ensures IsAtomChar(domain[i]) {
      if i < |host| {
        assert domain[i] == host[i];
      } else if i > |host| {
        assert domain[i] == tld[i - |host| - 1];
      }
    }
  }

  /** A decomposition matching the regular expression at `at` and `dot` is accepted by the matcher. */
  lemma SplitAccepted(s: string, at: int, dot: int)
    requires 0 < at && at + 1 < dot < |s| - 1 && s[at] == '@' && s[dot] == '.'
    requires AllAtomChars(s[..at]) && AllAtomChars(s[at + 1..dot]) && AllAtomChars(s[dot + 1..])
    ensures Matcher(s)
  {
    AtomPrefixEndsAt(s, at);
    JoinAtoms(s[at + 1..dot], s[dot + 1..]);
    assert s[at + 1..] == s[at + 1..dot] + [s[dot]] + s[dot + 1..];
    assert s[at + 2..|s| - 1][dot - at - 2] == '.';
  }

  /** Every string in the language of the regular expression is accepted by the matcher. */
  lemma MatcherComplete(s: string)
    requires MatchesPattern(s)
    ensures Matcher(s)
  {
    var at, dot :| 0 < at && at + 1 < dot < |s| - 1 && s[at] == '@' && s[dot] == '.' &&
      AllAtomChars(s[..at]) && AllAtomChars(s[at + 1..dot]) && AllAtomChars(s[dot + 1..]);
    SplitAccepted(s, at, dot);
  }

  /** The matcher accepts exactly the language of the regular expression. */
  lemma MatcherMatchesPattern(s: string)
    ensures Matcher(s) <==> MatchesPattern(s)
  {
    if Matcher(s) {
      MatcherSound(s);
    }
    if MatchesPattern(s) {
      MatcherComplete(s);
    }
  }

  /** Every character of `s[lo..hi]` is `[^\s@]` when `s` has no space and its one '@' lies outside. */
  lemma SliceIsAtoms(s: string, at: int, lo: int, hi: int)
    requires NoSpace(s) && SoleAt(s, at)
    requires 0 <= lo <= hi <= |s| && (at < lo || hi <= at)
    ensures AllAtomChars(s[lo..hi])
  {
    var t := s[lo..hi];
    forall i | 0 <= i < |t| ensures IsAtomChar(t[i]) {
      assert t[i] == s[lo + i];
    }
  }

  /** The regular expression's language and the structural description coincide. */
  lemma PatternIffWellFormed(s: string)
    ensures MatchesPattern(s) <==> WellFormed(s)
  {
    if MatchesPattern(s) {
      var at, dot :| 0 < at && at + 1 < dot < |s| - 1 && s[at] == '@' && s[dot] == '.' &&
        AllAtomChars(s[..at]) && AllAtomChars(s[at + 1..dot]) && AllAtomChars(s[dot + 1..]);
      forall i | 0 <= i < |s| ensures !IsSpace(s[i]) && (s[i] == '@' ==> i == at) {
        if i < at {
          assert s[..at][i] == s[i];
        } else if at < i < dot {
          assert s[at + 1..dot][i - at - 1] == s[i];
        } else if dot < i {
          assert s[dot + 1..][i - dot - 1] == s[i];
        }
      }
      assert SoleAt(s, at) && InnerDot(s, at);
    }
    if WellFormed(s) {
      var at :| SoleAt(s, at) && 0 < at && InnerDot(s, at);
      var dot :| at + 1 < dot < |s| - 1 && s[dot] == '.';
      SliceIsAtoms(s, at, 0, at);
      SliceIsAtoms(s, at, at + 1, dot);
      SliceIsAtoms(s, at, dot + 1, |s|);
      assert s[..at] == s[0..at];
      assert s[dot + 1..] == s[dot + 1..|s|];
    }
  }

  /**
   * `validateEmail`: it accepts exactly the language of the regular expression, which is
   * exactly the set of structurally well-formed addresses.
   */
  function ValidateEmail(email: string): (valid: bool)
    ensures valid <==> MatchesPattern(email)
    ensures valid <==> WellFormed(email)
  {
    MatcherMatchesPattern(email);
    PatternIffWellFormed(email);
    Matcher(email)
  }

  /** A plain address is accepted. */
  lemma AcceptsPlainAddress()
    ensures ValidateEmail("user@example.com")
  {
    var s := "user@example.com";
    assert s[..4] == "user" && s[5..12] == "example" && s[13..] == "com";
    SplitAccepted(s, 4, 12);
  }

  /** Dots in the local part and several in the domain are accepted. */
  lemma AcceptsDottedAddress()
    ensures ValidateEmail("first.last@sub.domain.org")
  {
    var s := "first.last@sub.domain.org";
    assert s[..10] == "first.last" && s[11..21] == "sub.domain" && s[22..] == "org";
    SplitAccepted(s, 10, 21);
  }

  /** An input without an '@' is rejected. */
  lemma RejectsWithoutAt(s: string)
    requires '@' !in s
    ensures !ValidateEmail(s)
  {
    var at := AtomPrefixLength(s);
    if 0 < at < |s| {
      assert s[at] in s;
    }
  }

  /** Inputs missing a part of the pattern are rejected. */
  lemma RejectsIncomplete()
    ensures !ValidateEmail("") && !ValidateEmail("a@b") && !ValidateEmail("a.com")
    ensures !ValidateEmail("not-an-email")
  {
    RejectsWithoutAt("a.com");
    RejectsWithoutAt("not-an-email");
  }

  /** A space, or a '.' at either edge of the domain, is rejected. */
  lemma RejectsMisplaced()
    ensures !ValidateEmail("a b@c.com") && !ValidateEmail("a@.com") && !ValidateEmail("a@b.")
  {
  }

  /** A second '@' is rejected. */
  lemma RejectsSecondAt()
    ensures !ValidateEmail("a@b@c.com")
  {
    var s := "a@b@c.com";
    assert s[2..][1] == '@';
  }
}
