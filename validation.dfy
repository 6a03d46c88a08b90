/**
 The two field validators of the login form. Each maps the raw text of its
 input field to a verdict and the text its error element shows afterwards
 ("" when the field is accepted).

 The email check is the pattern /^[^\s@]+@[^\s@]+\.[^\s@]+$/ applied to the
 trimmed input. IsEmailShape states what the pattern accepts; MatchesEmailPattern
 decides it by a left-to-right scan, and ScanDecidesShape proves the two agree.
 */
module Validation {
  import opened Wrappers
  import opened Text

  /** What a validator returns: the verdict and the error text it leaves. */
  datatype FieldResult = FieldResult(valid: bool, message: string)

  const EmailRequired: string := "Email harus diisi"
  const EmailFormatInvalid: string := "Format email tidak valid"
  const PasswordRequired: string := "Password harus diisi"
  const PasswordTooShort: string := "Password minimal 6 karakter"

  /** Minimum password length, in UTF-16 code units. */
  const MinPasswordLength: nat := 6

  /** A character outside the class [^\s@]. */
  predicate Excluded(c: char) {
    IsWs(c) || c == '@'
  }

  /** Every character of `t` is in the class [^\s@]. */
  predicate AllAllowed(t: string) {
    forall k :: 0 <= k < |t| ==> !Excluded(t[k])
  }

  /** `t` has a '.' with at least `lo` characters before it and at least one after it. */
  ghost predicate DotAfter(t: string, lo: nat) {
    exists i :: lo <= i <= |t| - 2 && t[i] == '.'
  }

  /** The part after '@': [^\s@]+\.[^\s@]+ — no whitespace or '@', and a '.'
      at some index i with 1 <= i <= |d| - 2. */
  ghost predicate IsDomain(d: string) {
    AllAllowed(d) && DotAfter(d, 1)
  }

  /** The whole pattern: a non-empty local part without whitespace or '@',
      then '@', then a domain. */
  ghost predicate IsEmailShape(s: string) {
    exists j :: 1 <= j < |s| && s[j] == '@' && AllAllowed(s[..j]) && IsDomain(s[j + 1..])
  }

  /** The shape read as a split: L + "@" + D matches exactly when L is
      non-empty, L has no whitespace or '@', and D is a domain. */
  lemma EmailShapeSplit(l: string, d: string)
    ensures IsEmailShape(l + "@" + d) <==> |l| > 0 && AllAllowed(l) && IsDomain(d)
  {
    var s := l + "@" + d;
    assert s[|l|] == '@';
    assert s[..|l|] == l && s[|l| + 1..] == d;
    if IsEmailShape(s) {
      var j :| 1 <= j < |s| && s[j] == '@' && AllAllowed(s[..j]) && IsDomain(s[j + 1..]);
      OnlyAt(s, j);
      assert j == |l|;
    }
  }

  /** In a split that satisfies the shape, the '@' at `j` is the only one. */
  lemma OnlyAt(s: string, j: int)
    requires 0 <= j < |s| && AllAllowed(s[..j]) && AllAllowed(s[j + 1..])
    ensures forall k :: 0 <= k < |s| && k != j ==> s[k] != '@'
  {
    forall k | 0 <= k < |s| && k != j ensures s[k] != '@' {
      if k < j {
        assert s[k] == s[..j][k];
      } else {
        assert s[k] == s[j + 1..][k - j - 1];
      }
    }
  }

  // ---- The scan that decides the pattern ----

  /** Where the scan stands: before the first character; inside the local
      part; just after '@'; inside the domain with no usable '.' yet; just
      after a '.' that has a character before it; past such a '.' with at
      least one character after it (the only accepting state). */
  datatype Scan = Start | InLocal | AfterAt | InDomain | AfterDot | InTld

  /** One step of the scan; None rejects. */
  function Step(q: Scan, c: char): Option<Scan> {
    if Excluded(c) then
      if q == InLocal && c == '@' then Some(AfterAt) else None
    else
      match q
      case Start => Some(InLocal)
      case InLocal => Some(InLocal)
      case AfterAt => Some(InDomain)
      case InDomain => Some(if c == '.' then AfterDot else InDomain)
      case AfterDot => Some(InTld)
      case InTld => Some(InTld)
  }

  /** Runs the scan from `q` over `s`. */
  function Run(q: Scan, s: string): Option<Scan>
    decreases |s|
  {
    if s == [] then Some(q)
    else
      match Step(q, s[0])
      case None => None
      case Some(q') => Run(q', s[1..])
  }

  predicate Accepts(q: Scan, s: string) {
    Run(q, s) == Some(InTld)
  }

  /** `emailRegex.test(email)`. */
  predicate MatchesEmailPattern(s: string) {
    Accepts(Start, s)
  }

  lemma AllAllowedTail(s: string)
    requires s != []
    ensures AllAllowed(s) <==> !Excluded(s[0]) && AllAllowed(s[1..])
  {
    if !Excluded(s[0]) && AllAllowed(s[1..]) {
      forall k | 0 <= k < |s| ensures !Excluded(s[k]) {
        if k > 0 { assert s[k] == s[1..][k - 1]; }
      }
    }
  }

  lemma {:induction false} AcceptsInTld(s: string)
    ensures Accepts(InTld, s) <==> AllAllowed(s)
    decreases |s|
  {
    if s != [] {
      AllAllowedTail(s);
      AcceptsInTld(s[1..]);
    }
  }

  lemma AcceptsAfterDot(s: string)
    ensures Accepts(AfterDot, s) <==> s != [] && AllAllowed(s)
  {
    if s != [] {
      AllAllowedTail(s);
      AcceptsInTld(s[1..]);
    }
  }

  lemma DotAfterTail(s: string, lo: nat)
    requires s != []
    ensures DotAfter(s, lo + 1) <==> DotAfter(s[1..], lo)
  {
    if DotAfter(s, lo + 1) {
      var i :| lo + 1 <= i <= |s| - 2 && s[i] == '.';
      assert s[1..][i - 1] == '.';
    }
    if DotAfter(s[1..], lo) {
      var i :| lo <= i <= |s[1..]| - 2 && s[1..][i] == '.';
      assert s[i + 1] == '.';
    }
  }

  lemma {:induction false} AcceptsInDomain(s: string)
    ensures Accepts(InDomain, s) <==> AllAllowed(s) && DotAfter(s, 0)
    decreases |s|
  {
    if s != [] {
      AllAllowedTail(s);
      if Excluded(s[0]) {
      } else if s[0] == '.' {
        AcceptsAfterDot(s[1..]);
        if |s| >= 2 {
          assert DotAfter(s, 0) by { assert s[0] == '.'; }
        }
      } else {
        AcceptsInDomain(s[1..]);
        DotAfterTail(s, 0);
        if DotAfter(s, 0) {
          var i :| 0 <= i <= |s| - 2 && s[i] == '.';
          assert i >= 1;
          assert DotAfter(s, 1);
        }
      }
    }
  }

  lemma AcceptsAfterAt(s: string)
    ensures Accepts(AfterAt, s) <==> IsDomain(s)
  {
    if s != [] {
      AllAllowedTail(s);
      if !Excluded(s[0]) {
        AcceptsInDomain(s[1..]);
        DotAfterTail(s, 0);
      }
    }
  }

  /** The local part continues until the unique '@', after which a domain follows. */
  ghost predicate AtThenDomain(s: string, lo: nat) {
    exists j :: lo <= j < |s| && s[j] == '@' && AllAllowed(s[..j]) && IsDomain(s[j + 1..])
  }

  lemma {:induction false} AcceptsInLocal(s: string)
    ensures Accepts(InLocal, s) <==> AtThenDomain(s, 0)
    decreases |s|
  {
    if s != [] {
      if s[0] == '@' {
        AcceptsAfterAt(s[1..]);
        if AtThenDomain(s, 0) {
          var j :| 0 <= j < |s| && s[j] == '@' && AllAllowed(s[..j]) && IsDomain(s[j + 1..]);
        }
        if IsDomain(s[1..]) {
          assert s[..0] == [];
          assert AtThenDomain(s, 0);
        }
      } else if Excluded(s[0]) {
        forall j | 1 <= j < |s| ensures !AllAllowed(s[..j]) {
          assert s[..j][0] == s[0];
        }
      } else {
        AcceptsInLocal(s[1..]);
        AtThenDomainTail(s);
      }
    }
  }

  /** The split of `s` at its j-th character, seen from s[1..]. */
  lemma SplitShift(s: string, j: int)
    requires s != [] && !Excluded(s[0]) && 1 <= j < |s|
    ensures (s[j] == '@' && AllAllowed(s[..j]) && IsDomain(s[j + 1..]))
        <==> (s[1..][j - 1] == '@' && AllAllowed(s[1..][..j - 1]) && IsDomain(s[1..][j..]))
  {
    AllAllowedTail(s[..j]);
    assert s[..j][1..] == s[1..][..j - 1];
    assert s[j + 1..] == s[1..][j..];
  }

  /** Shifting AtThenDomain past an allowed first character. */
  lemma AtThenDomainTail(s: string)
    requires s != [] && !Excluded(s[0])
    ensures AtThenDomain(s, 0) <==> AtThenDomain(s[1..], 0)
    ensures AtThenDomain(s, 1) <==> AtThenDomain(s[1..], 0)
  {
    if AtThenDomain(s, 0) {
      var j :| 0 <= j < |s| && s[j] == '@' && AllAllowed(s[..j]) && IsDomain(s[j + 1..]);
      assert j != 0;
      SplitShift(s, j);
      assert AtThenDomain(s[1..], 0);
    }
    if AtThenDomain(s[1..], 0) {
      var j :| 0 <= j < |s[1..]| && s[1..][j] == '@' && AllAllowed(s[1..][..j]) && IsDomain(s[1..][j + 1..]);
      SplitShift(s, j + 1);
      assert AtThenDomain(s, 1);
    }
  }

  /** The scan accepts exactly the strings of the email shape. */
  lemma ScanDecidesShape(s: string)
    ensures MatchesEmailPattern(s) <==> IsEmailShape(s)
  {
    if s != [] && !Excluded(s[0]) {
      AcceptsInLocal(s[1..]);
      AtThenDomainTail(s);
    } else if s != [] {
      forall j | 1 <= j < |s| ensures !AllAllowed(s[..j]) {
        assert s[..j][0] == s[0];
      }
    }
  }

  // ---- The validators ----

  /** validateEmail: an empty trimmed input is "required"; a trimmed input that
      does not match the pattern is "invalid format"; otherwise the error text
      is cleared. */
  function ValidateEmail(raw: string): (r: FieldResult)
    ensures Trim(raw) == [] ==> r == FieldResult(false, EmailRequired)
    ensures Trim(raw) != [] && IsEmailShape(Trim(raw)) ==> r == FieldResult(true, "")
    ensures Trim(raw) != [] && !IsEmailShape(Trim(raw)) ==> r == FieldResult(false, EmailFormatInvalid)
  {
    var email := Trim(raw);
    ScanDecidesShape(email);
    if email == [] then FieldResult(false, EmailRequired)
    else if !MatchesEmailPattern(email) then FieldResult(false, EmailFormatInvalid)
    else FieldResult(true, "")
  }

  /** validatePassword: the raw (untrimmed) text; empty is "required", fewer
      than six UTF-16 code units is "too short", otherwise the error text is
      cleared. */
  function ValidatePassword(raw: string): (r: FieldResult)
    ensures raw == [] ==> r == FieldResult(false, PasswordRequired)
    ensures raw != [] && Utf16Length(raw) < MinPasswordLength ==> r == FieldResult(false, PasswordTooShort)
    ensures Utf16Length(raw) >= MinPasswordLength ==> r == FieldResult(true, "")
  {
    if raw == [] then FieldResult(false, PasswordRequired)
    else if Utf16Length(raw) < MinPasswordLength then FieldResult(false, PasswordTooShort)
    else FieldResult(true, "")
  }

  /** An accepted email is never empty once trimmed, and its trim contains
      an '@'. */
  lemma AcceptedEmailNonEmpty(raw: string)
    requires ValidateEmail(raw).valid
    ensures Trim(raw) != [] && '@' in Trim(raw)
  {
    var s := Trim(raw);
    var j :| 1 <= j < |s| && s[j] == '@' && AllAllowed(s[..j]) && IsDomain(s[j + 1..]);
  }

  /** An email that has no '@', or no '.' anywhere after its '@', is rejected
      with the format message. */
  lemma MissingAtOrDotRejected(raw: string)
    requires Trim(raw) != []
    requires forall j :: 0 <= j < |Trim(raw)| && Trim(raw)[j] == '@' ==> '.' !in Trim(raw)[j + 1..]
    ensures ValidateEmail(raw) == FieldResult(false, EmailFormatInvalid)
  {
  }

  /** A password of six or more characters is always accepted, and one of at
      most two characters is always rejected, whatever the characters are. */
  lemma PasswordLengthBounds(raw: string)
    ensures |raw| >= MinPasswordLength ==> ValidatePassword(raw).valid
    ensures |raw| <= 2 ==> !ValidatePassword(raw).valid
  {
  }

  /** Examples: an empty or all-whitespace email is "required", "abc" is a
      too-short password, and six spaces are a valid password, since
      whitespace counts towards a password's length but not an email's. */
  lemma ValidatorExamples()
    ensures ValidateEmail("") == FieldResult(false, EmailRequired)
    ensures ValidateEmail(" \t ") == FieldResult(false, EmailRequired)
    ensures ValidatePassword("abc") == FieldResult(false, PasswordTooShort)
    ensures ValidatePassword("      ") == FieldResult(true, "")
  {
    assert AllWs(" \t ");
    TrimEmptyIffAllWs(" \t ");
  }

  /** Trimming drops the padding of a padded address. */
  lemma TrimExample()
    ensures Trim(" admin@test.com ") == "admin@test.com"
  {
    var padded := " admin@test.com ";
    var tail := "admin@test.com ";
    assert IsWs(padded[0]);
    assert padded[1..] == tail;
    assert !IsWs(tail[0]);
    assert TrimStart(padded) == tail;
    assert IsWs(tail[14]);
    assert tail[..14] == "admin@test.com";
    assert !IsWs("admin@test.com"[13]);
    assert TrimEnd(tail) == "admin@test.com";
  }

  /** A demo account's address has the shape the pattern accepts. */
  lemma ShapeExample()
    ensures IsEmailShape("admin@test.com")
  {
    var e := "admin@test.com";
    assert AllAllowed("admin");
    assert AllAllowed("test.com");
    assert e[5] == '@';
    assert e[..5] == "admin";
    assert e[6..] == "test.com";
    assert "test.com"[4] == '.';
  }
}
