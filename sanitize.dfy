/**
 * Input sanitisers and validators: character filters for emails and phone
 * numbers, the SQL-comment scrubber, and the email, phone and password checks.
 */
module Sanitize {
  import opened Text

  // ---------------------------------------------------------------------
  // sanitizeEmail

  /** What `[\w.@+-]` accepts. */
  predicate EmailChar(c: char) {
    IsWordChar(c) || c == '.' || c == '@' || c == '+' || c == '-'
  }

  /** Lower-cases, trims, and keeps only the characters an email may hold. */
  function SanitizeEmail(email: string): (r: string)
    ensures email == [] ==> r == []
    ensures forall i :: 0 <= i < |r| ==> EmailChar(r[i]) && !IsUpper(r[i])
    ensures |r| <= |email|
  {
    if email == [] then []
    else
      var lower := ToLower(email);
      assert forall c :: c in lower ==> !IsUpper(c);
      var r := Filter(Trim(lower), EmailChar);
      assert forall i :: 0 <= i < |r| ==> r[i] in r;
      r
  }

  /** Sanitizing a sanitized email changes nothing. */
  lemma SanitizeEmailIdempotent(email: string)
    ensures SanitizeEmail(SanitizeEmail(email)) == SanitizeEmail(email)
  {
    var s := SanitizeEmail(email);
    if s != [] {
      ToLowerOfEmailChars(s);
      assert !IsSpace(s[0]) && !IsSpace(s[|s| - 1]) by {
        EmailCharNotSpace(s[0]);
        EmailCharNotSpace(s[|s| - 1]);
      }
      TrimOfTrimmed(s);
      FilterKeepsAll(s, EmailChar);
    }
  }

  /** An email already made of lower-case email characters comes through unchanged. */
  lemma CleanEmailUnchanged(email: string)
    requires forall i :: 0 <= i < |email| ==> EmailChar(email[i]) && !IsUpper(email[i])
    ensures SanitizeEmail(email) == email
  {
    if email != [] {
      ToLowerOfEmailChars(email);
      assert !IsSpace(email[0]) && !IsSpace(email[|email| - 1]) by {
        EmailCharNotSpace(email[0]);
        EmailCharNotSpace(email[|email| - 1]);
      }
      TrimOfTrimmed(email);
      FilterKeepsAll(email, EmailChar);
    }
  }

  lemma EmailCharNotSpace(c: char)
    requires EmailChar(c)
    ensures !IsSpace(c)
  {
  }

  /** Lower-casing leaves lower-case email characters alone. */
  lemma {:induction false} ToLowerOfEmailChars(s: string)
    requires forall i :: 0 <= i < |s| ==> EmailChar(s[i]) && !IsUpper(s[i])
    ensures ToLower(s) == s
  {
    if s != [] {
      ToLowerOfEmailChars(s[1..]);
    }
  }

  // ---------------------------------------------------------------------
  // sanitizePhone and validators.phone

  /** What `[\d+\-() ]` accepts. */
  predicate PhoneChar(c: char) {
    IsDigit(c) || c == '+' || c == '-' || c == '(' || c == ')' || c == ' '
  }

  /** Keeps only the characters a phone number may hold, then trims. */
  function SanitizePhone(phone: string): (r: string)
    ensures forall i :: 0 <= i < |r| ==> PhoneChar(r[i])
    ensures r == [] || (r[0] != ' ' && r[|r| - 1] != ' ')
    ensures |r| <= |phone|
  {
    if phone == [] then []
    else
      var kept := Filter(phone, PhoneChar);
      TrimKeepsPhoneChars(kept);
      Trim(kept)
  }

  lemma TrimKeepsPhoneChars(s: string)
    requires forall i :: 0 <= i < |s| ==> PhoneChar(s[i])
    ensures forall i :: 0 <= i < |Trim(s)| ==> PhoneChar(Trim(s)[i])
  {
    var r := Trim(s);
    TrimKeepsChars(s);
    forall i | 0 <= i < |r|
      ensures PhoneChar(r[i])
    {
      assert r[i] in s;
    }
  }

  /** `/^[\d+\-() ]{7,20}$/`: 7 to 20 characters, each a phone character. */
  predicate IsValidPhone(phone: string) {
    7 <= |phone| <= 20 && forall i :: 0 <= i < |phone| ==> PhoneChar(phone[i])
  }

  /** A sanitized number of 7 to 20 characters passes the check. */
  lemma SanitizedPhoneValid(phone: string)
    ensures 7 <= |SanitizePhone(phone)| <= 20 ==> IsValidPhone(SanitizePhone(phone))
  {
  }

  /** A valid number without spaces at its ends is left alone by the sanitizer. */
  lemma ValidPhoneUnchanged(phone: string)
    requires IsValidPhone(phone) && phone[0] != ' ' && phone[|phone| - 1] != ' '
    ensures SanitizePhone(phone) == phone
  {
    FilterKeepsAll(phone, PhoneChar);
    PhoneCharNotSpace(phone[0]);
    PhoneCharNotSpace(phone[|phone| - 1]);
    assert TrimStart(phone) == phone;
    assert TrimEnd(phone) == phone;
  }

  lemma PhoneCharNotSpace(c: char)
    requires PhoneChar(c) && c != ' '
    ensures !IsSpace(c)
  {
  }

  // ---------------------------------------------------------------------
  // validators.email

  /** Neither white space nor '@': what `[^\s@]` accepts. */
  predicate Plain(c: char) {
    !IsSpace(c) && c != '@'
  }

  predicate AllPlain(s: string) {
    forall k :: 0 <= k < |s| ==> Plain(s[k])
  }

  /** `/^[^\s@]+@[^\s@]+\.[^\s@]+$/`, read as the regular expression reads:
      three runs of plain characters, with an '@' after the first and a '.'
      after the second. */
  predicate MatchesEmailPattern(s: string) {
    exists i, j :: 0 < i && i + 1 < j && j + 1 < |s| && s[i] == '@' && s[j] == '.'
      && AllPlain(s[..i]) && AllPlain(s[i + 1..j]) && AllPlain(s[j + 1..])
  }

  /** `validators.email`: a non-empty local part of plain characters, an
      '@', and a domain of plain characters with a '.' that is neither its
      first nor its last character. */
  predicate IsValidEmail(s: string) {
    exists i :: 0 <= i < |s| && s[i] == '@' && s[..i] != [] && AllPlain(s[..i]) && ValidDomain(s[i + 1..])
  }

  predicate ValidDomain(d: string) {
    AllPlain(d) && exists j :: 0 < j < |d| - 1 && d[j] == '.'
  }

  /** The two readings of the email check agree. */
  lemma EmailPatternIsValidEmail(s: string)
    ensures MatchesEmailPattern(s) <==> IsValidEmail(s)
  {
    if MatchesEmailPattern(s) {
      var i, j :| 0 < i && i + 1 < j && j + 1 < |s| && s[i] == '@' && s[j] == '.'
        && AllPlain(s[..i]) && AllPlain(s[i + 1..j]) && AllPlain(s[j + 1..]);
      PatternGivesDomain(s, i, j);
    }
    if IsValidEmail(s) {
      var i :| 0 <= i < |s| && s[i] == '@' && s[..i] != [] && AllPlain(s[..i]) && ValidDomain(s[i + 1..]);
      var j :| 0 < j < |s[i + 1..]| - 1 && s[i + 1..][j] == '.';
      DomainGivesPattern(s, i, j);
    }
  }

  lemma PatternGivesDomain(s: string, i: int, j: int)
    requires 0 < i && i + 1 < j && j + 1 < |s| && s[i] == '@' && s[j] == '.'
    requires AllPlain(s[..i]) && AllPlain(s[i + 1..j]) && AllPlain(s[j + 1..])
    ensures IsValidEmail(s)
  {
    var d := s[i + 1..];
    var mid := s[i + 1..j];
    var tail := s[j + 1..];
    forall k | 0 <= k < |d|
      ensures Plain(d[k])
    {
      if i + 1 + k < j {
        assert d[k] == mid[k];
      } else if i + 1 + k > j {
        assert d[k] == tail[k - (j - i)];
      }
    }
    assert d[j - i - 1] == '.';
    assert ValidDomain(d);
  }

  lemma DomainGivesPattern(s: string, i: int, j: int)
    requires 0 <= i < |s| && s[i] == '@' && s[..i] != [] && AllPlain(s[..i]) && ValidDomain(s[i + 1..])
    requires 0 < j < |s[i + 1..]| - 1 && s[i + 1..][j] == '.'
    ensures MatchesEmailPattern(s)
  {
    var d := s[i + 1..];
    var jj := i + 1 + j;
    assert s[jj] == '.';
    var mid := s[i + 1..jj];
    forall k | 0 <= k < |mid|
      ensures Plain(mid[k])
    {
      assert mid[k] == d[k];
    }
    var tail := s[jj + 1..];
    forall k | 0 <= k < |tail|
      ensures Plain(tail[k])
    {
      assert tail[k] == d[j + 1 + k];
    }
    assert AllPlain(mid) && AllPlain(tail);
  }

  /** A valid email holds exactly one '@', no white space, and a dot after the '@'. */
  lemma ValidEmailShape(s: string)
    requires IsValidEmail(s)
    ensures forall k :: 0 <= k < |s| ==> !IsSpace(s[k])
    ensures exists i :: 0 <= i < |s| && s[i] == '@' && forall k :: 0 <= k < |s| && k != i ==> s[k] != '@'
    ensures exists i, j :: 0 <= i < j < |s| && s[i] == '@' && s[j] == '.'
  {
    var i :| 0 <= i < |s| && s[i] == '@' && s[..i] != [] && AllPlain(s[..i]) && ValidDomain(s[i + 1..]);
    var d := s[i + 1..];
    var j :| 0 < j < |d| - 1 && d[j] == '.';
    assert s[i + 1 + j] == '.';
    forall k | 0 <= k < |s| && k != i
      ensures Plain(s[k])
    {
      if k < i {
        assert s[k] == s[..i][k];
      } else {
        assert s[k] == s[i + 1..][k - i - 1];
      }
    }
  }

  // ---------------------------------------------------------------------
  // validators.password

  predicate HasLower(s: string) {
    exists i :: 0 <= i < |s| && IsLower(s[i])
  }

  predicate HasUpper(s: string) {
    exists i :: 0 <= i < |s| && IsUpper(s[i])
  }

  predicate HasDigit(s: string) {
    exists i :: 0 <= i < |s| && IsDigit(s[i])
  }

  const TooShort := "Password must be at least 6 characters"
  const NoLower := "Password must contain a lowercase letter"
  const NoUpper := "Password must contain an uppercase letter"
  const NoDigit := "Password must contain a number"

  /** The message for one rule: there when the rule fails. */
  function RuleMessage(fails: bool, message: string): seq<string> {
    if fails then [message] else []
  }

  /** One message per rule the password breaks, in the order the rules are
      checked. The length is JavaScript's, in UTF-16 code units. */
  function PasswordErrors(password: string): (r: seq<string>)
    ensures |r| <= 4
  {
    RuleMessage(Utf16Length(password) < 6, TooShort)
    + RuleMessage(!HasLower(password), NoLower)
    + RuleMessage(!HasUpper(password), NoUpper)
    + RuleMessage(!HasDigit(password), NoDigit)
  }

  /** Each message is there exactly when its rule fails, and there are no others. */
  lemma PasswordErrorsMembers(password: string)
    ensures TooShort in PasswordErrors(password) <==> Utf16Length(password) < 6
    ensures NoLower in PasswordErrors(password) <==> !HasLower(password)
    ensures NoUpper in PasswordErrors(password) <==> !HasUpper(password)
    ensures NoDigit in PasswordErrors(password) <==> !HasDigit(password)
    ensures PasswordErrors(password) == [] <==>
      Utf16Length(password) >= 6 && HasLower(password) && HasUpper(password) && HasDigit(password)
  {
    PasswordMessagesDiffer();
  }

  /** No message other than the four rule messages appears. */
  lemma PasswordErrorsOnlyRules(password: string)
    ensures forall e :: e in PasswordErrors(password) ==> e in {TooShort, NoLower, NoUpper, NoDigit}
  {
  }

  /** `validators.password`: the messages of `PasswordErrors`, pushed one rule at a time. */
  method ValidatePassword(password: string) returns (valid: bool, errors: seq<string>)
    ensures errors == PasswordErrors(password)
    ensures valid <==> errors == []
    ensures valid <==> Utf16Length(password) >= 6 && HasLower(password) && HasUpper(password) && HasDigit(password)
  {
    errors := [];
    if Utf16Length(password) < 6 {
      errors := errors + [TooShort];
    }
    assert errors == RuleMessage(Utf16Length(password) < 6, TooShort);
    if !HasLower(password) {
      errors := errors + [NoLower];
    }
    assert errors == RuleMessage(Utf16Length(password) < 6, TooShort) + RuleMessage(!HasLower(password), NoLower);
    if !HasUpper(password) {
      errors := errors + [NoUpper];
    }
    if !HasDigit(password) {
      errors := errors + [NoDigit];
    }
    valid := |errors| == 0;
    PasswordErrorsMembers(password);
  }

  /** The four messages have different lengths, so no two are the same. */
  lemma PasswordMessagesDiffer()
    ensures TooShort != NoLower && TooShort != NoUpper && TooShort != NoDigit
    ensures NoLower != NoUpper && NoLower != NoDigit && NoUpper != NoDigit
  {
    assert |TooShort| == 38 && |NoLower| == 40 && |NoUpper| == 41 && |NoDigit| == 30;
  }

  /** A character beyond U+FFFF counts twice towards the length rule: five
      characters, one of them an emoji, make six code units. */
  lemma AstralCharCountsTwice(password: string)
    requires password == "aB1\U{1F600}x"
    ensures |password| == 5 && Utf16Length(password) == 6
  {
    assert password[..4] == "aB1\U{1F600}";
    assert password[..3] == "aB1";
  }

  // ---------------------------------------------------------------------
  // preventSqlInjection

  /** What `['";\\]` matches. */
  predicate QuoteChar(c: char) {
    c == '\'' || c == '"' || c == ';' || c == '\\'
  }

  predicate NotQuote(c: char) {
    !QuoteChar(c)
  }

  /** The two-character text `[a, b]` occurs in `s`. */
  predicate Occurs(s: string, a: char, b: char) {
    exists i :: 0 <= i < |s| - 1 && s[i] == a && s[i + 1] == b
  }

  /** `s.replace(/ab/g, '')`: removes the occurrences found scanning left to
      right, without overlap, in one pass. */
  function RemovePair(s: string, a: char, b: char): (r: string)
    ensures |r| <= |s|
    ensures |r| == |s| <==> !Occurs(s, a, b)
    ensures forall c :: c in r ==> c in s
  {
    if |s| < 2 then s
    else if s[0] == a && s[1] == b then
      assert Occurs(s, a, b);
      RemovePair(s[2..], a, b)
    else
      var rest := RemovePair(s[1..], a, b);
      assert Occurs(s, a, b) <==> Occurs(s[1..], a, b) by {
        if Occurs(s, a, b) {
          var i :| 0 <= i < |s| - 1 && s[i] == a && s[i + 1] == b;
          assert i > 0 && s[1..][i - 1] == a && s[1..][i] == b;
        }
        if Occurs(s[1..], a, b) {
          var i :| 0 <= i < |s[1..]| - 1 && s[1..][i] == a && s[1..][i + 1] == b;
          assert s[i + 1] == a && s[i + 2] == b;
        }
      }
      [s[0]] + rest
  }

  /** `preventSqlInjection` as written: one pass of each removal, then a trim. */
  function PreventSqlInjection(input: string): (r: string)
    ensures forall c :: c in r ==> !QuoteChar(c)
  {
    Trim(RemovePair(RemovePair(Filter(input, NotQuote), '-', '-'), '/', '*'))
  }

  /** Text with nothing to remove comes through both scrubbers unchanged:
      no quote character, no comment marker, no blank at either end. */
  lemma CleanInputUnchanged(s: string)
    requires Trimmed(s)
    requires forall i :: 0 <= i < |s| ==> !QuoteChar(s[i])
    requires !Occurs(s, '-', '-') && !Occurs(s, '/', '*')
    ensures PreventSqlInjection(s) == s
    ensures PreventSqlInjectionFixed(s) == s
  {
    FilterKeepsAll(s, NotQuote);
    RemovePairUnchanged(s, '-', '-');
    RemovePairUnchanged(s, '/', '*');
    TrimOfTrimmed(s);
    FixedAgreesWithoutMarkers(s);
  }

  /** One pass is not enough: removing one comment marker can join the
      characters around it into another. */
  lemma OnePassLeavesMarkers()
    ensures PreventSqlInjection("-/*-") == "--"
    ensures PreventSqlInjection("//**") == "/*"
    ensures Occurs(PreventSqlInjection("-/*-"), '-', '-')
    ensures Occurs(PreventSqlInjection("//**"), '/', '*')
  {
    DashesRejoin("-/*-");
    SlashStarRejoins("//**");
    assert "--"[0] == '-' && "--"[1] == '-';
    assert "/*"[0] == '/' && "/*"[1] == '*';
  }

  lemma DashesRejoin(s: string)
    requires s == "-/*-"
    ensures PreventSqlInjection(s) == "--"
  {
    DashStarNoQuotes();
    DashStarNoDashes();
    DashStarPass();
    DashDashTrimmed();
    PreventSqlInjectionSteps(s, s, s, "--");
  }

  lemma DashDashTrimmed()
    ensures Trimmed("--")
  {
    assert "--"[0] == '-' && "--"[1] == '-';
  }

  lemma SlashStarTrimmed()
    ensures Trimmed("/*")
  {
    assert "/*"[0] == '/' && "/*"[1] == '*';
  }

  /** The scrubber's result, from what each of its passes gives. */
  lemma PreventSqlInjectionSteps(input: string, unquoted: string, undashed: string, result: string)
    requires Filter(input, NotQuote) == unquoted
    requires RemovePair(unquoted, '-', '-') == undashed
    requires RemovePair(undashed, '/', '*') == result
    requires Trimmed(result)
    ensures PreventSqlInjection(input) == result
  {
    TrimOfTrimmed(result);
  }

  lemma DashStarNoQuotes()
    ensures Filter("-/*-", NotQuote) == "-/*-"
  {
    FilterKeepsAll("-/*-", NotQuote);
  }

  lemma DashStarNoDashes()
    ensures RemovePair("-/*-", '-', '-') == "-/*-"
  {
    NoDashPairIn("-/*-");
  }

  lemma DashStarPass()
    ensures RemovePair("-/*-", '/', '*') == "--"
  {
    var t := "-/*-";
    KeepsFirst(t, '/', '*');
    assert t[1..] == "/*-";
    DashStarTail();
  }

  lemma DashStarTail()
    ensures RemovePair("/*-", '/', '*') == "-"
  {
    var t := "/*-";
    DropsOnePair(t, '/', '*');
    assert t[2..] == "-";
  }

  lemma SlashStarRejoins(s: string)
    requires s == "//**"
    ensures PreventSqlInjection(s) == "/*"
  {
    SlashStarNoQuotes();
    SlashStarNoDashes();
    SlashStarPass();
    SlashStarTrimmed();
    PreventSqlInjectionSteps(s, s, s, "/*");
  }

  lemma SlashStarNoQuotes()
    ensures Filter("//**", NotQuote) == "//**"
  {
    FilterKeepsAll("//**", NotQuote);
  }

  lemma SlashStarNoDashes()
    ensures RemovePair("//**", '-', '-') == "//**"
  {
    NoDashPairIn("//**");
  }

  lemma SlashStarPass()
    ensures RemovePair("//**", '/', '*') == "/*"
  {
    var t := "//**";
    assert t[1..] == "/**";
    SlashStarTail();
  }

  lemma SlashStarTail()
    ensures RemovePair("/**", '/', '*') == "*"
  {
    var t := "/**";
    assert t[2..] == "*";
  }

  /** A string without "--" is left alone by that removal. */
  lemma NoDashPairIn(s: string)
    requires forall i :: 0 <= i < |s| - 1 ==> s[i] != '-' || s[i + 1] != '-'
    ensures RemovePair(s, '-', '-') == s
  {
    RemovePairUnchanged(s, '-', '-');
  }

  /** A string not starting with the pair keeps its first character. */
  lemma KeepsFirst(s: string, a: char, b: char)
    requires |s| >= 2 && !(s[0] == a && s[1] == b)
    ensures RemovePair(s, a, b) == [s[0]] + RemovePair(s[1..], a, b)
  {
  }

  /** A string starting with the pair loses it and goes on with the rest. */
  lemma DropsOnePair(s: string, a: char, b: char)
    requires |s| >= 2 && s[0] == a && s[1] == b
    ensures RemovePair(s, a, b) == RemovePair(s[2..], a, b)
  {
  }

  /** Both removals repeated until neither changes anything. */
  function ScrubComments(s: string): (r: string)
    ensures !Occurs(r, '-', '-') && !Occurs(r, '/', '*')
    ensures forall c :: c in r ==> c in s
    decreases |s|
  {
    var once := RemovePair(RemovePair(s, '-', '-'), '/', '*');
    if |once| == |s| then
      assert RemovePair(s, '-', '-') == s by {
        assert |RemovePair(s, '-', '-')| == |s|;
        RemovePairUnchanged(s, '-', '-');
      }
      s
    else ScrubComments(once)
  }

  /** A removal that finds nothing returns its input. */
  lemma {:induction false} RemovePairUnchanged(s: string, a: char, b: char)
    requires !Occurs(s, a, b)
    ensures RemovePair(s, a, b) == s
  {
    if |s| >= 2 {
      assert !(s[0] == a && s[1] == b);
      RemovePairUnchanged(s[1..], a, b);
      assert s == [s[0]] + s[1..];
    }
  }

  /** `preventSqlInjection` as evidently intended: no quote character and no
      comment marker survives. */
  function PreventSqlInjectionFixed(input: string): (r: string)
    ensures forall c :: c in r ==> !QuoteChar(c)
    ensures !Occurs(r, '-', '-') && !Occurs(r, '/', '*')
  {
    var r := Trim(ScrubComments(Filter(input, NotQuote)));
    TrimKeepsPairsOut(ScrubComments(Filter(input, NotQuote)));
    r
  }

  /** Trimming cannot bring two characters together. */
  lemma TrimKeepsPairsOut(s: string)
    requires !Occurs(s, '-', '-') && !Occurs(s, '/', '*')
    ensures !Occurs(Trim(s), '-', '-') && !Occurs(Trim(s), '/', '*')
    ensures forall c :: c in Trim(s) ==> c in s
  {
    var a := TrimStart(s);
    var r := TrimEnd(a);
    SliceAvoidsPair(s, |s| - |a|, |s|, '-', '-');
    SliceAvoidsPair(s, |s| - |a|, |s|, '/', '*');
    SliceAvoidsPair(a, 0, |r|, '-', '-');
    SliceAvoidsPair(a, 0, |r|, '/', '*');
    TrimKeepsChars(s);
  }

  /** A stretch of a text without the pair does not hold it either. */
  lemma SliceAvoidsPair(s: string, lo: nat, hi: nat, a: char, b: char)
    requires lo <= hi <= |s| && !Occurs(s, a, b)
    ensures !Occurs(s[lo..hi], a, b)
  {
    var r := s[lo..hi];
    forall i | 0 <= i < |r| - 1
      ensures !(r[i] == a && r[i + 1] == b)
    {
      assert r[i] == s[lo + i] && r[i + 1] == s[lo + i + 1];
    }
  }

  // Where the input, once its quote characters are gone, holds no "--" and
  // no "/*", the fix agrees with the original.
  lemma FixedAgreesWithoutMarkers(input: string)
    requires !Occurs(Filter(input, NotQuote), '-', '-') && !Occurs(Filter(input, NotQuote), '/', '*')
    ensures PreventSqlInjectionFixed(input) == PreventSqlInjection(input)
  {
    var f := Filter(input, NotQuote);
    RemovePairUnchanged(f, '-', '-');
    RemovePairUnchanged(f, '/', '*');
  }
}
