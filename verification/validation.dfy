/**
  The form validators: string predicates over user input, with the limits of
  the app's `VALIDATION` constants. The two regular expressions are written as
  hand-made recognisers, and each recogniser is proved equal to a literal
  reading of its pattern as a concatenation of character-class runs.
 */
module Validation {
  import opened Wrappers
  import opened Sequences
  import opened Text

  const PasswordMinLength := 8
  const NameMinLength := 2
  const NameMaxLength := 50

  // ----- Email: ^[^\s@]+@[^\s@]+\.[^\s@]+$ -----

  /** A character of the class `[^\s@]`. */
  predicate IsEmailChar(c: char)
  {
    !IsSpace(c) && c != '@'
  }

  /** One `[^\s@]+` run. */
  predicate IsEmailRun(s: string)
  {
    |s| > 0 && forall i | 0 <= i < |s| :: IsEmailChar(s[i])
  }

  predicate IsAtSign(c: char)
  {
    c == '@'
  }

  /** `s` is `local@host.tld` with each of the three parts one `[^\s@]+` run. */
  ghost predicate EmailParts(s: string, local: string, host: string, tld: string)
  {
    && s == local + "@" + host + "." + tld
    && IsEmailRun(local) && IsEmailRun(host) && IsEmailRun(tld)
  }

  /** The email pattern, read literally. */
  ghost predicate MatchesEmailPattern(s: string)
  {
    exists local, host, tld :: EmailParts(s, local, host, tld)
  }

  /** Some `.` of `domain` is neither its first nor its last character. */
  predicate HasInnerDot(domain: string)
  {
    exists j | 1 <= j < |domain| - 1 :: domain[j] == '.'
  }

  /**
    The email recogniser: the text before the first `@` is non-empty and free
    of whitespace, and the text after it is free of whitespace and further `@`
    and has a `.` that is neither its first nor its last character.
   */
  predicate AcceptsEmail(email: string)
  {
    match FirstIndex(email, IsAtSign)
    case None => false
    case Some(at) =>
      && at > 0
      && (forall i | 0 <= i < at :: !IsSpace(email[i]))
      && IsEmailRun(email[at + 1..])
      && HasInnerDot(email[at + 1..])
  }

  lemma EmailSound(s: string)
    requires AcceptsEmail(s)
    ensures MatchesEmailPattern(s)
  {
    var at := FirstIndex(s, IsAtSign).value;
    var domain := s[at + 1..];
    var j :| 1 <= j < |domain| - 1 && domain[j] == '.';
    var local, host, tld := s[..at], domain[..j], domain[j + 1..];
    assert s == local + [s[at]] + domain;
    assert domain == host + [domain[j]] + tld;
    assert s == local + "@" + host + "." + tld;
    forall i | 0 <= i < |local| ensures IsEmailChar(local[i]) {
      assert local[i] == s[i] && !IsAtSign(s[i]);
    }
    assert EmailParts(s, local, host, tld);
  }

  lemma EmailComplete(s: string, local: string, host: string, tld: string)
    requires EmailParts(s, local, host, tld)
    ensures AcceptsEmail(s)
  {
    var at := |local|;
    var domain := host + "." + tld;
    assert s == local + ("@" + domain);
    assert s[at] == '@';
    forall i | 0 <= i < at ensures !IsAtSign(s[i]) && !IsSpace(s[i]) {
      assert s[i] == local[i];
    }
    var found := FirstIndex(s, IsAtSign);
    assert found == Some(at);
    assert s[at + 1..] == domain;
    assert domain[|host|] == '.';
    assert HasInnerDot(domain);
  }

  /** The recogniser accepts exactly the strings the email pattern matches. */
  lemma EmailRecogniserMatchesPattern(s: string)
    ensures AcceptsEmail(s) <==> MatchesEmailPattern(s)
  {
    if AcceptsEmail(s) {
      EmailSound(s);
    }
    if MatchesEmailPattern(s) {
      var local, host, tld :| EmailParts(s, local, host, tld);
      EmailComplete(s, local, host, tld);
    }
  }

  /** `validateEmail`: the email pattern's `test`. */
  function ValidateEmail(email: string): (ok: bool)
    ensures ok <==> MatchesEmailPattern(email)
  {
    EmailRecogniserMatchesPattern(email);
    AcceptsEmail(email)
  }

  /** An accepted address has no whitespace, exactly one `@`, and a non-empty part before it. */
  lemma ValidEmailShape(s: string)
    requires ValidateEmail(s)
    ensures forall i | 0 <= i < |s| :: !IsSpace(s[i])
    ensures exists at | 0 < at < |s| :: s[at] == '@' && forall i | 0 <= i < |s| && i != at :: s[i] != '@'
  {
    var at := FirstIndex(s, IsAtSign).value;
    var domain := s[at + 1..];
    forall i | at < i < |s| ensures IsEmailChar(s[i]) {
      assert s[i] == domain[i - at - 1];
    }
  }

  // ----- Phone: ^[+]?[(]?[0-9]{3}[)]?[-\s.]?[0-9]{3}[-\s.]?[0-9]{4,6}$ -----

  predicate IsPlus(c: char) { c == '+' }

  predicate IsOpenParen(c: char) { c == '(' }

  predicate IsCloseParen(c: char) { c == ')' }

  /** A character of the class `[-\s.]`. */
  predicate IsPhoneSeparator(c: char)
  {
    c == '-' || c == '.' || IsSpace(c)
  }

  predicate AllDigits(s: string)
  {
    forall i | 0 <= i < |s| :: IsDigit(s[i])
  }

  /** `o` is what one `[...]?` of the pattern consumes: nothing, or one character of the class. */
  ghost predicate Optional(o: string, p: char -> bool)
  {
    |o| <= 1 && forall i | 0 <= i < |o| :: p(o[i])
  }

  /**
    One `[...]?` of the pattern: what is left after an optional character of
    the class `p`, taken whenever the text starts with one.
   */
  function SkipOptional(s: string, p: char -> bool): (r: string)
    ensures |r| <= |s| <= |r| + 1
    ensures |r| < |s| <==> |s| > 0 && p(s[0])
  {
    if |s| > 0 && p(s[0]) then s[1..] else s
  }

  /** The last three pieces of the phone pattern: `[0-9]{3}[-\s.]?[0-9]{4,6}`. */
  ghost predicate TailParts(b: string, exchange: string, sep2: string, line: string)
  {
    && b == exchange + (sep2 + line)
    && |exchange| == 3 && AllDigits(exchange)
    && Optional(sep2, IsPhoneSeparator)
    && 4 <= |line| <= 6 && AllDigits(line)
  }

  /** `s` splits into the eight pieces of the phone pattern, in order. */
  ghost predicate PhoneParts(s: string, plus: string, open: string, area: string, close: string,
                             sep1: string, exchange: string, sep2: string, line: string)
  {
    && s == plus + (open + (area + (close + (sep1 + (exchange + (sep2 + line))))))
    && Optional(plus, IsPlus) && Optional(open, IsOpenParen)
    && |area| == 3 && AllDigits(area)
    && Optional(close, IsCloseParen) && Optional(sep1, IsPhoneSeparator)
    && TailParts(exchange + (sep2 + line), exchange, sep2, line)
  }

  /** The phone pattern, read literally. */
  ghost predicate MatchesPhonePattern(s: string)
  {
    exists plus, open, area, close, sep1, exchange, sep2, line ::
      PhoneParts(s, plus, open, area, close, sep1, exchange, sep2, line)
  }

  /** Recognises `[0-9]{3}[-\s.]?[0-9]{4,6}$`. */
  predicate PhoneTail(b: string)
  {
    && |b| >= 3 && AllDigits(b[..3])
    && var c := SkipOptional(b[3..], IsPhoneSeparator);
    && 4 <= |c| <= 6 && AllDigits(c)
  }

  /** Recognises `[0-9]{3}[)]?[-\s.]?` followed by the tail. */
  predicate PhoneMiddle(a: string)
  {
    && |a| >= 3 && AllDigits(a[..3])
    && PhoneTail(SkipOptional(SkipOptional(a[3..], IsCloseParen), IsPhoneSeparator))
  }

  /**
    The phone recogniser: the pattern matched left to right. Every optional
    class is disjoint from what must follow it, so taking an optional character
    whenever it is present is the only way to match.
   */
  predicate AcceptsPhone(phone: string)
  {
    PhoneMiddle(SkipOptional(SkipOptional(phone, IsPlus), IsOpenParen))
  }

  /** The optional character `SkipOptional` consumed, as a string of length 0 or 1. */
  lemma SkipOptionalSplit(s: string, p: char -> bool) returns (o: string)
    ensures Optional(o, p) && s == o + SkipOptional(s, p)
  {
    if |s| > 0 && p(s[0]) {
      o := s[..1];
      assert s == o + s[1..];
    } else {
      o := [];
      assert s == o + s;
    }
  }

  /** An optional character followed by something outside its class is skipped exactly. */
  lemma SkipOptionalOf(o: string, rest: string, p: char -> bool)
    requires Optional(o, p) && |rest| > 0 && !p(rest[0])
    ensures SkipOptional(o + rest, p) == rest
  {
    if |o| == 1 {
      assert (o + rest)[1..] == rest;
    } else {
      assert o + rest == rest;
    }
  }

  lemma TailSound(b: string) returns (exchange: string, sep2: string, line: string)
    requires PhoneTail(b)
    ensures TailParts(b, exchange, sep2, line)
  {
    exchange := b[..3];
    sep2 := SkipOptionalSplit(b[3..], IsPhoneSeparator);
    line := SkipOptional(b[3..], IsPhoneSeparator);
    assert b == exchange + b[3..];
  }

  lemma TailComplete(exchange: string, sep2: string, line: string)
    requires TailParts(exchange + (sep2 + line), exchange, sep2, line)
    ensures PhoneTail(exchange + (sep2 + line))
  {
    var b := exchange + (sep2 + line);
    assert b[..3] == exchange && b[3..] == sep2 + line;
    SkipOptionalOf(sep2, line, IsPhoneSeparator);
  }

  lemma PhoneSound(s: string)
    requires AcceptsPhone(s)
    ensures MatchesPhonePattern(s)
  {
    var plus := SkipOptionalSplit(s, IsPlus);
    var s1 := SkipOptional(s, IsPlus);
    var open := SkipOptionalSplit(s1, IsOpenParen);
    var a := SkipOptional(s1, IsOpenParen);
    var area := a[..3];
    var close := SkipOptionalSplit(a[3..], IsCloseParen);
    var t := SkipOptional(a[3..], IsCloseParen);
    var sep1 := SkipOptionalSplit(t, IsPhoneSeparator);
    var b := SkipOptional(t, IsPhoneSeparator);
    var exchange, sep2, line := TailSound(b);
    assert a == area + a[3..];
    assert PhoneParts(s, plus, open, area, close, sep1, exchange, sep2, line);
  }

  lemma MiddleComplete(area: string, close: string, sep1: string, b: string)
    requires |area| == 3 && AllDigits(area)
    requires Optional(close, IsCloseParen) && Optional(sep1, IsPhoneSeparator)
    requires PhoneTail(b)
    ensures PhoneMiddle(area + (close + (sep1 + b)))
  {
    var a := area + (close + (sep1 + b));
    assert a[..3] == area && a[3..] == close + (sep1 + b);
    assert (sep1 + b)[0] == (if |sep1| == 1 then sep1[0] else b[0]);
    SkipOptionalOf(close, sep1 + b, IsCloseParen);
    SkipOptionalOf(sep1, b, IsPhoneSeparator);
  }

  lemma PhoneComplete(s: string, plus: string, open: string, area: string, close: string,
                      sep1: string, exchange: string, sep2: string, line: string)
    requires PhoneParts(s, plus, open, area, close, sep1, exchange, sep2, line)
    ensures AcceptsPhone(s)
  {
    var b := exchange + (sep2 + line);
    TailComplete(exchange, sep2, line);
    MiddleComplete(area, close, sep1, b);
    var a := area + (close + (sep1 + b));
    assert a[0] == area[0];
    assert (open + a)[0] == (if |open| == 1 then open[0] else a[0]);
    SkipOptionalOf(plus, open + a, IsPlus);
    SkipOptionalOf(open, a, IsOpenParen);
  }

  /** The recogniser accepts exactly the strings the phone pattern matches. */
  lemma PhoneRecogniserMatchesPattern(s: string)
    ensures AcceptsPhone(s) <==> MatchesPhonePattern(s)
  {
    if AcceptsPhone(s) {
      PhoneSound(s);
    }
    if MatchesPhonePattern(s) {
      var plus, open, area, close, sep1, exchange, sep2, line :|
        PhoneParts(s, plus, open, area, close, sep1, exchange, sep2, line);
      PhoneComplete(s, plus, open, area, close, sep1, exchange, sep2, line);
    }
  }

  /** `validatePhone`: the phone pattern's `test`. */
  function ValidatePhone(phone: string): (ok: bool)
    ensures ok <==> MatchesPhonePattern(phone)
  {
    PhoneRecogniserMatchesPattern(phone);
    AcceptsPhone(phone)
  }

  /** Skipping a character that is not a digit keeps the digit count. */
  lemma SkipOptionalDigits(s: string, p: char -> bool)
    requires forall c: char :: p(c) ==> !IsDigit(c)
    ensures CountIf(SkipOptional(s, p), IsDigit) == CountIf(s, IsDigit)
  {
  }

  /** Three leading digits add three to the digit count of the rest. */
  lemma LeadingDigits(a: string)
    requires |a| >= 3 && AllDigits(a[..3])
    ensures CountIf(a, IsDigit) == 3 + CountIf(a[3..], IsDigit)
  {
    CountIfUniform(a[..3], IsDigit);
    assert a == a[..3] + a[3..];
    CountIfAppend(a[..3], a[3..], IsDigit);
  }

  lemma TailDigits(b: string)
    requires PhoneTail(b)
    ensures 7 <= CountIf(b, IsDigit) <= 9
  {
    var c := SkipOptional(b[3..], IsPhoneSeparator);
    SkipOptionalDigits(b[3..], IsPhoneSeparator);
    CountIfUniform(c, IsDigit);
    LeadingDigits(b);
  }

  lemma MiddleDigits(a: string)
    requires PhoneMiddle(a)
    ensures 10 <= CountIf(a, IsDigit) <= 12
  {
    var t := SkipOptional(a[3..], IsCloseParen);
    var b := SkipOptional(t, IsPhoneSeparator);
    SkipOptionalDigits(a[3..], IsCloseParen);
    SkipOptionalDigits(t, IsPhoneSeparator);
    TailDigits(b);
    LeadingDigits(a);
  }

  /** Every accepted phone number has between 10 and 12 digits. */
  lemma ValidPhoneDigitCount(s: string)
    requires ValidatePhone(s)
    ensures 10 <= CountIf(s, IsDigit) <= 12
  {
    var s1 := SkipOptional(s, IsPlus);
    SkipOptionalDigits(s, IsPlus);
    SkipOptionalDigits(s1, IsOpenParen);
    MiddleDigits(SkipOptional(s1, IsOpenParen));
  }

  // ----- Password -----

  datatype PasswordCheck = PasswordCheck(isValid: bool, errors: seq<string>)

  const TooShortMessage := "Password must be at least 8 characters"
  const NoUppercaseMessage := "Password must contain at least one uppercase letter"
  const NoLowercaseMessage := "Password must contain at least one lowercase letter"
  const NoDigitMessage := "Password must contain at least one number"

  /** Every message `validatePassword` can report, in the order it checks them. */
  const PasswordMessages := [TooShortMessage, NoUppercaseMessage, NoLowercaseMessage, NoDigitMessage]

  /** `/[...]/.test(s)` for a one-character class: some character of `s` is in it. */
  predicate ContainsChar(s: string, p: char -> bool)
  {
    exists i | 0 <= i < |s| :: p(s[i])
  }

  lemma MessagesDistinct()
    ensures TooShortMessage != NoUppercaseMessage && TooShortMessage != NoLowercaseMessage
    ensures TooShortMessage != NoDigitMessage && NoUppercaseMessage != NoLowercaseMessage
    ensures NoUppercaseMessage != NoDigitMessage && NoLowercaseMessage != NoDigitMessage
  {
    assert NoUppercaseMessage[35] != NoLowercaseMessage[35];
  }

  /** The message when the check failed, nothing when it passed. */
  function Complaint(failed: bool, message: string): seq<string>
  {
    if failed then [message] else []
  }

  lemma ComplaintThenRest(failed: bool, message: string, rest: seq<string>, all: seq<string>)
    requires IsSubsequence(rest, all)
    ensures IsSubsequence(Complaint(failed, message) + rest, [message] + all)
  {
    assert ([message] + all)[1..] == all;
    if failed {
      assert ([message] + rest)[1..] == rest;
    } else {
      assert Complaint(failed, message) + rest == rest;
    }
  }

  /** Each message is in the list exactly when its own check failed. */
  lemma ComplaintMembers(short: bool, upper: bool, lower: bool, digit: bool)
    ensures var errors := Complaint(short, TooShortMessage) + (Complaint(upper, NoUppercaseMessage)
                          + (Complaint(lower, NoLowercaseMessage) + Complaint(digit, NoDigitMessage)));
            && (TooShortMessage in errors <==> short)
            && (NoUppercaseMessage in errors <==> upper)
            && (NoLowercaseMessage in errors <==> lower)
            && (NoDigitMessage in errors <==> digit)
  {
    MessagesDistinct();
  }

  /**
    `validatePassword`: one message per failed check, in the order length,
    uppercase, lowercase, digit; valid exactly when there is none.
   */
  function ValidatePassword(password: string): (r: PasswordCheck)
    ensures r.isValid <==> |r.errors| == 0
    ensures |r.errors| <= |PasswordMessages| && IsSubsequence(r.errors, PasswordMessages)
    ensures TooShortMessage in r.errors <==> Utf16Length(password) < PasswordMinLength
    ensures NoUppercaseMessage in r.errors <==> !ContainsChar(password, IsUpper)
    ensures NoLowercaseMessage in r.errors <==> !ContainsChar(password, IsLower)
    ensures NoDigitMessage in r.errors <==> !ContainsChar(password, IsDigit)
  {
    var digit := Complaint(!ContainsChar(password, IsDigit), NoDigitMessage);
    var lower := Complaint(!ContainsChar(password, IsLower), NoLowercaseMessage);
    var upper := Complaint(!ContainsChar(password, IsUpper), NoUppercaseMessage);
    var short := Complaint(Utf16Length(password) < PasswordMinLength, TooShortMessage);
    var errors := short + (upper + (lower + digit));
    ComplaintMembers(Utf16Length(password) < PasswordMinLength, !ContainsChar(password, IsUpper),
                     !ContainsChar(password, IsLower), !ContainsChar(password, IsDigit));
    ComplaintThenRest(!ContainsChar(password, IsDigit), NoDigitMessage, [], []);
    ComplaintThenRest(!ContainsChar(password, IsLower), NoLowercaseMessage, digit, [NoDigitMessage]);
    ComplaintThenRest(!ContainsChar(password, IsUpper), NoUppercaseMessage, lower + digit,
                      [NoLowercaseMessage, NoDigitMessage]);
    ComplaintThenRest(Utf16Length(password) < PasswordMinLength, TooShortMessage, upper + (lower + digit),
                      [NoUppercaseMessage, NoLowercaseMessage, NoDigitMessage]);
    PasswordCheck(|errors| == 0, errors)
  }

  /** Length decides at the boundary: short passwords fail, long ones with all three classes pass. */
  lemma PasswordLengthBoundary(password: string)
    ensures |password| < PasswordMinLength && InBmp(password) ==> !ValidatePassword(password).isValid
    ensures Utf16Length(password) >= PasswordMinLength
            && ContainsChar(password, IsUpper) && ContainsChar(password, IsLower)
            && ContainsChar(password, IsDigit)
            ==> ValidatePassword(password).isValid
  {
    Utf16LengthInBmp(password);
  }

  // ----- Name and required fields -----

  /** `validateName`: between 2 and 50 UTF-16 code units. */
  function ValidateName(name: string): (ok: bool)
    ensures ok ==> 1 <= |name| <= NameMaxLength
    ensures InBmp(name) ==> (ok <==> NameMinLength <= |name| <= NameMaxLength)
  {
    Utf16LengthInBmp(name);
    NameMinLength <= Utf16Length(name) <= NameMaxLength
  }

  /** `validateRequired`: something is left after trimming whitespace. */
  function ValidateRequired(value: string): (ok: bool)
    ensures ok <==> exists i | 0 <= i < |value| :: !IsSpace(value[i])
  {
    TrimEmptyIffBlank(value);
    Utf16Length(Trim(value)) > 0
  }
}
