/** The credential-format validator of the registration endpoint, both as the
    code is written and as its documentation says it should behave. */
module CredentialFormat {
  import opened Outcomes

  /** Shortest and longest legal username or password. */
  const MinLength: nat := 3
  const MaxLength: nat := 12

  predicate LengthOk(s: string) {
    MinLength <= |s| <= MaxLength
  }

  predicate IsLetter(c: char) {
    'a' <= c <= 'z' || 'A' <= c <= 'Z'
  }

  predicate IsDigit(c: char) {
    '0' <= c <= '9'
  }

  /** Lower-case mapping of one character; only the ASCII letters change. */
  function ToLower(c: char): char {
    if 'A' <= c <= 'Z' then (c as int - 'A' as int + 'a' as int) as char else c
  }

  /** The documented rule: both strings 3 to 12 characters of letters and
      digits only, and the username starting with a letter. */
  predicate DocumentedRule(username: string, password: string) {
    && LengthOk(username)
    && LengthOk(password)
    && IsLetter(username[0])
    && (forall k :: 0 <= k < |username| ==> IsLetter(username[k]) || IsDigit(username[k]))
    && (forall k :: 0 <= k < |password| ==> IsLetter(password[k]) || IsDigit(password[k]))
  }

  /** The per-character test of the two loops, exactly as written: the digit
      half joins its comparisons with `||`, so it holds of every character. */
  predicate CharTestAsWritten(c: char) {
    ('a' <= c && c <= 'z') || (c >= '0' || c <= '9')
  }

  /** The per-character test the loops evidently meant: a lower-case letter or a digit. */
  predicate CharTestIntended(c: char) {
    ('a' <= c && c <= 'z') || (c >= '0' && c <= '9')
  }

  /** The shape of both character loops: lower-case each character of `s`
      from index `from` on, and reject at the first one `test` refuses. */
  function Scan(s: string, from: nat, test: char -> bool): bool
    decreases |s| - from
  {
    if from >= |s| then true
    else if !test(ToLower(s[from])) then false
    else Scan(s, from + 1, test)
  }

  /** A scan accepts exactly when every character from `from` on passes the test. */
  lemma {:induction false} ScanAcceptsIffAllPass(s: string, from: nat, test: char -> bool)
    ensures Scan(s, from, test) <==> forall k :: from <= k < |s| ==> test(ToLower(s[k]))
    decreases |s| - from
  {
    if from < |s| {
      ScanAcceptsIffAllPass(s, from + 1, test);
    }
  }

  /** isLegalFormat as written: the first character is read before any length
      check, the first-letter check is disabled, and the loops use the
      tautological character test. */
  function IsLegalFormatAsWritten(username: string, password: string): (r: Outcome<bool>)
    ensures r.Thrown? <==> |username| == 0
    ensures r.Thrown? ==> r.fault == StringIndexOutOfBounds
    ensures |username| > 0 && !LengthOk(username) ==> r == Returned(false)
    ensures |username| > 0 && !LengthOk(password) ==> r == Returned(false)
  {
    if |username| == 0 then Thrown(StringIndexOutOfBounds)
    else if !LengthOk(username) then Returned(false)
    else if !LengthOk(password) then Returned(false)
    else if !Scan(username, 1, CharTestAsWritten) then Returned(false)
    else if !Scan(password, 0, CharTestAsWritten) then Returned(false)
    else Returned(true)
  }

  /** As written, the validator reduces to the two length checks. */
  lemma AsWrittenIsLengthCheck(username: string, password: string)
    requires |username| > 0
    ensures IsLegalFormatAsWritten(username, password) == Returned(LengthOk(username) && LengthOk(password))
  {
    ScanAcceptsIffAllPass(username, 1, CharTestAsWritten);
    ScanAcceptsIffAllPass(password, 0, CharTestAsWritten);
  }

  /** An underscore in the username and a symbol in the password get through. */
  lemma AsWrittenAcceptsSymbols()
    ensures IsLegalFormatAsWritten("a_b", "p@ss") == Returned(true)
    ensures !DocumentedRule("a_b", "p@ss")
  {
  }

  /** A username that starts with a digit gets through. */
  lemma AsWrittenAcceptsLeadingDigit()
    ensures IsLegalFormatAsWritten("1ab", "abc") == Returned(true)
    ensures !DocumentedRule("1ab", "abc")
  {
  }

  /** The corrected validator: the length checks come before any character is
      read, the first-letter check is restored, and the loops test `&&`. */
  function IsLegalFormat(username: string, password: string): bool {
    if !LengthOk(username) then false
    else if !LengthOk(password) then false
    else if !('a' <= ToLower(username[0]) <= 'z') then false
    else Scan(username, 1, CharTestIntended) && Scan(password, 0, CharTestIntended)
  }

  /** The corrected validator accepts exactly the credentials the documented rule allows. */
  lemma IsLegalFormatMatchesDocumentedRule(username: string, password: string)
    ensures IsLegalFormat(username, password) <==> DocumentedRule(username, password)
  {
    if LengthOk(username) && LengthOk(password) {
      ScanAcceptsIffAllPass(username, 1, CharTestIntended);
      ScanAcceptsIffAllPass(password, 0, CharTestIntended);
    }
  }

  /** Whatever the corrected validator accepts, the code as written accepts too. */
  lemma IntendedAcceptsLessThanAsWritten(username: string, password: string)
    requires IsLegalFormat(username, password)
    ensures IsLegalFormatAsWritten(username, password) == Returned(true)
  {
    AsWrittenIsLengthCheck(username, password);
  }
}
