/** The phone-number pattern of the event schemas,
    `^[+]?[(]?[0-9]{1,4}[)]?[-\s./0-9]*$`, as a hand-written matcher together with
    a reference definition that follows the pattern's concatenation structure. */
module Phone {

  predicate IsDigit(c: char) {
    '0' <= c <= '9'
  }

  /** `\s` of an ECMAScript regular expression: the WhiteSpace and LineTerminator code points. */
  predicate IsJsSpace(c: char) {
    c == '\t' || c == '\n' || c == '\U{B}' || c == '\U{C}' || c == '\r' || c == ' ' ||
    c == '\U{A0}' || c == '\U{1680}' || ('\U{2000}' <= c <= '\U{200A}') ||
    c == '\U{2028}' || c == '\U{2029}' || c == '\U{202F}' || c == '\U{205F}' ||
    c == '\U{3000}' || c == '\U{FEFF}'
  }

  /** The trailing character class `[-\s./0-9]`. */
  predicate IsTailChar(c: char) {
    c == '-' || IsJsSpace(c) || c == '.' || c == '/' || IsDigit(c)
  }

  predicate AllDigits(t: string) {
    forall i :: 0 <= i < |t| ==> IsDigit(t[i])
  }

  predicate AllTail(t: string) {
    forall i :: 0 <= i < |t| ==> IsTailChar(t[i])
  }

  // ---------------------------------------------------------------------------
  // Reference definition: one predicate per piece of the pattern, read left to right.

  /** `[+]?` followed by the rest of the pattern. */
  ghost predicate InPhoneLanguage(s: string) {
    exists i :: 0 <= i <= 1 && i <= |s| && (i == 1 ==> s[0] == '+') && AfterPlus(s[i..])
  }

  /** `[(]?` followed by the rest of the pattern. */
  ghost predicate AfterPlus(t: string) {
    exists j :: 0 <= j <= 1 && j <= |t| && (j == 1 ==> t[0] == '(') && AfterParen(t[j..])
  }

  /** `[0-9]{1,4}` followed by the rest of the pattern. */
  ghost predicate AfterParen(t: string) {
    exists k :: 1 <= k <= 4 && k <= |t| && AllDigits(t[..k]) && AfterDigits(t[k..])
  }

  /** `[)]?[-\s./0-9]*$`. */
  predicate AfterDigits(t: string) {
    AllTail(t) || (|t| > 0 && t[0] == ')' && AllTail(t[1..]))
  }

  // ---------------------------------------------------------------------------
  // The matcher: each optional piece is taken greedily, which is safe because no
  // later piece can match the character an earlier one is looking for.

  /** The number of leading digits of `t`, stopping at `max`. */
  function LeadingDigits(t: string, max: nat): (n: nat)
    ensures n <= max && n <= |t|
    ensures AllDigits(t[..n])
    ensures n < max && n < |t| ==> !IsDigit(t[n])
  {
    if max == 0 || |t| == 0 || !IsDigit(t[0]) then 0
    else
      var m := LeadingDigits(t[1..], max - 1);
      assert t[..m + 1] == [t[0]] + t[1..][..m];
      m + 1
  }

  /** The length of the optional `[+]?[(]?` prefix that `s` starts with. */
  function PrefixLength(s: string): (n: nat)
    ensures n <= |s|
  {
    var i := if |s| > 0 && s[0] == '+' then 1 else 0;
    if i < |s| && s[i] == '(' then i + 1 else i
  }

  /** `[)]?[-\s./0-9]*$`, taking the `)` whenever it is there. */
  predicate MatchesClose(t: string) {
    if |t| > 0 && t[0] == ')' then AllTail(t[1..]) else AllTail(t)
  }

  /** `[0-9]{1,4}[)]?[-\s./0-9]*$`, taking as many digits as the run allows. */
  predicate MatchesDigits(u: string) {
    var n := LeadingDigits(u, 4);
    1 <= n && MatchesClose(u[n..])
  }

  /** Whether `s` matches the phone pattern. */
  predicate MatchesPhone(s: string) {
    MatchesDigits(s[PrefixLength(s)..])
  }

  /** The matcher accepts exactly the strings of the pattern's language. */
  lemma MatchesPhoneCorrect(s: string)
    ensures MatchesPhone(s) <==> InPhoneLanguage(s)
  {
    if MatchesPhone(s) {
      PhoneSound(s);
    }
    if InPhoneLanguage(s) {
      PhoneComplete(s);
    }
  }

  lemma PhoneSound(s: string)
    requires MatchesPhone(s)
    ensures InPhoneLanguage(s)
  {
    var i := if |s| > 0 && s[0] == '+' then 1 else 0;
    var t := s[i..];
    var j := if 0 < |t| && t[0] == '(' then 1 else 0;
    assert t[j..] == s[PrefixLength(s)..];
    DigitsSound(t[j..]);
    assert AfterPlus(t);
  }

  lemma PhoneComplete(s: string)
    requires InPhoneLanguage(s)
    ensures MatchesPhone(s)
  {
    var i :| 0 <= i <= 1 && i <= |s| && (i == 1 ==> s[0] == '+') && AfterPlus(s[i..]);
    var t := s[i..];
    var j :| 0 <= j <= 1 && j <= |t| && (j == 1 ==> t[0] == '(') && AfterParen(t[j..]);
    var u := t[j..];
    assert u == s[i + j..];
    StartsWithDigit(u);
    assert u[0] == s[i + j];
    PrefixTaken(s, i, j);
    DigitsComplete(u);
  }

  /** Neither '+' nor '(' is a digit, so before a digit each optional piece of the
      prefix is taken exactly when it is present. */
  lemma PrefixTaken(s: string, i: nat, j: nat)
    requires i <= 1 && j <= 1 && i + j < |s|
    requires i == 1 ==> s[0] == '+'
    requires j == 1 ==> s[i] == '('
    requires IsDigit(s[i + j])
    ensures PrefixLength(s) == i + j
  {
  }

  lemma StartsWithDigit(u: string)
    requires AfterParen(u)
    ensures |u| > 0 && IsDigit(u[0])
  {
    var k :| 1 <= k <= 4 && k <= |u| && AllDigits(u[..k]) && AfterDigits(u[k..]);
    assert u[..k][0] == u[0];
  }

  lemma DigitsSound(u: string)
    requires MatchesDigits(u)
    ensures AfterParen(u)
  {
    var n := LeadingDigits(u, 4);
    assert AfterDigits(u[n..]);
  }

  lemma DigitsComplete(u: string)
    requires AfterParen(u)
    ensures MatchesDigits(u)
  {
    var k :| 1 <= k <= 4 && k <= |u| && AllDigits(u[..k]) && AfterDigits(u[k..]);
    var n := LeadingDigits(u, 4);
    RunAtLeast(u, k);
    if n == k {
      AfterDigitsCloses(u[k..]);
    } else {
      // u[k] is a digit, so the tail after the chosen run has no ')': it is all tail characters.
      assert u[..n][k] == u[k];
      assert u[k..][0] == u[k];
      assert AllTail(u[k..]);
      assert u[n..] == u[k..][n - k..];
      TailSuffix(u[k..], n - k);
      AfterDigitsCloses(u[n..]);
    }
  }

  /** The greedy run of digits is at least as long as any run of digits the pattern chose. */
  lemma RunAtLeast(u: string, k: nat)
    requires 1 <= k <= 4 && k <= |u| && AllDigits(u[..k])
    ensures k <= LeadingDigits(u, 4)
  {
    forall i | 0 <= i < k
      ensures IsDigit(u[i])
    {
      assert u[..k][i] == u[i];
    }
  }

  lemma TailSuffix(t: string, d: nat)
    requires AllTail(t) && d <= |t|
    ensures AllTail(t[d..])
  {
    forall m | 0 <= m < |t| - d
      ensures IsTailChar(t[d..][m])
    {
      assert t[d..][m] == t[m + d];
    }
  }

  /** `)` is not a tail character, so what the pattern's tail accepts the matcher's does. */
  lemma AfterDigitsCloses(t: string)
    requires AfterDigits(t)
    ensures MatchesClose(t)
  {
    if |t| > 0 && t[0] == ')' {
      assert !IsTailChar(t[0]);
    }
  }
}
