/** Issue keys: the project key, a dash, and the issue number written in
    decimal, as the template literal `${project.key}-${issueNumber}` builds it. */
module IssueKeys {

  predicate IsDigit(c: char) {
    '0' <= c <= '9'
  }

  function DigitChar(d: nat): (c: char)
    requires d < 10
    ensures IsDigit(c) && c as int - '0' as int == d
  {
    ('0' as int + d) as char
  }

  /** JavaScript's decimal rendering of a non-negative integer. */
  function NatToString(n: nat): (s: string)
    ensures |s| >= 1
    ensures forall i :: 0 <= i < |s| ==> IsDigit(s[i])
    ensures s[0] == '0' ==> n == 0
    decreases n
  {
    if n < 10 then [DigitChar(n)] else NatToString(n / 10) + [DigitChar(n % 10)]
  }

  /** The value of a string of decimal digits (an independent reading of NatToString). */
  function DecimalValue(s: string): nat
    requires forall i :: 0 <= i < |s| ==> IsDigit(s[i])
    decreases |s|
  {
    if s == [] then 0
    else
      assert IsDigit(s[|s| - 1]);
      DecimalValue(s[..|s| - 1]) * 10 + (s[|s| - 1] as int - '0' as int)
  }

  /** Reading back the decimal rendering gives the number. */
  lemma {:induction false} DecimalRoundTrip(n: nat)
    ensures DecimalValue(NatToString(n)) == n
    decreases n
  {
    if n >= 10 {
      var s := NatToString(n);
      var prefix := NatToString(n / 10);
      assert s == prefix + [DigitChar(n % 10)];
      assert s[..|s| - 1] == prefix;
      DecimalRoundTrip(n / 10);
    }
  }

  /** Distinct numbers render as distinct strings. */
  lemma NatToStringInjective(a: nat, b: nat)
    requires NatToString(a) == NatToString(b)
    ensures a == b
  {
    DecimalRoundTrip(a);
    DecimalRoundTrip(b);
  }

  /** The key of issue `number` in the project with key `projectKey`. */
  function IssueKey(projectKey: string, number: nat): string {
    projectKey + "-" + NatToString(number)
  }

  /** Within one project, the key determines the number: distinct numbers give
      distinct keys, which is why the unique index on (project, number) implies
      the one on (project, key). */
  lemma IssueKeyInjective(projectKey: string, a: nat, b: nat)
    requires IssueKey(projectKey, a) == IssueKey(projectKey, b)
    ensures a == b
  {
    var ka, kb := IssueKey(projectKey, a), IssueKey(projectKey, b);
    assert ka[|projectKey| + 1..] == NatToString(a);
    assert kb[|projectKey| + 1..] == NatToString(b);
    NatToStringInjective(a, b);
  }

  /** The key splits back into the project key and the number. */
  lemma IssueKeyParts(projectKey: string, number: nat)
    ensures var k := IssueKey(projectKey, number);
      |k| > |projectKey| + 1 && k[..|projectKey|] == projectKey && k[|projectKey|] == '-' &&
      DecimalValue(k[|projectKey| + 1..]) == number
  {
    var k := IssueKey(projectKey, number);
    assert k[|projectKey| + 1..] == NatToString(number);
    DecimalRoundTrip(number);
  }
}
