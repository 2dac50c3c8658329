/** The reply subject tokens: the decimal numbers of the requests, after the prefix of the reply inbox. */
module Tokens {
  import opened Wrappers

  function Digit(d: nat): char
    requires d < 10
  {
    "0123456789"[d]
  }

  function DigitValue(c: char): nat {
    if '0' <= c <= '9' then (c - '0') as nat else 0
  }

  /** The decimal form of a number, as std::to_string gives it. */
  function Decimal(n: nat): (s: string)
    ensures s != ""
  {
    if n < 10 then [Digit(n)] else Decimal(n / 10) + [Digit(n % 10)]
  }

  /** The number that a string of digits denotes. */
  function Value(s: string): nat {
    if s == "" then 0 else 10 * Value(s[..|s| - 1]) + DigitValue(s[|s| - 1])
  }

  /** The number of a request can be read off its token, so no two requests share one. */
  lemma {:induction false} ValueOfDecimal(n: nat)
    ensures Value(Decimal(n)) == n
  {
    if n < 10 {
      assert Decimal(n)[..0] == "";
    } else {
      ValueOfDecimal(n / 10);
      assert Decimal(n)[..|Decimal(n)| - 1] == Decimal(n / 10);
    }
  }

  lemma TokensDiffer(m: nat, n: nat)
    requires Decimal(m) == Decimal(n)
    ensures m == n
  {
    ValueOfDecimal(m);
    ValueOfDecimal(n);
  }

  /** The most significant digit comes first: only zero starts with a zero. */
  lemma {:induction false} NoLeadingZero(n: nat)
    ensures Decimal(n)[0] == '0' <==> n == 0
  {
    if n < 10 {
    } else {
      NoLeadingZero(n / 10);
    }
  }

  lemma {:induction false} OnlyDigits(n: nat, c: char)
    requires c in Decimal(n)
    ensures '0' <= c <= '9'
  {
    if n < 10 {
    } else if c in Decimal(n / 10) {
      OnlyDigits(n / 10, c);
    }
  }

  /** What follows the prefix in a subject; None if the subject does not start with it. */
  function StripPrefix(prefix: string, subject: string): Option<string> {
    if prefix <= subject then Some(subject[|prefix|..]) else None
  }

  /** The subjects that a subscription to prefix + "*" receives: one more token, without a dot. */
  predicate WildcardMatches(prefix: string, subject: string) {
    prefix <= subject && |subject| > |prefix| && '.' !in subject[|prefix|..]
  }

  /** A reply to a request is received by the reply subscription and carries exactly the token of that request. */
  lemma ReplySubject(prefix: string, n: nat, subject: string)
    ensures WildcardMatches(prefix, prefix + Decimal(n))
    ensures StripPrefix(prefix, subject) == Some(Decimal(n)) <==> subject == prefix + Decimal(n)
  {
    if '.' in Decimal(n) {
      OnlyDigits(n, '.');
    }
    assert (prefix + Decimal(n))[|prefix|..] == Decimal(n);
  }
}
