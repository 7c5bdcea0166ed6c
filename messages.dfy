/**
 * The "Game over" alert text: the number of cards left in the deck, written in
 * decimal as Swift's string interpolation writes a non-negative Int, followed
 * by the singular phrase for exactly one card and the plural phrase otherwise.
 */
module Messages {

  predicate IsDigit(c: char) {
    '0' <= c <= '9'
  }

  predicate AllDigits(s: string) {
    forall k :: 0 <= k < |s| ==> IsDigit(s[k])
  }

  function DigitChar(d: nat): (c: char)
    requires d < 10
    ensures IsDigit(c) && c as int - '0' as int == d
  {
    (d + '0' as int) as char
  }

  /** The value of a string of decimal digits, most significant first. */
  function ValueOf(s: string): (n: nat)
    requires AllDigits(s)
  {
    if s == [] then 0 else 10 * ValueOf(s[..|s| - 1]) + (s[|s| - 1] as int - '0' as int)
  }

  /** The decimal text of n: digits only, never empty, no leading zero; 0 is written "0". */
  function Decimal(n: nat): (r: string)
    ensures |r| >= 1 && AllDigits(r)
    ensures r[0] == '0' ==> n == 0 && r == "0"
  {
    if n < 10 then [DigitChar(n)] else Decimal(n / 10) + [DigitChar(n % 10)]
  }

  /** Reading the decimal text back yields the number. */
  lemma {:induction false} DecimalReadsBack(n: nat)
    ensures ValueOf(Decimal(n)) == n
  {
    if n >= 10 {
      var d := Decimal(n);
      assert d[..|d| - 1] == Decimal(n / 10);
      DecimalReadsBack(n / 10);
    }
  }

  /** The longest run of digits at the start of s. */
  function LeadingDigits(s: string): (r: string)
    ensures AllDigits(r) && r <= s
  {
    if s == [] || !IsDigit(s[0]) then [] else [s[0]] + LeadingDigits(s[1..])
  }

  lemma {:induction false} LeadingDigitsOfConcat(d: string, rest: string)
    requires AllDigits(d)
    requires rest == [] || !IsDigit(rest[0])
    ensures LeadingDigits(d + rest) == d
  {
    if d != [] {
      assert (d + rest)[1..] == d[1..] + rest;
      LeadingDigitsOfConcat(d[1..], rest);
    } else {
      assert d + rest == rest;
    }
  }

  const Singular := " word was not guessed"
  const Plural := " words were not guessed"

  /**
   * The alert message for `count` unanswered cards: the count in decimal, then
   * the singular phrase exactly when the count is 1.
   */
  function GameOverMessage(count: nat): (msg: string)
    ensures msg == "1 word was not guessed" <==> count == 1
    ensures count == 1 ==> msg == Decimal(1) + Singular
    ensures count != 1 ==> msg == Decimal(count) + Plural
  {
    if count == 1 then "1 word was not guessed" else Decimal(count) + Plural
  }

  /** The number a reader finds at the head of the message is the number of cards left. */
  lemma MessageReportsCount(count: nat)
    ensures ValueOf(LeadingDigits(GameOverMessage(count))) == count
  {
    var msg := GameOverMessage(count);
    if count == 1 {
      assert msg == Decimal(1) + Singular;
      LeadingDigitsOfConcat(Decimal(1), Singular);
    } else {
      LeadingDigitsOfConcat(Decimal(count), Plural);
    }
    DecimalReadsBack(count);
  }
}
