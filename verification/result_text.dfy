/**
 * The text shown for a score: the "not all items answered" message for the
 * incomplete marker, otherwise "SUS Score = " followed by JavaScript's
 * decimal rendering of the number. Scores are whole numbers of half points,
 * which JavaScript prints as an optional "-", the integer part, and ".5"
 * for an odd number of half points. Reading a message back gives the score
 * it was made from, so the incomplete marker and every score, 0 included,
 * have distinct texts.
 */
module ResultText {
  import opened Wrappers
  import opened SusScore

  const InvalidText: string := "Invalid: Not all items were answered."
  const ScorePrefix: string := "SUS Score = "

  function DigitChar(d: nat): char
    requires d < 10
  {
    (48 + d) as char
  }

  function DigitValue(c: char): Option<nat> {
    if '0' <= c <= '9' then Some(c as int - 48) else None
  }

  /** The decimal digits of `n`, most significant first, without leading zeros. */
  function NatText(n: nat): (s: string)
    ensures |s| > 0
    ensures forall k :: 0 <= k < |s| ==> '0' <= s[k] <= '9'
    decreases n
  {
    if n < 10 then [DigitChar(n)] else NatText(n / 10) + [DigitChar(n % 10)]
  }

  /** Reads a non-empty string of decimal digits, leading zeros allowed. */
  function ParseDigits(s: string): Option<nat>
    decreases |s|
  {
    if |s| == 0 then None
    else match DigitValue(s[|s| - 1])
      case None => None
      case Some(d) =>
        if |s| == 1 then Some(d)
        else match ParseDigits(s[..|s| - 1])
          case None => None
          case Some(n) => Some(10 * n + d)
  }

  /** Reads a natural number written the way JavaScript writes one: digits, no leading zero unless the number is 0. */
  function ParseNat(s: string): Option<nat> {
    if |s| > 1 && s[0] == '0' then None else ParseDigits(s)
  }

  lemma {:induction false} ParseDigitsText(n: nat)
    ensures ParseDigits(NatText(n)) == Some(n)
    decreases n
  {
    if n >= 10 {
      var s := NatText(n);
      assert s[..|s| - 1] == NatText(n / 10);
      ParseDigitsText(n / 10);
    }
  }

  /** Only the number 0 is written with a leading '0'. */
  lemma {:induction false} NatTextLead(n: nat)
    ensures NatText(n)[0] == '0' <==> n == 0
    decreases n
  {
    if n >= 10 {
      NatTextLead(n / 10);
      assert NatText(n)[0] == NatText(n / 10)[0];
    }
  }

  lemma ParseNatText(n: nat)
    ensures ParseNat(NatText(n)) == Some(n)
  {
    ParseDigitsText(n);
    NatTextLead(n);
  }

  /** Digits without a leading zero that read as `n` are exactly the text of `n`. */
  lemma {:induction false} ParseDigitsCanonical(s: string, n: nat)
    requires ParseDigits(s) == Some(n)
    requires |s| == 1 || s[0] != '0'
    ensures s == NatText(n)
    decreases |s|
  {
    var c := s[|s| - 1];
    var d := DigitValue(c).value;
    assert d < 10 && DigitChar(d) == c;
    if |s| > 1 {
      var p := s[..|s| - 1];
      var m := ParseDigits(p).value;
      assert p[0] == s[0];
      ParseDigitsCanonical(p, m);
      NatTextLead(m);
      assert n == 10 * m + d;
      assert n / 10 == m && n % 10 == d;
      assert s == p + [c];
    }
  }

  /** A text that reads as a natural number is exactly the text of that number. */
  lemma ParseNatCanonical(s: string, n: nat)
    requires ParseNat(s) == Some(n)
    ensures s == NatText(n)
  {
    ParseDigitsCanonical(s, n);
  }

  /** The text of `m / 2` for `m >= 0`: the integer part, then ".5" when `m` is odd. */
  function UnsignedHalfText(m: nat): string {
    if m % 2 == 1 then NatText(m / 2) + ".5" else NatText(m / 2)
  }

  /** JavaScript's rendering of `h / 2`: a minus sign for negative `h`, then the unsigned text. */
  function HalfText(h: int): string {
    if h < 0 then "-" + UnsignedHalfText(-h) else UnsignedHalfText(h)
  }

  /** Reads an unsigned number of half points: digits, optionally followed by ".5". */
  function ParseUnsignedHalf(t: string): Option<int> {
    if |t| >= 2 && t[|t| - 2..] == ".5" then
      match ParseNat(t[..|t| - 2])
      case None => None
      case Some(n) => Some(2 * n + 1)
    else
      match ParseNat(t)
      case None => None
      case Some(n) => Some(2 * n)
  }

  /** Reads a number of half points back from its text; "-0" is not a text JavaScript prints. */
  function ParseHalf(s: string): Option<int> {
    if |s| > 0 && s[0] == '-' then
      match ParseUnsignedHalf(s[1..])
      case None => None
      case Some(m) => if m == 0 then None else Some(-m)
    else ParseUnsignedHalf(s)
  }

  /** An integer part followed by ".5" reads back as an odd number of half points. */
  lemma OddHalfRoundTrip(n: nat)
    ensures ParseUnsignedHalf(NatText(n) + ".5") == Some(2 * n + 1)
  {
    var t := NatText(n) + ".5";
    ParseNatText(n);
    assert t[|t| - 2..] == ".5";
    assert t[..|t| - 2] == NatText(n);
  }

  /** An integer part alone reads back as an even number of half points. */
  lemma EvenHalfRoundTrip(n: nat)
    ensures ParseUnsignedHalf(NatText(n)) == Some(2 * n)
  {
    var digits := NatText(n);
    ParseNatText(n);
    if |digits| >= 2 {
      assert digits[|digits| - 2..][0] == digits[|digits| - 2] != '.';
    }
  }

  /** The unsigned part of `HalfText` reads back. */
  lemma UnsignedHalfRoundTrip(m: nat)
    ensures ParseUnsignedHalf(UnsignedHalfText(m)) == Some(m)
  {
    if m % 2 == 1 {
      OddHalfRoundTrip(m / 2);
    } else {
      EvenHalfRoundTrip(m / 2);
    }
  }

  /** The unsigned text starts with a digit, so it never reads as negative. */
  lemma UnsignedHalfTextStart(m: nat)
    ensures |UnsignedHalfText(m)| > 0 && '0' <= UnsignedHalfText(m)[0] <= '9'
  {
    var digits := NatText(m / 2);
    if m % 2 == 1 {
      assert (digits + ".5")[0] == digits[0];
    }
  }

  /** Reading a minus sign and then an unsigned text of a non-zero number gives its negation. */
  lemma ParseMinus(u: string, m: int)
    requires ParseUnsignedHalf(u) == Some(m) && m != 0
    ensures ParseHalf("-" + u) == Some(-m)
  {
    var s := "-" + u;
    assert s[0] == '-' && s[1..] == u;
  }

  /** A text starting with a minus sign reads as the negation of the non-zero unsigned number after it. */
  lemma ParseMinusInverse(s: string, h: int)
    requires |s| > 0 && s[0] == '-' && ParseHalf(s) == Some(h)
    ensures ParseUnsignedHalf(s[1..]) == Some(-h) && h != 0
  {
  }

  /** A negative number's text, a minus sign and then the unsigned text, reads back as that number. */
  lemma NegativeHalfRoundTrip(h: int)
    requires h < 0
    ensures ParseHalf(HalfText(h)) == Some(h)
  {
    UnsignedHalfRoundTrip(-h);
    ParseMinus(UnsignedHalfText(-h), -h);
    assert HalfText(h) == "-" + UnsignedHalfText(-h);
  }

  /** A non-negative number's text has no sign and reads back as that number. */
  lemma NonNegativeHalfRoundTrip(h: int)
    requires h >= 0
    ensures ParseHalf(HalfText(h)) == Some(h)
  {
    assert HalfText(h) == UnsignedHalfText(h);
    UnsignedHalfRoundTrip(h);
    UnsignedHalfTextStart(h);
  }

  lemma HalfTextRoundTrip(h: int)
    ensures ParseHalf(HalfText(h)) == Some(h)
  {
    if h < 0 {
      NegativeHalfRoundTrip(h);
    } else {
      NonNegativeHalfRoundTrip(h);
    }
  }

  /** JavaScript's decimal text of a score. */
  function NumberText(r: real): (s: string)
    requires IsHalfPoints(r)
    ensures ParseNumber(s) == Some(r)
  {
    var h := (2.0 * r).Floor;
    HalfTextRoundTrip(h);
    HalfText(h)
  }

  /** Reads a score back from its decimal text; what it reads is always a whole number of half points. */
  function ParseNumber(s: string): (r: Option<real>)
    ensures r.Some? ==> IsHalfPoints(r.value)
  {
    match ParseHalf(s)
    case None => None
    case Some(h) =>
      assert 2.0 * (h as real / 2.0) == h as real;
      Some(h as real / 2.0)
  }

  /** An unsigned text that reads as `m` half points is exactly the text printed for `m`. */
  lemma UnsignedHalfCanonical(t: string, m: int)
    requires ParseUnsignedHalf(t) == Some(m)
    ensures m >= 0 && t == UnsignedHalfText(m)
  {
    if |t| >= 2 && t[|t| - 2..] == ".5" {
      var digits := t[..|t| - 2];
      var n := ParseNat(digits).value;
      ParseNatCanonical(digits, n);
      assert m == 2 * n + 1;
      assert t == digits + ".5";
    } else {
      var n := ParseNat(t).value;
      ParseNatCanonical(t, n);
      assert m == 2 * n;
    }
  }

  /** A text that reads as `h` half points is exactly the text printed for `h`: the reading is one-to-one. */
  lemma ParseHalfCanonical(s: string, h: int)
    requires ParseHalf(s) == Some(h)
    ensures s == HalfText(h)
  {
    if |s| > 0 && s[0] == '-' {
      ParseMinusInverse(s, h);
      UnsignedHalfCanonical(s[1..], -h);
      assert s == "-" + s[1..];
    } else {
      UnsignedHalfCanonical(s, h);
    }
  }

  /** A text that reads as a score is exactly JavaScript's text of that score. */
  lemma NumberTextCanonical(t: string, r: real)
    requires ParseNumber(t) == Some(r)
    ensures IsHalfPoints(r) && t == NumberText(r)
  {
    var h := ParseHalf(t).value;
    ParseHalfCanonical(t, h);
    assert 2.0 * r == h as real;
    assert (2.0 * r).Floor == h;
  }

  /** The text shown for a score, or for the incomplete marker. */
  function ScoreMessage(score: Option<real>): (msg: string)
    requires score.Some? ==> IsHalfPoints(score.value)
    ensures ReadMessage(msg) == Some(score)
    ensures score.None? <==> msg == InvalidText
  {
    match score
    case None => InvalidText
    case Some(r) =>
      var msg := ScorePrefix + NumberText(r);
      assert msg[0] != InvalidText[0];
      assert msg[..|ScorePrefix|] == ScorePrefix && msg[|ScorePrefix|..] == NumberText(r);
      msg
  }

  /** Reads back which outcome a message reports; `None` for a text no outcome produces. */
  function ReadMessage(msg: string): Option<Option<real>> {
    if msg == InvalidText then Some(None)
    else if |msg| >= |ScorePrefix| && msg[..|ScorePrefix|] == ScorePrefix then
      match ParseNumber(msg[|ScorePrefix|..])
      case None => None
      case Some(r) => Some(Some(r))
    else None
  }

  /** A message that reads as an outcome is exactly the message shown for that outcome. */
  lemma MessageCanonical(msg: string, score: Option<real>)
    requires ReadMessage(msg) == Some(score)
    ensures score.Some? ==> IsHalfPoints(score.value)
    ensures msg == ScoreMessage(score)
  {
    if msg != InvalidText {
      var t := msg[|ScorePrefix|..];
      NumberTextCanonical(t, score.value);
      assert msg == ScorePrefix + t;
    }
  }
}
