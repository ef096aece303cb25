/** formatTime: whole seconds as the `MM:SS` text the engine reports. */
module Clock {

  function DigitChar(d: int): char
    requires 0 <= d < 10
  {
    ('0' as int + d) as char
  }

  function DigitValue(c: char): int
  {
    c as int - '0' as int
  }

  /** Number.prototype.toString for a non-negative integer: decimal, no leading zeros. */
  function NatToString(n: nat): string
    decreases n
  {
    if n < 10 then [DigitChar(n)] else NatToString(n / 10) + [DigitChar(n % 10)]
  }

  /** Number.prototype.toString for any integer. */
  function IntToString(i: int): string
  {
    if i < 0 then "-" + NatToString(-i) else NatToString(i)
  }

  /** String.prototype.padStart(2, "0"): zeros in front up to length two, never truncating. */
  function PadStart2(s: string): string
  {
    if |s| < 2 then seq(2 - |s|, _ => '0') + s else s
  }

  /** JavaScript's `%`: the remainder takes the sign of the dividend. */
  function JsRem(a: int, b: int): int
    requires b > 0
  {
    if a >= 0 then a % b else -((-a) % b)
  }

  /** formatTime(seconds): `Math.floor(seconds / 60)` and `seconds % 60`, each
      padded to two characters, joined by ':'. Dafny's `/` by a positive
      divisor rounds down, as Math.floor does. For any non-negative time the
      text ends in ':' and two digits giving the seconds within the minute. */
  function FormatTime(seconds: int): (s: string)
    ensures 0 <= seconds ==>
      && |s| >= 5 && s[|s| - 3] == ':'
      && '0' <= s[|s| - 2] <= '9' && '0' <= s[|s| - 1] <= '9'
      && DigitValue(s[|s| - 2]) * 10 + DigitValue(s[|s| - 1]) == seconds % 60
  {
    var minutes := seconds / 60;
    var secs := JsRem(seconds, 60);
    if 0 <= seconds then
      TwoDigits(secs);
      PadStart2(IntToString(minutes)) + ":" + PadStart2(IntToString(secs))
    else
      PadStart2(IntToString(minutes)) + ":" + PadStart2(IntToString(secs))
  }

  /** A number below 100 prints as exactly two digits once padded. */
  lemma TwoDigits(n: nat)
    requires n < 100
    ensures var s := PadStart2(IntToString(n));
      |s| == 2 && '0' <= s[0] <= '9' && '0' <= s[1] <= '9'
      && DigitValue(s[0]) * 10 + DigitValue(s[1]) == n
  {
    if n >= 10 {
      assert NatToString(n) == [DigitChar(n / 10)] + [DigitChar(n % 10)];
    }
  }

  /** Reads `MM:SS` back as seconds. */
  function ParseTime(s: string): int
    requires |s| == 5
  {
    (DigitValue(s[0]) * 10 + DigitValue(s[1])) * 60 + DigitValue(s[3]) * 10 + DigitValue(s[4])
  }

  /** Below 100 minutes the text is five characters: two digits of whole
      minutes, ':', two digits of the remaining seconds. */
  lemma FormatTimeShape(n: int)
    requires 0 <= n < 6000
    ensures var s := FormatTime(n);
      && |s| == 5 && s[2] == ':'
      && (forall k :: k in {0, 1, 3, 4} ==> '0' <= s[k] <= '9')
      && DigitValue(s[0]) * 10 + DigitValue(s[1]) == n / 60
      && DigitValue(s[3]) * 10 + DigitValue(s[4]) == n % 60
  {
    TwoDigits(n / 60);
    TwoDigits(n % 60);
  }

  /** Reading the text back gives the number of seconds formatted. */
  lemma FormatTimeRoundTrip(n: int)
    requires 0 <= n < 6000
    ensures |FormatTime(n)| == 5 && ParseTime(FormatTime(n)) == n
  {
    FormatTimeShape(n);
  }
}
