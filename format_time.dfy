/** `formatTime`: a remaining-session duration in milliseconds rendered as
    `HH:MM:SS`, or `MM:SS` below one hour, each field zero-padded to two
    digits. The milliseconds are an integer here. */
module FormatTime {
  import opened Base
  import opened Text

  const MsPerSecond := 1000
  const MsPerMinute := 1000 * 60
  const MsPerHour := 1000 * 60 * 60

  /** `Math.floor(ms / 3600000)` for non-negative `ms`. */
  function Hours(ms: nat): nat { ms / MsPerHour }

  /** `Math.floor((ms / 60000) % 60)` for non-negative `ms`. */
  function Minutes(ms: nat): nat { (ms / MsPerMinute) % 60 }

  /** `Math.floor((ms / 1000) % 60)` for non-negative `ms`. */
  function Seconds(ms: nat): nat { (ms / MsPerSecond) % 60 }

  predicate IsDigit(c: char) { '0' <= c <= '9' }

  predicate AllDigits(s: string) {
    forall k :: 0 <= k < |s| ==> IsDigit(s[k])
  }

  function DigitChar(d: nat): (c: char)
    requires d < 10
    ensures IsDigit(c)
  {
    ('0' as int + d) as char
  }

  /** `n.toString()` for a non-negative integer: decimal, no leading zero. */
  function NatToString(n: nat): (s: string)
    ensures |s| >= 1 && AllDigits(s)
  {
    if n < 10 then [DigitChar(n)] else NatToString(n / 10) + [DigitChar(n % 10)]
  }

  /** The number a string of decimal digits denotes. */
  function DigitsValue(s: string): nat
    requires AllDigits(s)
  {
    if |s| == 0 then 0 else 10 * DigitsValue(s[..|s| - 1]) + (s[|s| - 1] as int - '0' as int)
  }

  /** `s.padStart(2, "0")`. */
  function Pad2(s: string): string {
    if |s| >= 2 then s else seq(2 - |s|, _ => '0') + s
  }

  /** One rendered field. */
  function Field(n: nat): string {
    Pad2(NatToString(n))
  }

  /** `formatTime` itself. */
  function Format(ms: int): string {
    if ms <= 0 then "00:00"
    else if Hours(ms) > 0 then Field(Hours(ms)) + ":" + Field(Minutes(ms)) + ":" + Field(Seconds(ms))
    else Field(Minutes(ms)) + ":" + Field(Seconds(ms))
  }

  /** Reading a rendered clock back: the fields between colons as decimal
      numbers, worth hours, minutes and seconds (or minutes and seconds). */
  function ClockSeconds(s: string): Option<nat> {
    var parts := Split(s, ':');
    if |parts| == 3 && AllDigits(parts[0]) && AllDigits(parts[1]) && AllDigits(parts[2]) then
      Some(3600 * DigitsValue(parts[0]) + 60 * DigitsValue(parts[1]) + DigitsValue(parts[2]))
    else if |parts| == 2 && AllDigits(parts[0]) && AllDigits(parts[1]) then
      Some(60 * DigitsValue(parts[0]) + DigitsValue(parts[1]))
    else None
  }

  /** Hours, minutes and seconds decompose the whole seconds of `ms`, and
      minutes and seconds stay below 60. */
  lemma Decomposition(ms: nat)
    ensures Minutes(ms) < 60 && Seconds(ms) < 60
    ensures Hours(ms) * 3600 + Minutes(ms) * 60 + Seconds(ms) == ms / MsPerSecond
  {
    var t := ms / 1000;
    var u := t / 60;
    var v := t % 60;
    var r := ms % 1000;
    assert ms == 1000 * t + r;
    assert t == 60 * u + v;
    assert ms == 60000 * u + (1000 * v + r);
    assert 0 <= 1000 * v + r < 60000;
    assert ms / 60000 == u;
    var w := u / 60;
    assert u == 60 * w + u % 60;
    assert ms == 3600000 * w + (60000 * (u % 60) + 1000 * v + r);
    assert 0 <= 60000 * (u % 60) + 1000 * v + r < 3600000;
    assert ms / 3600000 == w;
  }

  /** Decimal rendering and reading are inverse. */
  lemma {:induction false} NatToStringValue(n: nat)
    ensures DigitsValue(NatToString(n)) == n
  {
    if n >= 10 {
      NatToStringValue(n / 10);
      var s := NatToString(n);
      assert s[..|s| - 1] == NatToString(n / 10);
    }
  }

  /** The rendering has only as many digits as needed: a single digit below
      ten, and at least two from ten on. */
  lemma {:induction false} NatToStringLength(n: nat)
    ensures n < 10 <==> |NatToString(n)| == 1
  {
    if n >= 10 {
      assert |NatToString(n)| == |NatToString(n / 10)| + 1;
    }
  }

  /** Padding a digit string keeps its value, gives at least two characters,
      leaves a longer string alone (so hours past 99 are not cut), and puts a
      single leading `0` before one digit. */
  lemma PadValue(s: string)
    requires AllDigits(s) && |s| >= 1
    ensures AllDigits(Pad2(s)) && |Pad2(s)| >= 2
    ensures DigitsValue(Pad2(s)) == DigitsValue(s)
    ensures |s| >= 2 ==> Pad2(s) == s
    ensures |s| == 1 ==> Pad2(s) == ['0'] + s
  {
    if |s| == 1 {
      assert Pad2(s) == ['0'] + s;
      assert (['0'] + s)[..1] == ['0'];
      assert DigitsValue(['0']) == 10 * DigitsValue([]) + 0;
    }
  }

  /** Each field is a digit string of length at least two denoting `n`;
      values below ten get exactly one leading `0`. */
  lemma FieldValue(n: nat)
    ensures AllDigits(Field(n)) && |Field(n)| >= 2 && ':' !in Field(n)
    ensures DigitsValue(Field(n)) == n
    ensures n < 10 ==> Field(n) == ['0', DigitChar(n)]
    ensures n >= 10 ==> Field(n) == NatToString(n)
  {
    NatToStringValue(n);
    NatToStringLength(n);
    PadValue(NatToString(n));
    var f := Field(n);
    forall k | 0 <= k < |f| ensures f[k] != ':' {
      assert IsDigit(f[k]);
    }
  }

  /** Zero and negative durations render as `00:00`. */
  lemma NonPositiveIsZero(ms: int)
    requires ms <= 0
    ensures Format(ms) == "00:00"
  {
  }

  /** Less than one second also renders as `00:00`. */
  lemma SubSecondIsZero(ms: int)
    requires 0 < ms < 1000
    ensures Format(ms) == "00:00"
  {
    FieldValue(0);
    assert Field(0) == "00";
  }

  /** The shape of the output: three colon-separated fields from one hour on,
      two below. */
  lemma Shape(ms: int)
    requires ms > 0
    ensures Hours(ms) > 0 ==> Split(Format(ms), ':') == [Field(Hours(ms)), Field(Minutes(ms)), Field(Seconds(ms))]
    ensures Hours(ms) == 0 ==> Split(Format(ms), ':') == [Field(Minutes(ms)), Field(Seconds(ms))]
  {
    FieldValue(Hours(ms));
    FieldValue(Minutes(ms));
    FieldValue(Seconds(ms));
    var h, m, sec := Field(Hours(ms)), Field(Minutes(ms)), Field(Seconds(ms));
    if Hours(ms) > 0 {
      var parts := [h, m, sec];
      assert parts[1..] == [m, sec];
      assert Join([m, sec], ':') == m + [':'] + Join([sec], ':');
      assert Join(parts, ':') == h + [':'] + (m + [':'] + sec);
      assert Join(parts, ':') == Format(ms);
      SplitJoin(parts, ':');
    } else {
      var parts := [Field(Minutes(ms)), Field(Seconds(ms))];
      assert Join(parts, ':') == Format(ms);
      SplitJoin(parts, ':');
    }
  }

  /** A three-field clock reads back as hours, minutes and seconds. */
  lemma ClockOfThree(h: nat, m: nat, sec: nat)
    ensures ClockSeconds(Field(h) + ":" + Field(m) + ":" + Field(sec)) == Some(3600 * h + 60 * m + sec)
  {
    FieldValue(h);
    FieldValue(m);
    FieldValue(sec);
    var parts := [Field(h), Field(m), Field(sec)];
    assert parts[1..] == [Field(m), Field(sec)];
    assert Join([Field(m), Field(sec)], ':') == Field(m) + [':'] + Join([Field(sec)], ':');
    assert Join(parts, ':') == Field(h) + ":" + Field(m) + ":" + Field(sec);
    SplitJoin(parts, ':');
  }

  /** A two-field clock reads back as minutes and seconds. */
  lemma ClockOfTwo(m: nat, sec: nat)
    ensures ClockSeconds(Field(m) + ":" + Field(sec)) == Some(60 * m + sec)
  {
    FieldValue(m);
    FieldValue(sec);
    var parts := [Field(m), Field(sec)];
    assert Join(parts, ':') == Field(m) + ":" + Field(sec);
    SplitJoin(parts, ':');
  }

  /** Reading the rendered clock back gives the whole seconds of the
      duration (zero for a non-positive one): nothing is lost or truncated. */
  lemma ClockRoundTrip(ms: int)
    ensures ClockSeconds(Format(ms)) == Some(if ms <= 0 then 0 else ms / MsPerSecond)
  {
    if ms <= 0 {
      FieldValue(0);
      assert Field(0) == "00";
      ClockOfTwo(0, 0);
      assert Field(0) + ":" + Field(0) == "00:00";
    } else {
      Decomposition(ms);
      if Hours(ms) > 0 {
        ClockOfThree(Hours(ms), Minutes(ms), Seconds(ms));
      } else {
        ClockOfTwo(Minutes(ms), Seconds(ms));
      }
    }
  }
}
