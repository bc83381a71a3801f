/**
 * human_duration of app.py: a number of seconds split by integer division
 * by 60 twice and shown as "Hh Mm Ss", "Mm Ss" or "Ss".
 *
 * The partner of the formatter is a reader for the strings it produces;
 * reading a formatted duration gives back the number of seconds.
 */
module Duration {
  import opened Wrappers

  predicate IsDigit(c: char) {
    '0' <= c <= '9'
  }

  predicate AllDigits(s: string) {
    forall i :: 0 <= i < |s| ==> IsDigit(s[i])
  }

  function DigitChar(d: nat): (c: char)
    requires d < 10
    ensures IsDigit(c)
  {
    ('0' as int + d) as char
  }

  function DigitValue(c: char): (d: nat)
    requires IsDigit(c)
    ensures d < 10
  {
    c as int - '0' as int
  }

  /** Decimal rendering of a natural number, as Python's str() of an int:
      only digits, and a leading '0' only for zero itself. */
  function NatToString(n: nat): (s: string)
    ensures |s| >= 1 && AllDigits(s)
    ensures (s[0] == '0') == (n == 0)
    decreases n
  {
    if n < 10 then [DigitChar(n)] else NatToString(n / 10) + [DigitChar(n % 10)]
  }

  /** The number a string of decimal digits denotes. */
  function DigitsValue(s: string): nat
    requires AllDigits(s)
  {
    if s == [] then 0 else DigitsValue(s[..|s| - 1]) * 10 + DigitValue(s[|s| - 1])
  }

  lemma {:induction false} DigitsValueOfNatToString(n: nat)
    ensures DigitsValue(NatToString(n)) == n
    decreases n
  {
    var s := NatToString(n);
    if n >= 10 {
      DigitsValueOfNatToString(n / 10);
      assert s[..|s| - 1] == NatToString(n / 10);
    }
  }

  /** divmod(seconds, 60) and then divmod(minutes, 60): hours, minutes
      and seconds that recompose n, the last two below 60. */
  function Decompose(n: nat): (hms: (nat, nat, nat))
    ensures hms.0 * 3600 + hms.1 * 60 + hms.2 == n
    ensures hms.1 < 60 && hms.2 < 60
  {
    var minutes, s := n / 60, n % 60;
    var h, m := minutes / 60, minutes % 60;
    assert n == minutes * 60 + s;
    assert minutes == h * 60 + m;
    (h, m, s)
  }

  /** The decomposition is the only one with minutes and seconds below 60. */
  lemma DecomposeUnique(n: nat, h: nat, m: nat, s: nat)
    requires h * 3600 + m * 60 + s == n
    requires m < 60 && s < 60
    ensures Decompose(n) == (h, m, s)
  {
    DivModSixty(n, h * 60 + m, s);
    DivModSixty(h * 60 + m, h, m);
  }

  /** Division by 60 is determined by quotient and remainder. */
  lemma DivModSixty(n: nat, q: nat, r: nat)
    requires r < 60 && n == q * 60 + r
    ensures n / 60 == q && n % 60 == r
  {
  }

  /** A number followed by its unit letter, as in "5s". */
  function Field(v: nat, unit: char): string {
    NatToString(v) + [unit]
  }

  /** human_duration: the decomposition of n, rendered. */
  function HumanDuration(n: nat): (r: string)
    ensures |r| >= 2 && r[|r| - 1] == 's'
  {
    var (h, m, s) := Decompose(n);
    Render(h, m, s)
  }

  /** An hours field appears exactly from one hour on, a minutes field
      exactly from one minute on. */
  lemma HumanDurationUnits(n: nat)
    ensures ('h' in HumanDuration(n)) <==> n >= 3600
    ensures ('m' in HumanDuration(n)) <==> n >= 60
  {
  }

  /** The three shapes: hours shown when non-zero, minutes when hours or
      minutes are non-zero, seconds always. */
  function Render(h: nat, m: nat, s: nat): string {
    if h != 0 then Field(h, 'h') + " " + MinSec(m, s)
    else if m != 0 then MinSec(m, s)
    else Field(s, 's')
  }

  /** The "Mm Ss" tail of a rendering. */
  function MinSec(m: nat, s: nat): string {
    Field(m, 'm') + " " + Field(s, 's')
  }

  /** The length of the run of digits at the start of s. */
  function LeadingDigits(s: string): (k: nat)
    ensures k <= |s|
    ensures forall i :: 0 <= i < k ==> IsDigit(s[i])
    ensures k < |s| ==> !IsDigit(s[k])
  {
    if s == [] || !IsDigit(s[0]) then 0 else 1 + LeadingDigits(s[1..])
  }

  /** One field of a formatted duration: a number, its unit letter, and what follows. */
  function ReadField(s: string): Option<(nat, char, string)> {
    var k := LeadingDigits(s);
    if k == 0 || k == |s| then None
    else
      assert AllDigits(s[..k]);
      Some((DigitsValue(s[..k]), s[k], s[k + 1..]))
  }

  /** A number carrying unit letter u, and the text after the letter. */
  function ReadUnit(s: string, u: char): Option<(nat, string)> {
    match ReadField(s)
    case Some((v, c, rest)) => if c == u then Some((v, rest)) else None
    case None => None
  }

  /** "Ss" and nothing after it. */
  function SecondsPart(s: string): Option<nat> {
    match ReadUnit(s, 's')
    case Some((c, rest)) => if rest == [] then Some(c) else None
    case None => None
  }

  /** "Mm Ss": minutes and seconds, as seconds. */
  function MinutesPart(s: string): Option<nat> {
    match ReadUnit(s, 'm')
    case Some((b, rest)) =>
      if |rest| > 0 && rest[0] == ' ' then
        match SecondsPart(rest[1..])
        case Some(c) => Some(b * 60 + c)
        case None => None
      else None
    case None => None
  }

  /** "Hh Mm Ss": hours, minutes and seconds, as seconds. */
  function HoursPart(s: string): Option<nat> {
    match ReadUnit(s, 'h')
    case Some((a, rest)) =>
      if |rest| > 0 && rest[0] == ' ' then
        match MinutesPart(rest[1..])
        case Some(ms) => Some(a * 3600 + ms)
        case None => None
      else None
    case None => None
  }

  /** Reader for the three shapes human_duration produces; None for anything else. */
  function ParseDuration(r: string): Option<nat> {
    match ReadField(r)
    case Some((_, 'h', _)) => HoursPart(r)
    case Some((_, 'm', _)) => MinutesPart(r)
    case Some((_, 's', _)) => SecondsPart(r)
    case _ => None
  }

  /** A rendered number followed by a non-digit unit reads back as that number. */
  lemma ReadFieldOfNumber(n: nat, u: char, rest: string)
    requires !IsDigit(u)
    ensures ReadField(Field(n, u) + rest) == Some((n, u, rest))
  {
    var d := NatToString(n);
    var s := Field(n, u) + rest;
    var k := LeadingDigits(s);
    assert s[|d|] == u;
    assert forall i :: 0 <= i < |d| ==> s[i] == d[i];
    assert k == |d|;
    assert s[..k] == d;
    assert s[k + 1..] == rest;
    DigitsValueOfNatToString(n);
  }

  lemma SecondsPartOf(c: nat)
    ensures ReadField(Field(c, 's')) == Some((c, 's', []))
    ensures SecondsPart(Field(c, 's')) == Some(c)
  {
    ReadFieldOfNumber(c, 's', []);
    assert Field(c, 's') + [] == Field(c, 's');
  }

  /** How MinutesPart goes on once the first field has been read. */
  lemma MinutesPartFrom(x: string, b: nat, rest: string, c: nat)
    requires ReadField(x) == Some((b, 'm', rest))
    requires |rest| > 0 && rest[0] == ' ' && SecondsPart(rest[1..]) == Some(c)
    ensures MinutesPart(x) == Some(b * 60 + c)
  {
  }

  /** How HoursPart goes on once the first field has been read. */
  lemma HoursPartFrom(x: string, a: nat, rest: string, ms: nat)
    requires ReadField(x) == Some((a, 'h', rest))
    requires |rest| > 0 && rest[0] == ' ' && MinutesPart(rest[1..]) == Some(ms)
    ensures HoursPart(x) == Some(a * 3600 + ms)
  {
  }

  lemma MinutesPartOf(b: nat, c: nat)
    ensures ReadField(MinSec(b, c)) == Some((b, 'm', " " + Field(c, 's')))
    ensures MinutesPart(MinSec(b, c)) == Some(b * 60 + c)
  {
    var rest := " " + Field(c, 's');
    assert MinSec(b, c) == Field(b, 'm') + rest;
    ReadFieldOfNumber(b, 'm', rest);
    assert rest[1..] == Field(c, 's');
    SecondsPartOf(c);
    MinutesPartFrom(MinSec(b, c), b, rest, c);
  }

  lemma HoursPartOfTail(a: nat, t: string, ms: nat)
    requires MinutesPart(t) == Some(ms)
    ensures ReadField(Field(a, 'h') + " " + t) == Some((a, 'h', " " + t))
    ensures HoursPart(Field(a, 'h') + " " + t) == Some(a * 3600 + ms)
  {
    var rest := " " + t;
    var x := Field(a, 'h') + " " + t;
    assert x == Field(a, 'h') + rest;
    ReadFieldOfNumber(a, 'h', rest);
    assert rest[1..] == t;
    HoursPartFrom(x, a, rest, ms);
  }

  /** ParseDuration dispatches on the unit of the first field. */
  lemma ParseDispatch(x: string, v: nat, u: char, rest: string)
    requires ReadField(x) == Some((v, u, rest))
    ensures u == 'h' ==> ParseDuration(x) == HoursPart(x)
    ensures u == 'm' ==> ParseDuration(x) == MinutesPart(x)
    ensures u == 's' ==> ParseDuration(x) == SecondsPart(x)
  {
  }

  lemma RenderParsesHours(h: nat, m: nat, s: nat)
    requires h != 0
    ensures ParseDuration(Render(h, m, s)) == Some(h * 3600 + m * 60 + s)
  {
    var x := Field(h, 'h') + " " + MinSec(m, s);
    assert Render(h, m, s) == x;
    MinutesPartOf(m, s);
    HoursPartOfTail(h, MinSec(m, s), m * 60 + s);
    ParseDispatch(x, h, 'h', " " + MinSec(m, s));
  }

  lemma RenderParsesMinutes(m: nat, s: nat)
    requires m != 0
    ensures ParseDuration(Render(0, m, s)) == Some(m * 60 + s)
  {
    assert Render(0, m, s) == MinSec(m, s);
    MinutesPartOf(m, s);
    ParseDispatch(MinSec(m, s), m, 'm', " " + Field(s, 's'));
  }

  lemma RenderParsesSeconds(s: nat)
    ensures ParseDuration(Render(0, 0, s)) == Some(s)
  {
    assert Render(0, 0, s) == Field(s, 's');
    SecondsPartOf(s);
    ParseDispatch(Field(s, 's'), s, 's', []);
  }

  /** Every rendering reads back as the seconds it stands for. */
  lemma RenderParses(h: nat, m: nat, s: nat)
    ensures ParseDuration(Render(h, m, s)) == Some(h * 3600 + m * 60 + s)
  {
    if h != 0 {
      RenderParsesHours(h, m, s);
    } else if m != 0 {
      RenderParsesMinutes(m, s);
    } else {
      RenderParsesSeconds(s);
    }
  }

  /** Reading back what human_duration shows gives the original seconds. */
  lemma HumanDurationRoundTrip(n: nat)
    ensures ParseDuration(HumanDuration(n)) == Some(n)
  {
    var hms := Decompose(n);
    RenderParses(hms.0, hms.1, hms.2);
  }

  /** The documented renderings. */
  lemma HumanDurationExamples()
    ensures HumanDuration(45) == "45s"
    ensures HumanDuration(125) == "2m 5s"
    ensures HumanDuration(3725) == "1h 2m 5s"
    ensures HumanDuration(3600) == "1h 0m 0s"
  {
    assert Decompose(45) == (0, 0, 45);
    assert NatToString(45) == "45";
    assert Decompose(125) == (0, 2, 5);
    assert Decompose(3725) == (1, 2, 5);
    assert Decompose(3600) == (1, 0, 0);
  }
}
