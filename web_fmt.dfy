/**
 * The value formatters of the web UI (assets/web-ui/js/fmt.js). Numbers are
 * reals; Math.round is round-half-up, and toFixed(2) of a value that round(_, 2)
 * produced is rendered exactly from its hundredths.
 */
module WebFmt {
  import opened Decimal
  import Wrappers

  function Repeat(c: string, n: nat): (r: string)
    ensures |r| == n * |c|
  {
    if n == 0 then "" else c + Repeat(c, n - 1)
  }

  /** lpad(str, len, char): the input unchanged if long enough, else padded on the left. */
  function Lpad(s: string, len: int, c: string): (r: string)
    ensures len - |s| <= 0 ==> r == s
    ensures len - |s| > 0 ==> r == Repeat(c, len - |s|) + s
    ensures |r| >= |s| && r[|r| - |s|..] == s
    ensures |c| == 1 ==> |r| == if len > |s| then len else |s|
  {
    var d := len - |s|;
    if d <= 0 then s else Repeat(c, d) + s
  }

  /** Math.round: round half up. */
  function JsRound(x: real): (k: int)
    ensures x - 0.5 < k as real <= x + 0.5
  {
    (x + 0.5).Floor
  }

  /** round(n, 2) expressed in hundredths. */
  function Hundredths(x: real): int { JsRound(x * 100.0) }

  function TwoDigits(n: nat): (s: string)
    requires n < 100
    ensures |s| == 2 && AllDigits(s)
  {
    [DigitChar(n / 10), DigitChar(n % 10)]
  }

  /** toFixed(2) of k / 100. */
  function Fixed2(k: int): (s: string)
  {
    var m := if k < 0 then -k else k;
    (if k < 0 then "-" else "") + NatToString(m / 100) + "." + TwoDigits(m % 100)
  }

  /** What a formatter returns: a string, or (quantity below 1000) a bare number. */
  datatype Shown = Text(s: string) | Number(n: int)

  function EndsWith(s: string, suffix: string): bool
  {
    |suffix| <= |s| && s[|s| - |suffix|..] == suffix
  }

  function Quantity(n: real): Shown
  {
    if n >= 1000000000.0 then Text(Fixed2(Hundredths(n / 1000000000.0)) + "G")
    else if n >= 1000000.0 then Text(Fixed2(Hundredths(n / 1000000.0)) + "M")
    else if n >= 1000.0 then Text(Fixed2(Hundredths(n / 1000.0)) + "K")
    else Number(JsRound(n))
  }

  function Pct(n: real): (r: string)
    ensures EndsWith(r, "%")
  {
    Fixed2(Hundredths(n * 100.0)) + "%"
  }

  function Time(n: real): string
  {
    if n >= 1000000000.0 then Fixed2(Hundredths(n / 1000000000.0)) + "s"
    else if n >= 1000000.0 then Fixed2(Hundredths(n / 1000000.0)) + "ms"
    else if n >= 1000.0 then Fixed2(Hundredths(n / 1000.0)) + "us"
    else IntToString(JsRound(n)) + "ns"
  }

  function Abs(x: real): real { if x < 0.0 then -x else x }

  const KiB: real := 1024.0
  const MiB: real := 1048576.0
  const GiB: real := 1073741824.0

  function Memory(n: real): string
  {
    if Abs(n) >= GiB then Fixed2(Hundredths(n / GiB)) + "GB"
    else if Abs(n) >= MiB then Fixed2(Hundredths(n / MiB)) + "MB"
    else if Abs(n) >= KiB then Fixed2(Hundredths(n / KiB)) + "KB"
    else IntToString(JsRound(n)) + "B"
  }

  /** The unit names the formatters pick, as functions of the value alone. */
  function QuantityUnit(n: real): string
  {
    if n >= 1000000000.0 then "G" else if n >= 1000000.0 then "M" else if n >= 1000.0 then "K" else ""
  }

  function TimeUnit(n: real): string
  {
    if n >= 1000000000.0 then "s" else if n >= 1000000.0 then "ms" else if n >= 1000.0 then "us" else "ns"
  }

  function MemoryUnit(n: real): string
  {
    if Abs(n) >= GiB then "GB" else if Abs(n) >= MiB then "MB" else if Abs(n) >= KiB then "KB" else "B"
  }

  /** Below 1000, negatives included, a quantity is a plain rounded number. */
  lemma QuantitySuffix(n: real)
    ensures Quantity(n).Number? <==> n < 1000.0
    ensures Quantity(n).Number? ==> n - 0.5 < Quantity(n).n as real <= n + 0.5
    ensures Quantity(n).Text? ==> EndsWith(Quantity(n).s, QuantityUnit(n)) && QuantityUnit(n) != ""
  {
  }

  /** The rendered number ends with its unit, and "s" is only chosen from 1e9 up. */
  lemma TimeSuffix(n: real)
    ensures EndsWith(Time(n), TimeUnit(n))
    ensures TimeUnit(n) == "ns" <==> n < 1000.0
  {
  }

  /** n and -n get the same memory unit. */
  lemma MemoryUnitSymmetric(n: real)
    ensures EndsWith(Memory(n), MemoryUnit(n))
    ensures MemoryUnit(n) == MemoryUnit(-n)
  {
  }


  /** Reading back toFixed(2) without its sign: digits, '.', two digits. */
  function ParseUnsignedFixed2(body: string): Wrappers.Option<nat>
  {
    if |body| >= 4 && body[|body| - 3] == '.' && AllDigits(body[..|body| - 3]) && AllDigits(body[|body| - 2..]) then
      Wrappers.Some(DigitsValue(body[..|body| - 3]) * 100 + DigitsValue(body[|body| - 2..]))
    else Wrappers.None
  }

  function ParseFixed2(s: string): Wrappers.Option<int>
  {
    if |s| > 0 && s[0] == '-' then
      match ParseUnsignedFixed2(s[1..])
      case Some(v) => Wrappers.Some(-(v as int))
      case None => Wrappers.None
    else
      match ParseUnsignedFixed2(s)
      case Some(v) => Wrappers.Some(v as int)
      case None => Wrappers.None
  }

  lemma {:induction false} UnsignedFixed2RoundTrip(m: nat)
    ensures ParseUnsignedFixed2(NatToString(m / 100) + "." + TwoDigits(m % 100)) == Wrappers.Some(m)
    ensures (NatToString(m / 100) + "." + TwoDigits(m % 100))[0] != '-'
  {
    var digits := NatToString(m / 100);
    var two := TwoDigits(m % 100);
    var body := digits + "." + two;
    assert body[..|body| - 3] == digits;
    assert body[|body| - 2..] == two;
    NatToStringValue(m / 100);
    assert DigitsValue(two[..1]) == m % 100 / 10;
    assert body[0] == digits[0];
  }

  /** toFixed(2) loses nothing: the hundredths can be read back. */
  lemma {:induction false} Fixed2RoundTrip(k: int)
    ensures ParseFixed2(Fixed2(k)) == Wrappers.Some(k)
  {
    var m := if k < 0 then -k else k;
    var body := NatToString(m / 100) + "." + TwoDigits(m % 100);
    UnsignedFixed2RoundTrip(m);
    if k < 0 {
      assert Fixed2(k) == "-" + body;
      assert Fixed2(k)[1..] == body;
    } else {
      assert Fixed2(k) == body;
    }
  }
}
