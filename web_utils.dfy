/**
 * truncateFunctionName of the web UI (assets/web-ui/js/utils.js), with the
 * index arithmetic of String.prototype.slice written out: fractional
 * positions are truncated toward zero and negative ones count from the end.
 */
module WebUtils {
  /** ToIntegerOrInfinity on a finite number. */
  function TruncReal(x: real): int
  {
    if x >= 0.0 then x.Floor else -((-x).Floor)
  }

  /** A relative slice position resolved against a length. */
  function SlicePos(rel: int, len: nat): (p: nat)
    ensures p <= len
  {
    if rel < 0 then (if len + rel < 0 then 0 else len + rel) else if rel > len then len else rel
  }

  /** str.slice(start, end); an end before the start gives "". */
  function Slice(s: string, start: real, end: real): (r: string)
    ensures |r| <= |s|
  {
    var from := SlicePos(TruncReal(start), |s|);
    var to := SlicePos(TruncReal(end), |s|);
    if to <= from then "" else s[from..to]
  }

  /** str.slice(start): from start to the end. */
  function SliceFrom(s: string, start: real): (r: string)
    ensures |r| <= |s|
  {
    s[SlicePos(TruncReal(start), |s|)..]
  }

  /** The ellipsis character placed in the middle. */
  const Ellipsis: char := '…'

  function TruncateFunctionName(s: string, max: int): string
  {
    if |s| < max then s
    else Slice(s, 0.0, max as real / 2.0 - 1.0) + [Ellipsis] + SliceFrom(s, -(max as real) / 2.0)
  }

  /** A name shorter than max is shown unchanged. */
  lemma ShortNameUnchanged(s: string, max: int)
    requires |s| < max
    ensures TruncateFunctionName(s, max) == s
  {
  }

  /**
   * For an even max of at least 2, a name of max or more characters becomes
   * its first max/2 - 1 characters, the ellipsis and its last max/2
   * characters: exactly max characters.
   */
  lemma {:induction false} TruncatedLength(s: string, max: int)
    requires max >= 2 && max % 2 == 0 && |s| >= max
    ensures var h := max / 2;
      TruncateFunctionName(s, max) == s[..h - 1] + [Ellipsis] + s[|s| - h..]
    ensures |TruncateFunctionName(s, max)| == max
  {
    var h := max / 2;
    assert max as real / 2.0 == h as real;
    assert max as real / 2.0 - 1.0 == (h - 1) as real;
    assert TruncReal((h - 1) as real) == h - 1;
    assert TruncReal(h as real) == h;
    assert -(max as real) / 2.0 == (-h) as real;
    assert TruncReal((-h) as real) == -h;
    assert Slice(s, 0.0, max as real / 2.0 - 1.0) == s[..h - 1];
    assert SliceFrom(s, -(max as real) / 2.0) == s[|s| - h..];
  }
}
