/**
 * The bounded string builder of src/spx_str_builder.c: a buffer of
 * capacity + 1 chars whose first size chars are the content, followed by a
 * NUL. The appends fail rather than overflow. Numbers are written least
 * significant digit first and then reversed in place.
 */
module SpxStrBuilder {
  import opened Wrappers
  import opened Decimal
  import opened CStrings

  /** The decimal digits of n, least significant first, as the digit loops write them. */
  function RevDigits(n: nat): (r: string)
    ensures n == 0 <==> r == []
  {
    if n == 0 then [] else [DigitChar(n % 10)] + RevDigits(n / 10)
  }

  /**
   * The digit loop of append_double over the digits of v that are left, n
   * digits having been read and something written iff started: fractional
   * zeros before the first written digit are skipped, and '.' follows the
   * nbDec-th digit when that digit is written.
   */
  function RevScaled(v: nat, nbDec: nat, n: nat, started: bool): string
    decreases v
  {
    if v == 0 then []
    else if v % 10 == 0 && !started && n + 1 <= nbDec then RevScaled(v / 10, nbDec, n + 1, false)
    else [DigitChar(v % 10)] + (if n + 1 == nbDec then "." else "") + RevScaled(v / 10, nbDec, n + 1, true)
  }

  /** What append_double writes for the scaled value v != 0, as written in the source. */
  function ScaledToString(v: int, nbDec: nat): string
  {
    if v < 0 then "-" + Reverse(RevScaled(-v, nbDec, 0, false)) else Reverse(RevScaled(v, nbDec, 0, false))
  }

  /** One step of the append_double digit loop. */
  lemma ScaledStep(v: nat, nbDec: nat, n: nat, started: bool)
    requires v != 0
    ensures var e := ScaledEmit(v, nbDec, n, started);
      RevScaled(v, nbDec, n, started) == e + RevScaled(v / 10, nbDec, n + 1, started || e != [])
  {
  }

  /** The chars one turn of the append_double digit loop writes. */
  function ScaledEmit(v: nat, nbDec: nat, n: nat, started: bool): string
  {
    if v % 10 == 0 && !started && n + 1 <= nbDec then []
    else [DigitChar(v % 10)] + (if n + 1 == nbDec then "." else "")
  }

  lemma {:induction false} RevDigitsReversed(n: nat)
    requires n > 0
    ensures Reverse(RevDigits(n)) == NatToString(n)
  {
    if n >= 10 {
      RevDigitsReversed(n / 10);
      assert RevDigits(n) == [DigitChar(n % 10)] + RevDigits(n / 10);
      ReverseAppend([DigitChar(n % 10)], RevDigits(n / 10));
    } else {
      assert RevDigits(n) == [DigitChar(n)];
    }
  }

  /** n '0' chars. */
  function Zeros(n: nat): (r: string)
    ensures |r| == n && forall i :: 0 <= i < n ==> r[i] == '0'
  {
    seq(n, _ => '0')
  }

  /** s without its trailing '0' chars. */
  function TrimZeros(s: string): (r: string)
    ensures |r| <= |s| && r == s[..|r|]
    ensures r == [] || r[|r| - 1] != '0'
    ensures forall i :: |r| <= i < |s| ==> s[i] == '0'
  {
    if s != [] && s[|s| - 1] == '0' then TrimZeros(s[..|s| - 1]) else s
  }

  /** The number of leading '0' chars of s. */
  function LeadZeros(s: string): (z: nat)
    ensures z <= |s| && (forall i :: 0 <= i < z ==> s[i] == '0') && (z < |s| ==> s[z] != '0')
  {
    if s != [] && s[0] == '0' then 1 + LeadZeros(s[1..]) else 0
  }

  /** s with '.' after its first k chars, when it has that many. */
  function Dotted(s: string, k: nat): string
  {
    if |s| >= k then s[..k] + "." + s[k..] else s
  }

  /**
   * The text append_double is meant to write for the scaled value v: v /
   * 10^nbDec with at most nbDec decimals, trailing fractional zeros and a
   * bare '.' dropped, and "0" when nothing is left.
   */
  function FixedToString(v: nat, nbDec: nat): string
  {
    FixedText(Padded(NatToString(v), nbDec), nbDec)
  }

  /** d with '0' chars before it up to k chars. */
  function Padded(d: string, k: nat): (p: string)
    ensures |p| >= k && |p| >= |d|
  {
    if |d| < k then Zeros(k - |d|) + d else d
  }

  /** The digits p with '.' before their last nbDec. */
  function FixedText(p: string, nbDec: nat): string
    requires |p| >= nbDec
  {
    var frac := TrimZeros(p[|p| - nbDec..]);
    var t := Joined(p[..|p| - nbDec], frac);
    if t == [] then "0" else t
  }

  /** An integer part and a fraction, with '.' between when there is a fraction. */
  function Joined(ip: string, frac: string): string
  {
    ip + (if frac == [] then [] else "." + frac)
  }

  /** The position of the first '.' of s, |s| when there is none. */
  function DotIndex(s: string): (i: nat)
    ensures i <= |s| && '.' !in s[..i] && (i < |s| ==> s[i] == '.')
  {
    if s == [] || s[0] == '.' then 0 else 1 + DotIndex(s[1..])
  }

  /**
   * The reading side of a number with up to nbDec decimals: digits, an
   * optional '.' and at most nbDec digits, read as the integer scaled by
   * 10^nbDec.
   */
  function ReadFixed(s: string, nbDec: nat): Option<nat>
  {
    var i := DotIndex(s);
    var a := s[..i];
    var f := if i < |s| then s[i + 1..] else [];
    if a + f != [] && AllDigits(a) && AllDigits(f) && |f| <= nbDec
    then Some(DigitsValue(a + f + Zeros(nbDec - |f|)))
    else None
  }

  /** Leading zeros add nothing to the value of a digit string. */
  lemma {:induction false} DigitsValueZeros(k: nat, d: string)
    requires AllDigits(d)
    ensures AllDigits(Zeros(k) + d) && DigitsValue(Zeros(k) + d) == DigitsValue(d)
  {
    var s := Zeros(k) + d;
    if d == [] {
      assert s == Zeros(k);
      if k > 0 {
        assert s[..|s| - 1] == Zeros(k - 1) + [];
        DigitsValueZeros(k - 1, []);
      }
    } else {
      assert s[..|s| - 1] == Zeros(k) + d[..|d| - 1];
      DigitsValueZeros(k, d[..|d| - 1]);
    }
  }

  /** The intended text reads back as the scaled value it was written from. */
  lemma {:induction false} FixedRoundTrip(v: nat, nbDec: nat)
    ensures ReadFixed(FixedToString(v, nbDec), nbDec) == Some(v)
  {
    var d := NatToString(v);
    var p := Padded(d, nbDec);
    NatToStringValue(v);
    if |d| < nbDec {
      DigitsValueZeros(nbDec - |d|, d);
    }
    assert AllDigits(p) && DigitsValue(p) == v;
    FixedTextRead(p, nbDec);
  }

  /** The digits p read back from their text with '.' before the last nbDec. */
  lemma {:induction false} FixedTextRead(p: string, nbDec: nat)
    requires AllDigits(p) && |p| >= nbDec
    ensures ReadFixed(FixedText(p, nbDec), nbDec) == Some(DigitsValue(p))
  {
    var ip, tail := p[..|p| - nbDec], p[|p| - nbDec..];
    var frac := TrimZeros(tail);
    TrimPad(tail);
    assert p == ip + tail;
    AppendAssoc(ip, frac, Zeros(nbDec - |frac|));
    if ip + frac == [] {
      assert FixedText(p, nbDec) == "0";
      assert p == Zeros(nbDec) + [];
      DigitsValueZeros(nbDec, []);
      ZeroRead(nbDec);
    } else {
      JoinedRead(ip, frac, nbDec);
    }
  }

  /** The text "0" reads back as 0. */
  lemma {:induction false} ZeroRead(nbDec: nat)
    ensures ReadFixed("0", nbDec) == Some(0)
  {
    assert "0" + [] + Zeros(nbDec) == Zeros(nbDec + 1) + [];
    DigitsValueZeros(nbDec + 1, []);
    assert DotIndex("0") == 1 && "0"[..1] == "0";
  }

  lemma {:induction false} AppendAssoc(a: string, b: string, c: string)
    ensures a + b + c == a + (b + c)
  {
  }

  /** A string is its trimmed part followed by zeros. */
  lemma {:induction false} TrimPad(s: string)
    ensures s == TrimZeros(s) + Zeros(|s| - |TrimZeros(s)|)
  {
    var r := TrimZeros(s);
    var e := r + Zeros(|s| - |r|);
    assert |e| == |s|;
    forall i | 0 <= i < |s|
      ensures s[i] == e[i]
    {
      if i < |r| {
        assert s[i] == s[..|r|][i];
      }
    }
  }

  /** Reading back an integer part and a fraction joined by '.'. */
  lemma {:induction false} JoinedRead(ip: string, frac: string, nbDec: nat)
    requires AllDigits(ip) && AllDigits(frac) && |frac| <= nbDec && ip + frac != []
    ensures ReadFixed(Joined(ip, frac), nbDec) == Some(DigitsValue(ip + frac + Zeros(nbDec - |frac|)))
  {
    var t := Joined(ip, frac);
    assert t[..|ip|] == ip;
    DotPrefix(t, ip);
    var f := if |ip| < |t| then t[|ip| + 1..] else [];
    if frac != [] {
      assert f == frac;
    } else {
      assert t == ip && f == [];
    }
    assert t[..DotIndex(t)] + f == ip + frac;
  }

  /** The first '.' of a string that starts with digits. */
  lemma {:induction false} DotPrefix(t: string, ip: string)
    requires |ip| <= |t| && t[..|ip|] == ip && AllDigits(ip)
    requires |ip| < |t| ==> t[|ip|] == '.'
    ensures DotIndex(t) == |ip|
  {
    if ip != [] {
      assert t[0] == ip[0];
      assert t[1..][..|ip| - 1] == ip[1..];
      DotPrefix(t[1..], ip[1..]);
    }
  }

  /** Past the nbDec-th digit, the digit loop writes the digits that are left. */
  lemma {:induction false} RevScaledWhole(v: nat, nbDec: nat, n: nat, started: bool)
    requires n >= nbDec
    ensures RevScaled(v, nbDec, n, started) == RevDigits(v)
    decreases v
  {
    if v != 0 {
      RevScaledWhole(v / 10, nbDec, n + 1, true);
    }
  }

  /** Once a digit is written, the loop writes every digit, with '.' after the first nbDec - n. */
  lemma {:induction false} RevScaledStarted(v: nat, nbDec: nat, n: nat)
    requires n < nbDec
    ensures RevScaled(v, nbDec, n, true) == Dotted(RevDigits(v), nbDec - n)
    decreases v
  {
    if v != 0 {
      var r, r' := RevDigits(v), RevDigits(v / 10);
      assert r == [DigitChar(v % 10)] + r';
      if n + 1 == nbDec {
        RevScaledWhole(v / 10, nbDec, n + 1, true);
        assert r[..1] == [DigitChar(v % 10)] && r[1..] == r';
      } else {
        RevScaledStarted(v / 10, nbDec, n + 1);
        var k := nbDec - n;
        if |r'| >= k - 1 {
          assert r[..k] == [DigitChar(v % 10)] + r'[..k - 1] && r[k..] == r'[k - 1..];
        }
      }
    }
  }

  /** The result of the digit loop before a digit is written, for v with digits r. */
  function Skipped(r: string, k: nat): string
  {
    var z := LeadZeros(r);
    if z >= k then r[k..] else Dotted(r[z..], k - z)
  }

  /**
   * Before a digit is written: the loop skips the z low zeros of v, and
   * writes the digits above the first nbDec - n when they all were zeros,
   * and otherwise every digit from the first nonzero one, dotted.
   */
  lemma {:induction false} RevScaledSkipping(v: nat, nbDec: nat, n: nat)
    requires n < nbDec
    ensures RevScaled(v, nbDec, n, false) == Skipped(RevDigits(v), nbDec - n)
    decreases v
  {
    if v != 0 {
      if v % 10 == 0 {
        if nbDec - n > 1 {
          RevScaledSkipping(v / 10, nbDec, n + 1);
        }
        SkipZero(v, nbDec, n);
      } else {
        assert RevScaled(v, nbDec, n, false) == RevScaled(v, nbDec, n, true);
        RevScaledStarted(v, nbDec, n);
        assert LeadZeros(RevDigits(v)) == 0 && RevDigits(v)[0..] == RevDigits(v);
      }
    }
  }

  /** A skipped low zero, given the loop's result on the digits above it. */
  lemma {:induction false} SkipZero(v: nat, nbDec: nat, n: nat)
    requires n < nbDec && v != 0 && v % 10 == 0
    requires n + 1 < nbDec ==> RevScaled(v / 10, nbDec, n + 1, false) == Skipped(RevDigits(v / 10), nbDec - n - 1)
    ensures RevScaled(v, nbDec, n, false) == Skipped(RevDigits(v), nbDec - n)
  {
    var r, r', k := RevDigits(v), RevDigits(v / 10), nbDec - n;
    assert r == [DigitChar(v % 10)] + r' && r[1..] == r';
    assert LeadZeros(r) == 1 + LeadZeros(r');
    if k == 1 {
      RevScaledWhole(v / 10, nbDec, n + 1, false);
    } else {
      var z' := LeadZeros(r');
      if z' < k - 1 {
        assert r[z' + 1..] == r'[z'..];
      } else {
        assert r[k..] == r'[k - 1..];
      }
    }
  }

  /** A slice of s read backwards is a slice of s backwards. */
  lemma {:induction false} ReverseSub(s: string, a: nat, b: nat)
    requires a <= b <= |s|
    ensures Reverse(s[a..b]) == Reverse(s)[|s| - b..|s| - a]
  {
    var t, rs := s[a..b], Reverse(s);
    var l, r := Reverse(t), rs[|s| - b..|s| - a];
    assert |l| == |r| == b - a;
    forall i | 0 <= i < b - a
      ensures l[i] == r[i]
    {
      assert l[i] == t[b - a - 1 - i] == s[b - 1 - i];
      assert r[i] == rs[|s| - b + i] == s[b - 1 - i];
    }
  }

  /** Trimming a string that ends in exactly z zeros. */
  lemma {:induction false} TrimExact(s: string, z: nat)
    requires z < |s| && s[|s| - 1 - z] != '0'
    requires forall i :: |s| - z <= i < |s| ==> s[i] == '0'
    ensures TrimZeros(s) == s[..|s| - z]
  {
    var r := TrimZeros(s);
    assert |s| - 1 - z < |r|;
    assert r != [] ==> r[|r| - 1] == s[|r| - 1];
  }

  /** Trimming a string of zeros. */
  lemma {:induction false} TrimAll(s: string)
    requires forall i :: 0 <= i < |s| ==> s[i] == '0'
    ensures TrimZeros(s) == []
  {
    if s != [] {
      TrimAll(s[..|s| - 1]);
    }
  }

  /**
   * What append_double writes for a positive scaled value, against the
   * intended text: the same when v has at least nbDec digits; otherwise the
   * digits of v without their trailing zeros and without '.', so that a
   * fraction below 10^-(nbDec - |digits|) reads as a whole number.
   */
  lemma {:induction false} ScaledMeaning(v: nat, nbDec: nat)
    requires v > 0
    ensures |NatToString(v)| >= nbDec ==> ScaledToString(v, nbDec) == FixedToString(v, nbDec)
    ensures |NatToString(v)| < nbDec ==> ScaledToString(v, nbDec) == TrimZeros(NatToString(v))
  {
    if nbDec == 0 {
      WholeMeaning(v);
    } else {
      FractionMeaning(v, nbDec);
    }
  }

  /** ScaledMeaning without decimals: the digits of v. */
  lemma {:induction false} WholeMeaning(v: nat)
    requires v > 0
    ensures ScaledToString(v, 0) == FixedToString(v, 0)
  {
    var d := NatToString(v);
    RevDigitsReversed(v);
    RevScaledWhole(v, 0, 0, false);
    assert d[..|d|] == d && d[|d|..] == [];
    assert FixedText(d, 0) == d;
  }

  /** ScaledMeaning with decimals, by where the trailing zeros of v fall. */
  lemma {:induction false} FractionMeaning(v: nat, nbDec: nat)
    requires v > 0 && nbDec > 0
    ensures |NatToString(v)| >= nbDec ==> ScaledToString(v, nbDec) == FixedToString(v, nbDec)
    ensures |NatToString(v)| < nbDec ==> ScaledToString(v, nbDec) == TrimZeros(NatToString(v))
  {
    var r, d := RevDigits(v), NatToString(v);
    RevDigitsReversed(v);
    assert |r| == |d| && d[0] != '0';
    RevScaledSkipping(v, nbDec, 0);
    assert r[|r| - 1] != '0' by {
      assert d[0] == r[|r| - 1];
    }
    var z := LeadZeros(r);
    DigitsTrail(r, d, z);
    if z >= nbDec {
      AllZerosFraction(r, d, z, nbDec);
    } else if |r| >= nbDec {
      DottedFraction(r, d, z, nbDec);
    } else {
      ShortFraction(r, d, z, nbDec);
    }
  }

  /** The digit loop on a value with fewer digits than decimals. */
  lemma {:induction false} ShortFraction(r: string, d: string, z: nat, nbDec: nat)
    requires d == Reverse(r) && z == LeadZeros(r) && z < |r| < nbDec
    requires (forall i :: |d| - z <= i < |d| ==> d[i] == '0') && d[|d| - 1 - z] != '0'
    ensures Reverse(Skipped(r, nbDec)) == TrimZeros(d)
  {
    ReverseSub(r, z, |r|);
    assert r[z..|r|] == r[z..];
    TrimExact(d, z);
  }

  /** The low zeros of r, the digits backwards, are the trailing zeros of d. */
  lemma {:induction false} DigitsTrail(r: string, d: string, z: nat)
    requires d == Reverse(r) && z == LeadZeros(r) && z < |r|
    ensures (forall i :: |d| - z <= i < |d| ==> d[i] == '0') && d[|d| - 1 - z] != '0'
  {
    forall i | |d| - z <= i < |d|
      ensures d[i] == '0'
    {
      assert d[i] == r[|r| - 1 - i];
    }
    assert d[|d| - 1 - z] == r[z];
  }

  /** The digit loop on a value whose last nbDec digits are all zero. */
  lemma {:induction false} AllZerosFraction(r: string, d: string, z: nat, nbDec: nat)
    requires d == Reverse(r) && z == LeadZeros(r) && nbDec <= z < |r|
    requires forall i :: |d| - z <= i < |d| ==> d[i] == '0'
    ensures Reverse(Skipped(r, nbDec)) == FixedText(d, nbDec)
  {
    ReverseSub(r, nbDec, |r|);
    assert r[nbDec..|r|] == r[nbDec..];
    TrimAll(d[|d| - nbDec..]);
  }

  /** The digit loop on a value with a nonzero digit among its last nbDec. */
  lemma {:induction false} DottedFraction(r: string, d: string, z: nat, nbDec: nat)
    requires d == Reverse(r) && z == LeadZeros(r) && z < nbDec <= |r|
    requires (forall i :: |d| - z <= i < |d| ==> d[i] == '0') && d[|d| - 1 - z] != '0'
    ensures Reverse(Skipped(r, nbDec)) == FixedText(d, nbDec)
  {
    SkippedReversed(r, z, nbDec);
    FixedTextDotted(d, z, nbDec);
  }

  /** The dotted digits from the first nonzero one, read backwards. */
  lemma {:induction false} SkippedReversed(r: string, z: nat, nbDec: nat)
    requires z == LeadZeros(r) && z < nbDec <= |r|
    ensures Reverse(Skipped(r, nbDec)) == Reverse(r)[..|r| - nbDec] + "." + Reverse(r)[|r| - nbDec..|r| - z]
  {
    var u, lo, hi := r[z..], r[z..nbDec], r[nbDec..|r|];
    assert u[..nbDec - z] == lo && u[nbDec - z..] == hi;
    assert Skipped(r, nbDec) == lo + "." + hi;
    ReverseDotted(lo, hi);
    ReverseSub(r, z, nbDec);
    ReverseSub(r, nbDec, |r|);
  }

  /** The intended text of digits ending in exactly z < nbDec zeros. */
  lemma {:induction false} FixedTextDotted(d: string, z: nat, nbDec: nat)
    requires z < nbDec <= |d|
    requires (forall i :: |d| - z <= i < |d| ==> d[i] == '0') && d[|d| - 1 - z] != '0'
    ensures FixedText(d, nbDec) == d[..|d| - nbDec] + "." + d[|d| - nbDec..|d| - z]
  {
    var tail := d[|d| - nbDec..];
    forall i | nbDec - z <= i < nbDec
      ensures tail[i] == '0'
    {
      assert tail[i] == d[|d| - nbDec + i];
    }
    assert tail[nbDec - 1 - z] == d[|d| - 1 - z];
    TrimExact(tail, z);
    var frac := tail[..nbDec - z];
    assert frac == d[|d| - nbDec..|d| - z] && frac != [];
    assert FixedText(d, nbDec) == Joined(d[..|d| - nbDec], frac);
  }

  lemma {:induction false} ReverseDotted(a: string, b: string)
    ensures Reverse(a + "." + b) == Reverse(b) + "." + Reverse(a)
  {
    ReverseAppend(a + ".", b);
    ReverseAppend(a, ".");
  }

  /** 0.05 with two decimals: the scaled value 5 is written "5", which reads as 5. */
  lemma {:induction false} ScaledLosesScale()
    ensures ScaledToString(5, 2) == "5" && ReadFixed(ScaledToString(5, 2), 2) == Some(500)
  {
    assert RevScaled(5, 2, 0, false) == "5";
    assert Reverse("5") == "5";
    assert DotIndex("5") == 1 && "5"[..1] == "5";
    assert Zeros(2) == "00" && "5" + [] + "00" == "500";
    assert DigitsValue("500") == 500 by {
      assert "500"[..2] == "50" && "50"[..1] == "5" && "5"[..0] == [];
    }
  }

  /** 0.5 with two decimals is written ".5" and 0.00001 with four is written as nothing. */
  lemma {:induction false} ScaledExamples()
    ensures ScaledToString(50, 2) == ".5" && ScaledToString(0, 4) == ""
  {
    assert RevScaled(50, 2, 0, false) == "5.";
    assert Reverse("5.") == ".5";
  }

  /** The intended texts of 0.05 with two decimals and of 0.00001 with four. */
  lemma {:induction false} FixedExamples()
    ensures FixedToString(5, 2) == ".05" && FixedToString(0, 4) == "0"
  {
    assert NatToString(5) == "5" && NatToString(0) == "0";
    assert Padded("5", 2) == "05" by {
      assert Zeros(1) == "0";
    }
    assert TrimZeros("05") == "05";
    assert Padded("0", 4) == "0000" by {
      assert Zeros(3) == "000";
    }
    TrimAll("0000");
  }

  /** C's conversion of a double to an integer: truncation toward zero. */
  function Truncated(x: real): (r: int)
    ensures x >= 0.0 ==> 0 <= r && r as real <= x < r as real + 1.0
    ensures x < 0.0 ==> r <= 0 && r as real - 1.0 < x <= r as real
  {
    if x >= 0.0 then x.Floor else -((-x).Floor)
  }

  const IntMin: int := -0x8000_0000
  const IntMax: int := 0x7fff_ffff

  /** The doubles whose truncation a 32-bit int can hold. */
  predicate FitsInt(x: real)
  {
    IntMin as real - 1.0 < x < IntMax as real + 1.0
  }

  /**
   * C's (int) cast of a double: truncation toward zero where the result
   * fits. C leaves any other value undefined; x86-64's conversion yields
   * INT_MIN, which is what is modelled.
   */
  function IntCast(x: real): (r: int)
    ensures IntMin <= r <= IntMax
    ensures FitsInt(x) && x >= 0.0 ==> r as real <= x < r as real + 1.0
    ensures FitsInt(x) && x < 0.0 ==> r as real - 1.0 < x <= r as real
    ensures !FitsInt(x) ==> r == IntMin
  {
    if FitsInt(x) then Truncated(x) else IntMin
  }

  /** A positive cast is the cast of a value that fits, so the cast of its negation is its negation. */
  lemma IntCastPositive(x: real)
    ensures IntCast(x) > 0 ==> FitsInt(x) && FitsInt(-x) && IntCast(-x) == -IntCast(x)
    ensures FitsInt(x) && FitsInt(-x) ==> IntCast(-x) == -IntCast(x)
  {
  }

  /** The scaled value of append_double as written: d * 10^nbDec + 0.5, truncated. */
  function ScaledAsWritten(d: real, nbDec: nat): int
  {
    Truncated(d * Pow10(nbDec) as real + 0.5)
  }

  /** The text append_double writes for d, as written in the source. */
  function DoubleText(d: real, nbDec: nat): string
  {
    if d == 0.0 then "0" else ScaledToString(ScaledAsWritten(d, nbDec), nbDec)
  }

  /** For d >= 0 the scaled value is d * 10^nbDec rounded to the nearest integer. */
  lemma ScaledAsWrittenNearest(d: real, nbDec: nat)
    requires d >= 0.0
    ensures var x := d * Pow10(nbDec) as real; var v := ScaledAsWritten(d, nbDec);
      v >= 0 && x - 0.5 < v as real <= x + 0.5
  {
    var x := d * Pow10(nbDec) as real;
    assert x >= 0.0;
  }

  /** -0.054 with two decimals: -5.4 + 0.5 truncates to -4, not to the nearest -5. */
  lemma {:induction false} NegativeRoundsUp()
    ensures ScaledAsWritten(-0.054, 2) == -4
  {
    assert Pow10(2) == 100;
    assert -0.054 * 100.0 + 0.5 == -4.9;
  }

  /** The intended scaled value: d * 10^nbDec rounded half away from zero. */
  function Rounded(d: real, nbDec: nat): int
  {
    var x := d * Pow10(nbDec) as real;
    if x < 0.0 then -Truncated(-x + 0.5) else Truncated(x + 0.5)
  }

  /** The rounded value is the nearest integer to d * 10^nbDec, halves going away from zero. */
  lemma RoundedNearest(d: real, nbDec: nat)
    ensures var x, v := d * Pow10(nbDec) as real, Rounded(d, nbDec);
      && x - 0.5 <= v as real <= x + 0.5
      && (x >= 0.0 ==> x - 0.5 < v as real) && (x < 0.0 ==> v as real < x + 0.5)
  {
  }

  lemma {:induction false} NegativeRoundsNearest()
    ensures Rounded(-0.054, 2) == -5
  {
    assert Pow10(2) == 100;
    assert -0.054 * 100.0 == -5.4;
  }

  /** The text append_double is meant to write for d: the rounded value with nbDec decimals. */
  function FixedDouble(d: real, nbDec: nat): string
  {
    FixedSigned(Rounded(d, nbDec), nbDec)
  }

  /** The intended text of a scaled value of either sign. */
  function FixedSigned(v: int, nbDec: nat): (s: string)
    ensures s != []
  {
    if v < 0 then "-" + FixedToString(-v, nbDec) else FixedToString(v, nbDec)
  }

  /** The intended text reads back as the scaled value, after its sign. */
  lemma {:induction false} FixedSignedRead(v: int, nbDec: nat)
    ensures var s := FixedSigned(v, nbDec);
      if v < 0 then s[0] == '-' && ReadFixed(s[1..], nbDec) == Some(-v)
      else ReadFixed(s, nbDec) == Some(v)
  {
    if v < 0 {
      FixedRoundTrip(-v, nbDec);
      assert FixedSigned(v, nbDec)[1..] == FixedToString(-v, nbDec);
    } else {
      FixedRoundTrip(v, nbDec);
    }
  }

  class StrBuilder {
    const capacity: nat
    var size: nat
    const buffer: array<char>

    /** The buffer holds capacity + 1 chars and the size is within the capacity. */
    ghost predicate Framed()
      reads this
    {
      buffer.Length == capacity + 1 && size <= capacity
    }

    ghost predicate Valid()
      reads this, buffer
    {
      Framed() && buffer[size] == '\0'
    }

    /** The chars appended since the last reset. */
    function Content(): string
      reads this, buffer
      requires Valid()
    {
      buffer[..size]
    }

    /** spx_str_builder_create, with an allocation that succeeds. */
    constructor (capacity0: nat)
      ensures Valid() && fresh(buffer)
      ensures capacity == capacity0 && Content() == []
    {
      capacity := capacity0;
      buffer := new char[capacity0 + 1](_ => '\0');
      size := 0;
    }

    /** spx_str_builder_reset. */
    method Reset()
      requires Valid()
      modifies this, buffer
      ensures Valid() && Content() == []
    {
      size := 0;
      buffer[0] := '\0';
    }

    /** spx_str_builder_remaining. */
    function Remaining(): (n: nat)
      reads this
      requires size <= capacity
      ensures size + n == capacity
    {
      capacity - size
    }

    /** spx_str_builder_append_char: one char, or nothing and 0 when full. */
    method AppendChar(c: char) returns (written: nat)
      requires Valid()
      modifies this, buffer
      ensures Valid()
      ensures old(size) == capacity ==> written == 0 && Content() == old(Content())
      ensures old(size) < capacity ==> written == 1 && Content() == old(Content()) + [c]
    {
      if size == capacity {
        return 0;
      }
      buffer[size] := c;
      size := size + 1;
      buffer[size] := '\0';
      written := 1;
    }

    /**
     * spx_str_builder_append_str: the whole C string and its length, or the
     * prefix that fits, a full builder and 0.
     */
    method AppendStr(str: string) returns (written: nat)
      requires Valid()
      modifies this, buffer
      ensures Valid()
      ensures var t := CStr(str);
        if |t| <= old(Remaining())
        then written == |t| && Content() == old(Content()) + t
        else written == 0 && size == capacity && Content() == old(Content()) + t[..old(Remaining())]
    {
      ghost var t := CStr(str);
      ghost var c0 := buffer[..size];
      var c := 0;
      while c < |str| && str[c] != '\0'
        invariant c <= |t| && t[..c] == str[..c]
        invariant size == old(size) + c && size <= capacity
        invariant buffer[..size] == c0 + t[..c]
        invariant forall k :: size < k < buffer.Length ==> buffer[k] == old(buffer[k])
      {
        if size == capacity {
          buffer[size] := '\0';
          assert buffer[..size] == c0 + t[..c];
          return 0;
        }
        assert c < |t|;
        buffer[size] := str[c];
        c := c + 1;
        size := size + 1;
        assert buffer[..size] == buffer[..size - 1] + [str[c - 1]];
      }
      assert c == |t|;
      buffer[size] := '\0';
      assert buffer[..size] == c0 + t[..c];
      written := c;
    }

    /**
     * spx_str_builder_append_long: the decimal form of l, all or nothing;
     * nothing is written, and 0 returned, when it does not fit.
     */
    method AppendLong(l: int) returns (written: nat)
      requires Valid()
      modifies this, buffer
      ensures Valid()
      ensures var s := IntToString(l);
        if |s| <= old(Remaining())
        then written == |s| && Content() == old(Content()) + s
        else written == 0 && Content() == old(Content())
    {
      if size == capacity {
        assert |IntToString(l)| >= 1;
        return 0;
      }
      if l == 0 {
        written := AppendChar('0');
        return;
      }
      var a: nat := if l < 0 then -l else l;
      written := AppendMagnitude(a, l < 0);
    }

    /** The digits of a != 0 after an optional '-', all or nothing. */
    method AppendMagnitude(a: nat, neg: bool) returns (written: nat)
      requires Valid() && size < capacity && a > 0
      modifies this, buffer
      ensures Valid()
      ensures var s := (if neg then "-" else "") + NatToString(a);
        if |s| <= old(Remaining())
        then written == |s| && Content() == old(Content()) + s
        else written == 0 && Content() == old(Content())
    {
      RevDigitsReversed(a);
      var c := WriteDigits(a);
      if c < 0 {
        return 0;
      }
      written := Finish(RevDigits(a), neg, c);
    }

    /**
     * The digit loop of append_long: the digits of a, least significant
     * first, after the content; -1 when they do not fit, with the content
     * unchanged.
     */
    method WriteDigits(a: nat) returns (c: int)
      requires Valid()
      modifies buffer
      ensures Framed() && buffer[..size] == old(buffer[..size])
      ensures c < 0 ==> buffer[size] == '\0'
      ensures c < 0 <==> |RevDigits(a)| > capacity - size
      ensures c >= 0 ==> c == |RevDigits(a)| && buffer[size..size + c] == RevDigits(a)
    {
      ghost var w: string := [];
      var v := a;
      c := 0;
      while v != 0
        invariant 0 <= c <= capacity - size && c == |w|
        invariant buffer[..size] == old(buffer[..size])
        invariant buffer[size..size + c] == w
        invariant w + RevDigits(v) == RevDigits(a)
        decreases v
      {
        if c + 1 > capacity - size {
          assert |RevDigits(v)| > 0;
          buffer[size] := '\0';
          return -1;
        }
        assert RevDigits(a) == w + [DigitChar(v % 10)] + RevDigits(v / 10);
        Store(size + c, DigitChar(v % 10), w);
        w := w + [DigitChar(v % 10)];
        c := c + 1;
        v := v / 10;
      }
      buffer[size + c] := '\0';
    }

    /** One char stored after the chars w already written past the content. */
    method Store(i: nat, ch: char, ghost w: string)
      requires Framed() && i == size + |w| && i < capacity && buffer[size..i] == w
      modifies buffer
      ensures buffer[..size] == old(buffer[..size]) && buffer[size..i + 1] == w + [ch]
    {
      buffer[i] := ch;
      assert buffer[size..i + 1] == buffer[size..i] + [ch];
    }

    /**
     * The tail of the number appends: the optional '-', the terminator, the
     * in-place reversal and the new size, or 0 with nothing appended when
     * the '-' does not fit.
     */
    method Finish(ghost r: string, neg: bool, c: nat) returns (written: nat)
      requires Framed() && size + c <= capacity && buffer[size..size + c] == r
      modifies this, buffer
      ensures Valid()
      ensures var s := (if neg then "-" else "") + Reverse(r);
        if |s| <= old(capacity - size)
        then written == |s| && buffer[..size] == old(buffer[..size]) + s
        else written == 0 && buffer[..size] == old(buffer[..size])
    {
      var n := c;
      ghost var tail: string := [];
      if neg {
        if n + 1 > capacity - size {
          buffer[size] := '\0';
          return 0;
        }
        Store(size + n, '-', r);
        n := n + 1;
        tail := "-";
      }
      ReverseAppend(r, tail);
      ghost var sign := if neg then "-" else "";
      assert Reverse(tail) == sign;
      written := Settle(n, r + tail);
    }

    /** The terminator after the n chars w past the content, their reversal and the new size. */
    method Settle(n: nat, ghost w: string) returns (written: nat)
      requires Framed() && size + n <= capacity && |w| == n && buffer[size..size + n] == w
      modifies this, buffer
      ensures Valid() && written == n && buffer[..size] == old(buffer[..size]) + Reverse(w)
    {
      ghost var pre := buffer[..size];
      buffer[size + n] := '\0';
      assert buffer[..size] == pre && buffer[size..size + n] == w;
      ReverseSlice(buffer, size, size + n, pre, w);
      size := size + n;
      written := n;
    }

    /**
     * spx_str_builder_append_double from the scaled and rounded value v on:
     * "0" when d is 0; otherwise the digits of v with '.' before the last
     * nbDec ones and fractional zeros dropped, all or nothing.
     */
    method AppendScaled(dIsZero: bool, v: int, nbDec: nat) returns (written: nat)
      requires Valid()
      modifies this, buffer
      ensures Valid()
      ensures old(size) == capacity ==> written == 0 && Content() == old(Content())
      ensures old(size) < capacity && dIsZero ==> written == 1 && Content() == old(Content()) + "0"
      ensures old(size) < capacity && !dIsZero ==>
        var s := ScaledToString(v, nbDec);
        if |s| <= old(Remaining())
        then written == |s| && Content() == old(Content()) + s
        else written == 0 && Content() == old(Content())
    {
      if size == capacity {
        return 0;
      }
      if dIsZero {
        written := AppendChar('0');
        return;
      }
      var a: nat := if v < 0 then -v else v;
      var neg := v < 0;
      if a == 0 {
        buffer[size] := '\0';
        return 0;
      }
      var c := WriteScaled(a, nbDec);
      if c < 0 {
        return 0;
      }
      written := Finish(RevScaled(a, nbDec, 0, false), neg, c);
    }

    /** spx_str_builder_append_double as written: DoubleText when it fits, else nothing. */
    method AppendDouble(d: real, nbDec: nat) returns (written: nat)
      requires Valid()
      modifies this, buffer
      ensures Valid()
      ensures var s := DoubleText(d, nbDec);
        if old(size) < capacity && |s| <= old(Remaining())
        then written == |s| && Content() == old(Content()) + s
        else written == 0 && Content() == old(Content())
    {
      written := AppendScaled(d == 0.0, ScaledAsWritten(d, nbDec), nbDec);
    }

    /** append_double as intended: FixedDouble when it fits, else nothing. */
    method AppendFixed(d: real, nbDec: nat) returns (written: nat)
      requires Valid()
      modifies this, buffer
      ensures Valid()
      ensures var s := FixedDouble(d, nbDec);
        if |s| <= old(Remaining())
        then written == |s| && Content() == old(Content()) + s
        else written == 0 && Content() == old(Content())
    {
      written := AppendAll(FixedDouble(d, nbDec));
    }

    /** The chars of s when they all fit, else nothing. */
    method AppendAll(s: string) returns (written: nat)
      requires Valid()
      modifies this, buffer
      ensures Valid()
      ensures |s| <= old(Remaining()) ==> written == |s| && Content() == old(Content()) + s
      ensures |s| > old(Remaining()) ==> written == 0 && Content() == old(Content())
    {
      if |s| > capacity - size {
        return 0;
      }
      ghost var pre := buffer[..size];
      var i := 0;
      while i < |s|
        invariant 0 <= i <= |s| && Framed() && size == old(size)
        invariant buffer[..size + i] == pre + s[..i]
      {
        buffer[size + i] := s[i];
        assert buffer[..size + i + 1] == buffer[..size + i] + [s[i]];
        assert s[..i + 1] == s[..i] + [s[i]];
        i := i + 1;
      }
      buffer[size + |s|] := '\0';
      assert buffer[..size + |s|] == pre + s;
      size := size + |s|;
      written := |s|;
    }

    /** The digit loop of append_double; -1 when the chars do not fit. */
    method WriteScaled(a: nat, nbDec: nat) returns (c: int)
      requires Valid() && size < capacity
      modifies buffer
      ensures Framed() && buffer[..size] == old(buffer[..size])
      ensures c < 0 ==> buffer[size] == '\0'
      ensures c < 0 <==> |RevScaled(a, nbDec, 0, false)| > capacity - size
      ensures c >= 0 ==> c == |RevScaled(a, nbDec, 0, false)| && buffer[size..size + c] == RevScaled(a, nbDec, 0, false)
    {
      ghost var total := RevScaled(a, nbDec, 0, false);
      ghost var w: string := [];
      var v := a;
      var n := 0;
      c := 0;
      while v != 0
        invariant 0 <= c <= capacity - size && c == |w|
        invariant buffer[..size] == old(buffer[..size])
        invariant buffer[size..size + c] == w
        invariant w + RevScaled(v, nbDec, n, c > 0) == total
        decreases v
      {
        ghost var e := ScaledEmit(v, nbDec, n, c > 0);
        ghost var next := RevScaled(v / 10, nbDec, n + 1, c > 0 || e != []);
        ScaledStep(v, nbDec, n, c > 0);
        assert total == w + e + next;
        var c2;
        v, n, c2, w := ScaledDigit(v, n, c, nbDec, w);
        if c2 < 0 {
          return -1;
        }
        assert c2 > 0 <==> c > 0 || e != [];
        c := c2;
        assert RevScaled(v, nbDec, n, c > 0) == next;
      }
      buffer[size + c] := '\0';
    }

    /**
     * One turn of the append_double digit loop: the digit of v, unless it
     * is a fractional zero before anything was written, and '.' after the
     * nbDec-th digit; -1 when a char does not fit.
     */
    method ScaledDigit(v: nat, n: nat, c: nat, nbDec: nat, ghost w: string)
      returns (v': nat, n': nat, c': int, ghost w': string)
      requires Framed() && size < capacity && v != 0
      requires c == |w| && size + c <= capacity && buffer[size..size + c] == w
      modifies buffer
      ensures buffer[..size] == old(buffer[..size])
      ensures c' < 0 ==> buffer[size] == '\0' && c + |ScaledEmit(v, nbDec, n, c > 0)| > capacity - size
      ensures c' >= 0 ==> v' == v / 10 && n' == n + 1 && w' == w + ScaledEmit(v, nbDec, n, c > 0)
      ensures c' >= 0 ==> c' == |w'| && size + c' <= capacity && buffer[size..size + c'] == w'
    {
      if c + 1 > capacity - size {
        buffer[size] := '\0';
        return v, n, -1, w;
      }
      n' := n + 1;
      var digit := DigitChar(v % 10);
      assert digit == '0' <==> v % 10 == 0;
      if digit == '0' && c == 0 && n' <= nbDec {
        return v / 10, n', c, w;
      }
      Store(size + c, digit, w);
      w' := w + [digit];
      c' := c + 1;
      v' := v / 10;
      if n' == nbDec {
        c', w' := PutDot(c', w');
        if c' < 0 {
          return;
        }
      }
    }

    /** The '.' of append_double after the c chars w; -1 when it does not fit. */
    method PutDot(c: nat, ghost w: string) returns (c': int, ghost w': string)
      requires Framed() && size < capacity && c == |w| && size + c <= capacity && buffer[size..size + c] == w
      modifies buffer
      ensures buffer[..size] == old(buffer[..size]) && w' == w + "."
      ensures c' < 0 ==> buffer[size] == '\0' && c + 1 > capacity - size
      ensures c' >= 0 ==> c' == c + 1 && size + c' <= capacity && buffer[size..size + c'] == w'
    {
      w' := w + ".";
      if c + 1 > capacity - size {
        buffer[size] := '\0';
        return -1, w';
      }
      Store(size + c, '.', w);
      c' := c + 1;
    }
  }

  /** The in-place reversal of a[lo..hi] that ends the number appends. */
  method ReverseSlice(a: array<char>, lo: nat, hi: nat, ghost pre: string, ghost s: string)
    requires lo <= hi <= a.Length && a[..lo] == pre && a[lo..hi] == s
    modifies a
    ensures a[..hi] == pre + Reverse(s)
    ensures forall k :: 0 <= k < a.Length && !(lo <= k < hi) ==> a[k] == old(a[k])
  {
    var i := 0;
    while i < (hi - lo) / 2
      invariant 0 <= i <= (hi - lo) / 2
      invariant forall k :: 0 <= k < a.Length && !(lo <= k < hi) ==> a[k] == old(a[k])
      invariant forall k :: lo <= k < hi ==>
        a[k] == if k < lo + i || hi - i <= k then s[hi - 1 - k] else s[k - lo]
    {
      Swap(a, lo + i, hi - 1 - i);
      i := i + 1;
    }
    assert a[..lo] == pre;
    ReversedLayout(a[..hi], pre, s);
  }

  /** The exchange of a[i] and a[j], written in the source with three XORs. */
  method Swap(a: array<char>, i: nat, j: nat)
    requires i < j < a.Length
    modifies a
    ensures a[i] == old(a[j]) && a[j] == old(a[i])
    ensures forall k :: 0 <= k < a.Length && k != i && k != j ==> a[k] == old(a[k])
  {
    a[i], a[j] := a[j], a[i];
  }

  /** A sequence laid out as pre followed by s read backwards. */
  lemma ReversedLayout(t: string, pre: string, s: string)
    requires |t| == |pre| + |s| && t[..|pre|] == pre
    requires forall k :: |pre| <= k < |t| ==> t[k] == s[|t| - 1 - k]
    ensures t == pre + Reverse(s)
  {
    var e := pre + Reverse(s);
    forall k | 0 <= k < |t|
      ensures t[k] == e[k]
    {
      if k >= |pre| {
        assert e[k] == Reverse(s)[k - |pre|];
      } else {
        assert t[k] == t[..|pre|][k];
      }
    }
  }
}
