/**
 * The string helpers of src/spx_utils.c and the tokenizer macro of
 * src/spx_utils.h. String arguments are C strings: only the chars before
 * their first NUL count.
 */
module SpxUtils {
  import opened CStrings

  // ---------------------------------------------------------------------
  // spx_utils_json_escape

  /**
   * A backslash before each '\\', and before each '"' when q; every other
   * char as it is. spx_utils_json_escape escapes both; the json_escape of
   * src/spx_reporter_gte.c only backslashes.
   */
  function EscapeChar(c: char, q: bool): (e: string)
    ensures 1 <= |e| <= 2 && e[|e| - 1] == c
    ensures |e| == 2 <==> c == '\\' || (q && c == '"')
  {
    if c == '\\' || (q && c == '"') then ['\\', c] else [c]
  }

  function Escaped(t: string, q: bool): string
  {
    if t == [] then [] else Escaped(t[..|t| - 1], q) + EscapeChar(t[|t| - 1], q)
  }

  /** The reading side: a backslash takes the next char literally. */
  function Unescape(s: string): string
    decreases |s|
  {
    if s == [] then []
    else if s[0] == '\\' && |s| >= 2 then [s[1]] + Unescape(s[2..])
    else [s[0]] + Unescape(s[1..])
  }

  /**
   * The number of chars of t the escape loop consumes, having consumed k
   * of them: it goes on while the output is shorter than stop.
   */
  function ConsumedFrom(t: string, k: nat, stop: nat, q: bool): (r: nat)
    requires k <= |t|
    ensures k <= r <= |t|
    ensures r == |t| || |Escaped(t[..r], q)| >= stop
    decreases |t| - k
  {
    if k == |t| || |Escaped(t[..k], q)| >= stop then k else ConsumedFrom(t, k + 1, stop, q)
  }

  /** What an escape loop bounded by limit writes before its NUL. */
  function EscapedPrefix(src: string, limit: nat, q: bool): string
  {
    if limit < 3 then []
    else
      var t := CStr(src);
      Escaped(t[..ConsumedFrom(t, 0, limit - 2, q)], q)
  }

  /** What spx_utils_json_escape writes before its NUL. */
  function JsonEscaped(src: string, limit: nat): string
  {
    EscapedPrefix(src, limit, true)
  }

  /**
   * spx_utils_json_escape into the buffer dst: the escaped prefix of src
   * and a NUL.
   */
  method JsonEscape(dst: array<char>, src: string, limit: nat)
    requires dst.Length >= limit && dst.Length >= 1
    modifies dst
    ensures var out := JsonEscaped(src, limit);
      |out| < dst.Length && dst[..|out|] == out && dst[|out|] == '\0'
  {
    EscapeInto(dst, src, limit, true);
  }

  /** The escape loop with its NUL, for either escape rule. */
  method EscapeInto(dst: array<char>, src: string, limit: nat, q: bool)
    requires dst.Length >= limit && dst.Length >= 1
    modifies dst
    ensures var out := EscapedPrefix(src, limit, q);
      |out| < dst.Length && dst[..|out|] == out && dst[|out|] == '\0'
  {
    if limit < 3 {
      dst[0] := '\0';
      return;
    }
    var i := EscapeChars(dst, src, limit - 2, q);
    dst[i] := '\0';
  }

  /** The copy loop: chars of src, escaped, while fewer than stop are written. */
  method EscapeChars(dst: array<char>, src: string, stop: nat, q: bool) returns (i: nat)
    requires dst.Length >= stop + 2
    modifies dst
    ensures var t := CStr(src);
      i < dst.Length && dst[..i] == Escaped(t[..ConsumedFrom(t, 0, stop, q)], q)
  {
    ghost var t := CStr(src);
    i := 0;
    var j := 0;
    while j < |src| && src[j] != '\0' && i < stop
      invariant j <= |t| && i <= stop + 1
      invariant i == |Escaped(t[..j], q)| && dst[..i] == Escaped(t[..j], q)
      invariant ConsumedFrom(t, j, stop, q) == ConsumedFrom(t, 0, stop, q)
    {
      assert j < |t| && src[j] == t[j];
      i := EscapeStep(dst, t, j, i, stop, src[j], q);
      j := j + 1;
    }
    if i < stop {
      CStrEnd(src, j);
    }
    ConsumedDone(t, j, stop, q);
  }

  /** A scan over src that stops at its end or at a NUL has reached the end of the C string. */
  lemma CStrEnd(src: string, j: nat)
    requires j <= |CStr(src)|
    requires j >= |src| || src[j] == '\0'
    ensures j == |CStr(src)|
  {
  }

  lemma ConsumedStep(t: string, j: nat, stop: nat, q: bool)
    requires j < |t| && |Escaped(t[..j], q)| < stop
    ensures ConsumedFrom(t, j, stop, q) == ConsumedFrom(t, j + 1, stop, q)
    ensures Escaped(t[..j + 1], q) == Escaped(t[..j], q) + EscapeChar(t[j], q)
  {
    assert t[..j + 1][..j] == t[..j];
  }

  lemma ConsumedDone(t: string, j: nat, stop: nat, q: bool)
    requires j <= |t| && (j == |t| || |Escaped(t[..j], q)| >= stop)
    ensures ConsumedFrom(t, j, stop, q) == j
  {
  }

  /** One char of the source, escaped into dst while fewer than stop chars are written. */
  method EscapeStep(dst: array<char>, ghost t: string, j: nat, i: nat, stop: nat, c: char, q: bool)
    returns (i': nat)
    requires j < |t| && c == t[j] && i < stop && i + 2 <= dst.Length
    requires i == |Escaped(t[..j], q)| && dst[..i] == Escaped(t[..j], q)
    modifies dst
    ensures i' <= i + 2 && i' <= stop + 1
    ensures i' == |Escaped(t[..j + 1], q)| && dst[..i'] == Escaped(t[..j + 1], q)
    ensures ConsumedFrom(t, j + 1, stop, q) == ConsumedFrom(t, j, stop, q)
  {
    ConsumedStep(t, j, stop, q);
    i' := PutEscaped(dst, i, c, q, Escaped(t[..j], q));
  }

  method PutEscaped(dst: array<char>, i: nat, c: char, q: bool, ghost w: string) returns (i': nat)
    requires i + 2 <= dst.Length && dst[..i] == w
    modifies dst
    ensures i' == i + |EscapeChar(c, q)| && dst[..i'] == w + EscapeChar(c, q)
  {
    i' := i;
    if c == '\\' || (q && c == '"') {
      dst[i'] := '\\';
      i' := i' + 1;
    }
    dst[i'] := c;
    i' := i' + 1;
    assert dst[..i'] == w + EscapeChar(c, q);
  }

  lemma {:induction false} EscapedLength(t: string, k: nat, q: bool)
    requires k <= |t|
    ensures |Escaped(t[..k], q)| <= 2 * k
    ensures k > 0 ==> |Escaped(t[..k], q)| <= |Escaped(t[..k - 1], q)| + 2
  {
    if k > 0 {
      assert t[..k][..k - 1] == t[..k - 1];
      EscapedLength(t, k - 1, q);
    }
  }

  /**
   * The escape loop writes at most limit - 1 chars before its NUL, and
   * stops only when src is consumed or fewer than 2 places are left; so a
   * doubled backslash is never split.
   */
  lemma {:induction false} EscapedPrefixBound(src: string, limit: nat, q: bool)
    ensures limit >= 3 ==> |EscapedPrefix(src, limit, q)| <= limit - 1
    ensures limit >= 3 ==> var t := CStr(src); var k := ConsumedFrom(t, 0, limit - 2, q);
      k == |t| || |EscapedPrefix(src, limit, q)| >= limit - 2
  {
    if limit >= 3 {
      var t := CStr(src);
      var k := ConsumedFrom(t, 0, limit - 2, q);
      assert EscapedPrefix(src, limit, q) == Escaped(t[..k], q);
      ConsumedBound(t, 0, limit - 2, q);
    }
  }

  lemma {:induction false} ConsumedBound(t: string, k: nat, stop: nat, q: bool)
    requires k <= |t| && (k == 0 || |Escaped(t[..k - 1], q)| < stop)
    ensures |Escaped(t[..ConsumedFrom(t, k, stop, q)], q)| <= stop + 1
    decreases |t| - k
  {
    if k == |t| || |Escaped(t[..k], q)| >= stop {
      EscapedLength(t, k, q);
    } else {
      assert t[..k + 1][..k] == t[..k];
      ConsumedBound(t, k + 1, stop, q);
    }
  }

  lemma {:induction false} EscapedAppend(a: string, b: string, q: bool)
    ensures Escaped(a + b, q) == Escaped(a, q) + Escaped(b, q)
    decreases |b|
  {
    if b != [] {
      var b' := b[..|b| - 1];
      assert (a + b)[..|a + b| - 1] == a + b';
      EscapedAppend(a, b', q);
    } else {
      assert a + b == a;
    }
  }

  lemma {:induction false} UnescapeEscaped(t: string, q: bool)
    ensures Unescape(Escaped(t, q)) == t
    decreases |t|
  {
    if t != [] {
      EscapedAppend([t[0]], t[1..], q);
      assert [t[0]] + t[1..] == t;
      assert Escaped([t[0]], q) == EscapeChar(t[0], q) by {
        assert [t[0]][..0] == [];
      }
      UnescapeEscaped(t[1..], q);
      var e := EscapeChar(t[0], q);
      var rest := Escaped(t[1..], q);
      if |e| == 2 {
        assert (e + rest)[2..] == rest;
      } else {
        assert (e + rest)[1..] == rest;
      }
    }
  }

  /**
   * Unescaping what the escape loop writes gives back the consumed prefix
   * of src, and src itself when all of it was consumed.
   */
  lemma EscapedPrefixRoundTrip(src: string, limit: nat, q: bool)
    requires limit >= 3
    ensures var t := CStr(src); var k := ConsumedFrom(t, 0, limit - 2, q);
      Unescape(EscapedPrefix(src, limit, q)) == t[..k]
      && (k == |t| ==> Unescape(EscapedPrefix(src, limit, q)) == t)
  {
    var t := CStr(src);
    UnescapeEscaped(t[..ConsumedFrom(t, 0, limit - 2, q)], q);
  }

  /** Without a '"' in src the two escape rules agree. */
  lemma {:induction false} EscapedWithoutQuotes(t: string)
    requires '"' !in t
    ensures Escaped(t, false) == Escaped(t, true)
  {
    if t != [] {
      EscapedWithoutQuotes(t[..|t| - 1]);
    }
  }

  // ---------------------------------------------------------------------
  // spx_utils_str_starts_with, spx_utils_str_ends_with

  /** strncmp over strlen(prefix) chars: prefix equals the start of str. */
  function StartsWith(str: string, prefix: string): bool
  {
    var s, p := CStr(str), CStr(prefix);
    |p| <= |s| && s[..|p|] == p
  }

  /** False when str is shorter than the suffix, else its tail against the suffix. */
  function EndsWith(str: string, suffix: string): bool
  {
    var s, x := CStr(str), CStr(suffix);
    if |s| < |x| then false else s[|s| - |x|..] == x
  }

  /** The empty prefix and the empty suffix always match; a string starts and ends with itself. */
  lemma EmptyAffixes(str: string)
    ensures StartsWith(str, "") && EndsWith(str, "")
    ensures StartsWith(str, str) && EndsWith(str, str)
  {
  }

  /** ends_with is starts_with on the reversed strings. */
  lemma EndsWithReversed(str: string, suffix: string)
    ensures EndsWith(str, suffix) <==> StartsWith(Reverse(CStr(str)), Reverse(CStr(suffix)))
  {
    var s, x := CStr(str), CStr(suffix);
    CStrOfPlain(Reverse(s));
    CStrOfPlain(Reverse(x));
    if |x| <= |s| {
      SuffixReversed(s, x);
    }
  }

  /** The tail of s is x exactly when the head of s reversed is x reversed. */
  lemma SuffixReversed(s: string, x: string)
    requires |x| <= |s|
    ensures s[|s| - |x|..] == x <==> Reverse(s)[..|x|] == Reverse(x)
  {
    var t := s[|s| - |x|..];
    var h := Reverse(s)[..|x|];
    assert h == Reverse(t) by {
      forall k | 0 <= k < |x|
        ensures h[k] == Reverse(t)[k]
      {
        assert h[k] == s[|s| - 1 - k] == t[|x| - 1 - k];
      }
    }
    if h == Reverse(x) {
      ReverseReverse(t);
      ReverseReverse(x);
    }
  }

  /** A string starts with its prefixes and ends with its suffixes. */
  lemma AffixesOfConcat(a: string, b: string)
    requires '\0' !in a && '\0' !in b
    ensures StartsWith(a + b, a) && EndsWith(a + b, b)
  {
    CStrOfPlain(a);
    CStrOfPlain(b);
    CStrOfPlain(a + b);
    assert (a + b)[..|a|] == a;
    assert (a + b)[|a + b| - |b|..] == b;
  }

  // ---------------------------------------------------------------------
  // SPX_UTILS_TOKENIZE_STRING

  /** The delimiter-separated segments of s, empty ones included. */
  function Split(s: string, d: char): (r: seq<string>)
    ensures |r| >= 1
  {
    if s == [] then [[]]
    else
      var r := Split(s[..|s| - 1], d);
      if s[|s| - 1] == d then r + [[]] else r[..|r| - 1] + [r[|r| - 1] + [s[|s| - 1]]]
  }

  function Count(s: string, d: char): nat
  {
    if s == [] then 0 else Count(s[..|s| - 1], d) + (if s[|s| - 1] == d then 1 else 0)
  }

  /** The delimiters of two strings put together are those of both. */
  lemma {:induction false} CountAppend(a: string, b: string, d: char)
    ensures Count(a + b, d) == Count(a, d) + Count(b, d)
    decreases |b|
  {
    if b == [] {
      assert a + b == a;
    } else {
      assert (a + b)[..|a + b| - 1] == a + b[..|b| - 1];
      CountAppend(a, b[..|b| - 1], d);
    }
  }

  /** A string holds no delimiter exactly when it counts none. */
  lemma {:induction false} CountAbsent(s: string, d: char)
    ensures d !in s <==> Count(s, d) == 0
  {
    if s != [] {
      var p := s[..|s| - 1];
      assert s == p + [s[|s| - 1]];
      CountAbsent(p, d);
    }
  }

  /** The chars of a prefix are chars of the whole. */
  lemma PrefixAbsent(s: string, t: string, d: char)
    requires d !in s && t <= s
    ensures d !in t
  {
    assert forall k :: 0 <= k < |t| ==> t[k] == s[k];
  }

  /** The segments put back together with the delimiter between them. */
  function Join(parts: seq<string>, d: char): string
    requires |parts| >= 1
  {
    if |parts| == 1 then parts[0] else Join(parts[..|parts| - 1], d) + [d] + parts[|parts| - 1]
  }

  function Truncate(t: string, n: nat): (r: string)
    ensures |r| <= n && r <= t
    ensures |t| <= n ==> r == t
  {
    if |t| <= n then t else t[..n]
  }

  /** Each segment cut to n chars, as the token buffer holds it. */
  function Tokens(parts: seq<string>, n: nat): (r: seq<string>)
    ensures |r| == |parts|
  {
    if parts == [] then [] else Tokens(parts[..|parts| - 1], n) + [Truncate(parts[|parts| - 1], n)]
  }

  /** Token k is segment k cut to n chars. */
  lemma {:induction false} TokensAt(parts: seq<string>, n: nat)
    ensures forall k :: 0 <= k < |parts| ==> Tokens(parts, n)[k] == Truncate(parts[k], n)
  {
    if parts != [] {
      TokensAt(parts[..|parts| - 1], n);
    }
  }

  /**
   * The macro, whose block sees one token per segment: the tokens it hands
   * its block, in order. size is the length of the token buffer.
   */
  method Tokenize(str: string, delim: char, size: nat) returns (tokens: seq<string>)
    requires size >= 1
    ensures tokens == Tokens(Split(CStr(str), delim), size - 1)
  {
    tokens := ScanTokens(CStr(str), delim, size);
  }

  /** The macro's loop over the chars of s, which ends at the string's end. */
  method ScanTokens(s: string, delim: char, size: nat) returns (tokens: seq<string>)
    requires size >= 1
    ensures tokens == Tokens(Split(s, delim), size - 1)
  {
    var token := new char[size](_ => '\0');
    var i: nat := 0;
    var j := 0;
    ghost var completed: seq<string> := [];
    ghost var cur: string := [];
    tokens := [];
    while true
      invariant j <= |s|
      invariant Split(s[..j], delim) == completed + [cur]
      invariant tokens == Tokens(completed, size - 1)
      invariant token.Length == size && Holds(token, i, cur)
      decreases |s| - j
    {
      if j == |s| {
        ScanDone(s, delim, completed, cur, size - 1);
        tokens := tokens + [token[..i]];
        return;
      }
      i, completed, cur, tokens := ScanStep(s, j, delim, token, i, completed, cur, tokens);
      j := j + 1;
    }
  }

  /**
   * One char of the string: at a delimiter the token is handed on and the
   * buffer restarts; any other char is kept while the buffer has room.
   */
  method ScanStep(s: string, j: nat, delim: char, token: array<char>, i: nat,
                  ghost completed: seq<string>, ghost cur: string, tokens: seq<string>)
    returns (i': nat, ghost completed': seq<string>, ghost cur': string, tokens': seq<string>)
    requires j < |s| && Split(s[..j], delim) == completed + [cur]
    requires Holds(token, i, cur) && tokens == Tokens(completed, token.Length - 1)
    modifies token
    ensures Split(s[..j + 1], delim) == completed' + [cur']
    ensures Holds(token, i', cur') && tokens' == Tokens(completed', token.Length - 1)
  {
    if s[j] == delim {
      TokensStep(completed, cur, token.Length - 1);
      tokens' := tokens + [token[..i]];
      SplitAtDelim(s, j, delim, completed, cur);
      completed', cur' := completed + [cur], [];
      i' := 0;
    } else {
      SplitAtChar(s, j, delim, completed, cur);
      i' := PutTokenChar(token, i, s[j], cur);
      completed', cur', tokens' := completed, cur + [s[j]], tokens;
    }
  }

  /** The first i chars of the token buffer are the segment so far, cut to fit. */
  ghost predicate Holds(token: array<char>, i: nat, cur: string)
    reads token
  {
    token.Length >= 1 && i == |Truncate(cur, token.Length - 1)| && token[..i] == Truncate(cur, token.Length - 1)
  }

  /** The token buffer takes one more char of the segment while it has room. */
  method PutTokenChar(token: array<char>, i: nat, c: char, ghost cur: string) returns (i': nat)
    requires Holds(token, i, cur)
    modifies token
    ensures Holds(token, i', cur + [c])
  {
    if i < token.Length - 1 {
      token[i] := c;
      i' := i + 1;
      assert token[..i'] == token[..i] + [c];
    } else {
      i' := i;
    }
  }

  lemma ScanDone(s: string, d: char, completed: seq<string>, cur: string, n: nat)
    requires Split(s[..|s|], d) == completed + [cur]
    ensures Tokens(Split(s, d), n) == Tokens(completed, n) + [Truncate(cur, n)]
  {
    assert s[..|s|] == s;
    TokensStep(completed, cur, n);
  }

  lemma TokensStep(completed: seq<string>, cur: string, n: nat)
    ensures Tokens(completed + [cur], n) == Tokens(completed, n) + [Truncate(cur, n)]
  {
    assert (completed + [cur])[..|completed|] == completed;
  }

  lemma SplitAtDelim(s: string, j: nat, d: char, completed: seq<string>, cur: string)
    requires j < |s| && s[j] == d && Split(s[..j], d) == completed + [cur]
    ensures Split(s[..j + 1], d) == completed + [cur] + [[]]
  {
    assert s[..j + 1][..j] == s[..j];
  }

  lemma SplitAtChar(s: string, j: nat, d: char, completed: seq<string>, cur: string)
    requires j < |s| && s[j] != d && Split(s[..j], d) == completed + [cur]
    ensures Split(s[..j + 1], d) == completed + [cur + [s[j]]]
  {
    assert s[..j + 1][..j] == s[..j];
    var r := completed + [cur];
    assert r[..|r| - 1] == completed;
  }

  /** The block runs count(delim) + 1 times. */
  lemma {:induction false} SplitCount(s: string, d: char)
    ensures |Split(s, d)| == Count(s, d) + 1
  {
    if s != [] {
      SplitCount(s[..|s| - 1], d);
    }
  }

  /** Joining the segments with the delimiter gives the string back. */
  lemma {:induction false} SplitJoin(s: string, d: char)
    ensures Join(Split(s, d), d) == s
  {
    if s != [] {
      var p, c := s[..|s| - 1], s[|s| - 1];
      var r := Split(p, d);
      SplitJoin(p, d);
      assert s == p + [c];
      if c == d {
        var q := r + [[]];
        assert Split(s, d) == q;
        assert q[..|q| - 1] == r;
        assert Join(q, d) == Join(r, d) + [d] + [];
      } else {
        assert Split(s, d) == r[..|r| - 1] + [r[|r| - 1] + [c]];
        JoinLast(r, d, [c]);
      }
    }
  }

  /** The segments with chars y added to the last one. */
  function Extended(r: seq<string>, y: string): seq<string>
    requires |r| >= 1
  {
    r[..|r| - 1] + [r[|r| - 1] + y]
  }

  /** One char other than the delimiter extends the last segment. */
  lemma SplitChar(s: string, c: char, d: char)
    requires c != d
    ensures Split(s + [c], d) == Extended(Split(s, d), [c])
  {
    assert (s + [c])[..|s|] == s;
  }

  /** Chars other than the delimiter extend the last segment. */
  lemma {:induction false} SplitPlain(s: string, y: string, d: char)
    requires d !in y
    ensures Split(s + y, d) == Extended(Split(s, d), y)
    decreases |y|
  {
    var r := Split(s, d);
    if y == [] {
      assert s + y == s && r[|r| - 1] + y == r[|r| - 1];
      assert r[..|r| - 1] + [r[|r| - 1]] == r;
    } else {
      var y', c := y[..|y| - 1], y[|y| - 1];
      assert y == y' + [c];
      SplitPlain(s, y', d);
      assert s + y == (s + y') + [c];
      SplitChar(s + y', c, d);
      var q := Extended(r, y');
      assert q[..|q| - 1] == r[..|r| - 1] && q[|q| - 1] == r[|r| - 1] + y';
      assert (r[|r| - 1] + y') + [c] == r[|r| - 1] + y;
    }
  }

  /** A delimiter starts an empty segment. */
  lemma SplitDelim(s: string, d: char)
    ensures Split(s + [d], d) == Split(s, d) + [[]]
  {
    assert (s + [d])[..|s|] == s;
  }

  /** Splitting the join of segments without the delimiter gives them back. */
  lemma {:induction false} JoinSplit(parts: seq<string>, d: char)
    requires |parts| >= 1 && forall k :: 0 <= k < |parts| ==> d !in parts[k]
    ensures Split(Join(parts, d), d) == parts
  {
    if |parts| == 1 {
      SplitPlain([], parts[0], d);
      assert [] + parts[0] == parts[0] && Extended([[]], parts[0]) == [parts[0]];
    } else {
      var init, last := parts[..|parts| - 1], parts[|parts| - 1];
      JoinSplit(init, d);
      var j := Join(init, d);
      assert Join(parts, d) == (j + [d]) + last;
      SplitDelim(j, d);
      SplitPlain(j + [d], last, d);
      var q := Split(j + [d], d);
      assert q == init + [[]];
      assert q[..|q| - 1] == init && q[|q| - 1] == [];
      assert [] + last == last;
      assert Extended(q, last) == init + [last];
      assert init + [last] == parts;
    }
  }

  /** Appending chars to the last part appends them to the join. */
  lemma JoinLast(parts: seq<string>, d: char, x: string)
    requires |parts| >= 1
    ensures Join(parts[..|parts| - 1] + [parts[|parts| - 1] + x], d) == Join(parts, d) + x
  {
    var q := parts[..|parts| - 1] + [parts[|parts| - 1] + x];
    assert q[..|q| - 1] == parts[..|parts| - 1];
  }

  /** No segment holds the delimiter. */
  lemma {:induction false} SplitSegments(s: string, d: char)
    ensures forall k :: 0 <= k < |Split(s, d)| ==> d !in Split(s, d)[k]
  {
    if s != [] {
      SplitSegments(s[..|s| - 1], d);
    }
  }

  /** Every segment is at most as long as the string. */
  lemma {:induction false} SplitSegmentLength(s: string, d: char)
    ensures forall k :: 0 <= k < |Split(s, d)| ==> |Split(s, d)[k]| <= |s|
  {
    if s != [] {
      SplitSegmentLength(s[..|s| - 1], d);
    }
  }

  /**
   * When no segment was truncated, joining the tokens with the delimiter
   * reconstructs the input.
   */
  lemma TokensRebuild(str: string, delim: char, size: nat)
    requires size >= 1
    requires forall k :: 0 <= k < |Split(CStr(str), delim)| ==> |Split(CStr(str), delim)[k]| < size
    ensures Join(Tokens(Split(CStr(str), delim), size - 1), delim) == CStr(str)
  {
    var parts := Split(CStr(str), delim);
    TokensAt(parts, size - 1);
    assert Tokens(parts, size - 1) == parts;
    SplitJoin(CStr(str), delim);
  }
}
