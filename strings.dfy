/**
 * The JavaScript string primitives the library relies on, restricted to the
 * cases it uses: `split` and `join` with a one-character separator,
 * `includes`, `indexOf`, `trim`, and the decimal rendering of integers.
 */
module Strings {

  /** `String.prototype.split(sep)` with a one-character separator. */
  function Split(s: string, sep: char): (parts: seq<string>)
    ensures |parts| >= 1
    ensures forall i :: 0 <= i < |parts| ==> sep !in parts[i]
    decreases |s|
  {
    if s == [] then [""]
    else
      var rest := Split(s[1..], sep);
      if s[0] == sep then [""] + rest
      else [[s[0]] + rest[0]] + rest[1..]
  }

  /** `Array.prototype.join(sep)`: the empty list joins to the empty string. */
  function Join(parts: seq<string>, sep: char): string
  {
    if |parts| == 0 then ""
    else if |parts| == 1 then parts[0]
    else parts[0] + [sep] + Join(parts[1..], sep)
  }

  /** Every separator-free word list is a valid `split` result. */
  predicate NoneContains(parts: seq<string>, sep: char)
  {
    forall i :: 0 <= i < |parts| ==> sep !in parts[i]
  }

  /** Joining the pieces of a split gives back the string. */
  lemma {:induction false} JoinSplit(s: string, sep: char)
    ensures Join(Split(s, sep), sep) == s
    decreases |s|
  {
    if s != [] {
      var rest := Split(s[1..], sep);
      JoinSplit(s[1..], sep);
      if s[0] == sep {
        assert ([""] + rest)[1..] == rest;
        assert s == [sep] + s[1..];
      } else if |rest| == 1 {
        assert s == [s[0]] + s[1..];
      } else {
        var parts := [[s[0]] + rest[0]] + rest[1..];
        assert parts[1..] == rest[1..];
        assert Join(rest, sep) == rest[0] + [sep] + Join(rest[1..], sep);
        assert s == [s[0]] + s[1..];
      }
    }
  }

  /** A string without the separator splits into itself alone. */
  lemma {:induction false} SplitNoSeparator(s: string, sep: char)
    requires sep !in s
    ensures Split(s, sep) == [s]
    decreases |s|
  {
    if s != [] {
      SplitNoSeparator(s[1..], sep);
      assert s == [s[0]] + s[1..];
    }
  }

  /** Splitting at a separator distributes over the two sides. */
  lemma {:induction false} SplitAtSeparator(a: string, b: string, sep: char)
    ensures Split(a + [sep] + b, sep) == Split(a, sep) + Split(b, sep)
    decreases |a|
  {
    if a == [] {
      assert a + [sep] + b == [sep] + b;
      SplitCons(sep, b, sep);
    } else {
      var c, a' := a[0], a[1..];
      assert a == [c] + a';
      assert a + [sep] + b == [c] + (a' + [sep] + b);
      SplitCons(c, a', sep);
      SplitCons(c, a' + [sep] + b, sep);
      SplitAtSeparator(a', b, sep);
      SplitConsPieces(c, Split(a', sep), Split(b, sep));
    }
  }

  /** The pieces of `SplitCons` before and after appending more pieces. */
  lemma SplitConsPieces(c: char, ra: seq<string>, rb: seq<string>)
    requires |ra| >= 1
    ensures [""] + (ra + rb) == ([""] + ra) + rb
    ensures [[c] + (ra + rb)[0]] + (ra + rb)[1..] == ([[c] + ra[0]] + ra[1..]) + rb
  {
    assert (ra + rb)[1..] == ra[1..] + rb;
  }

  /** One step of `Split`, stated on a string built by prepending `c`. */
  lemma SplitCons(c: char, t: string, sep: char)
    ensures var rt := Split(t, sep);
      Split([c] + t, sep) == if c == sep then [""] + rt else [[c] + rt[0]] + rt[1..]
  {
    assert ([c] + t)[0] == c;
    assert ([c] + t)[1..] == t;
  }

  /**
   * Splitting a concatenation: the pieces of `a` up to its last one, then the
   * pieces of that last (unterminated) piece continued by `b`.
   */
  lemma {:induction false} SplitAppend(a: string, b: string, sep: char)
    ensures var pa := Split(a, sep);
      Split(a + b, sep) == pa[..|pa| - 1] + Split(pa[|pa| - 1] + b, sep)
    decreases |a|
  {
    if a == [] {
      assert a + b == b;
    } else {
      SplitAppend(a[1..], b, sep);
      if a[0] == sep {
        SplitAppendSeparator(a, b, sep);
      } else {
        SplitAppendWord(a, b, sep);
      }
    }
  }

  /** The step of `SplitAppend` for a string that starts with the separator. */
  lemma SplitAppendSeparator(a: string, b: string, sep: char)
    requires a != [] && a[0] == sep
    requires var pa := Split(a[1..], sep);
      Split(a[1..] + b, sep) == pa[..|pa| - 1] + Split(pa[|pa| - 1] + b, sep)
    ensures var pa := Split(a, sep);
      Split(a + b, sep) == pa[..|pa| - 1] + Split(pa[|pa| - 1] + b, sep)
  {
    var c, a' := a[0], a[1..];
    assert a == [c] + a';
    assert a + b == [c] + (a' + b);
    SplitCons(c, a', sep);
    SplitCons(c, a' + b, sep);
    var ra := Split(a', sep);
    var tail := Split(ra[|ra| - 1] + b, sep);
    SplitAppendSeparatorStep(ra, tail);
  }

  /** The step of `SplitAppend` for a string that starts with another character. */
  lemma SplitAppendWord(a: string, b: string, sep: char)
    requires a != [] && a[0] != sep
    requires var pa := Split(a[1..], sep);
      Split(a[1..] + b, sep) == pa[..|pa| - 1] + Split(pa[|pa| - 1] + b, sep)
    ensures var pa := Split(a, sep);
      Split(a + b, sep) == pa[..|pa| - 1] + Split(pa[|pa| - 1] + b, sep)
  {
    var c, a' := a[0], a[1..];
    assert a == [c] + a';
    assert a + b == [c] + (a' + b);
    SplitCons(c, a', sep);
    SplitCons(c, a' + b, sep);
    var ra := Split(a', sep);
    var last := ra[|ra| - 1];
    var pa := Split(a, sep);
    WordLastPiece(c, ra, pa);
    if |ra| == 1 {
      assert pa[|pa| - 1] + b == [c] + (last + b);
      SplitCons(c, last + b, sep);
    }
    WordPieces(c, ra, Split(last + b, sep), Split(a' + b, sep), Split(a + b, sep), pa,
      Split(pa[|pa| - 1] + b, sep));
  }

  /** The last piece of a split that starts with a word character. */
  lemma WordLastPiece(c: char, ra: seq<string>, pa: seq<string>)
    requires |ra| >= 1 && pa == [[c] + ra[0]] + ra[1..]
    ensures pa[|pa| - 1] == if |ra| == 1 then [c] + ra[0] else ra[|ra| - 1]
  {
  }

  /** The pieces of the step of `SplitAppend` for a word character `c`, by cases
      on whether the rest of the string holds a separator. */
  lemma WordPieces(c: char, ra: seq<string>, tail: seq<string>, rs: seq<string>, whole: seq<string>,
                   pa: seq<string>, lastSplit: seq<string>)
    requires |ra| >= 1 && |tail| >= 1
    requires rs == ra[..|ra| - 1] + tail
    requires whole == [[c] + rs[0]] + rs[1..]
    requires pa == [[c] + ra[0]] + ra[1..]
    requires lastSplit == if |ra| == 1 then [[c] + tail[0]] + tail[1..] else tail
    ensures whole == pa[..|pa| - 1] + lastSplit
  {
    if |ra| >= 2 {
      SplitAppendWordStep(c, ra, tail);
    }
  }

  lemma SplitAppendSeparatorStep(ra: seq<string>, tail: seq<string>)
    requires |ra| >= 1
    ensures var pa := [""] + ra;
      [""] + (ra[..|ra| - 1] + tail) == pa[..|pa| - 1] + tail && pa[|pa| - 1] == ra[|ra| - 1]
  {
  }

  lemma SplitAppendWordStep(c: char, ra: seq<string>, tail: seq<string>)
    requires |ra| >= 2
    ensures var rs := ra[..|ra| - 1] + tail; var pa := [[c] + ra[0]] + ra[1..];
      [[c] + rs[0]] + rs[1..] == pa[..|pa| - 1] + tail && pa[|pa| - 1] == ra[|ra| - 1]
  {
    var rs := ra[..|ra| - 1] + tail;
    assert rs[0] == ra[0];
    assert rs[1..] == ra[1..|ra| - 1] + tail;
  }

  /** Splitting a join of separator-free words gives back the words. */
  lemma {:induction false} SplitJoin(parts: seq<string>, sep: char)
    requires |parts| >= 1
    requires NoneContains(parts, sep)
    ensures Split(Join(parts, sep), sep) == parts
    decreases |parts|
  {
    if |parts| == 1 {
      SplitNoSeparator(parts[0], sep);
    } else {
      SplitNoSeparator(parts[0], sep);
      SplitJoin(parts[1..], sep);
      SplitAtSeparator(parts[0], Join(parts[1..], sep), sep);
      assert [parts[0]] + parts[1..] == parts;
    }
  }

  /** Joining two non-empty lists puts one separator between their joins. */
  lemma {:induction false} JoinAppend(a: seq<string>, b: seq<string>, sep: char)
    requires |a| >= 1 && |b| >= 1
    ensures Join(a + b, sep) == Join(a, sep) + [sep] + Join(b, sep)
    decreases |a|
  {
    if |a| > 1 {
      JoinAppend(a[1..], b, sep);
      assert (a + b)[1..] == a[1..] + b;
    }
  }

  /** `s.includes(pat)`. */
  predicate Contains(s: string, pat: string)
  {
    exists i :: 0 <= i <= |s| && OccursAt(s, pat, i)
  }

  /** `pat` occurs in `s` starting at index `i`. */
  predicate OccursAt(s: string, pat: string, i: nat)
  {
    i + |pat| <= |s| && s[i..i + |pat|] == pat
  }

  /** `s.indexOf(c)`, with "absent" reported as `|s|` rather than -1. */
  function IndexOf(s: string, c: char): (k: nat)
    ensures k <= |s|
    ensures c !in s[..k]
    ensures k < |s| ==> s[k] == c
    decreases |s|
  {
    if s == [] then 0
    else if s[0] == c then 0
    else 1 + IndexOf(s[1..], c)
  }

  /** The first piece of a split is the text before the first separator;
      the remaining pieces are the split of the text after it. */
  lemma {:induction false} SplitFirst(s: string, sep: char)
    ensures var k := IndexOf(s, sep); var parts := Split(s, sep);
      && parts[0] == s[..k]
      && (|parts| >= 2 <==> k < |s|)
      && (k < |s| ==> parts[1..] == Split(s[k + 1..], sep))
    decreases |s|
  {
    if s != [] && s[0] != sep {
      SplitFirst(s[1..], sep);
      var k := IndexOf(s[1..], sep);
      assert s[..k + 1] == [s[0]] + s[1..][..k];
      if k < |s[1..]| {
        assert s[1..][k + 1..] == s[k + 2..];
      }
    }
  }

  /** The index of the last occurrence of `c` in `s`, or -1. */
  function LastIndexOf(s: string, c: char): (k: int)
    ensures -1 <= k < |s|
    ensures k >= 0 ==> s[k] == c
    ensures forall j :: k < j < |s| ==> s[j] != c
    decreases |s|
  {
    if s == [] then -1
    else if s[|s| - 1] == c then |s| - 1
    else LastIndexOf(s[..|s| - 1], c)
  }

  /** JavaScript's WhiteSpace and LineTerminator characters, which `trim` removes. */
  predicate IsWhitespace(c: char)
  {
    || c == '\t' || c == '\n' || c == '\U{000B}' || c == '\U{000C}' || c == '\r' || c == ' '
    || c == '\U{00A0}' || c == '\U{1680}' || ('\U{2000}' <= c <= '\U{200A}')
    || c == '\U{2028}' || c == '\U{2029}' || c == '\U{202F}' || c == '\U{205F}'
    || c == '\U{3000}' || c == '\U{FEFF}'
  }

  predicate AllWhitespace(s: string)
  {
    forall i :: 0 <= i < |s| ==> IsWhitespace(s[i])
  }

  /** Neither end of `s` is whitespace. */
  predicate IsTrimmed(s: string)
  {
    s == [] || (!IsWhitespace(s[0]) && !IsWhitespace(s[|s| - 1]))
  }

  function TrimStart(s: string): (r: string)
    ensures |r| <= |s| && r == s[|s| - |r|..]
    ensures AllWhitespace(s[..|s| - |r|])
    ensures r == [] || !IsWhitespace(r[0])
    decreases |s|
  {
    if s != [] && IsWhitespace(s[0]) then
      var r := TrimStart(s[1..]);
      assert s[..|s| - |r|] == [s[0]] + s[1..][..|s| - 1 - |r|];
      r
    else s
  }

  function TrimEnd(s: string): (r: string)
    ensures |r| <= |s| && r == s[..|r|]
    ensures AllWhitespace(s[|r|..])
    ensures r == [] || !IsWhitespace(r[|r| - 1])
    decreases |s|
  {
    if s != [] && IsWhitespace(s[|s| - 1]) then
      var r := TrimEnd(s[..|s| - 1]);
      assert s[|r|..] == s[..|s| - 1][|r|..] + [s[|s| - 1]];
      r
    else s
  }

  /** `String.prototype.trim`: whitespace removed from both ends (`TrimFrames`). */
  function Trim(s: string): (r: string)
    ensures IsTrimmed(r)
  {
    TrimEnd(TrimStart(s))
  }

  /** `s` is the trimmed text framed by whitespace on both sides. */
  lemma TrimFrames(s: string)
    ensures var r := Trim(s);
      exists i, j :: 0 <= i <= j <= |s| && s[i..j] == r && AllWhitespace(s[..i]) && AllWhitespace(s[j..])
  {
    var t := TrimStart(s);
    var r := TrimEnd(t);
    var i := |s| - |t|;
    var j := i + |r|;
    assert s[i..j] == r by {
      assert t == s[i..] && r == t[..|r|];
    }
    assert AllWhitespace(s[j..]) by {
      assert s[j..] == t[|r|..];
    }
    assert 0 <= i <= j <= |s| && s[i..j] == r && AllWhitespace(s[..i]) && AllWhitespace(s[j..]);
  }

  /** Trimming leaves a trimmed string alone. */
  lemma TrimTrimmed(s: string)
    requires IsTrimmed(s)
    ensures Trim(s) == s
  {
  }

  /** Trimming only removes characters. */
  lemma TrimOmits(s: string, c: char)
    requires c !in s
    ensures c !in Trim(s)
  {
    var t := TrimStart(s);
    var r := TrimEnd(t);
    var i := |s| - |t|;
    forall k | 0 <= k < |r| ensures r[k] != c {
      assert r[k] == t[k] == s[i + k];
    }
  }

  /** Trailing whitespace after a trimmed, non-empty string is all that `trim` removes. */
  lemma TrimPadded(s: string, w: string)
    requires s != [] && IsTrimmed(s) && AllWhitespace(w)
    ensures Trim(s + w) == s
  {
    assert (s + w)[0] == s[0];
    assert TrimStart(s + w) == s + w;
    TrimEndPadded(s, w);
  }

  lemma {:induction false} TrimEndPadded(s: string, w: string)
    requires s != [] && IsTrimmed(s) && AllWhitespace(w)
    ensures TrimEnd(s + w) == s
    decreases |w|
  {
    if w == [] {
      assert s + w == s;
    } else {
      var t := s + w;
      assert t[|t| - 1] == w[|w| - 1];
      assert t[..|t| - 1] == s + w[..|w| - 1];
      TrimEndPadded(s, w[..|w| - 1]);
    }
  }

  /** `indexOf` is the first occurrence: it is pinned down by the prefix before it. */
  lemma IndexOfAt(s: string, c: char, p: nat)
    requires p <= |s| && c !in s[..p] && (p < |s| ==> s[p] == c)
    ensures IndexOf(s, c) == p
  {
  }

  predicate IsDigit(c: char)
  {
    '0' <= c <= '9'
  }

  predicate AllDigits(s: string)
  {
    forall i :: 0 <= i < |s| ==> IsDigit(s[i])
  }

  function DigitChar(d: nat): (c: char)
    requires d < 10
    ensures IsDigit(c)
  {
    (('0' as int) + d) as char
  }

  /** `parseInt(s, 10)` on a string made only of decimal digits. */
  function DigitsValue(s: string): nat
    requires AllDigits(s)
    decreases |s|
  {
    if s == [] then 0
    else DigitsValue(s[..|s| - 1]) * 10 + (s[|s| - 1] as int - '0' as int)
  }

  /** The value of three digits, positionally. */
  lemma ThreeDigits(d: string)
    requires |d| == 3 && AllDigits(d)
    ensures DigitsValue(d) == 100 * (d[0] as int - '0' as int) + 10 * (d[1] as int - '0' as int) + (d[2] as int - '0' as int)
    ensures DigitsValue(d) < 1000
  {
    var d2 := d[..2];
    var d1 := d2[..1];
    assert d2[..1] == d1 && d[..2] == d2;
    assert d1[..0] == [];
    assert DigitsValue(d1) == d[0] as int - '0' as int;
    assert DigitsValue(d2) == 10 * DigitsValue(d1) + (d[1] as int - '0' as int);
    assert DigitsValue(d) == 10 * DigitsValue(d2) + (d[2] as int - '0' as int);
  }

  /** The decimal rendering of a natural number, without leading zeros. */
  function NatToString(n: nat): (r: string)
    ensures |r| >= 1 && AllDigits(r)
    ensures |r| > 1 ==> r[0] != '0'
    decreases n
  {
    if n < 10 then [DigitChar(n)]
    else NatToString(n / 10) + [DigitChar(n % 10)]
  }

  /** `String(n)` for an integer `n`: a minus sign, then the digits. */
  function IntToString(n: int): (r: string)
    ensures ' ' !in r && ',' !in r && '\n' !in r
  {
    if n < 0 then "-" + NatToString(-n) else NatToString(n)
  }

  /** Reading back the decimal rendering gives the number. */
  lemma {:induction false} NatToStringRoundTrip(n: nat)
    ensures DigitsValue(NatToString(n)) == n
    decreases n
  {
    if n >= 10 {
      NatToStringRoundTrip(n / 10);
      var s := NatToString(n);
      assert s[..|s| - 1] == NatToString(n / 10);
    }
  }

  /** Integers render without leading zeros and read back to themselves. */
  lemma IntToStringRoundTrip(n: int)
    ensures var r := IntToString(n);
      if n < 0 then |r| >= 2 && r[0] == '-' && AllDigits(r[1..]) && DigitsValue(r[1..]) == -n
      else AllDigits(r) && DigitsValue(r) == n
  {
    NatToStringRoundTrip(if n < 0 then -n else n);
    if n < 0 {
      assert IntToString(n)[1..] == NatToString(-n);
    }
  }
}
