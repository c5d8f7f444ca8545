/**
 * The Python `str` operations the scripts rely on, over `string` (one `char` per byte of
 * the Python 2 byte strings): strip, split with and without a separator, join,
 * posixpath.basename, slicing a prefix, `%d`/str() of an integer and int() of a string.
 */
module Text {
  import opened Wrappers

  /** The characters Python's str.strip() and str.split() treat as whitespace. */
  const Whitespace: set<char> := {' ', '\t', '\n', '\r', '\U{000B}', '\U{000C}'}

  /** The characters of `'0123456789'`. */
  const Digits: set<char> := {'0', '1', '2', '3', '4', '5', '6', '7', '8', '9'}

  /** Every character of s is one of cs. */
  predicate Only(s: string, cs: set<char>) {
    forall k :: 0 <= k < |s| ==> s[k] in cs
  }

  /** No character of s is one of cs. */
  predicate NoneOf(s: string, cs: set<char>) {
    forall k :: 0 <= k < |s| ==> s[k] !in cs
  }

  /** Number of leading characters of s that are in cs. */
  function LeadingCount(s: string, cs: set<char>): (n: nat)
    ensures n <= |s|
    ensures forall k :: 0 <= k < n ==> s[k] in cs
    ensures n < |s| ==> s[n] !in cs
  {
    if |s| > 0 && s[0] in cs then 1 + LeadingCount(s[1..], cs) else 0
  }

  /** Number of trailing characters of s that are in cs. */
  function TrailingCount(s: string, cs: set<char>): (n: nat)
    ensures n <= |s|
    ensures forall k :: |s| - n <= k < |s| ==> s[k] in cs
    ensures n < |s| ==> s[|s| - n - 1] !in cs
  {
    if |s| > 0 && s[|s| - 1] in cs then 1 + TrailingCount(s[..|s| - 1], cs) else 0
  }

  /** Length of the longest prefix of s that has no character from cs. */
  function SpanNot(s: string, cs: set<char>): (n: nat)
    ensures n <= |s|
    ensures forall k :: 0 <= k < n ==> s[k] !in cs
    ensures n < |s| ==> s[n] in cs
  {
    if |s| > 0 && s[0] !in cs then 1 + SpanNot(s[1..], cs) else 0
  }

  /**
   * Python's s.strip(chars): s without its leading and trailing characters from cs.
   * The result is the slice of s that starts and ends with a character outside cs
   * and has only characters of cs around it.
   */
  function StripChars(s: string, cs: set<char>): (r: string)
    ensures r == [] || (r[0] !in cs && r[|r| - 1] !in cs)
    ensures r == [] ==> Only(s, cs)
  {
    var i := LeadingCount(s, cs);
    var j := TrailingCount(s[i..], cs);
    StripSlice(s, cs, i, j);
    s[i..|s| - j]
  }

  /** What StripChars removes: only characters of cs, from the two ends of s. */
  lemma StripCharsSlice(s: string, cs: set<char>)
    ensures var r := StripChars(s, cs);
      exists i :: 0 <= i <= |s| - |r| && r == s[i..i + |r|]
                  && Only(s[..i], cs) && Only(s[i + |r|..], cs)
  {
    var i := LeadingCount(s, cs);
    var j := TrailingCount(s[i..], cs);
    StripSlice(s, cs, i, j);
    var r := StripChars(s, cs);
    assert r == s[i..|s| - j] && i + |r| == |s| - j;
    assert r == s[i..i + |r|] && Only(s[..i], cs) && Only(s[i + |r|..], cs);
  }

  /** The slice StripChars returns has the properties its contract states. */
  lemma StripSlice(s: string, cs: set<char>, i: nat, j: nat)
    requires i == LeadingCount(s, cs) && j == TrailingCount(s[i..], cs)
    ensures i <= |s| - j
    ensures var r := s[i..|s| - j];
      && (r == [] || (r[0] !in cs && r[|r| - 1] !in cs))
      && (r == [] ==> Only(s, cs))
      && Only(s[..i], cs) && Only(s[|s| - j..], cs)
  {
    var t := s[i..];
    forall k | |s| - j <= k < |s| ensures s[k] in cs {
      assert s[k] == t[k - i];
    }
    if i == |s| - j {
      forall k | 0 <= k < |s| ensures s[k] in cs { }
    } else {
      assert s[i..|s| - j][0] == s[i];
      assert s[i..|s| - j][|s| - j - i - 1] == t[|t| - j - 1];
    }
  }

  /** Python's s.strip() with no argument. */
  function Strip(s: string): string {
    StripChars(s, Whitespace)
  }

  /** Python's s.split() with no separator: the maximal runs of non-whitespace characters. */
  function Words(s: string): (ws: seq<string>)
    ensures forall k :: 0 <= k < |ws| ==> ws[k] != [] && NoneOf(ws[k], Whitespace)
  {
    Fields(s, Whitespace)
  }

  /** The maximal runs of characters outside cs, from left to right. */
  function Fields(s: string, cs: set<char>): (ws: seq<string>)
    ensures forall k :: 0 <= k < |ws| ==> ws[k] != [] && NoneOf(ws[k], cs)
    decreases |s|
  {
    if s == [] then []
    else if s[0] in cs then Fields(s[1..], cs)
    else
      var n := SpanNot(s, cs);
      assert s[..n] == s[0..n];
      [s[..n]] + Fields(s[n..], cs)
  }

  /** Python's sep.join(ws). */
  function JoinWith(ws: seq<string>, sep: string): string {
    if ws == [] then []
    else if |ws| == 1 then ws[0]
    else ws[0] + sep + JoinWith(ws[1..], sep)
  }

  /** A leading separator character does not change the fields of a string. */
  lemma FieldsSkip(c: char, t: string, cs: set<char>)
    requires c in cs
    ensures Fields([c] + t, cs) == Fields(t, cs)
  {
    assert ([c] + t)[1..] == t;
  }

  /** A field followed by a separator (or nothing) is the first field. */
  lemma FieldsHead(w: string, tail: string, cs: set<char>)
    requires w != [] && NoneOf(w, cs)
    requires tail == [] || tail[0] in cs
    ensures Fields(w + tail, cs) == [w] + Fields(tail, cs)
  {
    var s := w + tail;
    assert s[0] == w[0];
    var n := SpanNot(s, cs);
    assert forall k :: 0 <= k < |w| ==> s[k] == w[k];
    assert |w| < |s| ==> s[|w|] == tail[0];
    assert n == |w|;
    assert s[..n] == w && s[n..] == tail;
  }

  /** Splitting at the characters of cs undoes joining fields with one of them. */
  lemma {:induction false} FieldsOfJoin(ws: seq<string>, cs: set<char>, sep: char)
    requires sep in cs
    requires forall k :: 0 <= k < |ws| ==> ws[k] != [] && NoneOf(ws[k], cs)
    ensures Fields(JoinWith(ws, [sep]), cs) == ws
  {
    if ws == [] {
    } else if |ws| == 1 {
      FieldsHead(ws[0], [], cs);
      assert ws[0] + [] == ws[0];
    } else {
      var j := JoinWith(ws[1..], [sep]);
      assert JoinWith(ws, [sep]) == ws[0] + ([sep] + j);
      FieldsHead(ws[0], [sep] + j, cs);
      FieldsSkip(sep, j, cs);
      FieldsOfJoin(ws[1..], cs, sep);
      assert ws == [ws[0]] + ws[1..];
    }
  }

  /** str.split() undoes ' '.join of non-empty words that contain no whitespace. */
  lemma WordsOfJoin(ws: seq<string>)
    requires forall k :: 0 <= k < |ws| ==> ws[k] != [] && NoneOf(ws[k], Whitespace)
    ensures Words(JoinWith(ws, " ")) == ws
  {
    FieldsOfJoin(ws, Whitespace, ' ');
  }

  /**
   * Python's s.split(sep) for a non-empty separator: the pieces between the
   * non-overlapping occurrences of sep, found from left to right.
   */
  function Split(s: string, sep: string): (parts: seq<string>)
    requires sep != []
    ensures |parts| >= 1
    decreases |s|
  {
    if |s| < |sep| then [s]
    else if s[..|sep|] == sep then [[]] + Split(s[|sep|..], sep)
    else
      var rest := Split(s[1..], sep);
      [[s[0]] + rest[0]] + rest[1..]
  }

  /** Joining the pieces of a split with the same separator gives back the string. */
  lemma {:induction false} JoinSplit(s: string, sep: string)
    requires sep != []
    ensures JoinWith(Split(s, sep), sep) == s
  {
    if |s| < |sep| {
    } else if s[..|sep|] == sep {
      var rest := Split(s[|sep|..], sep);
      JoinSplit(s[|sep|..], sep);
      assert Split(s, sep) == [[]] + rest;
      assert ([[]] + rest)[1..] == rest;
      assert s == sep + s[|sep|..];
    } else {
      var rest := Split(s[1..], sep);
      JoinSplit(s[1..], sep);
      var parts := [[s[0]] + rest[0]] + rest[1..];
      assert Split(s, sep) == parts;
      if |rest| == 1 {
        assert s == [s[0]] + s[1..];
      } else {
        assert parts[1..] == rest[1..];
        assert JoinWith(rest, sep) == rest[0] + sep + JoinWith(rest[1..], sep);
        assert s == [s[0]] + s[1..];
      }
    }
  }

  /** posixpath.basename(p): the characters of p after its last '/'. */
  function Basename(p: string): string {
    if p == [] || p[|p| - 1] == '/' then [] else Basename(p[..|p| - 1]) + [p[|p| - 1]]
  }

  /** The basename is the longest suffix of p without a '/': p has a '/' just before it, or nothing. */
  lemma {:induction false} BasenameSuffix(p: string)
    ensures var b := Basename(p);
      && '/' !in b
      && |b| <= |p| && b == p[|p| - |b|..]
      && (|b| < |p| ==> p[|p| - |b| - 1] == '/')
  {
    if p != [] && p[|p| - 1] != '/' {
      var q := p[..|p| - 1];
      BasenameSuffix(q);
      var b := Basename(p);
      assert q[|q| - |Basename(q)|..] + [p[|p| - 1]] == p[|p| - |b|..];
    }
  }

  /** posixpath.join(a, b): b itself when it is absolute, else b appended to a with one '/' between. */
  function PathJoin(a: string, b: string): string {
    if b != [] && b[0] == '/' then b
    else if a == [] || a[|a| - 1] == '/' then a + b
    else a + "/" + b
  }

  /** The joined path ends with b; unless b is absolute it starts with a, and a '/' ends a or follows it. */
  lemma PathJoinParts(a: string, b: string)
    ensures var p := PathJoin(a, b);
      && |b| <= |p| && p[|p| - |b|..] == b
      && ((b == [] || b[0] != '/') ==> |a| <= |p| && p[..|a|] == a)
      && ((b == [] || b[0] != '/') && a != [] ==> p[|a| - 1] == '/' || (|a| < |p| && p[|a|] == '/'))
  {
  }

  /** Python's slice s[:n] for n >= 0. */
  function Take(s: string, n: nat): (r: string)
    ensures |r| == (if |s| <= n then |s| else n) && r == s[..|r|]
  {
    if |s| <= n then s else s[..n]
  }

  function DigitChar(d: nat): (c: char)
    requires d < 10
    ensures c in Digits
  {
    ['0', '1', '2', '3', '4', '5', '6', '7', '8', '9'][d]
  }

  function DigitValue(c: char): (d: nat)
    requires c in Digits
    ensures d < 10 && DigitChar(d) == c
  {
    c as int - '0' as int
  }

  /** Decimal digits of n, most significant first, without leading zeros. */
  function NatToString(n: nat): (s: string)
    ensures s != [] && Only(s, Digits)
    ensures |s| > 1 ==> s[0] != '0'
  {
    if n < 10 then [DigitChar(n)]
    else
      var p := NatToString(n / 10);
      assert p[0] != '0';
      p + [DigitChar(n % 10)]
  }

  /** Python's `'%d' % n` and str(n) for an integer n. */
  function IntToString(n: int): string {
    if n < 0 then "-" + NatToString(-n) else NatToString(n)
  }

  /** The number a string of decimal digits denotes. */
  function DigitsValue(s: string): nat
    requires Only(s, Digits)
  {
    if s == [] then 0 else DigitsValue(s[..|s| - 1]) * 10 + DigitValue(s[|s| - 1])
  }

  /** The value of one or more decimal digits, or None. */
  function ParseDigits(s: string): (r: Option<nat>)
    ensures r.Some? <==> s != [] && Only(s, Digits)
  {
    if s != [] && Only(s, Digits) then Some(DigitsValue(s)) else None
  }

  /**
   * Python 2's int(s), base 10, on a string already stripped of whitespace: an optional
   * sign, any whitespace after the sign (the C strtol the interpreter calls skips it),
   * then one or more decimal digits; anything else is a ValueError (None).
   */
  function ParseInt(s: string): (r: Option<int>)
    ensures r.Some? <==> (s != [] && Only(s, Digits))
                         || (|s| > 1 && s[0] in {'-', '+'}
                             && var b := 1 + LeadingCount(s[1..], Whitespace); b < |s| && Only(s[b..], Digits))
  {
    if |s| > 0 && (s[0] == '-' || s[0] == '+') then
      var rest := s[1..];
      var digits := rest[LeadingCount(rest, Whitespace)..];
      assert digits == s[1 + LeadingCount(rest, Whitespace)..];
      match ParseDigits(digits)
      case None => None
      case Some(v) => var x: int := v; Some(if s[0] == '-' then -x else x)
    else
      match ParseDigits(s)
      case None => None
      case Some(v) => Some(v)
  }

  /** A sign, whitespace, then digits: int() reads the digits' value with that sign. */
  lemma ParseIntSigned(sign: char, blanks: string, digits: string)
    requires sign in {'-', '+'} && Only(blanks, Whitespace)
    requires digits != [] && Only(digits, Digits)
    ensures var v: int := DigitsValue(digits);
      ParseInt([sign] + blanks + digits) == Some(if sign == '-' then -v else v)
  {
    var s := [sign] + blanks + digits;
    var rest := s[1..];
    assert rest == blanks + digits;
    LeadingBlanks(blanks, digits);
    assert rest[|blanks|..] == digits;
  }

  /** Whitespace followed by a digit string: the whitespace is the leading run. */
  lemma {:induction false} LeadingBlanks(blanks: string, digits: string)
    requires Only(blanks, Whitespace) && digits != [] && Only(digits, Digits)
    ensures LeadingCount(blanks + digits, Whitespace) == |blanks|
    decreases |blanks|
  {
    var s := blanks + digits;
    if blanks == [] {
      assert s[0] == digits[0] && digits[0] in Digits;
    } else {
      assert s[1..] == blanks[1..] + digits;
      LeadingBlanks(blanks[1..], digits);
    }
  }

  lemma {:induction false} DigitsOfNat(n: nat)
    ensures DigitsValue(NatToString(n)) == n
  {
    var s := NatToString(n);
    if n >= 10 {
      DigitsOfNat(n / 10);
      assert s[..|s| - 1] == NatToString(n / 10);
    }
  }

  /** Digits alone: int() reads their value. */
  lemma ParseIntUnsigned(digits: string)
    requires digits != [] && Only(digits, Digits)
    ensures ParseInt(digits) == Some(DigitsValue(digits))
  {
    assert digits[0] in Digits;
  }

  /** int() reads back what `%d` prints. */
  lemma ParseIntOfString(n: int)
    ensures ParseInt(IntToString(n)) == Some(n)
  {
    var d := NatToString(if n < 0 then -n else n);
    DigitsOfNat(if n < 0 then -n else n);
    if n < 0 {
      ParseIntSigned('-', "", d);
      assert IntToString(n) == ['-'] + "" + d;
    } else {
      ParseIntUnsigned(d);
    }
  }
}
