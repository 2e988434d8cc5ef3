/**
 * The PHP string primitives the parser relies on, with the semantics PHP gives
 * them: `strpos`, `str_replace` (left-to-right, non-overlapping), `explode`,
 * `implode`, `trim`, `substr`, `str_pad`, `empty`, decimal conversion of
 * integers and `strcmp`-style ordering.
 */
module PhpStrings {
  import opened Wrappers

  predicate StartsWith(s: string, prefix: string) {
    |prefix| <= |s| && s[..|prefix|] == prefix
  }

  /** Does `needle` occur somewhere in `s` (PHP: `strpos($s, $needle) !== false`). */
  predicate Contains(s: string, needle: string)
    decreases |s|
  {
    StartsWith(s, needle) || (|s| > 0 && Contains(s[1..], needle))
  }

  /** Position of the first occurrence of a non-empty needle (PHP `strpos`). */
  function IndexOf(s: string, needle: string): (r: Option<nat>)
    requires |needle| > 0
    ensures r.Some? <==> Contains(s, needle)
    ensures r.Some? ==> r.value + |needle| <= |s| && s[r.value..r.value + |needle|] == needle
    ensures r.Some? ==> !Contains(s[..r.value], needle)
    decreases |s|
  {
    if StartsWith(s, needle) then Some(0)
    else if |s| == 0 then None
    else
      match IndexOf(s[1..], needle)
      case None => None
      case Some(i) =>
        assert s[1..][..i] == s[1..i + 1];
        assert s[..i + 1][1..] == s[1..i + 1];
        Some(i + 1)
  }

  /** PHP `str_replace($needle, $rep, $s)` for one non-empty needle. */
  function Replace(s: string, needle: string, rep: string): string
    requires |needle| > 0
    decreases |s|
  {
    if StartsWith(s, needle) then rep + Replace(s[|needle|..], needle, rep)
    else if |s| == 0 then []
    else [s[0]] + Replace(s[1..], needle, rep)
  }

  /** No character of `a` occurs in `b`. */
  predicate CharsDisjoint(a: string, b: string) {
    forall i :: 0 <= i < |a| ==> a[i] !in b
  }

  /** PHP `explode($d, $s)`: the pieces between occurrences of `d`. */
  function Split(s: string, d: string): (parts: seq<string>)
    requires |d| > 0
    ensures |parts| >= 1
    decreases |s|
  {
    match IndexOf(s, d)
    case None => [s]
    case Some(i) => [s[..i]] + Split(s[i + |d|..], d)
  }

  /** PHP `implode($d, $parts)`. */
  function Join(parts: seq<string>, d: string): string {
    if |parts| == 0 then ""
    else if |parts| == 1 then parts[0]
    else parts[0] + d + Join(parts[1..], d)
  }

  function TrimLeft(s: string, cs: set<char>): string
    decreases |s|
  {
    if |s| > 0 && s[0] in cs then TrimLeft(s[1..], cs) else s
  }

  function TrimRight(s: string, cs: set<char>): string
    decreases |s|
  {
    if |s| > 0 && s[|s| - 1] in cs then TrimRight(s[..|s| - 1], cs) else s
  }

  /** PHP `trim($s, $cs)`. */
  function Trim(s: string, cs: set<char>): string {
    TrimRight(TrimLeft(s, cs), cs)
  }

  /** The characters PHP's `trim` removes by default: " \t\n\r\0\x0B". */
  const DefaultTrimChars: set<char> := {' ', '\t', '\n', '\r', '\0', '\U{0B}'}

  /** PHP `empty($s)` on a string: true for "" and for "0". */
  predicate PhpEmpty(s: string) {
    s == "" || s == "0"
  }

  /** PHP `substr($s, $start, $len)` for non-negative start and length. */
  function Substr(s: string, start: nat, len: nat): (r: string)
    ensures |r| <= len
  {
    if start >= |s| then ""
    else if start + len <= |s| then s[start..start + len]
    else s[start..]
  }

  function Repeat(c: char, n: nat): (r: string)
    ensures |r| == n && forall i :: 0 <= i < n ==> r[i] == c
  {
    if n == 0 then "" else [c] + Repeat(c, n - 1)
  }

  /** PHP `str_pad($s, $len, $c, STR_PAD_LEFT)`. */
  function PadLeft(s: string, len: nat, c: char): string {
    if |s| >= len then s else Repeat(c, len - |s|) + s
  }

  // ---------------------------------------------------------------------------
  // Decimal conversion, as PHP converts an integer to a string and back (intval).

  predicate IsDigit(c: char) {
    '0' <= c <= '9'
  }

  predicate AllDigits(s: string) {
    forall i :: 0 <= i < |s| ==> IsDigit(s[i])
  }

  function DigitChar(d: nat): char
    requires d < 10
  {
    ('0' as int + d) as char
  }

  function DigitValue(c: char): nat
    requires IsDigit(c)
  {
    (c as int - '0' as int) as nat
  }

  function NatToString(n: nat): (r: string)
    ensures |r| >= 1 && AllDigits(r)
  {
    if n < 10 then [DigitChar(n)] else NatToString(n / 10) + [DigitChar(n % 10)]
  }

  function IntToString(i: int): string {
    if i < 0 then "-" + NatToString(-i) else NatToString(i)
  }

  /** PHP `intval` on a string of decimal digits. */
  function ParseNat(s: string): nat
    requires AllDigits(s)
  {
    if |s| == 0 then 0 else 10 * ParseNat(s[..|s| - 1]) + DigitValue(s[|s| - 1])
  }

  /** Byte-wise string order of PHP's `sort` on non-numeric strings (as `strcmp <= 0`). */
  predicate LexLe(a: string, b: string)
    decreases |a|
  {
    |a| == 0 || (|b| > 0 && (a[0] < b[0] || (a[0] == b[0] && LexLe(a[1..], b[1..]))))
  }

  // ---------------------------------------------------------------------------
  // Lemmas

  lemma {:induction false} ContainsSingleChar(s: string, c: char)
    ensures Contains(s, [c]) <==> c in s
    decreases |s|
  {
    if |s| > 0 {
      ContainsSingleChar(s[1..], c);
      assert s == [s[0]] + s[1..];
    }
  }

  lemma {:induction false} ShortNoContains(s: string, needle: string)
    requires |s| < |needle|
    ensures !Contains(s, needle)
    decreases |s|
  {
    if |s| > 0 {
      ShortNoContains(s[1..], needle);
    }
  }

  /** An occurrence in a suffix is an occurrence in the whole. */
  lemma {:induction false} ContainsSuffix(s: string, k: nat, needle: string)
    requires k <= |s|
    requires Contains(s[k..], needle)
    ensures Contains(s, needle)
    decreases k
  {
    if k > 0 {
      assert s[1..][k - 1..] == s[k..];
      ContainsSuffix(s[1..], k - 1, needle);
    }
  }

  /** An occurrence in a prefix is an occurrence in the whole. */
  lemma {:induction false} ContainsPrefix(s: string, k: nat, needle: string)
    requires k <= |s|
    requires Contains(s[..k], needle)
    ensures Contains(s, needle)
    decreases k
  {
    if StartsWith(s[..k], needle) {
      assert s[..|needle|] == s[..k][..|needle|];
    } else {
      assert s[..k][1..] == s[1..][..k - 1];
      ContainsPrefix(s[1..], k - 1, needle);
    }
  }

  lemma {:induction false} ContainsConcatLeft(a: string, b: string, needle: string)
    requires Contains(a, needle)
    ensures Contains(a + b, needle)
  {
    assert (a + b)[..|a|] == a;
    ContainsPrefix(a + b, |a|, needle);
  }

  lemma {:induction false} ContainsConcatRight(a: string, b: string, needle: string)
    requires Contains(b, needle)
    ensures Contains(a + b, needle)
  {
    assert (a + b)[|a|..] == b;
    ContainsSuffix(a + b, |a|, needle);
  }

  /**
   * A prefix `a` none of whose characters starts the needle cannot take part
   * in an occurrence: an occurrence in `a + b` lies in `b`.
   */
  lemma {:induction false} ContainsSkipsForeignPrefix(a: string, b: string, needle: string)
    requires |needle| > 0 && CharsDisjoint(a, needle)
    requires Contains(a + b, needle)
    ensures Contains(b, needle)
    decreases |a|
  {
    if |a| > 0 {
      assert (a + b)[0] == a[0] && a[0] !in needle;
      assert !StartsWith(a + b, needle);
      assert (a + b)[1..] == a[1..] + b;
      ContainsSkipsForeignPrefix(a[1..], b, needle);
    } else {
      assert a + b == b;
    }
  }

  /**
   * Characters that never equal the first replacement character survive
   * replacement unchanged: a prefix of the result made of such characters is a
   * prefix of the input.
   */
  lemma {:induction false} ReplacePrefixBack(t: string, needle: string, rep: string, w: string)
    requires |needle| > 0 && |rep| > 0
    requires forall i :: 0 <= i < |w| ==> w[i] != rep[0]
    requires StartsWith(Replace(t, needle, rep), w)
    ensures StartsWith(t, w)
    decreases |t|
  {
    if StartsWith(t, needle) {
      assert Replace(t, needle, rep)[0] == rep[0];
    } else if |t| > 0 && |w| > 0 {
      var r' := Replace(t[1..], needle, rep);
      assert Replace(t, needle, rep) == [t[0]] + r';
      assert StartsWith(r', w[1..]) by {
        assert r'[..|w| - 1] == ([t[0]] + r')[1..|w|];
      }
      ReplacePrefixBack(t[1..], needle, rep, w[1..]);
      assert t[..|w|] == [t[0]] + t[1..][..|w| - 1];
    }
  }

  /**
   * Replacing `needle2` by a non-empty text that shares no character with
   * `needle` cannot create an occurrence of `needle`.
   */
  lemma {:induction false} ReplaceKeepsAbsent(s: string, needle: string, needle2: string, rep: string)
    requires |needle| > 0 && |needle2| > 0 && |rep| > 0
    requires CharsDisjoint(rep, needle)
    requires !Contains(s, needle)
    ensures !Contains(Replace(s, needle2, rep), needle)
    decreases |s|
  {
    if StartsWith(s, needle2) {
      var rest := s[|needle2|..];
      if Contains(rest, needle) {
        ContainsSuffix(s, |needle2|, needle);
      }
      ReplaceKeepsAbsent(rest, needle, needle2, rep);
      if Contains(rep + Replace(rest, needle2, rep), needle) {
        ContainsSkipsForeignPrefix(rep, Replace(rest, needle2, rep), needle);
      }
    } else if |s| == 0 {
      ShortNoContains([], needle);
    } else {
      var r' := Replace(s[1..], needle2, rep);
      ReplaceKeepsAbsent(s[1..], needle, needle2, rep);
      ConsReplaceStart(s, needle, needle2, rep);
      var whole := [s[0]] + r';
      assert whole[1..] == r';
    }
  }

  /**
   * Replacing `needle` by a non-empty text that shares no character with it
   * leaves no occurrence of `needle` behind.
   */
  lemma {:induction false} ReplaceEliminates(s: string, needle: string, rep: string)
    requires |needle| > 0 && |rep| > 0
    requires CharsDisjoint(rep, needle)
    ensures !Contains(Replace(s, needle, rep), needle)
    decreases |s|
  {
    if StartsWith(s, needle) {
      var rest := s[|needle|..];
      ReplaceEliminates(rest, needle, rep);
      if Contains(rep + Replace(rest, needle, rep), needle) {
        ContainsSkipsForeignPrefix(rep, Replace(rest, needle, rep), needle);
      }
    } else if |s| == 0 {
      ShortNoContains([], needle);
    } else {
      var r' := Replace(s[1..], needle, rep);
      ReplaceEliminates(s[1..], needle, rep);
      ConsReplaceStart(s, needle, needle, rep);
      var whole := [s[0]] + r';
      assert whole[1..] == r';
    }
  }

  /**
   * When the first character is kept by a replacement, an occurrence of
   * `needle` at the start of the result was already at the start of the input.
   */
  lemma {:induction false} ConsReplaceStart(s: string, needle: string, needle2: string, rep: string)
    requires |s| > 0 && |needle| > 0 && |needle2| > 0 && |rep| > 0
    requires CharsDisjoint(rep, needle)
    ensures StartsWith([s[0]] + Replace(s[1..], needle2, rep), needle) ==> StartsWith(s, needle)
  {
    var r' := Replace(s[1..], needle2, rep);
    var whole := [s[0]] + r';
    if StartsWith(whole, needle) {
      assert StartsWith(r', needle[1..]) by {
        assert r'[..|needle| - 1] == whole[1..|needle|];
      }
      forall i | 0 <= i < |needle[1..]| ensures needle[1..][i] != rep[0] {
        assert rep[0] !in needle;
      }
      ReplacePrefixBack(s[1..], needle2, rep, needle[1..]);
      assert s[..|needle|] == [s[0]] + s[1..][..|needle| - 1];
    }
  }

  /** Replacing an absent needle changes nothing. */
  lemma {:induction false} ReplaceAbsent(s: string, needle: string, rep: string)
    requires |needle| > 0 && !Contains(s, needle)
    ensures Replace(s, needle, rep) == s
    decreases |s|
  {
    if |s| > 0 {
      ReplaceAbsent(s[1..], needle, rep);
      assert s == [s[0]] + s[1..];
    }
  }

  /** Replacing by a non-empty text never empties a non-empty text. */
  lemma ReplaceNonEmpty(s: string, needle: string, rep: string)
    requires |needle| > 0 && |s| > 0 && |rep| > 0
    ensures |Replace(s, needle, rep)| > 0
  {
  }

  /** Replacing one character by another maps the text character by character. */
  lemma {:induction false} ReplaceCharMap(s: string, c: char, d: char)
    ensures var r := Replace(s, [c], [d]);
      |r| == |s| && forall i :: 0 <= i < |s| ==> r[i] == (if s[i] == c then d else s[i])
    decreases |s|
  {
    if |s| > 0 {
      ReplaceCharMap(s[1..], c, d);
      if StartsWith(s, [c]) {
        assert s[0] == c;
      } else {
        assert s[0] != c;
      }
    }
  }

  /** A needle whose first character does not occur in `s` does not occur in `s`. */
  lemma {:induction false} AbsentFirstChar(s: string, needle: string)
    requires |needle| > 0 && needle[0] !in s
    ensures !Contains(s, needle)
    decreases |s|
  {
    if |s| > 0 {
      assert s[0] != needle[0];
      AbsentFirstChar(s[1..], needle);
    }
  }

  /** A needle can only start among the last characters, and there it does not fit. */
  lemma {:induction false} NeedleStartsLate(s: string, needle: string, k: nat)
    requires |needle| > 0 && k <= |s| && needle[0] !in s[..k] && |s| - k < |needle|
    ensures !Contains(s, needle)
    decreases |s|
  {
    if k == 0 {
      ShortNoContains(s, needle);
    } else {
      assert s[0] in s[..k];
      assert s[1..][..k - 1] == s[1..k];
      NeedleStartsLate(s[1..], needle, k - 1);
    }
  }

  /** Every character of a replacement's result comes from the input or the replacement text. */
  lemma {:induction false} ReplaceChars(s: string, needle: string, rep: string, c: char)
    requires |needle| > 0
    requires c in Replace(s, needle, rep)
    ensures c in s || c in rep
    decreases |s|
  {
    if StartsWith(s, needle) {
      if c !in rep {
        ReplaceChars(s[|needle|..], needle, rep, c);
        assert s[|needle|..] == s[|needle|..];
        assert c in s[|needle|..];
      }
    } else if |s| > 0 {
      if c != s[0] {
        ReplaceChars(s[1..], needle, rep, c);
      }
    }
  }

  /** `explode` followed by `implode` with the same delimiter gives the input back. */
  lemma {:induction false} JoinSplit(s: string, d: string)
    requires |d| > 0
    ensures Join(Split(s, d), d) == s
    decreases |s|
  {
    var k := IndexOf(s, d);
    if k.Some? {
      var i := k.value;
      var rest := s[i + |d|..];
      JoinSplit(rest, d);
      SplitAt(s, d, i);
      JoinCons(s[..i], Split(rest, d), d);
      assert s == s[..i] + d + rest;
    }
  }

  lemma {:induction false} SplitAt(s: string, d: string, i: nat)
    requires |d| > 0 && IndexOf(s, d) == Some(i)
    ensures Split(s, d) == [s[..i]] + Split(s[i + |d|..], d)
  {
    var rest := Split(s[i + |d|..], d);
    assert Split(s, d) == [s[..i]] + rest;
  }

  lemma JoinCons(p: string, tail: seq<string>, d: string)
    requires |tail| >= 1
    ensures Join([p] + tail, d) == p + d + Join(tail, d)
  {
    assert ([p] + tail)[1..] == tail;
  }

  /** No piece of `explode` contains the delimiter. */
  lemma {:induction false} SplitPiecesFree(s: string, d: string)
    requires |d| > 0
    ensures forall p :: p in Split(s, d) ==> !Contains(p, d)
    decreases |s|
  {
    match IndexOf(s, d)
    case None =>
    case Some(i) =>
      var rest := s[i + |d|..];
      SplitPiecesFree(rest, d);
      SplitAt(s, d, i);
      forall p | p in Split(s, d) ensures !Contains(p, d) {
        if p != s[..i] {
          assert p in Split(rest, d);
        }
      }
  }

  /** Every character of a piece of `explode` is a character of the input. */
  lemma {:induction false} SplitPiecesChars(s: string, d: string, c: char)
    requires |d| > 0
    requires exists p :: p in Split(s, d) && c in p
    ensures c in s
    decreases |s|
  {
    match IndexOf(s, d)
    case None =>
    case Some(i) =>
      var p :| p in Split(s, d) && c in p;
      if p != s[..i] {
        SplitPiecesChars(s[i + |d|..], d, c);
      }
  }

  lemma {:induction false} TrimLeftChars(s: string, cs: set<char>, c: char)
    requires c in TrimLeft(s, cs)
    ensures c in s
    decreases |s|
  {
    if |s| > 0 && s[0] in cs {
      TrimLeftChars(s[1..], cs, c);
    }
  }

  lemma {:induction false} TrimRightChars(s: string, cs: set<char>, c: char)
    requires c in TrimRight(s, cs)
    ensures c in s
    decreases |s|
  {
    if |s| > 0 && s[|s| - 1] in cs {
      TrimRightChars(s[..|s| - 1], cs, c);
    }
  }

  /**
   * `trim` removes a run of characters of `cs` at each end and nothing else:
   * the input is those runs around the result, and the result neither begins
   * nor ends with a character of `cs`.
   */
  lemma {:induction false} TrimShape(s: string, cs: set<char>)
    ensures var r := Trim(s, cs);
      && (|r| > 0 ==> r[0] !in cs && r[|r| - 1] !in cs)
      && exists a, b :: 0 <= a <= b <= |s| && r == s[a..b]
           && (forall i :: 0 <= i < a ==> s[i] in cs)
           && (forall i :: b <= i < |s| ==> s[i] in cs)
  {
    var a := TrimLeftShape(s, cs);
    var l := TrimLeft(s, cs);
    var b := TrimRightShape(l, cs);
    assert Trim(s, cs) == s[a..a + b];
  }

  lemma {:induction false} TrimLeftShape(s: string, cs: set<char>) returns (a: nat)
    ensures a <= |s| && TrimLeft(s, cs) == s[a..]
    ensures forall i :: 0 <= i < a ==> s[i] in cs
    ensures |s[a..]| > 0 ==> s[a] !in cs
    decreases |s|
  {
    if |s| > 0 && s[0] in cs {
      var a' := TrimLeftShape(s[1..], cs);
      a := a' + 1;
      assert s[1..][a'..] == s[a..];
    } else {
      a := 0;
    }
  }

  lemma {:induction false} TrimRightShape(s: string, cs: set<char>) returns (b: nat)
    ensures b <= |s| && TrimRight(s, cs) == s[..b]
    ensures forall i :: b <= i < |s| ==> s[i] in cs
    ensures b > 0 ==> s[b - 1] !in cs
    decreases |s|
  {
    if |s| > 0 && s[|s| - 1] in cs {
      b := TrimRightShape(s[..|s| - 1], cs);
      assert s[..|s| - 1][..b] == s[..b];
    } else {
      b := |s|;
    }
  }

  /** Reading back the decimal form of a number gives the number (`intval` after `(string)`). */
  lemma {:induction false} ParseNatToString(n: nat)
    ensures ParseNat(NatToString(n)) == n
    decreases n
  {
    if n >= 10 {
      ParseNatToString(n / 10);
      var s := NatToString(n);
      assert s[..|s| - 1] == NatToString(n / 10);
    }
  }

  /** `LexLe` is a total order on strings: total, transitive, antisymmetric. */
  lemma {:induction false} LexLeTotal(a: string, b: string)
    ensures LexLe(a, b) || LexLe(b, a)
    decreases |a|
  {
    if |a| > 0 && |b| > 0 && a[0] == b[0] {
      LexLeTotal(a[1..], b[1..]);
    }
  }

  lemma {:induction false} LexLeTransitive(a: string, b: string, c: string)
    requires LexLe(a, b) && LexLe(b, c)
    ensures LexLe(a, c)
    decreases |a|
  {
    if |a| > 0 && a[0] == b[0] && b[0] == c[0] {
      LexLeTransitive(a[1..], b[1..], c[1..]);
    }
  }

  lemma {:induction false} LexLeAntisymmetric(a: string, b: string)
    requires LexLe(a, b) && LexLe(b, a)
    ensures a == b
    decreases |a|
  {
    if |a| > 0 {
      LexLeAntisymmetric(a[1..], b[1..]);
      assert a == [a[0]] + a[1..] && b == [b[0]] + b[1..];
    }
  }
}
