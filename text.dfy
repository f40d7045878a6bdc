/**
 * String helpers shared by the model: the .NET / Python primitives the
 * LeetKhata sources call (Trim, ToLower, Contains, IndexOf, int.Parse,
 * integer formatting, str.split, str.partition), stated on `seq<char>`.
 * White space and case folding are the ASCII subsets of the platform rules.
 */
module Text {

  datatype Option<+T> = None | Some(value: T)

  /** The ASCII white-space characters: space and U+0009..U+000D. */
  predicate IsWhiteSpace(c: char) {
    c == ' ' || '\t' <= c <= '\r'
  }

  /** `string.IsNullOrWhiteSpace` on a non-null string (also true of ""). */
  predicate IsBlank(s: string) {
    forall i :: 0 <= i < |s| ==> IsWhiteSpace(s[i])
  }

  /** Strip leading white space. */
  function TrimStart(s: string): (r: string)
    ensures |r| <= |s| && r == s[|s| - |r|..]
    ensures forall i :: 0 <= i < |s| - |r| ==> IsWhiteSpace(s[i])
    ensures |r| > 0 ==> !IsWhiteSpace(r[0])
  {
    if |s| > 0 && IsWhiteSpace(s[0]) then TrimStart(s[1..]) else s
  }

  /** Strip trailing white space (`String.TrimEnd()` with no arguments). */
  function TrimEnd(s: string): (r: string)
    ensures |r| <= |s| && r == s[..|r|]
    ensures forall i :: |r| <= i < |s| ==> IsWhiteSpace(s[i])
    ensures |r| > 0 ==> !IsWhiteSpace(r[|r| - 1])
  {
    if |s| > 0 && IsWhiteSpace(s[|s| - 1]) then TrimEnd(s[..|s| - 1]) else s
  }

  /** Strip white space on both ends (`String.Trim()`, Python `str.strip()`). */
  function Trim(s: string): (r: string)
    ensures |r| <= |s|
    ensures |r| > 0 ==> !IsWhiteSpace(r[0]) && !IsWhiteSpace(r[|r| - 1])
    ensures r == [] <==> IsBlank(s)
  {
    var t := TrimStart(s);
    var r := TrimEnd(t);
    assert |r| > 0 ==> r[0] == t[0];
    assert IsBlank(s) ==> t == [];
    r
  }

  lemma TrimStartOfNonBlankHead(s: string)
    requires |s| > 0 && !IsWhiteSpace(s[0])
    ensures TrimStart(s) == s
  {
  }

  lemma TrimEndOfNonBlankTail(s: string)
    requires |s| > 0 && !IsWhiteSpace(s[|s| - 1])
    ensures TrimEnd(s) == s
  {
  }

  /** Trimming a string whose ends are not white space changes nothing. */
  lemma TrimOfTrimmed(s: string)
    requires |s| > 0 ==> !IsWhiteSpace(s[0]) && !IsWhiteSpace(s[|s| - 1])
    ensures Trim(s) == s
  {
    if |s| > 0 {
      TrimStartOfNonBlankHead(s);
      TrimEndOfNonBlankTail(s);
    }
  }

  /** Trailing white space appended to a string is exactly what TrimEnd removes. */
  lemma {:induction false} TrimEndDropsAppendedSpace(s: string, w: string)
    requires |s| > 0 && !IsWhiteSpace(s[|s| - 1])
    requires IsBlank(w)
    ensures TrimEnd(s + w) == s
  {
    if w == [] {
      assert s + w == s;
      TrimEndOfNonBlankTail(s);
    } else {
      var sw := s + w;
      assert sw[..|sw| - 1] == s + w[..|w| - 1];
      assert IsWhiteSpace(sw[|sw| - 1]);
      TrimEndDropsAppendedSpace(s, w[..|w| - 1]);
    }
  }

  /** Leading white space prepended to a string is exactly what TrimStart removes. */
  lemma {:induction false} TrimStartDropsPrependedSpace(w: string, s: string)
    requires |s| > 0 && !IsWhiteSpace(s[0])
    requires IsBlank(w)
    ensures TrimStart(w + s) == s
  {
    if w == [] {
      assert w + s == s;
      TrimStartOfNonBlankHead(s);
    } else {
      assert (w + s)[1..] == w[1..] + s;
      TrimStartDropsPrependedSpace(w[1..], s);
    }
  }

  /** Trimming a string with white space on both sides of a non-empty core gives that core. */
  lemma TrimSurrounded(before: string, core: string, after: string)
    requires IsBlank(before) && IsBlank(after)
    requires core != [] && !IsWhiteSpace(core[0]) && !IsWhiteSpace(core[|core| - 1])
    ensures Trim(before + core + after) == core
  {
    assert before + core + after == before + (core + after);
    TrimStartDropsPrependedSpace(before, core + after);
    TrimEndDropsAppendedSpace(core, after);
  }

  /** White space at the end of `v` is all that TrimEnd removes from `p + v` when `p` ends in something else. */
  lemma {:induction false} TrimEndAfter(p: string, v: string)
    requires p != [] && !IsWhiteSpace(p[|p| - 1])
    ensures TrimEnd(p + v) == p + TrimEnd(v)
    decreases |v|
  {
    if v == [] {
      assert p + v == p;
      TrimEndOfNonBlankTail(p);
    } else if IsWhiteSpace(v[|v| - 1]) {
      assert (p + v)[..|p + v| - 1] == p + v[..|v| - 1];
      TrimEndAfter(p, v[..|v| - 1]);
    } else {
      TrimEndOfNonBlankTail(p + v);
      TrimEndOfNonBlankTail(v);
    }
  }

  /** Stripping both ends after stripping the end is stripping both ends. */
  lemma TrimOfTrimEnd(v: string)
    ensures Trim(TrimEnd(v)) == Trim(v)
  {
    var T := Trim(v);
    var k := TrimIsInfix(v);
    if T != [] {
      var n := k + |T|;
      SplitInThree(v, k, n);
      BlankSlices(v, k, n);
      TrimEndOfPadded(v[..k], v[k..n], v[n..]);
    }
  }

  lemma SplitInThree(v: string, k: nat, n: nat)
    requires k <= n <= |v|
    ensures v == v[..k] + v[k..n] + v[n..]
  {
  }

  lemma BlankSlices(v: string, k: nat, n: nat)
    requires k <= n <= |v|
    requires forall j :: 0 <= j < k ==> IsWhiteSpace(v[j])
    requires forall j :: n <= j < |v| ==> IsWhiteSpace(v[j])
    ensures IsBlank(v[..k]) && IsBlank(v[n..])
  {
    assert forall j :: 0 <= j < |v[n..]| ==> v[n..][j] == v[n + j];
  }

  /** A core with white space on both sides, stripped at the end and then at both ends, is the core. */
  lemma TrimEndOfPadded(pre: string, core: string, suf: string)
    requires IsBlank(pre) && IsBlank(suf)
    requires core != [] && !IsWhiteSpace(core[0]) && !IsWhiteSpace(core[|core| - 1])
    ensures Trim(TrimEnd(pre + core + suf)) == core
  {
    var pc := pre + core;
    assert pc[|pc| - 1] == core[|core| - 1];
    TrimEndDropsAppendedSpace(pc, suf);
    assert pc == pre + core + [];
    TrimSurrounded(pre, core, []);
  }

  /** Trimming only removes characters. */
  lemma TrimKeepsAbsentChar(s: string, c: char)
    requires c !in s
    ensures c !in Trim(s)
  {
    var k := TrimIsInfix(s);
    assert Trim(s) == s[k..k + |Trim(s)|];
  }

  /**
   * `Trim(s)` is a contiguous piece of `s`, and what lies before and after it
   * is white space.
   */
  lemma TrimIsInfix(s: string) returns (k: nat)
    ensures k <= |s| - |Trim(s)| && Trim(s) == s[k..k + |Trim(s)|]
    ensures forall j :: 0 <= j < k ==> IsWhiteSpace(s[j])
    ensures forall j :: k + |Trim(s)| <= j < |s| ==> IsWhiteSpace(s[j])
  {
    var t := TrimStart(s);
    var r := TrimEnd(t);
    assert Trim(s) == r;
    k := |s| - |t|;
    assert t == s[k..];
    assert r == t[..|r|];
    assert r == s[k..k + |r|];
  }

  /** Trimming a trimmed string changes nothing. */
  lemma TrimIsTrimmed(s: string)
    ensures Trim(Trim(s)) == Trim(s)
  {
    TrimOfTrimmed(Trim(s));
  }

  /** ASCII lower-casing of one character. */
  function LowerChar(c: char): (r: char)
    ensures 'A' <= c <= 'Z' ==> 'a' <= r <= 'z'
    ensures !('A' <= c <= 'Z') ==> r == c
  {
    if 'A' <= c <= 'Z' then (c as int + 32) as char else c
  }

  /** `String.ToLower()` restricted to ASCII letters. */
  function Lower(s: string): (r: string)
    ensures |r| == |s|
    ensures forall i :: 0 <= i < |s| ==> r[i] == LowerChar(s[i])
  {
    seq(|s|, i requires 0 <= i < |s| => LowerChar(s[i]))
  }

  /** Lower-casing is idempotent. */
  lemma LowerIdempotent(s: string)
    ensures Lower(Lower(s)) == Lower(s)
  {
  }

  predicate StartsWith(s: string, prefix: string) {
    |prefix| <= |s| && s[..|prefix|] == prefix
  }

  /** `t` occurs in `s` starting at index `i`. */
  predicate OccursAt(s: string, t: string, i: int) {
    0 <= i <= |s| - |t| && s[i..i + |t|] == t
  }

  /** Ordinal substring test (`String.Contains(string)`). */
  predicate Contains(s: string, t: string) {
    exists i | 0 <= i <= |s| - |t| :: OccursAt(s, t, i)
  }

  /** `String.Contains(t, StringComparison.OrdinalIgnoreCase)` on ASCII. */
  predicate ContainsIgnoreCase(s: string, t: string) {
    Contains(Lower(s), Lower(t))
  }

  /** A string that lacks one of the characters of `t` cannot contain `t`. */
  lemma NotContainsMissingChar(s: string, t: string, k: nat)
    requires k < |t| && t[k] !in s
    ensures !Contains(s, t)
  {
    forall i | 0 <= i <= |s| - |t|
      ensures !OccursAt(s, t, i)
    {
      assert s[i..i + |t|][k] == s[i + k];
      assert s[i + k] in s;
    }
  }

  /** `String.IndexOf(char)`: the first index of `c`, or -1. */
  function IndexOf(s: string, c: char): (r: int)
    ensures -1 <= r < |s|
    ensures r == -1 <==> c !in s
    ensures r >= 0 ==> s[r] == c && c !in s[..r]
  {
    if |s| == 0 then -1
    else if s[0] == c then 0
    else
      var k := IndexOf(s[1..], c);
      assert s[1..][..k + 1] == s[1..k + 2] by { if k >= 0 { } }
      if k == -1 then -1 else k + 1
  }

  /**
   * `key`, a separator absent from `key`, then `value`: the separator is the
   * first one, the pieces around it are `key` and `value`, and the line has
   * no white space at its ends when its pieces have none.
   */
  lemma JoinedLine(key: string, c: char, value: string)
    requires c !in key && !IsWhiteSpace(c)
    requires key != [] ==> !IsWhiteSpace(key[0])
    requires value != [] ==> !IsWhiteSpace(value[|value| - 1])
    ensures var line := key + [c] + value;
      && IndexOf(line, c) == |key| && line[..|key|] == key && line[|key| + 1..] == value
      && Trim(line) == line
  {
    var line := key + [c] + value;
    assert line[..|key|] == key;
    assert line[|key| + 1..] == value;
    JoinedLineIndex(key, c, value);
    assert line[0] == if key != [] then key[0] else c;
    assert line[|line| - 1] == if value != [] then value[|value| - 1] else c;
    TrimOfTrimmed(line);
  }

  lemma {:induction false} JoinedLineIndex(key: string, c: char, value: string)
    requires c !in key
    ensures IndexOf(key + [c] + value, c) == |key|
    decreases |key|
  {
    var line := key + [c] + value;
    if key == [] {
      assert line[0] == c;
    } else {
      assert line[0] == key[0];
      assert line[1..] == key[1..] + [c] + value;
      JoinedLineIndex(key[1..], c, value);
    }
  }

  /** Replace every non-overlapping "__", scanning left to right, by ":". */
  function ReplaceUnderscorePairs(s: string): (r: string)
    ensures |s| == 0 <==> |r| == 0
    ensures |r| > 0 ==> (r[0] == '_' <==> s[0] == '_' && (|s| == 1 || s[1] != '_'))
    ensures '_' !in s ==> r == s
  {
    if |s| == 0 then []
    else if |s| >= 2 && s[0] == '_' && s[1] == '_' then ":" + ReplaceUnderscorePairs(s[2..])
    else [s[0]] + ReplaceUnderscorePairs(s[1..])
  }

  predicate NoUnderscorePair(r: string) {
    forall i :: 0 <= i < |r| - 1 ==> !(r[i] == '_' && r[i + 1] == '_')
  }

  /** No "__" is left after the replacement. */
  lemma {:induction false} ReplaceUnderscorePairsLeavesNoPair(s: string)
    ensures NoUnderscorePair(ReplaceUnderscorePairs(s))
    decreases |s|
  {
    var r := ReplaceUnderscorePairs(s);
    if |s| >= 2 && s[0] == '_' && s[1] == '_' {
      var rest := ReplaceUnderscorePairs(s[2..]);
      ReplaceUnderscorePairsLeavesNoPair(s[2..]);
      assert r == ":" + rest;
      forall i | 0 < i < |r| - 1
        ensures !(r[i] == '_' && r[i + 1] == '_')
      {
        var j := i - 1;
        assert r[i] == rest[j] && r[i + 1] == rest[j + 1];
        assert !(rest[j] == '_' && rest[j + 1] == '_');
      }
    } else if |s| > 0 {
      var rest := ReplaceUnderscorePairs(s[1..]);
      ReplaceUnderscorePairsLeavesNoPair(s[1..]);
      assert r == [s[0]] + rest;
      forall i | 0 < i < |r| - 1
        ensures !(r[i] == '_' && r[i + 1] == '_')
      {
        var j := i - 1;
        assert r[i] == rest[j] && r[i + 1] == rest[j + 1];
        assert !(rest[j] == '_' && rest[j + 1] == '_');
      }
    }
  }

  /**
   * The scan never pairs across a boundary that is not an underscore: the two
   * sides of such a boundary are rewritten on their own.
   */
  lemma {:induction false} ReplaceUnderscorePairsAppend(a: string, b: string)
    requires a == [] || a[|a| - 1] != '_'
    ensures ReplaceUnderscorePairs(a + b) == ReplaceUnderscorePairs(a) + ReplaceUnderscorePairs(b)
    decreases |a|
  {
    var t := a + b;
    if a == [] {
      assert t == b;
    } else if |a| >= 2 && a[0] == '_' && a[1] == '_' {
      var ra, rb := ReplaceUnderscorePairs(a[2..]), ReplaceUnderscorePairs(b);
      assert t[0] == '_' && t[1] == '_' && t[2..] == a[2..] + b;
      ReplaceUnderscorePairsAppend(a[2..], b);
      calc {
        ReplaceUnderscorePairs(t);
        ":" + ReplaceUnderscorePairs(a[2..] + b);
        ":" + (ra + rb);
        { ConcatAssoc(":", ra, rb); }
        (":" + ra) + rb;
        ReplaceUnderscorePairs(a) + rb;
      }
    } else {
      var ra, rb := ReplaceUnderscorePairs(a[1..]), ReplaceUnderscorePairs(b);
      assert |a| == 1 ==> a[0] != '_';
      assert t[0] == a[0] && t[1..] == a[1..] + b;
      assert !(|t| >= 2 && t[0] == '_' && t[1] == '_');
      ReplaceUnderscorePairsAppend(a[1..], b);
      calc {
        ReplaceUnderscorePairs(t);
        [a[0]] + ReplaceUnderscorePairs(a[1..] + b);
        [a[0]] + (ra + rb);
        { ConcatAssoc([a[0]], ra, rb); }
        ([a[0]] + ra) + rb;
        ReplaceUnderscorePairs(a) + rb;
      }
    }
  }

  lemma ConcatAssoc(x: string, y: string, z: string)
    ensures x + (y + z) == (x + y) + z
  {
  }

  /**
   * A "__" that the scan reaches on a fresh start, after text that does not
   * end in an underscore, becomes ":" and the two sides are rewritten on their own.
   */
  lemma ReplaceUnderscorePair(a: string, b: string)
    requires a == [] || a[|a| - 1] != '_'
    ensures ReplaceUnderscorePairs(a + "__" + b) == ReplaceUnderscorePairs(a) + ":" + ReplaceUnderscorePairs(b)
  {
    var u := "__" + b;
    assert u[0] == '_' && u[1] == '_' && u[2..] == b;
    ReplaceUnderscorePairsAppend(a, u);
    calc {
      ReplaceUnderscorePairs(a + "__" + b);
      { ConcatAssoc(a, "__", b); }
      ReplaceUnderscorePairs(a + u);
      ReplaceUnderscorePairs(a) + ReplaceUnderscorePairs(u);
      ReplaceUnderscorePairs(a) + (":" + ReplaceUnderscorePairs(b));
      { ConcatAssoc(ReplaceUnderscorePairs(a), ":", ReplaceUnderscorePairs(b)); }
      ReplaceUnderscorePairs(a) + ":" + ReplaceUnderscorePairs(b);
    }
  }

  function DigitChar(d: nat): (c: char)
    requires d < 10
    ensures '0' <= c <= '9'
  {
    ('0' as int + d) as char
  }

  function DigitValue(c: char): (d: nat)
    requires '0' <= c <= '9'
    ensures d < 10
  {
    c as int - '0' as int
  }

  predicate AllDigits(s: string) {
    forall i :: 0 <= i < |s| ==> '0' <= s[i] <= '9'
  }

  /** The value of a decimal digit string, most significant digit first. */
  function DigitsValue(s: string): nat
    requires AllDigits(s)
  {
    if |s| == 0 then 0 else DigitsValue(s[..|s| - 1]) * 10 + DigitValue(s[|s| - 1])
  }

  /** Decimal rendering of a natural number (string interpolation of an int). */
  function NatToString(n: nat): (r: string)
    ensures |r| > 0 && AllDigits(r)
    ensures |r| > 1 ==> r[0] != '0'
  {
    if n < 10 then [DigitChar(n)] else NatToString(n / 10) + [DigitChar(n % 10)]
  }

  lemma {:induction false} DigitsValueOfNatToString(n: nat)
    ensures DigitsValue(NatToString(n)) == n
  {
    var s := NatToString(n);
    if n >= 10 {
      assert s[..|s| - 1] == NatToString(n / 10);
      DigitsValueOfNatToString(n / 10);
    }
  }

  const Int32Min: int := -0x8000_0000
  const Int32Max: int := 0x7FFF_FFFF

  /** The digits of a trimmed number: what follows its sign, if it has one. */
  function DigitsOf(t: string): (digits: string)
    ensures |digits| <= |t|
  {
    if t != [] && (t[0] == '-' || t[0] == '+') then t[1..] else t
  }

  /** The value of a trimmed number with its sign applied. */
  function SignedValue(t: string): int
    requires AllDigits(DigitsOf(t))
  {
    if t != [] && t[0] == '-' then -(DigitsValue(DigitsOf(t)) as int) else DigitsValue(DigitsOf(t))
  }

  /**
   * `int.Parse(string)` with the default integer style: optional white space
   * on both ends, an optional leading '+' or '-', at least one decimal digit,
   * and a value inside the 32-bit signed range; anything else is a failure.
   */
  function ParseInt32(s: string): (r: Option<int>)
    ensures r.Some? ==> Int32Min <= r.value <= Int32Max
    ensures r.Some? ==> !IsBlank(s)
    ensures var t := Trim(s);
      r.Some? <==> DigitsOf(t) != [] && AllDigits(DigitsOf(t)) && Int32Min <= SignedValue(t) <= Int32Max
    ensures r.Some? ==> r.value == SignedValue(Trim(s))
  {
    var t := Trim(s);
    var digits := DigitsOf(t);
    if |digits| == 0 || !AllDigits(digits) then None
    else
      var v := SignedValue(t);
      if Int32Min <= v <= Int32Max then Some(v) else None
  }

  /** Parsing the decimal rendering of a non-negative 32-bit value gives it back. */
  lemma ParseInt32OfNatToString(n: nat)
    requires n <= Int32Max
    ensures ParseInt32(NatToString(n)) == Some(n)
  {
    var s := NatToString(n);
    TrimOfTrimmed(s);
    assert '0' <= s[0] <= '9';
    assert DigitsOf(s) == s;
    DigitsValueOfNatToString(n);
    assert SignedValue(s) == n;
  }

  /** Parsing a minus sign and the decimal rendering of a value down to -2^31 gives that negative value. */
  lemma ParseInt32OfNegated(n: nat)
    requires 0 < n <= -Int32Min
    ensures ParseInt32("-" + NatToString(n)) == Some(-(n as int))
  {
    var digits := NatToString(n);
    var s := "-" + digits;
    assert s[0] == '-' && s[|s| - 1] == digits[|digits| - 1];
    TrimOfTrimmed(s);
    assert DigitsOf(s) == digits;
    DigitsValueOfNatToString(n);
    assert SignedValue(s) == -(n as int);
  }

  /** White space around a number does not change what it parses to. */
  lemma ParseInt32IgnoresSurroundingSpace(before: string, number: string, after: string)
    requires IsBlank(before) && IsBlank(after)
    requires number != [] && !IsWhiteSpace(number[0]) && !IsWhiteSpace(number[|number| - 1])
    ensures ParseInt32(before + number + after) == ParseInt32(number)
  {
    TrimSurrounded(before, number, after);
    TrimOfTrimmed(number);
  }

  /** Python `s.split(sep)` for a one-character separator. */
  function Split(s: string, sep: char): (parts: seq<string>)
    ensures |parts| >= 1
    ensures |parts| == 1 + multiset(s)[sep]
    ensures forall k :: 0 <= k < |parts| ==> sep !in parts[k]
    ensures JoinWith(parts, sep) == s
    decreases |s|
  {
    var i := IndexOf(s, sep);
    if i == -1 then
      assert multiset(s)[sep] == 0;
      [s]
    else
      var rest := Split(s[i + 1..], sep);
      SplitCount(s, i, sep);
      [s[..i]] + rest
  }

  lemma SplitCount(s: string, i: nat, sep: char)
    requires i < |s| && s[i] == sep && sep !in s[..i]
    ensures multiset(s)[sep] == 1 + multiset(s[i + 1..])[sep]
    ensures JoinWith([s[..i], s[i + 1..]], sep) == s
  {
    assert s == s[..i] + [sep] + s[i + 1..];
    assert multiset(s) == multiset(s[..i]) + multiset{sep} + multiset(s[i + 1..]);
    assert multiset(s[..i])[sep] == 0;
  }

  /** Python `sep.join(parts)`. */
  function JoinWith(parts: seq<string>, sep: char): string
    requires |parts| >= 1
  {
    if |parts| == 1 then parts[0] else parts[0] + [sep] + JoinWith(parts[1..], sep)
  }

  /** Splitting a joined list of separator-free parts gives the parts back. */
  lemma {:induction false} SplitJoinWith(parts: seq<string>, sep: char)
    requires |parts| >= 1
    requires forall k :: 0 <= k < |parts| ==> sep !in parts[k]
    ensures Split(JoinWith(parts, sep), sep) == parts
    decreases |parts|
  {
    var s := JoinWith(parts, sep);
    if |parts| == 1 {
      assert IndexOf(s, sep) == -1;
    } else {
      var rest := JoinWith(parts[1..], sep);
      assert s == parts[0] + [sep] + rest;
      var i := IndexOf(s, sep);
      assert s[|parts[0]|] == sep;
      assert i == |parts[0]| by {
        forall j | 0 <= j < |parts[0]| ensures s[j] != sep {
          assert s[j] == parts[0][j];
        }
        assert s[..|parts[0]|] == parts[0];
      }
      assert s[..i] == parts[0];
      assert s[i + 1..] == rest;
      SplitJoinWith(parts[1..], sep);
    }
  }

  /** `f` applied to each element, in order. */
  function MapSeq<A, B>(f: A -> B, xs: seq<A>): (ys: seq<B>)
    ensures |ys| == |xs|
    ensures forall i :: 0 <= i < |xs| ==> ys[i] == f(xs[i])
  {
    seq(|xs|, i requires 0 <= i < |xs| => f(xs[i]))
  }

  /** A prefix one longer is the shorter prefix and the next element. */
  lemma TakeSnoc<T>(s: seq<T>, n: nat)
    requires n < |s|
    ensures s[..n + 1] == s[..n] + [s[n]]
  {
  }

  /** The last element of a non-empty `b` is also the last of `a + b`. */
  lemma AppendLast<T>(a: seq<T>, b: seq<T>)
    requires b != []
    ensures b == b[..|b| - 1] + [b[|b| - 1]]
    ensures a + b == (a + b[..|b| - 1]) + [b[|b| - 1]]
  {
  }

  lemma AppendEmpty<T>(a: seq<T>)
    ensures a + [] == a
  {
  }

  lemma MapSeqAppend<A, B>(f: A -> B, a: seq<A>, b: seq<A>)
    ensures MapSeq(f, a + b) == MapSeq(f, a) + MapSeq(f, b)
  {
  }

  /** Python `s.partition(sep)` when `sep` occurs: text before and after its first occurrence. */
  function Partition(s: string, sep: char): (r: (string, string))
    requires sep in s
    ensures s == r.0 + [sep] + r.1
    ensures sep !in r.0
  {
    var i := IndexOf(s, sep);
    (s[..i], s[i + 1..])
  }
}
