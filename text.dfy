/** The conventional optional value. */
module Maybe {
  datatype Option<+T> = None | Some(value: T) {
    function GetOr(default: T): T {
      match this
      case Some(v) => v
      case None => default
    }
  }
}

/**
 * The JavaScript string primitives the plugin relies on, over `seq<char>`:
 * `toLowerCase`, `trim`, `split`/`join`, `includes`, decimal rendering of
 * integers, `parseInt(_, 10)` and a global pattern replacement.
 */
module Text {
  import opened Maybe

  // ---------------------------------------------------------------- case

  /** ASCII capital letters; `toLowerCase` is modelled on these only. */
  predicate IsUpper(c: char) { 'A' <= c <= 'Z' }

  predicate IsLowerCase(s: string) { forall i :: 0 <= i < |s| ==> !IsUpper(s[i]) }

  /** A capital becomes the small letter at the same place in the alphabet; anything else is kept. */
  function LowerChar(c: char): (r: char)
    ensures !IsUpper(r)
    ensures !IsUpper(c) ==> r == c
    ensures IsUpper(c) ==> 'a' <= r <= 'z' && r as int - 'a' as int == c as int - 'A' as int
  {
    if IsUpper(c) then (c as int + 32) as char else c
  }

  function Lower(s: string): (r: string)
    ensures |r| == |s| && IsLowerCase(r)
    ensures IsLowerCase(s) ==> r == s
  {
    seq(|s|, i requires 0 <= i < |s| => LowerChar(s[i]))
  }

  /**
   * Lower-casing works letter by letter: each capital becomes the small
   * letter at the same place in the alphabet, and every other character is kept.
   */
  lemma LowerLetters(s: string)
    ensures var r := Lower(s);
      && |r| == |s|
      && (forall i :: 0 <= i < |s| && !IsUpper(s[i]) ==> r[i] == s[i])
      && (forall i :: 0 <= i < |s| && IsUpper(s[i]) ==>
            'a' <= r[i] <= 'z' && r[i] as int - 'a' as int == s[i] as int - 'A' as int)
  {
  }

  /** Every entry lower-cased. */
  function LowerEach(parts: seq<string>): (r: seq<string>)
    ensures |r| == |parts|
    ensures forall i :: 0 <= i < |parts| ==> r[i] == Lower(parts[i])
  {
    seq(|parts|, i requires 0 <= i < |parts| => Lower(parts[i]))
  }

  lemma LowerConcat(a: string, b: string)
    ensures Lower(a + b) == Lower(a) + Lower(b)
  {
    forall i | 0 <= i < |a + b| ensures Lower(a + b)[i] == (Lower(a) + Lower(b))[i] {
      if i < |a| {
        assert (a + b)[i] == a[i];
      } else {
        assert (a + b)[i] == b[i - |a|];
      }
    }
  }

  /** Lower-casing after a join is lower-casing each piece, when the separator is no capital. */
  lemma {:induction false} LowerJoin(parts: seq<string>, sep: char)
    requires !IsUpper(sep)
    ensures Lower(Join(parts, sep)) == Join(LowerEach(parts), sep)
    decreases |parts|
  {
    if |parts| > 1 {
      LowerJoin(parts[1..], sep);
      assert LowerEach(parts)[1..] == LowerEach(parts[1..]);
      LowerConcat(parts[0] + [sep], Join(parts[1..], sep));
      LowerConcat(parts[0], [sep]);
      assert Lower([sep]) == [sep];
    }
  }

  // ---------------------------------------------------------- whitespace

  /** The characters JavaScript's `trim` and `parseInt` skip: white space and line terminators. */
  predicate IsSpace(c: char) {
    c == ' ' || c == '\t' || c == '\n' || c == '\r' || c == '\U{000B}' || c == '\U{000C}'
    || c == '\U{00A0}' || c == '\U{1680}' || ('\U{2000}' <= c <= '\U{200A}')
    || c == '\U{2028}' || c == '\U{2029}' || c == '\U{202F}' || c == '\U{205F}'
    || c == '\U{3000}' || c == '\U{FEFF}'
  }

  predicate IsTrimmed(s: string) {
    s == [] || (!IsSpace(s[0]) && !IsSpace(s[|s| - 1]))
  }

  function TrimStart(s: string): (r: string)
    ensures |r| <= |s| && r == s[|s| - |r|..]
    ensures r == [] || !IsSpace(r[0])
    ensures forall i :: 0 <= i < |s| - |r| ==> IsSpace(s[i])
    decreases |s|
  {
    if |s| > 0 && IsSpace(s[0]) then TrimStart(s[1..]) else s
  }

  function TrimEnd(s: string): (r: string)
    ensures |r| <= |s| && r == s[..|r|]
    ensures r == [] || !IsSpace(r[|r| - 1])
    ensures forall i :: |r| <= i < |s| ==> IsSpace(s[i])
    decreases |s|
  {
    if |s| > 0 && IsSpace(s[|s| - 1]) then TrimEnd(s[..|s| - 1]) else s
  }

  predicate AllSpace(s: string) {
    forall i :: 0 <= i < |s| ==> IsSpace(s[i])
  }

  /** `s.trim()`: `s` with its leading and trailing white space removed. */
  function Trim(s: string): (r: string)
    ensures IsTrimmed(r)
    ensures IsTrimmed(s) ==> r == s
    ensures forall c :: c in r ==> c in s
  {
    TrimEndsTrimmed(s);
    TrimmedUnchanged(s);
    TrimKeepsChars(s);
    TrimEnd(TrimStart(s))
  }

  lemma TrimEndsTrimmed(s: string)
    ensures IsTrimmed(TrimEnd(TrimStart(s)))
  {
    var t := TrimStart(s);
    var r := TrimEnd(t);
    if r != [] {
      assert r[0] == t[0];
    }
  }

  lemma TrimmedUnchanged(s: string)
    ensures IsTrimmed(s) ==> TrimEnd(TrimStart(s)) == s
  {
    if IsTrimmed(s) {
      assert TrimStart(s) == s;
    }
  }

  lemma TrimKeepsChars(s: string)
    ensures forall c :: c in TrimEnd(TrimStart(s)) ==> c in s
  {
    var t := TrimStart(s);
    var r := TrimEnd(t);
    var k := |s| - |t|;
    forall i | 0 <= i < |r| ensures r[i] == s[k + i] {
      assert r[i] == t[i];
    }
    forall c | c in r ensures c in s {
      var i :| 0 <= i < |r| && r[i] == c;
      assert s[k + i] == c;
    }
  }

  /**
   * What trimming leaves is what lies between a blank prefix and a blank
   * suffix of the text; with `TrimPadded` this fixes the result.
   */
  lemma TrimShape(s: string)
    ensures exists a, b :: AllSpace(a) && AllSpace(b) && s == a + Trim(s) + b
  {
    var t := TrimStart(s);
    var r := TrimEnd(t);
    var a, b := s[..|s| - |t|], t[|r|..];
    assert AllSpace(a) && AllSpace(b) && s == a + r + b by {
      TrimStartSplits(s);
      TrimEndSplits(t);
      ConcatAssoc(a, r, b);
    }
    BlankPadded(s, Trim(s), a, b);
  }

  lemma BlankPadded(s: string, r: string, a: string, b: string)
    requires AllSpace(a) && AllSpace(b) && s == a + r + b
    ensures exists a, b :: AllSpace(a) && AllSpace(b) && s == a + r + b
  {
  }

  /** The first pass removes a blank prefix. */
  lemma TrimStartSplits(s: string)
    ensures var t := TrimStart(s); var a := s[..|s| - |t|];
      AllSpace(a) && s == a + t
  {
    var t := TrimStart(s);
    var k := |s| - |t|;
    assert s == s[..k] + t by {
      assert t == s[k..];
      assert s == s[..k] + s[k..];
    }
    assert AllSpace(s[..k]) by {
      forall i | 0 <= i < k ensures IsSpace(s[..k][i]) {
        assert s[..k][i] == s[i];
      }
    }
  }

  /** The second pass removes a blank suffix. */
  lemma TrimEndSplits(t: string)
    ensures var r := TrimEnd(t); var b := t[|r|..];
      AllSpace(b) && t == r + b
  {
    var r := TrimEnd(t);
    assert t == r + t[|r|..] by {
      assert r == t[..|r|];
      assert t == t[..|r|] + t[|r|..];
    }
    assert AllSpace(t[|r|..]) by {
      forall i | 0 <= i < |t| - |r| ensures IsSpace(t[|r|..][i]) {
        assert t[|r|..][i] == t[|r| + i];
      }
    }
  }

  /** Trimming lower-case text gives lower-case text. */
  lemma TrimLowerCase(s: string)
    requires IsLowerCase(s)
    ensures IsLowerCase(Trim(s))
  {
    var r := Trim(s);
    forall i | 0 <= i < |r| ensures !IsUpper(r[i]) {
      assert r[i] in r;
    }
  }

  /** Blanks have no capitals, so lower-casing keeps them. */
  lemma LowerBlank(s: string)
    requires AllSpace(s)
    ensures Lower(s) == s
  {
    assert IsLowerCase(s) by {
      forall i | 0 <= i < |s| ensures !IsUpper(s[i]) {
        assert IsSpace(s[i]);
      }
    }
  }

  /** Lower-casing trimmed text leaves it trimmed: a letter is never a blank. */
  lemma LowerTrimmed(t: string)
    requires IsTrimmed(t)
    ensures IsTrimmed(Lower(t))
  {
    LowerLetters(t);
  }

  lemma {:induction false} TrimStartPadded(a: string, x: string)
    requires AllSpace(a) && (x == [] || !IsSpace(x[0]))
    ensures TrimStart(a + x) == x
    decreases |a|
  {
    if |a| > 0 {
      assert (a + x)[1..] == a[1..] + x;
      TrimStartPadded(a[1..], x);
    }
  }

  lemma {:induction false} TrimEndPadded(x: string, b: string)
    requires AllSpace(b) && (x == [] || !IsSpace(x[|x| - 1]))
    ensures TrimEnd(x + b) == x
    decreases |b|
  {
    if |b| > 0 {
      assert (x + b)[..|x + b| - 1] == x + b[..|b| - 1];
      TrimEndPadded(x, b[..|b| - 1]);
    }
  }

  /** Trimming removes exactly the blanks typed around a trimmed text, and a blank text trims to nothing. */
  lemma TrimPadded(a: string, t: string, b: string)
    requires AllSpace(a) && AllSpace(b) && IsTrimmed(t)
    ensures Trim(a + t + b) == t
  {
    if t == [] {
      assert a + t + b == (a + b) + [];
      TrimStartPadded(a + b, []);
    } else {
      assert a + t + b == a + (t + b);
      TrimStartPadded(a, t + b);
      TrimEndPadded(t, b);
    }
  }

  // ------------------------------------------------------- split and join

  /** `s.split(sep)`: the pieces between separators; never empty (`"".split(",")` is `[""]`). */
  function Split(s: string, sep: char): (parts: seq<string>)
    ensures |parts| >= 1
    ensures forall i :: 0 <= i < |parts| ==> sep !in parts[i]
    decreases |s|
  {
    if |s| == 0 then [""]
    else
      var rest := Split(s[1..], sep);
      if s[0] == sep then [""] + rest else [[s[0]] + rest[0]] + rest[1..]
  }

  /** The pieces of lower-case text are lower case. */
  lemma {:induction false} SplitLowerCase(s: string, sep: char)
    requires IsLowerCase(s)
    ensures forall i :: 0 <= i < |Split(s, sep)| ==> IsLowerCase(Split(s, sep)[i])
    decreases |s|
  {
    if |s| > 0 {
      var rest := Split(s[1..], sep);
      SplitLowerCase(s[1..], sep);
      if s[0] != sep {
        var head := [s[0]] + rest[0];
        assert IsLowerCase(head) by {
          forall i | 0 <= i < |head| ensures !IsUpper(head[i]) {
            if i > 0 { assert head[i] == rest[0][i - 1]; }
          }
        }
      }
    }
  }

  /** `parts.join(sep)`. */
  function Join(parts: seq<string>, sep: char): string
    decreases |parts|
  {
    if |parts| == 0 then ""
    else if |parts| == 1 then parts[0]
    else parts[0] + [sep] + Join(parts[1..], sep)
  }

  /** Joining the pieces of a split gives back the original text. */
  lemma {:induction false} JoinSplit(s: string, sep: char)
    ensures Join(Split(s, sep), sep) == s
    decreases |s|
  {
    if |s| > 0 {
      var rest := Split(s[1..], sep);
      JoinSplit(s[1..], sep);
      if s[0] == sep {
        assert Split(s, sep) == [""] + rest;
        assert ([""] + rest)[1..] == rest;
      } else if |rest| > 1 {
        assert Join(rest, sep) == rest[0] + [sep] + Join(rest[1..], sep);
        assert s == [s[0]] + s[1..];
      } else {
        assert s == [s[0]] + s[1..];
      }
    }
  }

  lemma {:induction false} SplitNoSeparator(x: string, sep: char)
    requires sep !in x
    ensures Split(x, sep) == [x]
    decreases |x|
  {
    if |x| > 0 {
      SplitNoSeparator(x[1..], sep);
      assert [x[0]] + x[1..] == x;
    }
  }

  lemma {:induction false} SplitAfterPiece(x: string, rest: string, sep: char)
    requires sep !in x
    ensures Split(x + [sep] + rest, sep) == [x] + Split(rest, sep)
    decreases |x|
  {
    var s := x + [sep] + rest;
    if |x| == 0 {
      assert s[0] == sep && s[1..] == rest;
    } else {
      assert s[0] == x[0] && s[1..] == x[1..] + [sep] + rest;
      SplitAfterPiece(x[1..], rest, sep);
      assert [x[0]] + x[1..] == x;
    }
  }

  /** Splitting a join of separator-free pieces gives back the pieces. */
  lemma {:induction false} SplitJoin(parts: seq<string>, sep: char)
    requires |parts| >= 1
    requires forall i :: 0 <= i < |parts| ==> sep !in parts[i]
    ensures Split(Join(parts, sep), sep) == parts
    decreases |parts|
  {
    if |parts| == 1 {
      SplitNoSeparator(parts[0], sep);
    } else {
      SplitJoin(parts[1..], sep);
      SplitAfterPiece(parts[0], Join(parts[1..], sep), sep);
      assert [parts[0]] + parts[1..] == parts;
    }
  }

  /** Every character of a join is the separator or a character of one of the pieces. */
  lemma {:induction false} JoinChars(parts: seq<string>, sep: char, c: char)
    requires c in Join(parts, sep)
    ensures c == sep || exists i :: 0 <= i < |parts| && c in parts[i]
    decreases |parts|
  {
    if |parts| > 1 {
      var tail := Join(parts[1..], sep);
      assert Join(parts, sep) == parts[0] + [sep] + tail;
      if c in tail {
        JoinChars(parts[1..], sep, c);
        if c != sep {
          var i :| 0 <= i < |parts| - 1 && c in parts[1..][i];
          assert c in parts[i + 1];
        }
      }
    }
  }

  /** The join of non-empty pieces starts with the first piece and ends with the last. */
  lemma {:induction false} JoinEnds(parts: seq<string>, sep: char)
    requires |parts| >= 1
    requires forall i :: 0 <= i < |parts| ==> parts[i] != []
    ensures var s := Join(parts, sep);
      |s| > 0 && s[0] == parts[0][0] && s[|s| - 1] == parts[|parts| - 1][|parts[|parts| - 1]| - 1]
    decreases |parts|
  {
    if |parts| > 1 {
      JoinEnds(parts[1..], sep);
    }
  }

  /** A character that is neither the separator nor in any piece is not in the join. */
  lemma {:induction false} JoinAvoids(parts: seq<string>, sep: char, c: char)
    requires c != sep && forall i :: 0 <= i < |parts| ==> c !in parts[i]
    ensures c !in Join(parts, sep)
    decreases |parts|
  {
    if |parts| > 1 {
      JoinAvoids(parts[1..], sep, c);
    }
  }

  /** Regrouping a concatenation; the solver does not do it on its own at an acceptable cost. */
  lemma ConcatAssoc<T>(x: seq<T>, y: seq<T>, z: seq<T>)
    ensures (x + y) + z == x + (y + z)
  {
  }

  // ------------------------------------------------------------ substring

  /** `s.includes(sub)`. */
  predicate Contains(s: string, sub: string) {
    exists i :: 0 <= i <= |s| && sub <= s[i..]
  }

  /** A text lacking one of the characters of `sub` does not contain `sub`. */
  lemma AbsentCharNotContained(s: string, sub: string, j: nat)
    requires j < |sub| && sub[j] !in s
    ensures !Contains(s, sub)
  {
    forall i | 0 <= i <= |s| ensures !(sub <= s[i..]) {
      if i + j < |s| {
        assert s[i..][j] == s[i + j] && s[i + j] in s;
      }
    }
  }

  // --------------------------------------------------------------- digits

  predicate IsDigit(c: char) { '0' <= c <= '9' }

  predicate AllDigits(s: string) { forall i :: 0 <= i < |s| ==> IsDigit(s[i]) }

  function DigitChar(d: nat): (c: char)
    requires d < 10
    ensures IsDigit(c)
  {
    (48 + d) as char
  }

  function DigitValue(c: char): (d: nat)
    requires IsDigit(c)
    ensures d < 10 && DigitChar(d) == c
  {
    c as int - 48
  }

  /** Decimal rendering of a natural number, as template literals print it. */
  function NatToString(n: nat): (s: string)
    ensures |s| >= 1 && AllDigits(s)
    decreases n
  {
    if n < 10 then [DigitChar(n)] else NatToString(n / 10) + [DigitChar(n % 10)]
  }

  /** Decimal rendering of an integer, with a leading `-` when negative. */
  function IntToString(i: int): string {
    if i < 0 then "-" + NatToString(-i) else NatToString(i)
  }

  /** Only digits and a leading minus sign appear in a decimal rendering. */
  lemma IntToStringChars(i: int, c: char)
    requires c != '-' && !IsDigit(c)
    ensures c !in IntToString(i)
  {
    var digits := NatToString(if i < 0 then -i else i);
    assert forall j :: 0 <= j < |digits| ==> digits[j] != c;
  }

  /** The value of a string of decimal digits. */
  function DigitsValue(s: string): nat
    requires AllDigits(s)
    decreases |s|
  {
    if |s| == 0 then 0 else DigitsValue(s[..|s| - 1]) * 10 + DigitValue(s[|s| - 1])
  }

  /** The longest prefix of `s` made of decimal digits. */
  function DigitPrefix(s: string): (d: string)
    ensures AllDigits(d) && d <= s
    ensures |d| == |s| || !IsDigit(s[|d|])
    decreases |s|
  {
    if |s| > 0 && IsDigit(s[0]) then [s[0]] + DigitPrefix(s[1..]) else []
  }

  /**
   * `parseInt(s, 10)`: skip leading white space, read an optional sign and
   * the longest run of digits after it; `None` stands for `NaN`.
   */
  function ParseInt(s: string): Option<int> {
    var t := TrimStart(s);
    var signed := |t| > 0 && (t[0] == '-' || t[0] == '+');
    var digits := DigitPrefix(if signed then t[1..] else t);
    if digits == "" then None
    else if signed && t[0] == '-' then Some(-(DigitsValue(digits) as int))
    else Some(DigitsValue(digits))
  }

  /** Reading back the decimal rendering of `n` gives `n`. */
  lemma {:induction false} NatToStringValue(n: nat)
    ensures DigitsValue(NatToString(n)) == n
    decreases n
  {
    if n >= 10 {
      var s := NatToString(n);
      NatToStringValue(n / 10);
      assert s[..|s| - 1] == NatToString(n / 10);
    }
  }

  lemma NatToStringInjective(a: nat, b: nat)
    requires NatToString(a) == NatToString(b)
    ensures a == b
  {
    NatToStringValue(a);
    NatToStringValue(b);
  }

  /** A run of digits followed by a non-digit is exactly what `DigitPrefix` reads. */
  lemma {:induction false} DigitPrefixOfDigits(d: string, t: string)
    requires AllDigits(d)
    requires t == [] || !IsDigit(t[0])
    ensures DigitPrefix(d + t) == d
    decreases |d|
  {
    if |d| == 0 {
      assert d + t == t;
    } else {
      assert (d + t)[1..] == d[1..] + t;
      DigitPrefixOfDigits(d[1..], t);
      assert [d[0]] + d[1..] == d;
    }
  }

  /** `parseInt` reads back every decimal rendering of a natural number. */
  lemma ParseIntNatToString(n: nat)
    ensures ParseInt(NatToString(n)) == Some(n)
  {
    var s := NatToString(n);
    assert !IsSpace(s[0]) && s[0] != '-' && s[0] != '+';
    assert TrimStart(s) == s;
    DigitPrefixOfDigits(s, []);
    assert s + [] == s;
    NatToStringValue(n);
  }

  // ---------------------------------------------------------- replacement

  /**
   * `s.replace(/pat/g, rep)` for a literal pattern: scan left to right and
   * replace every non-overlapping occurrence of `pat`.
   */
  function ReplaceAll(s: string, pat: string, rep: string): string
    requires |pat| > 0
    decreases |s|
  {
    if |s| == 0 then []
    else if |pat| <= |s| && s[..|pat|] == pat then rep + ReplaceAll(s[|pat|..], pat, rep)
    else [s[0]] + ReplaceAll(s[1..], pat, rep)
  }

  predicate OccursAt(s: string, pat: string, i: int) {
    0 <= i && i + |pat| <= |s| && s[i..i + |pat|] == pat
  }

  /** Up to the first character the replacement could have introduced, the output copies the input. */
  lemma {:induction false} ReplaceAllCopies(t: string, pat: string, rep: string, m: nat)
    requires |pat| > 0 && |rep| > 0
    requires m <= |ReplaceAll(t, pat, rep)|
    requires forall j :: 0 <= j < m ==> ReplaceAll(t, pat, rep)[j] != rep[0]
    ensures m <= |t| && ReplaceAll(t, pat, rep)[..m] == t[..m]
    decreases |t|
  {
    if m > 0 {
      var r := ReplaceAll(t, pat, rep);
      var r1 := ReplaceAll(t[1..], pat, rep);
      assert r == [t[0]] + r1 by {
        assert r[0] != rep[0];
        assert !(|pat| <= |t| && t[..|pat|] == pat);
      }
      assert m - 1 <= |t[1..]| && r1[..m - 1] == t[1..][..m - 1] by {
        assert forall j :: 0 <= j < m - 1 ==> r1[j] == r[j + 1];
        ReplaceAllCopies(t[1..], pat, rep, m - 1);
      }
      assert r[..m] == [t[0]] + r1[..m - 1];
      assert t[..m] == [t[0]] + t[1..][..m - 1];
    }
  }

  lemma OccursShift(pre: string, r: string, pat: string, i: int)
    requires OccursAt(pre + r, pat, i) && i >= |pre|
    ensures OccursAt(r, pat, i - |pre|)
  {
    assert r[i - |pre|..i - |pre| + |pat|] == (pre + r)[i..i + |pat|];
  }

  /**
   * When no character of the replacement occurs in the pattern, no occurrence
   * of the pattern survives the replacement.
   */
  lemma {:induction false} ReplaceAllLeavesNoPattern(s: string, pat: string, rep: string, i: int)
    requires |pat| > 0 && |rep| > 0
    requires forall c :: c in rep ==> c !in pat
    ensures !OccursAt(ReplaceAll(s, pat, rep), pat, i)
    decreases |s|
  {
    var r := ReplaceAll(s, pat, rep);
    if |s| > 0 && OccursAt(r, pat, i) {
      assert r[i] == r[i..i + |pat|][0] == pat[0];
      if |pat| <= |s| && s[..|pat|] == pat {
        var r1 := ReplaceAll(s[|pat|..], pat, rep);
        assert r == rep + r1;
        assert forall k :: 0 <= k < |rep| ==> r[k] == rep[k] && rep[k] in rep;
        assert pat[0] in pat;
        assert i >= |rep|;
        OccursShift(rep, r1, pat, i);
        ReplaceAllLeavesNoPattern(s[|pat|..], pat, rep, i - |rep|);
      } else {
        var r1 := ReplaceAll(s[1..], pat, rep);
        assert r == [s[0]] + r1;
        if i > 0 {
          OccursShift([s[0]], r1, pat, i);
          ReplaceAllLeavesNoPattern(s[1..], pat, rep, i - 1);
        } else {
          FirstOccurrenceIsInInput(s, pat, rep);
        }
      }
    }
  }

  /** An occurrence at the very start of the output is one the scan would have replaced. */
  lemma FirstOccurrenceIsInInput(s: string, pat: string, rep: string)
    requires |pat| > 0 && |rep| > 0 && |s| > 0
    requires forall c :: c in rep ==> c !in pat
    requires !(|pat| <= |s| && s[..|pat|] == pat)
    ensures !OccursAt(ReplaceAll(s, pat, rep), pat, 0)
  {
    var r := ReplaceAll(s, pat, rep);
    var r1 := ReplaceAll(s[1..], pat, rep);
    assert r == [s[0]] + r1;
    if |pat| <= |r| {
      var m := |pat| - 1;
      if exists j :: 0 <= j < m && r1[j] == rep[0] {
        var j :| 0 <= j < m && r1[j] == rep[0];
        assert r[0..|pat|][j + 1] != pat[j + 1] by {
          assert r[j + 1] == rep[0] && rep[0] in rep;
          assert pat[j + 1] in pat;
        }
      } else {
        assert r[0..|pat|] == s[..|pat|] by {
          ReplaceAllCopies(s[1..], pat, rep, m);
          assert r[0..|pat|] == [s[0]] + r1[..m];
          assert s[..|pat|] == [s[0]] + s[1..][..m];
        }
      }
    }
  }

  /** Text that cannot start an occurrence passes through unchanged. */
  lemma {:induction false} ReplaceAllSkips(x: string, y: string, pat: string, rep: string)
    requires |pat| > 0 && pat[0] !in x
    ensures ReplaceAll(x + y, pat, rep) == x + ReplaceAll(y, pat, rep)
    decreases |x|
  {
    if |x| > 0 {
      var s := x + y;
      assert s[0] == x[0] && s[1..] == x[1..] + y;
      if |pat| <= |s| {
        assert s[..|pat|][0] == x[0];
      }
      ReplaceAllSkips(x[1..], y, pat, rep);
      assert [x[0]] + x[1..] == x;
    } else {
      assert x + y == y;
    }
  }

  lemma ReplaceAllAtPattern(y: string, pat: string, rep: string)
    requires |pat| > 0
    ensures ReplaceAll(pat + y, pat, rep) == rep + ReplaceAll(y, pat, rep)
  {
    var s := pat + y;
    assert s[..|pat|] == pat && s[|pat|..] == y;
  }

  /**
   * A split after a character that cannot be part of an occurrence commutes
   * with the replacement.
   */
  lemma {:induction false} ReplaceAllSplits(a: string, b: string, pat: string, rep: string)
    requires |pat| > 0
    requires a == [] || a[|a| - 1] !in pat
    ensures ReplaceAll(a + b, pat, rep) == ReplaceAll(a, pat, rep) + ReplaceAll(b, pat, rep)
    decreases |a|
  {
    var s := a + b;
    if |a| == 0 {
      assert s == b;
    } else if |pat| <= |s| && s[..|pat|] == pat {
      assert |a| >= |pat| && a[..|pat|] == pat by {
        assert forall k :: 0 <= k < |pat| && k < |a| ==> pat[k] == a[k];
      }
      assert s[|pat|..] == a[|pat|..] + b;
      assert ReplaceAll(a[|pat|..] + b, pat, rep) == ReplaceAll(a[|pat|..], pat, rep) + ReplaceAll(b, pat, rep) by {
        ReplaceAllSplits(a[|pat|..], b, pat, rep);
      }
      ConcatAssoc(rep, ReplaceAll(a[|pat|..], pat, rep), ReplaceAll(b, pat, rep));
    } else {
      assert s[0] == a[0] && s[1..] == a[1..] + b;
      assert !(|pat| <= |a| && a[..|pat|] == pat) by {
        assert |pat| <= |a| ==> a[..|pat|] == s[..|pat|];
      }
      assert ReplaceAll(a[1..] + b, pat, rep) == ReplaceAll(a[1..], pat, rep) + ReplaceAll(b, pat, rep) by {
        ReplaceAllSplits(a[1..], b, pat, rep);
      }
      ConcatAssoc([a[0]], ReplaceAll(a[1..], pat, rep), ReplaceAll(b, pat, rep));
    }
  }
}
