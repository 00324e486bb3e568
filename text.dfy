/**
 * ASCII models of the JavaScript string operations the application relies on:
 * `trim`, `split`, `join`, `toLowerCase`, `includes`, `startsWith`, the `<`
 * comparison of strings, `String(n)` on integers and `parseInt(s, 10)`.
 */
module Text {
  import opened Wrappers

  /** The ASCII part of the ECMAScript white-space and line-terminator set. */
  predicate IsSpace(c: char) {
    c == ' ' || c == '\t' || c == '\n' || c == '\r' || c == '\U{000B}' || c == '\U{000C}'
  }

  predicate IsDigit(c: char) {
    '0' <= c <= '9'
  }

  predicate AllDigits(s: string) {
    forall i :: 0 <= i < |s| ==> IsDigit(s[i])
  }

  /** `s.startsWith(prefix)` */
  predicate StartsWith(s: string, prefix: string) {
    |prefix| <= |s| && s[..|prefix|] == prefix
  }

  /** `part` occurs in `s` starting at position `i`. */
  predicate OccursAt(s: string, part: string, i: int) {
    0 <= i <= |s| - |part| && s[i..i + |part|] == part
  }

  /** `s.includes(part)`, searched position by position. */
  predicate Contains(s: string, part: string)
    decreases |s|
  {
    StartsWith(s, part) || (s != [] && Contains(s[1..], part))
  }

  /** `Contains` holds exactly when `part` occurs at some position of `s`. */
  lemma {:induction false} ContainsIff(s: string, part: string)
    ensures Contains(s, part) <==> exists i :: OccursAt(s, part, i)
    decreases |s|
  {
    if s != [] {
      ContainsIff(s[1..], part);
      if exists i :: OccursAt(s, part, i) {
        var i :| OccursAt(s, part, i);
        if i > 0 {
          assert s[1..][i - 1..i - 1 + |part|] == s[i..i + |part|];
          assert OccursAt(s[1..], part, i - 1);
        } else {
          assert StartsWith(s, part);
        }
      }
      if Contains(s[1..], part) {
        var i :| OccursAt(s[1..], part, i);
        assert s[1..][i..i + |part|] == s[i + 1..i + 1 + |part|];
        assert OccursAt(s, part, i + 1);
      }
    } else {
      if exists i :: OccursAt(s, part, i) {
        var i :| OccursAt(s, part, i);
        assert StartsWith(s, part);
      }
      if Contains(s, part) {
        assert OccursAt(s, part, 0);
      }
    }
    if s != [] && StartsWith(s, part) {
      assert OccursAt(s, part, 0);
    }
  }

  function LowerChar(c: char): char {
    if 'A' <= c <= 'Z' then (c as int - 'A' as int + 'a' as int) as char else c
  }

  /**
   * `s.toLowerCase()` on ASCII letters: no capital is left, each capital
   * becomes the letter 32 code points above it, and every other character
   * is kept.
   */
  function ToLower(s: string): (r: string)
    ensures |r| == |s|
    ensures forall i :: 0 <= i < |r| ==> !('A' <= r[i] <= 'Z')
    ensures forall i :: 0 <= i < |s| && 'A' <= s[i] <= 'Z' ==> r[i] as int == s[i] as int + 32
    ensures forall i :: 0 <= i < |s| && !('A' <= s[i] <= 'Z') ==> r[i] == s[i]
  {
    seq(|s|, i requires 0 <= i < |s| => LowerChar(s[i]))
  }

  /** Lower-casing twice is lower-casing once. */
  lemma ToLowerIdempotent(s: string)
    ensures ToLower(ToLower(s)) == ToLower(s)
  {
  }

  /** `s.trimStart()` */
  function TrimStart(s: string): (r: string)
    ensures |r| <= |s| && r == s[|s| - |r|..]
    ensures r == [] || !IsSpace(r[0])
    ensures forall i :: 0 <= i < |s| - |r| ==> IsSpace(s[i])
    decreases |s|
  {
    if s != [] && IsSpace(s[0]) then TrimStart(s[1..]) else s
  }

  /** `s.trimEnd()` */
  function TrimEnd(s: string): (r: string)
    ensures |r| <= |s| && r == s[..|r|]
    ensures r == [] || !IsSpace(r[|r| - 1])
    ensures forall i :: |r| <= i < |s| ==> IsSpace(s[i])
    decreases |s|
  {
    if s != [] && IsSpace(s[|s| - 1]) then TrimEnd(s[..|s| - 1]) else s
  }

  /** A string with no white space at either end. */
  predicate Trimmed(s: string) {
    s == [] || (!IsSpace(s[0]) && !IsSpace(s[|s| - 1]))
  }

  /** `r` is the infix of `s` at `i`, and everything outside it is white space. */
  predicate InfixBetweenSpaces(s: string, r: string, i: int) {
    0 <= i <= |s| - |r| && r == s[i..i + |r|]
    && (forall k :: 0 <= k < i ==> IsSpace(s[k]))
    && (forall k :: i + |r| <= k < |s| ==> IsSpace(s[k]))
  }

  /**
   * `s.trim()`: the longest infix of `s` that neither starts nor ends with
   * white space; everything cut away on either side is white space.
   */
  function Trim(s: string): (r: string)
    ensures Trimmed(r)
    ensures exists i :: InfixBetweenSpaces(s, r, i)
  {
    var t := TrimStart(s);
    var r := TrimEnd(t);
    assert r == s[|s| - |t|..|s| - |t| + |r|];
    assert forall k :: |s| - |t| + |r| <= k < |s| ==> s[k] == t[k - (|s| - |t|)];
    assert InfixBetweenSpaces(s, r, |s| - |t|);
    r
  }

  /** The characters of `Trim(s)` are characters of `s`. */
  lemma TrimChars(s: string, c: char)
    requires c !in s
    ensures c !in Trim(s)
  {
    var r := Trim(s);
    var i :| InfixBetweenSpaces(s, r, i);
    assert forall k :: 0 <= k < |r| ==> r[k] == s[i + k];
  }

  /** A string that is already trimmed is left as it is. */
  lemma TrimOfTrimmed(s: string)
    requires Trimmed(s)
    ensures Trim(s) == s
  {
  }

  /** A text trims to nothing exactly when it is all white space. */
  lemma BlankIff(s: string)
    ensures Trim(s) == "" <==> forall k :: 0 <= k < |s| ==> IsSpace(s[k])
  {
    var r := Trim(s);
    var i :| InfixBetweenSpaces(s, r, i);
    if r != "" {
      assert r[0] == s[i] && !IsSpace(r[0]);
    }
  }

  /** Lower-casing keeps a text blank or non-blank. */
  lemma BlankOfLower(s: string)
    ensures Trim(ToLower(s)) == "" <==> Trim(s) == ""
  {
    var t := ToLower(s);
    assert (forall k :: 0 <= k < |t| ==> IsSpace(t[k])) <==> (forall k :: 0 <= k < |s| ==> IsSpace(s[k])) by {
      forall k | 0 <= k < |s| ensures IsSpace(t[k]) <==> IsSpace(s[k]) {
        assert t[k] == LowerChar(s[k]);
      }
    }
    BlankIff(s);
    BlankIff(t);
  }

  /** Leading white space does not change the trimmed result. */
  lemma TrimLeadingSpace(c: char, s: string)
    requires IsSpace(c)
    ensures Trim([c] + s) == Trim(s)
  {
    assert ([c] + s)[1..] == s;
  }

  /** `pieces.join(sep)` */
  function Join(pieces: seq<string>, sep: string): string
    decreases |pieces|
  {
    if |pieces| == 0 then ""
    else if |pieces| == 1 then pieces[0]
    else pieces[0] + sep + Join(pieces[1..], sep)
  }

  /**
   * `s.split(sep)` for a one-character separator: the pieces contain no
   * separator and joining them with it gives `s` back.
   */
  function Split(s: string, sep: char): (pieces: seq<string>)
    ensures |pieces| >= 1
    ensures forall i :: 0 <= i < |pieces| ==> sep !in pieces[i]
    ensures Join(pieces, [sep]) == s
    decreases |s|
  {
    if s == [] then [""]
    else
      var rest := Split(s[1..], sep);
      if s[0] == sep then
        assert ([""] + rest)[1..] == rest;
        [""] + rest
      else
        var pieces := [[s[0]] + rest[0]] + rest[1..];
        assert pieces[1..] == rest[1..];
        assert |rest| > 1 ==> Join(rest, [sep]) == rest[0] + [sep] + Join(rest[1..], [sep]);
        assert s == [s[0]] + s[1..];
        pieces
  }

  lemma JoinConsChar(c: char, w: string, ys: seq<string>, sep: string)
    ensures Join([[c] + w] + ys, sep) == [c] + Join([w] + ys, sep)
  {
    assert ([[c] + w] + ys)[1..] == ys;
    assert ([w] + ys)[1..] == ys;
  }

  /** Splitting a join of separator-free pieces gives the pieces back. */
  lemma {:induction false} SplitOfJoin(pieces: seq<string>, sep: char)
    requires |pieces| >= 1
    requires forall i :: 0 <= i < |pieces| ==> sep !in pieces[i]
    ensures Split(Join(pieces, [sep]), sep) == pieces
    decreases |Join(pieces, [sep])|
  {
    var s := Join(pieces, [sep]);
    if pieces[0] == "" {
      if |pieces| > 1 {
        assert s == [sep] + Join(pieces[1..], [sep]);
        assert s[1..] == Join(pieces[1..], [sep]);
        SplitOfJoin(pieces[1..], sep);
        assert pieces == [""] + pieces[1..];
      }
    } else {
      var c, w := pieces[0][0], pieces[0][1..];
      assert pieces[0] == [c] + w;
      assert pieces == [[c] + w] + pieces[1..];
      JoinConsChar(c, w, pieces[1..], [sep]);
      var inner := [w] + pieces[1..];
      assert s == [c] + Join(inner, [sep]);
      assert s[1..] == Join(inner, [sep]);
      assert c != sep by { assert pieces[0][0] == c; }
      forall i | 0 <= i < |inner| ensures sep !in inner[i] {
        if i == 0 {
          assert forall k :: 0 <= k < |w| ==> w[k] == pieces[0][k + 1];
        } else {
          assert inner[i] == pieces[i];
        }
      }
      SplitOfJoin(inner, sep);
      assert [[c] + inner[0]] + inner[1..] == pieces;
    }
  }

  /** `x.split(',').map(s => s.trim()).filter(Boolean)`: non-empty trimmed pieces, in order. */
  function SplitTrimmed(s: string): (items: seq<string>)
    ensures forall i :: 0 <= i < |items| ==> items[i] != "" && Trimmed(items[i]) && ',' !in items[i]
  {
    NonEmptyTrimmed(Split(s, ','))
  }

  function NonEmptyTrimmed(pieces: seq<string>): (items: seq<string>)
    requires forall i :: 0 <= i < |pieces| ==> ',' !in pieces[i]
    ensures forall i :: 0 <= i < |items| ==> items[i] != "" && Trimmed(items[i]) && ',' !in items[i]
    decreases |pieces|
  {
    if pieces == [] then []
    else
      var t := Trim(pieces[0]);
      var rest := NonEmptyTrimmed(pieces[1..]);
      TrimChars(pieces[0], ',');
      if t == "" then rest else [t] + rest
  }

  /** An item that can travel through a comma-separated list unchanged. */
  predicate ListItem(x: string) {
    x != "" && Trimmed(x) && ',' !in x
  }

  function PrefixSpace(xs: seq<string>): (ys: seq<string>)
    ensures |ys| == |xs| && forall i :: 0 <= i < |xs| ==> ys[i] == " " + xs[i]
  {
    seq(|xs|, i requires 0 <= i < |xs| => " " + xs[i])
  }

  lemma {:induction false} JoinCommaSpace(xs: seq<string>)
    requires |xs| >= 1
    ensures " " + Join(xs, ", ") == Join(PrefixSpace(xs), ",")
    decreases |xs|
  {
    if |xs| > 1 {
      JoinCommaSpace(xs[1..]);
      assert PrefixSpace(xs)[1..] == PrefixSpace(xs[1..]);
      assert " " + Join(xs, ", ") == (" " + xs[0]) + "," + (" " + Join(xs[1..], ", "));
    }
  }

  /**
   * Joining items with `", "` and reading the list back with
   * `SplitTrimmed` restores the items, provided each is a `ListItem`.
   */
  lemma SplitTrimmedOfJoin(xs: seq<string>)
    requires forall i :: 0 <= i < |xs| ==> ListItem(xs[i])
    ensures SplitTrimmed(Join(xs, ", ")) == xs
  {
    if xs == [] {
      assert Split("", ',') == [""];
    } else {
      var padded := Padded(xs);
      JoinPadded(xs);
      PaddedClean(xs);
      SplitOfJoin(padded, ',');
      NonEmptyTrimmedOfClean(padded, xs);
    }
  }

  /** The pieces `Join(xs, ", ")` splits into at its commas. */
  function Padded(xs: seq<string>): (ys: seq<string>)
    requires |xs| >= 1
    ensures |ys| == |xs|
  {
    [xs[0]] + PrefixSpace(xs[1..])
  }

  lemma CommaSpace(a: string, b: string)
    ensures a + ", " + b == a + "," + (" " + b)
  {
    assert ", " == "," + " ";
  }

  lemma JoinPadded(xs: seq<string>)
    requires |xs| >= 1
    ensures Join(xs, ", ") == Join(Padded(xs), ",")
  {
    if |xs| > 1 {
      var ps := Padded(xs);
      assert ps[0] == xs[0] && ps[1..] == PrefixSpace(xs[1..]);
      var rest := Join(xs[1..], ", ");
      assert Join(xs, ", ") == xs[0] + ", " + rest;
      CommaSpace(xs[0], rest);
      JoinCommaSpace(xs[1..]);
      assert Join(ps, ",") == ps[0] + "," + Join(ps[1..], ",");
    }
  }

  lemma PaddedClean(xs: seq<string>)
    requires |xs| >= 1
    requires forall i :: 0 <= i < |xs| ==> ListItem(xs[i])
    ensures forall i :: 0 <= i < |xs| ==> ',' !in Padded(xs)[i] && Trim(Padded(xs)[i]) == xs[i]
  {
    var padded := Padded(xs);
    forall i | 0 <= i < |padded|
      ensures ',' !in padded[i] && Trim(padded[i]) == xs[i]
    {
      if i == 0 {
        TrimOfTrimmed(xs[0]);
      } else {
        assert padded[i] == [' '] + xs[i];
        TrimLeadingSpace(' ', xs[i]);
        TrimOfTrimmed(xs[i]);
      }
    }
  }

  lemma {:induction false} NonEmptyTrimmedOfClean(pieces: seq<string>, xs: seq<string>)
    requires |pieces| == |xs|
    requires forall i :: 0 <= i < |pieces| ==> ',' !in pieces[i] && Trim(pieces[i]) == xs[i] && xs[i] != ""
    ensures NonEmptyTrimmed(pieces) == xs
    decreases |pieces|
  {
    if pieces != [] {
      NonEmptyTrimmedOfClean(pieces[1..], xs[1..]);
    }
  }

  /** JavaScript's `a < b` on strings: lexicographic by character code. */
  predicate StrLess(a: string, b: string)
    decreases |a|
  {
    if a == [] then b != []
    else b != [] && (a[0] < b[0] || (a[0] == b[0] && StrLess(a[1..], b[1..])))
  }

  /** `a <= b` on strings; the order `localeCompare` is abstracted to. */
  predicate StrLeq(a: string, b: string) {
    a == b || StrLess(a, b)
  }

  lemma {:induction false} StrLessIrreflexive(a: string)
    ensures !StrLess(a, a)
    decreases |a|
  {
    if a != [] {
      StrLessIrreflexive(a[1..]);
    }
  }

  lemma {:induction false} StrLessTransitive(a: string, b: string, c: string)
    requires StrLess(a, b) && StrLess(b, c)
    ensures StrLess(a, c)
    decreases |a|
  {
    if a != [] && a[0] == b[0] && b[0] == c[0] {
      StrLessTransitive(a[1..], b[1..], c[1..]);
    }
  }

  lemma {:induction false} StrLessTotal(a: string, b: string)
    ensures a == b || StrLess(a, b) || StrLess(b, a)
    decreases |a|
  {
    if a != [] && b != [] && a[0] == b[0] {
      StrLessTotal(a[1..], b[1..]);
      if a[1..] == b[1..] {
        assert a == [a[0]] + a[1..] && b == [b[0]] + b[1..];
      }
    }
  }

  /** `StrLeq` is a total order on strings. */
  lemma StrLeqTotalOrder(a: string, b: string, c: string)
    ensures StrLeq(a, b) || StrLeq(b, a)
    ensures StrLeq(a, b) && StrLeq(b, c) ==> StrLeq(a, c)
    ensures StrLeq(a, b) && StrLeq(b, a) ==> a == b
  {
    StrLessTotal(a, b);
    if StrLess(a, b) && StrLess(b, c) {
      StrLessTransitive(a, b, c);
    }
    if StrLess(a, b) && StrLess(b, a) {
      StrLessTransitive(a, b, a);
      StrLessIrreflexive(a);
    }
  }

  function DigitChar(d: nat): char
    requires d < 10
  {
    ('0' as int + d) as char
  }

  /** The value of a string of decimal digits; the empty string reads as 0, as `Number("")` does. */
  function DigitsValue(s: string): nat
    requires AllDigits(s)
    decreases |s|
  {
    if s == [] then 0 else DigitsValue(s[..|s| - 1]) * 10 + (s[|s| - 1] as int - '0' as int)
  }

  /** `String(n)` for a non-negative integer: its decimal digits without leading zeros. */
  function NatToString(n: nat): (r: string)
    ensures r != [] && AllDigits(r)
    ensures |r| > 1 ==> r[0] != '0'
  {
    if n < 10 then [DigitChar(n)] else NatToString(n / 10) + [DigitChar(n % 10)]
  }

  /** Reading the decimal digits of `n` gives `n` back. */
  lemma {:induction false} NatToStringValue(n: nat)
    ensures DigitsValue(NatToString(n)) == n
  {
    if n >= 10 {
      NatToStringValue(n / 10);
      var s := NatToString(n);
      assert s[..|s| - 1] == NatToString(n / 10);
    }
  }

  /** Distinct numbers have distinct decimal strings. */
  lemma NatToStringInjective(m: nat, n: nat)
    requires NatToString(m) == NatToString(n)
    ensures m == n
  {
    NatToStringValue(m);
    NatToStringValue(n);
  }

  /** `String(n)` for an integer. */
  function IntToString(n: int): string {
    if n < 0 then "-" + NatToString(-n) else NatToString(n)
  }

  /** The longest prefix of `s` made of digits. */
  function DigitPrefix(s: string): (r: string)
    ensures AllDigits(r) && |r| <= |s| && r == s[..|r|]
    ensures |r| < |s| ==> !IsDigit(s[|r|])
    decreases |s|
  {
    if s != [] && IsDigit(s[0]) then [s[0]] + DigitPrefix(s[1..]) else []
  }

  /**
   * `parseInt(s, 10)`: leading white space is skipped, one sign is read,
   * then the longest run of digits; `None` stands for `NaN`, the result
   * when that run is empty.
   */
  function ParseInt(s: string): (r: Option<int>)
  {
    var t := TrimStart(s);
    var negative := t != [] && t[0] == '-';
    var unsigned := if t != [] && (t[0] == '-' || t[0] == '+') then t[1..] else t;
    var digits := DigitPrefix(unsigned);
    if digits == [] then None
    else
      var value: int := DigitsValue(digits);
      Some(if negative then -value else value)
  }

  lemma {:induction false} DigitPrefixOfDigits(s: string)
    requires AllDigits(s)
    ensures DigitPrefix(s) == s
    decreases |s|
  {
    if s != [] {
      DigitPrefixOfDigits(s[1..]);
    }
  }

  /** `parseInt(String(n))` is `n`: integers survive a trip through text. */
  lemma ParseIntOfIntToString(n: int)
    ensures ParseInt(IntToString(n)) == Some(n)
  {
    var s := IntToString(n);
    var m: nat := if n < 0 then -n else n;
    NatToStringValue(m);
    DigitPrefixOfDigits(NatToString(m));
    assert !IsSpace(s[0]);
    assert TrimStart(s) == s;
    if n < 0 {
      assert s[1..] == NatToString(m);
    }
  }
}
