/** The text handling both endpoints rely on: JavaScript's `String.prototype.split` on one
    separator character, and unsigned decimal numerals (`Ascii::AppendDec` on the C++ side,
    digit strings given to `parseInt` on the JavaScript side). */
module Text {

  /** `s.split(c)` in JavaScript: the pieces between occurrences of `c`, always at least one. */
  function Split(s: string, c: char): (parts: seq<string>)
    ensures |parts| >= 1
    ensures forall k :: 0 <= k < |parts| ==> c !in parts[k]
    decreases |s|
  {
    if |s| == 0 then [""]
    else if s[0] == c then [""] + Split(s[1..], c)
    else
      var rest := Split(s[1..], c);
      [[s[0]] + rest[0]] + rest[1..]
  }

  /** The pieces put back together with `c` between consecutive ones. */
  function Join(parts: seq<string>, c: char): (s: string)
    requires |parts| >= 1
    decreases |parts|
  {
    if |parts| == 1 then parts[0] else parts[0] + [c] + Join(parts[1..], c)
  }

  /** Splitting loses nothing: the separators can be put back. */
  lemma {:induction false} JoinSplit(s: string, c: char)
    ensures Join(Split(s, c), c) == s
    decreases |s|
  {
    if |s| == 0 {
    } else if s[0] == c {
      JoinSplit(s[1..], c);
      var rest := Split(s[1..], c);
      assert Split(s, c) == [""] + rest;
      assert ([""] + rest)[1..] == rest;
    } else {
      JoinSplit(s[1..], c);
      var rest := Split(s[1..], c);
      var parts := [[s[0]] + rest[0]] + rest[1..];
      assert Split(s, c) == parts;
      if |rest| == 1 {
        assert s == [s[0]] + s[1..];
      } else {
        assert parts[1..] == rest[1..];
        assert Join(rest, c) == rest[0] + [c] + Join(rest[1..], c);
        assert s == [s[0]] + s[1..];
      }
    }
  }

  /** Splitting a join of separator-free pieces gives the pieces back. */
  lemma {:induction false} SplitJoin(parts: seq<string>, c: char)
    requires |parts| >= 1
    requires forall k :: 0 <= k < |parts| ==> c !in parts[k]
    ensures Split(Join(parts, c), c) == parts
    decreases |parts|, |parts[0]|
  {
    var p0 := parts[0];
    if |p0| > 0 {
      // Peel the first character of the first piece.
      var h, shorter := p0[0], [p0[1..]] + parts[1..];
      PeelSeparatorFree(parts, c);
      SplitJoin(shorter, c);
      var joined := Join(shorter, c);
      JoinPeel(parts, c);
      SplitCons(h, joined, c);
      assert Split(joined, c) == shorter;
      assert p0 == [h] + p0[1..];
      assert parts == [[h] + shorter[0]] + shorter[1..];
    } else if |parts| == 1 {
      assert parts == [""];
    } else {
      var rest := parts[1..];
      SplitJoin(rest, c);
      var joined := Join(rest, c);
      assert Join(parts, c) == [c] + joined;
      assert ([c] + joined)[1..] == joined;
      assert parts == [""] + rest;
    }
  }

  /** Dropping the first character of the first piece keeps every piece separator-free. */
  lemma PeelSeparatorFree(parts: seq<string>, c: char)
    requires |parts| >= 1 && |parts[0]| > 0
    requires forall k :: 0 <= k < |parts| ==> c !in parts[k]
    ensures parts[0][0] != c
    ensures var shorter := [parts[0][1..]] + parts[1..];
      forall k :: 0 <= k < |shorter| ==> c !in shorter[k]
  {
    var p0 := parts[0];
    assert p0[0] in p0;
    var shorter := [p0[1..]] + parts[1..];
    forall k | 0 <= k < |shorter| ensures c !in shorter[k] {
      if k == 0 {
        assert forall x :: x in p0[1..] ==> x in p0;
      } else {
        assert shorter[k] == parts[k];
      }
    }
  }

  /** Moving the first character of the first piece out of a join. */
  lemma JoinPeel(parts: seq<string>, c: char)
    requires |parts| >= 1 && |parts[0]| > 0
    ensures Join(parts, c) == [parts[0][0]] + Join([parts[0][1..]] + parts[1..], c)
  {
    var shorter := [parts[0][1..]] + parts[1..];
    assert parts[0] == [parts[0][0]] + parts[0][1..];
    if |parts| > 1 {
      assert shorter[1..] == parts[1..];
    }
  }

  /** Splitting a string that starts with a non-separator extends the first piece. */
  lemma SplitCons(h: char, s: string, c: char)
    requires h != c
    ensures Split([h] + s, c) == [[h] + Split(s, c)[0]] + Split(s, c)[1..]
  {
    assert ([h] + s)[1..] == s;
  }

  predicate IsDigit(ch: char) { '0' <= ch <= '9' }

  /** A non-empty string of decimal digits. */
  predicate IsNumeral(s: string) {
    |s| > 0 && forall k :: 0 <= k < |s| ==> IsDigit(s[k])
  }

  function DigitChar(d: nat): (ch: char)
    requires d < 10
    ensures IsDigit(ch)
  {
    ['0', '1', '2', '3', '4', '5', '6', '7', '8', '9'][d]
  }

  function DigitValue(ch: char): (d: nat)
    requires IsDigit(ch)
    ensures d < 10 && DigitChar(d) == ch
  {
    (ch as int) - ('0' as int)
  }

  /** The decimal numeral of `n`, without sign or leading zeros (`Ascii::AppendDec`). */
  function Decimal(n: nat): (s: string)
    ensures IsNumeral(s)
    ensures |s| > 1 ==> s[0] != '0'
  {
    if n < 10 then [DigitChar(n)] else Decimal(n / 10) + [DigitChar(n % 10)]
  }

  /** The value of a string of decimal digits, read most significant first. */
  function ValueOf(s: string): (n: nat)
    requires forall k :: 0 <= k < |s| ==> IsDigit(s[k])
  {
    if |s| == 0 then 0 else ValueOf(s[..|s| - 1]) * 10 + DigitValue(s[|s| - 1])
  }

  lemma {:induction false} ValueOfDecimal(n: nat)
    ensures ValueOf(Decimal(n)) == n
  {
    if n >= 10 {
      ValueOfDecimal(n / 10);
      var s := Decimal(n);
      assert s[..|s| - 1] == Decimal(n / 10);
      DigitRoundTrip(n % 10);
      assert ValueOf(s) == ValueOf(Decimal(n / 10)) * 10 + n % 10;
    } else {
      DigitRoundTrip(n);
    }
  }

  lemma DigitRoundTrip(d: nat)
    requires d < 10
    ensures DigitValue(DigitChar(d)) == d
  {
  }

  /** Distinct numbers have distinct numerals. */
  lemma DecimalInjective(m: nat, n: nat)
    requires Decimal(m) == Decimal(n)
    ensures m == n
  {
    ValueOfDecimal(m);
    ValueOfDecimal(n);
  }

  /** A numeral never contains a space, a colon or a line feed. */
  lemma DecimalHasNoSeparator(n: nat)
    ensures ' ' !in Decimal(n) && ':' !in Decimal(n) && '\n' !in Decimal(n)
  {
    var s := Decimal(n);
    forall k | 0 <= k < |s| ensures s[k] != ' ' && s[k] != ':' && s[k] != '\n' {
      assert IsDigit(s[k]);
    }
  }
}
