/** The final pass of `tokenize` (`ast.map(...)`) runs on every item of
    every level, nested groups included. A group is an array, and the pass
    compares it with "#t" and hands it to `parseFloat` through `String()`,
    which joins its elements with commas. So a group whose joined text
    starts like a number collapses into that number: `(f (1 2))` reads as
    `(f 1)`. The pass repeats the boolean and number tests of
    `bakeToken` and applies them to nested groups as well. Without it,
    every closed group reads as a sequence, as this module proves. */
module Findings {
  import opened Values
  import opened Numbers
  import opened JsConv
  import opened Reader
  import opened RoundTrip

  /** A digit other than 0: a one-digit number literal that prints as
      itself. */
  predicate NonZeroDigit(c: char) {
    IsDigit(c) && c != '0'
  }

  /** The number a single digit denotes. */
  function Digit(c: char): Num
    requires IsDigit(c)
  {
    Finite(Decimal(DigitValue(c), 0))
  }

  lemma DigitRunSingle(c: char, rest: string)
    requires IsDigit(c) && (rest == [] || !IsDigit(rest[0]))
    ensures DigitRun([c] + rest) == 1
  {
    assert ([c] + rest)[1..] == rest;
  }

  lemma DigitsValueSingle(c: char)
    requires IsDigit(c)
    ensures DigitsValue([c]) == DigitValue(c)
  {
    assert [c][..0] == [];
  }

  /** `parseFloat` of a digit followed by something that cannot continue
      a number. */
  lemma UnsignedSingle(c: char, rest: string)
    requires IsDigit(c) && (rest == [] || (!IsDigit(rest[0]) && rest[0] != '.' && rest[0] != 'e' && rest[0] != 'E'))
    ensures UnsignedDecimal([c] + rest) == Some((DigitValue(c), 0))
  {
    var u := [c] + rest;
    DigitRunSingle(c, rest);
    assert u[1..] == rest;
    assert u[..1] + "" == [c];
    DigitsValueSingle(c);
    assert ExponentPart(rest) == None;
  }

  lemma SignedSingle(c: char, rest: string)
    requires IsDigit(c) && c != '0'
    requires rest == [] || (!IsDigit(rest[0]) && rest[0] != '.' && rest[0] != 'e' && rest[0] != 'E')
    ensures SignedValue(false, [c] + rest) == Some(Finite(Decimal(DigitValue(c), 0)))
  {
    var u := [c] + rest;
    if |u| >= 8 {
      assert u[..8][0] == c;
    }
    UnsignedSingle(c, rest);
  }

  lemma TrimDigit(c: char, rest: string)
    requires IsDigit(c)
    ensures TrimStart([c] + rest) == [c] + rest
  {
  }

  lemma ParseSingle(c: char, rest: string)
    requires IsDigit(c) && c != '0'
    requires rest == [] || (!IsDigit(rest[0]) && rest[0] != '.' && rest[0] != 'e' && rest[0] != 'E')
    ensures ParseFloat([c] + rest) == Some(Digit(c))
  {
    TrimDigit(c, rest);
    SignedSingle(c, rest);
    assert ([c] + rest)[0] == c;
  }

  /** A non-zero digit prints as itself. */
  lemma DigitText(c: char)
    requires NonZeroDigit(c)
    ensures NumberText(Digit(c)) == [c]
  {
    var v := DigitValue(c);
    assert 1 <= v <= 9;
    assert Normalize(v, 0) == Decimal(v, 0);
    assert ('0' as int + v % 10) as char == c;
    assert NatText(v) == [c];
    assert MagnitudeText(v, 0) == [c] + Zeros(0);
  }

  /** A number whose printed text parses back to it survives the final
      pass. */
  lemma RebakeNumber(x: Num)
    requires ParseFloat(NumberText(x)) == Some(x)
    ensures Rebake(Number(x)) == Number(x)
  {
    var e := Number(x);
    assert ToString(e) == NumberText(x);
    assert ToNumber(e) == Some(x);
    assert !LooseEquals(e, "#t") && !LooseEquals(e, "#true");
    assert !LooseEquals(e, "#f") && !LooseEquals(e, "#false");
  }

  /** A non-zero digit bakes to its number. */
  lemma BakeDigit(c: char)
    requires NonZeroDigit(c)
    ensures BakeToken([c]) == Number(Digit(c))
  {
    assert !IsBoolLiteral([c]) && !IsQuoted([c]);
    ParseSingle(c, []);
    assert [c] + [] == [c];
  }

  /** The number of a non-zero digit survives the final pass. */
  lemma RebakeDigit(c: char)
    requires NonZeroDigit(c)
    ensures Rebake(Number(Digit(c))) == Number(Digit(c))
  {
    DigitText(c);
    ParseSingle(c, []);
    assert [c] + [] == [c];
    RebakeNumber(Digit(c));
  }

  /** The character loop splits two digits and a blank into two tokens. */
  lemma ScanPair(c: char, d: char)
    requires NonZeroDigit(c) && NonZeroDigit(d)
    ensures Scan([c, ' ', d], 0, None, 0, []) == [Token([c]), Token([d])]
  {
    var text, all := [c, ' ', d], [Token([c]), Token([d])];
    assert all[0..] == all && all[1..] == [Token([d])] && all[..0] == [];
    assert JoinPieces(all) == [c] + " " + [d] == text;
    assert Whole(all[0]) && Whole(all[1]);
    ScanPieces(text, 0, all, 0);
  }

  /** The tokens of two non-zero digits bake to their numbers. */
  lemma BakePair(c: char, d: char, n: nat, postPass: bool)
    requires NonZeroDigit(c) && NonZeroDigit(d)
    ensures BakeAll(n, [Token([c]), Token([d])], postPass) == [Number(Digit(c)), Number(Digit(d))]
  {
    BakeDigit(c);
    BakeDigit(d);
  }

  /** The numbers of two non-zero digits survive the final pass. */
  lemma RebakePair(c: char, d: char)
    requires NonZeroDigit(c) && NonZeroDigit(d)
    ensures RebakeAll([Number(Digit(c)), Number(Digit(d))]) == [Number(Digit(c)), Number(Digit(d))]
  {
    var xs := [Number(Digit(c)), Number(Digit(d))];
    var r := RebakeAll(xs);
    assert r[0] == xs[0] by {
      RebakeDigit(c);
    }
    assert r[1] == xs[1] by {
      RebakeDigit(d);
    }
    assert r == xs;
  }

  /** Two digits and a blank read as the two numbers, with or without the
      final pass. */
  lemma ReadPair(c: char, d: char)
    requires NonZeroDigit(c) && NonZeroDigit(d)
    ensures Read([c, ' ', d], true) == [Number(Digit(c)), Number(Digit(d))]
    ensures Read([c, ' ', d], false) == [Number(Digit(c)), Number(Digit(d))]
  {
    var text, pieces := [c, ' ', d], [Token([c]), Token([d])];
    var xs := [Number(Digit(c)), Number(Digit(d))];
    assert Scan(text, 0, None, 0, []) == pieces by {
      ScanPair(c, d);
    }
    assert BakeAll(3, pieces, true) == xs && BakeAll(3, pieces, false) == xs by {
      BakePair(c, d, 3, true);
      BakePair(c, d, 3, false);
    }
    assert RebakeAll(xs) == xs by {
      RebakePair(c, d);
    }
  }

  /** `String()` of the sequence of two digits joins them with a comma. */
  lemma PairText(c: char, d: char)
    requires NonZeroDigit(c) && NonZeroDigit(d)
    ensures ToString(Seq([Number(Digit(c)), Number(Digit(d))])) == [c, ',', d]
  {
    var xs := [Number(Digit(c)), Number(Digit(d))];
    DigitText(c);
    DigitText(d);
    assert xs[..|xs| - 1] == [Number(Digit(c))];
    assert ElementToString(Number(Digit(c))) == [c];
    assert JoinedToString([Number(Digit(c))]) == [c];
    assert ElementToString(xs[|xs| - 1]) == [d];
    assert JoinedToString(xs) == [c] + "," + [d];
  }

  /** A text starting with `#` is not a number. */
  lemma HashNotNumber(s: string)
    requires s != [] && s[0] == '#'
    ensures ParseFloat(s) == None
  {
    assert TrimStart(s) == s;
    assert DigitRun(s) == 0;
    if |s| >= 8 {
      assert s[..8][0] == s[0];
    }
    assert UnsignedDecimal(s) == None;
  }

  /** The final pass turns a sequence whose `String()` parses as a number
      into that number. */
  lemma RebakeNumeric(e: Expr, n: Num)
    requires e.Seq? && ToNumber(e) == Some(n)
    ensures Rebake(e) == Number(n)
  {
    var s := ToString(e);
    if s != [] && s[0] == '#' {
      HashNotNumber(s);
    }
    assert !LooseEquals(e, "#t") && !LooseEquals(e, "#true");
    assert !LooseEquals(e, "#f") && !LooseEquals(e, "#false");
  }

  /** As written, in general: a group closed at depth 0 whose items, joined
      by commas, start like a number is read as that number alone. */
  lemma NumericGroupCollapses(inner: string, n: Num)
    requires Balanced(inner) && ToNumber(Seq(Tokens(inner))) == Some(n)
    ensures Tokens("(" + inner + ")") == [Number(n)]
  {
    ClosedGroup(inner);
    RebakeNumeric(Seq(Tokens(inner)), n);
  }

  /** `parseFloat` of the sequence of two digits is the first digit. */
  lemma PairNumber(c: char, d: char)
    requires NonZeroDigit(c) && NonZeroDigit(d)
    ensures ToNumber(Seq([Number(Digit(c)), Number(Digit(d))])) == Some(Digit(c))
  {
    PairText(c, d);
    ParseSingle(c, [',', d]);
    assert [c] + [',', d] == [c, ',', d];
  }

  /** Two digits and a blank make a balanced group text whose tokens,
      joined by `String()`, parse as the first digit. */
  lemma PairGroup(c: char, d: char)
    requires NonZeroDigit(c) && NonZeroDigit(d)
    ensures Balanced([c, ' ', d]) && ToNumber(Seq(Tokens([c, ' ', d]))) == Some(Digit(c))
  {
    TokenTextFlat([c, ' ', d], 1);
    ReadPair(c, d);
    PairNumber(c, d);
  }

  /** As written: the text `(c d)` of two non-zero digits reads as the
      number `c` alone, the second element lost; `(1 2)` reads as 1. */
  lemma PairCollapses(c: char, d: char)
    requires NonZeroDigit(c) && NonZeroDigit(d)
    ensures Tokens(['(', c, ' ', d, ')']) == [Number(Digit(c))]
  {
    PairGroup(c, d);
    NumericGroupCollapses([c, ' ', d], Digit(c));
    assert ['(', c, ' ', d, ')'] == "(" + [c, ' ', d] + ")";
  }

  /** As written: `(1 2)` reads as the number 1. */
  lemma GroupCollapses()
    ensures Tokens("(1 2)") == [Number(Finite(Decimal(1, 0)))]
  {
    PairCollapses('1', '2');
    assert ['(', '1', ' ', '2', ')'] == "(1 2)";
  }

  /** The reader without the final pass. */
  function IntendedTokens(text: string): seq<Expr> {
    Read(text, false)
  }

  /** Without the final pass a group closed at depth 0 is always one
      nested sequence: the tokens of the text inside it. */
  lemma IntendedGroup(inner: string)
    requires Balanced(inner)
    ensures IntendedTokens("(" + inner + ")") == [Seq(IntendedTokens(inner))]
  {
    var text := "(" + inner + ")";
    assert text[0..|inner| + 2] == text;
    ScanGroup(text, 0, inner, []);
    assert Scan(text, 0, None, 0, []) == [Group(inner)];
  }

  /** Corrected: without the final pass `(c d)` of two non-zero digits
      reads as the sequence of the two numbers. */
  lemma IntendedPair(c: char, d: char)
    requires NonZeroDigit(c) && NonZeroDigit(d)
    ensures IntendedTokens(['(', c, ' ', d, ')']) == [Seq([Number(Digit(c)), Number(Digit(d))])]
  {
    var inner := [c, ' ', d];
    assert Balanced(inner) by {
      TokenTextFlat(inner, 1);
    }
    assert IntendedTokens(inner) == [Number(Digit(c)), Number(Digit(d))] by {
      ReadPair(c, d);
    }
    IntendedGroup(inner);
    assert "(" + inner + ")" == ['(', c, ' ', d, ')'];
  }

  /** Corrected: without the final pass `(1 2)` reads as the sequence of
      1 and 2. */
  lemma IntendedKeepsGroup()
    ensures IntendedTokens("(1 2)") == [Seq([Number(Finite(Decimal(1, 0))), Number(Finite(Decimal(2, 0)))])]
  {
    IntendedPair('1', '2');
    assert ['(', '1', ' ', '2', ')'] == "(1 2)";
  }
}
