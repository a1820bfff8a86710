/** How the reader and the printer fit together: baking a printed token
    gives the token back, a group closed at depth 0 becomes one nested
    sequence, an unclosed group becomes one baked token, and reading the
    printed form of a tree of symbols, booleans and sequences gives the
    tree back. */
module RoundTrip {
  import opened Values
  import opened Numbers
  import opened JsConv
  import opened Reader
  import opened Printer

  /** A name the reader gives back unchanged as a symbol. */
  predicate PlainName(n: string) {
    n != "" && !IsBoolLiteral(n) && ParseFloat(n) == None &&
    forall i :: 0 <= i < |n| ==> n[i] != ' ' && n[i] != '"' && n[i] != '(' && n[i] != ')'
  }

  /** Trees of plain symbols, booleans and sequences. */
  predicate Canonical(e: Expr)
    decreases e
  {
    match e
    case Sym(n) => PlainName(n)
    case Bool(_) => true
    case Seq(xs) => forall i :: 0 <= i < |xs| ==> Canonical(xs[i])
    case _ => false
  }

  predicate CanonicalAll(xs: seq<Expr>) {
    forall i :: 0 <= i < |xs| ==> Canonical(xs[i])
  }

  function Size(e: Expr): nat
    decreases e, 0
  {
    if e.Seq? then 1 + SizeAll(e.items) else 1
  }

  function SizeAll(xs: seq<Expr>): nat
    decreases xs
  {
    if xs == [] then 0 else Size(xs[0]) + SizeAll(xs[1..])
  }

  // ---------------------------------------------------------------------
  // bakeToken and the printer

  /** `bakeToken` precedence: booleans, then quoted text, then numbers,
      then symbols, and nothing else comes out of it. */
  lemma BakeTokenPrecedence(token: string)
    ensures BakeToken(token).Bool? <==> IsBoolLiteral(token)
    ensures BakeToken(token) == Bool(true) <==> token == "#t" || token == "#true"
    ensures BakeToken(token).Str? <==> !IsBoolLiteral(token) && IsQuoted(token)
    ensures BakeToken(token).Str? ==> BakeToken(token).s == if |token| >= 2 then token[1..|token| - 1] else ""
    ensures BakeToken(token).Number? <==>
      !IsBoolLiteral(token) && !IsQuoted(token) && ParseFloat(token).Some?
    ensures BakeToken(token).Number? ==> BakeToken(token) == Number(ParseFloat(token).value)
    ensures BakeToken(token).Sym? <==>
      !IsBoolLiteral(token) && !IsQuoted(token) && ParseFloat(token) == None
    ensures BakeToken(token).Sym? ==> BakeToken(token).name == token
  {
  }

  /** Printing a baked boolean literal gives its short spelling. */
  lemma StringifyBakeBool(token: string)
    requires IsBoolLiteral(token)
    ensures Stringify(BakeToken(token)) == if token == "#t" || token == "#true" then "#t" else "#f"
  {
    if token == "#t" || token == "#true" {
      assert BakeToken(token) == Bool(true);
    } else {
      assert BakeToken(token) == Bool(false);
    }
  }

  /** A token that is not a boolean, quoted or a number bakes to the
      symbol of that very text. */
  lemma BakeSymbol(token: string)
    requires !IsBoolLiteral(token) && !IsQuoted(token) && ParseFloat(token) == None
    ensures BakeToken(token) == Sym(token)
  {
  }

  /** A symbol prints as its name, so a baked symbol prints as the token
      it was baked from. */
  lemma PrintSymbol(name: string)
    ensures Stringify(Sym(name)) == name
  {
  }

  // ---------------------------------------------------------------------
  // parseFloat and String(x) on the values of a canonical tree

  /** A character that can start neither a number nor a boolean literal. */
  predicate Inert(c: char) {
    c == '[' || c == 't' || c == 'f' || c == ','
  }

  /** A text that is empty or starts with an inert character is not a
      number. */
  lemma InertNotNumber(s: string)
    requires s == [] || Inert(s[0])
    ensures ParseFloat(s) == None
  {
    assert TrimStart(s) == s;
    assert DigitRun(s) == 0;
    if |s| >= 8 {
      assert s[..8][0] == s[0];
    }
    assert UnsignedDecimal(s) == None;
  }

  /** `String(x)` of a canonical tree: "true", "false", "[object Object]"
      for a symbol, and those joined by commas for a sequence. */
  lemma {:induction false} InertToString(e: Expr)
    requires Canonical(e)
    ensures ToString(e) == [] || Inert(ToString(e)[0])
    decreases e, 1
  {
    if e.Seq? {
      InertJoined(e.items);
    }
  }

  lemma {:induction false} InertJoined(xs: seq<Expr>)
    requires CanonicalAll(xs)
    ensures JoinedToString(xs) == [] || Inert(JoinedToString(xs)[0])
    decreases xs
  {
    if |xs| == 1 {
      InertToString(xs[0]);
    } else if |xs| > 1 {
      var front := JoinedToString(xs[..|xs| - 1]);
      InertJoined(xs[..|xs| - 1]);
      assert JoinedToString(xs) == front + "," + ElementToString(xs[|xs| - 1]);
      if front != [] {
        assert JoinedToString(xs)[0] == front[0];
      }
    }
  }

  /** The final pass of the reader leaves a canonical tree alone. */
  lemma RebakeCanonical(e: Expr)
    requires Canonical(e)
    ensures Rebake(e) == e
  {
    InertToString(e);
    InertNotNumber(ToString(e));
    InertNotLiteral(e);
    RebakeKeeps(e);
  }

  /** A value whose `String()` starts with an inert character is loosely
      equal to no boolean literal. */
  lemma InertNotLiteral(e: Expr)
    requires ToString(e) == [] || Inert(ToString(e)[0])
    ensures !LooseEquals(e, "#t") && !LooseEquals(e, "#true")
    ensures !LooseEquals(e, "#f") && !LooseEquals(e, "#false")
  {
    var s := ToString(e);
    if s != [] {
      assert s[0] != '#';
    }
  }

  // ---------------------------------------------------------------------
  // Group depth

  function Delta(c: char): int {
    if c == '(' then 1 else if c == ')' then -1 else 0
  }

  /** Net change of the group depth over `s`. */
  function Nest(s: string): int {
    if s == [] then 0 else Delta(s[0]) + Nest(s[1..])
  }

  /** Starting at depth `d`, the depth stays at 1 or more all through `s`:
      no group opened before `s` closes inside it. */
  predicate Open(s: string, d: int) {
    s == [] || (d + Delta(s[0]) >= 1 && Open(s[1..], d + Delta(s[0])))
  }

  /** Text that stays inside a group and closes what it opens. */
  predicate Balanced(s: string) {
    Open(s, 1) && Nest(s) == 0
  }

  lemma {:induction false} OpenConcat(a: string, b: string, d: int)
    requires Open(a, d) && Open(b, d + Nest(a))
    ensures Open(a + b, d) && Nest(a + b) == Nest(a) + Nest(b)
    decreases |a|
  {
    if a == [] {
      assert a + b == b;
    } else {
      assert (a + b)[1..] == a[1..] + b;
      OpenConcat(a[1..], b, d + Delta(a[0]));
    }
  }

  lemma {:induction false} OpenDeeper(s: string, d: int, d': int)
    requires Open(s, d) && d <= d'
    ensures Open(s, d')
    decreases |s|
  {
    if s != [] {
      OpenDeeper(s[1..], d + Delta(s[0]), d' + Delta(s[0]));
    }
  }

  /** Inside an open group the loop of `tokenize` only counts parentheses:
      nothing is found and the group's start stays where it was. */
  lemma {:induction false} ScanNested(text: string, i: nat, j: nat, start: nat, d: nat, found: seq<Piece>)
    requires 1 <= start <= i <= j <= |text| && d >= 1
    requires Open(text[i..j], d)
    ensures d + Nest(text[i..j]) >= 1
    ensures Scan(text, i, Some(start), d, found) == Scan(text, j, Some(start), d + Nest(text[i..j]), found)
    decreases j - i
  {
    if i < j {
      var d' := d + Delta(text[i]);
      assert text[i..j][0] == text[i];
      assert text[i..j][1..] == text[i + 1..j];
      ScanNested(text, i + 1, j, start, d', found);
    }
  }

  lemma SliceOfSlice(s: string, a: nat, b: nat, c: nat, d: nat)
    requires a <= b <= |s| && c <= d <= b - a
    ensures s[a..b][c..d] == s[a + c..a + d]
  {
    assert forall k :: 0 <= k < d - c ==> s[a..b][c..d][k] == s[a + c..a + d][k];
  }

  /** A group closed at depth 0 is found as one piece. */
  lemma ScanGroup(text: string, i: nat, inner: string, found: seq<Piece>)
    requires i + |inner| + 2 <= |text| && text[i..i + |inner| + 2] == "(" + inner + ")"
    requires Balanced(inner)
    ensures Scan(text, i, None, 0, found) == Scan(text, i + |inner| + 2, None, 0, found + [Group(inner)])
  {
    var g := text[i..i + |inner| + 2];
    assert text[i] == g[0] == '(';
    assert g[..1 + |inner|] == "(" + inner;
    assert g[1..1 + |inner|] == ("(" + inner)[1..] == inner;
    SliceOfSlice(text, i, i + |inner| + 2, 1, 1 + |inner|);
    assert text[i + 1 + |inner|] == g[1 + |inner|] == ')';
    ScanNested(text, i + 1, i + 1 + |inner|, i + 1, 1, found);
  }

  /** A group closed at depth 0 becomes one nested sequence: the tokens of
      the strictly shorter text between the parentheses. */
  lemma ClosedGroup(inner: string)
    requires Balanced(inner)
    ensures Tokens("(" + inner + ")") == [Rebake(Seq(Tokens(inner)))]
  {
    var text := "(" + inner + ")";
    assert text[0..|inner| + 2] == text;
    ScanGroup(text, 0, inner, []);
    assert Scan(text, 0, None, 0, []) == [Group(inner)];
  }

  /** Leftover text of a group that never closes is baked as a single
      token rather than reported. */
  lemma UnclosedGroup(rest: string)
    requires Open(rest, 1)
    ensures Tokens("(" + rest) == [Rebake(BakeToken(rest))]
  {
    var text := "(" + rest;
    assert text[1..] == rest;
    ScanUnclosed(text, 0, None, []);
    var baked := BakeAll(|text|, [Token(rest)], true);
    assert baked == [BakeToken(rest)];
    assert Tokens(text) == RebakeAll(baked);
  }

  /** Quoted text without parentheses stays inside a group opened before it. */
  lemma QuotedFlat(s: string)
    requires forall i :: 0 <= i < |s| ==> s[i] != '(' && s[i] != ')'
    ensures Open("\"" + s + "\"", 1)
  {
    var rest := QuotedNoParens(s);
    TokenTextFlat(rest, 1);
  }

  lemma QuotedNoParens(s: string) returns (rest: string)
    requires forall i :: 0 <= i < |s| ==> s[i] != '(' && s[i] != ')'
    ensures rest == "\"" + s + "\""
    ensures forall i :: 0 <= i < |rest| ==> rest[i] != '(' && rest[i] != ')'
  {
    rest := "\"" + s + "\"";
    forall i | 0 <= i < |rest|
      ensures rest[i] != '(' && rest[i] != ')'
    {
      if 0 < i < |rest| - 1 {
        assert rest[i] == s[i - 1];
      }
    }
  }

  /** A quoted token bakes to the text between its quotes. */
  lemma BakeQuoted(s: string)
    ensures BakeToken("\"" + s + "\"") == Str(s)
  {
    var rest := "\"" + s + "\"";
    assert rest[0] == '"' && rest[|rest| - 1] == '"' && rest[1..|rest| - 1] == s;
    assert !IsBoolLiteral(rest) by {
      assert rest[0] != "#t"[0];
    }
  }

  /** A string not starting with `#` is loosely equal to no boolean
      literal. */
  lemma StringNotBool(s: string)
    requires s == [] || s[0] != '#'
    ensures !LooseEquals(Str(s), "#t") && !LooseEquals(Str(s), "#true")
    ensures !LooseEquals(Str(s), "#f") && !LooseEquals(Str(s), "#false")
  {
    if s != [] {
      assert s[0] != "#t"[0];
    }
  }

  /** The final pass keeps a string that is neither a boolean literal nor
      a number. */
  lemma RebakeString(s: string)
    requires ParseFloat(s) == None && (s == [] || s[0] != '#')
    ensures Rebake(Str(s)) == Str(s)
  {
    StringNotBool(s);
    StrToNumber(s);
    RebakeKeeps(Str(s));
  }

  /** A string is coerced to a number by parsing its own text. */
  lemma StrToNumber(s: string)
    ensures ToNumber(Str(s)) == ParseFloat(s)
  {
  }

  lemma RebakeKeeps(e: Expr)
    requires !LooseEquals(e, "#t") && !LooseEquals(e, "#true")
    requires !LooseEquals(e, "#f") && !LooseEquals(e, "#false")
    requires ToNumber(e) == None
    ensures Rebake(e) == e
  {
  }

  /** The only way text in quotes reads as a string: as the whole
      leftover of a group that never closes, as in `("ab"`. */
  lemma UnclosedString(s: string)
    requires forall i :: 0 <= i < |s| ==> s[i] != '(' && s[i] != ')'
    requires ParseFloat(s) == None && (s == [] || s[0] != '#')
    ensures Tokens("(" + ("\"" + s + "\"")) == [Str(s)]
  {
    var rest := "\"" + s + "\"";
    QuotedFlat(s);
    UnclosedGroup(rest);
    BakeQuoted(s);
    RebakeString(s);
  }

  /** So a printed string of plain characters reads back after an opening
      parenthesis, and only there. */
  lemma ReadPrintedString(s: string)
    requires forall i :: 0 <= i < |s| ==> PlainChar(s[i]) && s[i] != '(' && s[i] != ')'
    requires ParseFloat(s) == None && (s == [] || s[0] != '#')
    ensures Tokens("(" + Stringify(Str(s))) == [Str(s)]
  {
    PrintPlainString(s);
    UnclosedString(s);
  }

  /** At depth 0, wherever it starts, a group that never closes is found
      as one token: the rest of the text after its parenthesis. */
  lemma ScanUnclosed(text: string, i: nat, tokenStart: Option<nat>, found: seq<Piece>)
    requires i < |text| && text[i] == '('
    requires tokenStart.Some? ==> tokenStart.value <= i
    requires Open(text[i + 1..], 1)
    ensures Scan(text, i, tokenStart, 0, found) == found + [Token(text[i + 1..])]
  {
    ScanOpenGroup(text, i, tokenStart, found);
    assert text[i + 1..|text|] == text[i + 1..];
    ScanNested(text, i + 1, |text|, i + 1, 1, found);
  }

  // ---------------------------------------------------------------------
  // Reading what the printer wrote

  /** A canonical atom prints as a non-empty run of token characters. */
  predicate TokenText(s: string) {
    s != [] && forall i :: 0 <= i < |s| ==> s[i] != ' ' && s[i] != '"' && s[i] != '(' && s[i] != ')'
  }

  lemma {:induction false} BalancedPrint(e: Expr, d: int)
    requires Canonical(e) && d >= 1
    ensures Open(Stringify(e), d) && Nest(Stringify(e)) == 0
    decreases e, 0
  {
    if e.Seq? {
      var inner := StringifyAll(e.items);
      BalancedPrintAll(e.items, d + 1);
      OpenConcat("(", inner, d);
      OpenConcat("(" + inner, ")", d);
    } else {
      AtomText(e);
      TokenTextFlat(Stringify(e), d);
    }
  }

  lemma {:induction false} BalancedPrintAll(xs: seq<Expr>, d: int)
    requires CanonicalAll(xs) && d >= 1
    ensures Open(StringifyAll(xs), d) && Nest(StringifyAll(xs)) == 0
    decreases xs
  {
    if |xs| == 1 {
      BalancedPrint(xs[0], d);
    } else if |xs| > 1 {
      BalancedPrint(xs[0], d);
      BalancedPrintAll(xs[1..], d);
      var head := Stringify(xs[0]);
      OpenConcat(head, " ", d);
      OpenConcat(head + " ", StringifyAll(xs[1..]), d);
    }
  }

  lemma {:induction false} TokenTextFlat(s: string, d: int)
    requires forall i :: 0 <= i < |s| ==> s[i] != '(' && s[i] != ')'
    requires d >= 1
    ensures Open(s, d) && Nest(s) == 0
    decreases |s|
  {
    if s != [] {
      TokenTextFlat(s[1..], d);
    }
  }

  /** Over the characters of a pending token the loop changes nothing. */
  lemma {:induction false} ScanToken(text: string, i: nat, j: nat, start: nat, found: seq<Piece>)
    requires start <= i <= j <= |text|
    requires forall k :: i <= k < j ==> text[k] != ' ' && text[k] != '"' && text[k] != '('
    ensures Scan(text, i, Some(start), 0, found) == Scan(text, j, Some(start), 0, found)
    decreases j - i
  {
    if i < j {
      ScanToken(text, i + 1, j, start, found);
    }
  }

  /** A token at depth 0 is remembered from its first character on. */
  lemma ScanAtom(text: string, i: nat, p: string, found: seq<Piece>)
    requires i + |p| <= |text| && text[i..i + |p|] == p && TokenText(p)
    ensures Scan(text, i, None, 0, found) == Scan(text, i + |p|, Some(i), 0, found)
  {
    assert text[i] == p[0];
    assert forall k :: i + 1 <= k < i + |p| ==> text[k] == p[k - i];
    ScanToken(text, i + 1, i + |p|, i, found);
  }

  lemma AtomText(e: Expr)
    requires Canonical(e) && !e.Seq?
    ensures TokenText(Stringify(e))
  {
    if e.Sym? {
      PrintSymbol(e.name);
    } else if e.b {
      assert Stringify(e) == "#t";
    } else {
      assert Stringify(e) == "#f";
    }
  }

  /** A canonical atom prints as a token that bakes back to it. */
  lemma AtomPrint(e: Expr)
    requires Canonical(e) && !e.Seq?
    ensures TokenText(Stringify(e)) && BakeToken(Stringify(e)) == e
  {
    AtomText(e);
    if e.Sym? {
      PrintSymbol(e.name);
      assert !IsQuoted(e.name) by {
        assert e.name[0] != '"';
      }
      BakeSymbol(e.name);
    } else if e.b {
      assert Stringify(e) == "#t";
    } else {
      assert Stringify(e) == "#f";
    }
  }

  /** The piece the loop of `tokenize` finds for a printed item. */
  function Printed(x: Expr): Piece {
    if x.Seq? then Group(StringifyAll(x.items)) else Token(Stringify(x))
  }

  function PrintedAll(xs: seq<Expr>): (r: seq<Piece>)
    ensures |r| == |xs| && forall k :: 0 <= k < |xs| ==> r[k] == Printed(xs[k])
  {
    if xs == [] then [] else [Printed(xs[0])] + PrintedAll(xs[1..])
  }

  /** A token at depth 0, followed by the end of the text or a blank, is
      found whole. */
  lemma ScanWholeToken(text: string, i: nat, p: string, found: seq<Piece>)
    requires i + |p| <= |text| && text[i..i + |p|] == p && TokenText(p)
    requires i + |p| < |text| ==> text[i + |p|] == ' '
    ensures var next := i + |p|;
      Scan(text, i, None, 0, found) ==
        if next == |text| then found + [Token(p)]
        else Scan(text, next + 1, None, 0, found + [Token(p)])
  {
    var next := i + |p|;
    ScanAtom(text, i, p, found);
    if next == |text| {
      assert text[i..] == p;
      assert Scan(text, next, Some(i), 0, found) == found + [Token(p)];
    } else {
      assert Scan(text, next, Some(i), 0, found) == Scan(text, next + 1, None, 0, found + [Token(p)]);
    }
  }

  /** The text a piece is found in: a token, or a group's inside in its
      parentheses. */
  function PieceText(p: Piece): string {
    match p
    case Token(t) => t
    case Group(g) => "(" + g + ")"
  }

  /** A piece the loop finds whole from its text: a run of token
      characters, or a balanced group. */
  predicate Whole(p: Piece) {
    match p
    case Token(t) => TokenText(t)
    case Group(g) => Balanced(g)
  }

  predicate AllWhole(ps: seq<Piece>) {
    forall k :: 0 <= k < |ps| ==> Whole(ps[k])
  }

  /** The texts of pieces joined by single blanks. */
  function JoinPieces(ps: seq<Piece>): string {
    if ps == [] then ""
    else if |ps| == 1 then PieceText(ps[0])
    else PieceText(ps[0]) + " " + JoinPieces(ps[1..])
  }

  /** One whole piece, followed by the end of the text or a blank, is
      found as itself. */
  lemma ScanPiece(text: string, i: nat, p: Piece, found: seq<Piece>)
    requires Whole(p)
    requires i + |PieceText(p)| <= |text| && text[i..i + |PieceText(p)|] == PieceText(p)
    requires i + |PieceText(p)| < |text| ==> text[i + |PieceText(p)|] == ' '
    ensures var next := i + |PieceText(p)|;
      Scan(text, i, None, 0, found) ==
        if next == |text| then found + [p]
        else Scan(text, next + 1, None, 0, found + [p])
  {
    if p.Group? {
      var next := i + |PieceText(p)|;
      ScanGroup(text, i, p.inner, found);
      if next < |text| {
        ScanSeparator(text, next, None, found + [p]);
      }
    } else {
      ScanWholeToken(text, i, p.token, found);
    }
  }

  /** With no pieces left, the loop is at the end of the text. */
  lemma ScanNoPiece(text: string, i: nat, all: seq<Piece>, m: nat)
    requires m == |all| && i <= |text| && text[i..] == JoinPieces(all[m..])
    ensures Scan(text, i, None, 0, all[..m]) == all
  {
    assert all[m..] == [] && all[..m] == all;
    assert |text[i..]| == 0;
  }

  /** The last of the joined pieces is found as itself. */
  lemma ScanLastPiece(text: string, i: nat, all: seq<Piece>, m: nat)
    requires m + 1 == |all| && i <= |text| && text[i..] == JoinPieces(all[m..]) && AllWhole(all)
    ensures Scan(text, i, None, 0, all[..m]) == all
  {
    var p := all[m];
    assert Whole(p);
    assert all[m..] == [p];
    assert i + |PieceText(p)| == |text| && text[i..i + |PieceText(p)|] == PieceText(p);
    ScanPiece(text, i, p, all[..m]);
    assert all[..m] + [p] == all;
  }

  /** After the first of several joined pieces and the blank that follows
      it come the remaining pieces. */
  lemma FirstPieceText(text: string, i: nat, all: seq<Piece>, m: nat)
    requires m + 1 < |all| && i <= |text| && text[i..] == JoinPieces(all[m..])
    ensures var next := i + |PieceText(all[m])|;
      next < |text| && text[i..next] == PieceText(all[m]) && text[next] == ' ' &&
      text[next + 1..] == JoinPieces(all[m + 1..])
  {
    var t := PieceText(all[m]);
    var next := i + |t|;
    assert all[m..][0] == all[m] && all[m..][1..] == all[m + 1..];
    assert text[i..] == t + " " + JoinPieces(all[m + 1..]);
    assert text[i..next] == t;
  }

  /** Where the remaining pieces start, after the first of several joined
      pieces and its blank. */
  lemma NextPiece(text: string, i: nat, all: seq<Piece>, m: nat) returns (next: nat)
    requires m + 1 < |all| && i <= |text| && text[i..] == JoinPieces(all[m..])
    ensures next <= |text| && text[next..] == JoinPieces(all[m + 1..])
  {
    FirstPieceText(text, i, all, m);
    next := i + |PieceText(all[m])| + 1;
  }

  /** The first of several joined pieces is found as itself, so once the
      loop finds all the pieces from the remaining ones on, it finds them
      from the first one on. */
  lemma ScanThenRest(text: string, i: nat, all: seq<Piece>, m: nat, next: nat)
    requires m + 1 < |all| && i <= |text| && text[i..] == JoinPieces(all[m..]) && AllWhole(all)
    requires next <= |text| && text[next..] == JoinPieces(all[m + 1..])
    requires Scan(text, next, None, 0, all[..m + 1]) == all
    ensures Scan(text, i, None, 0, all[..m]) == all
  {
    var p := all[m];
    assert Whole(p);
    FirstPieceText(text, i, all, m);
    assert next == i + |PieceText(p)| + 1;
    ScanPiece(text, i, p, all[..m]);
    assert all[..m] + [p] == all[..m + 1];
  }

  /** The loop of `tokenize`, started at depth 0 on whole pieces joined by
      single blanks, finds exactly those pieces: having found the first
      `m` of them, it finds the rest. */
  lemma {:induction false} ScanPieces(text: string, i: nat, all: seq<Piece>, m: nat)
    requires m <= |all| && i <= |text| && text[i..] == JoinPieces(all[m..]) && AllWhole(all)
    ensures Scan(text, i, None, 0, all[..m]) == all
    decreases |all| - m
  {
    if m == |all| {
      ScanNoPiece(text, i, all, m);
    } else if m + 1 == |all| {
      ScanLastPiece(text, i, all, m);
    } else {
      var next := NextPiece(text, i, all, m);
      ScanPieces(text, next, all, m + 1);
      ScanThenRest(text, i, all, m, next);
    }
  }

  /** Whole pieces joined by single blanks and followed by a blank are
      found as themselves, and the loop goes on after that blank with
      nothing pending. */
  lemma {:induction false} ScanBefore(text: string, i: nat, all: seq<Piece>, m: nat, tail: string)
    requires m < |all| && AllWhole(all)
    requires i <= |text| && text[i..] == JoinPieces(all[m..]) + " " + tail
    ensures Scan(text, i, None, 0, all[..m]) == Scan(text, |text| - |tail|, None, 0, all)
    decreases |all| - m
  {
    var next := ScanBeforeStep(text, i, all, m, tail);
    if m + 1 == |all| {
      assert all[..m + 1] == all;
    } else {
      ScanBefore(text, next + 1, all, m + 1, tail);
    }
  }

  /** The first of the pieces before the tail is found as itself. */
  lemma ScanBeforeStep(text: string, i: nat, all: seq<Piece>, m: nat, tail: string) returns (next: nat)
    requires m < |all| && AllWhole(all)
    requires i <= |text| && text[i..] == JoinPieces(all[m..]) + " " + tail
    ensures next < |text| && Scan(text, i, None, 0, all[..m]) == Scan(text, next + 1, None, 0, all[..m + 1])
    ensures m + 1 == |all| ==> next + 1 == |text| - |tail|
    ensures m + 1 < |all| ==> text[next + 1..] == JoinPieces(all[m + 1..]) + " " + tail
  {
    var p := all[m];
    assert Whole(p);
    next := PieceBefore(text, i, all, m, tail);
    ScanPiece(text, i, p, all[..m]);
    assert all[..m] + [p] == all[..m + 1];
  }

  /** Where the first of the pieces before the tail ends, and what follows
      its blank. */
  lemma PieceBefore(text: string, i: nat, all: seq<Piece>, m: nat, tail: string) returns (next: nat)
    requires m < |all| && i <= |text| && text[i..] == JoinPieces(all[m..]) + " " + tail
    ensures next == i + |PieceText(all[m])| && next < |text|
    ensures text[i..next] == PieceText(all[m]) && text[next] == ' '
    ensures m + 1 == |all| ==> text[next + 1..] == tail && next + 1 == |text| - |tail|
    ensures m + 1 < |all| ==> text[next + 1..] == JoinPieces(all[m + 1..]) + " " + tail
  {
    var t := PieceText(all[m]);
    next := i + |t|;
    assert all[m..][0] == all[m] && all[m..][1..] == all[m + 1..];
    var after := if m + 1 == |all| then tail else JoinPieces(all[m + 1..]) + " " + tail;
    assert text[i..] == t + " " + after;
    assert text[i..][..|t|] == t && text[i..][|t|] == ' ' && text[i..][|t| + 1..] == after;
  }

  /** Leftover text of a group that never closes, after any whole pieces,
      becomes one more baked token after the tokens of those pieces. */
  lemma UnclosedAfterPieces(ps: seq<Piece>, rest: string)
    requires ps != [] && AllWhole(ps) && Open(rest, 1)
    ensures Tokens(JoinPieces(ps) + " (" + rest) == Tokens(JoinPieces(ps)) + [Rebake(BakeToken(rest))]
  {
    var prefix := JoinPieces(ps);
    ScanUnclosedAfter(ps, rest);
    assert prefix[0..] == prefix && ps[..0] == [];
    ScanPieces(prefix, 0, ps, 0);
    ReadAppendToken(prefix + " (" + rest, prefix, ps, rest);
  }

  /** The loop finds the whole pieces, then the unclosed group's rest. */
  lemma ScanUnclosedAfter(ps: seq<Piece>, rest: string)
    requires ps != [] && AllWhole(ps) && Open(rest, 1)
    ensures Scan(JoinPieces(ps) + " (" + rest, 0, None, 0, []) == ps + [Token(rest)]
  {
    var tail := "(" + rest;
    var text := JoinPieces(ps) + " " + tail;
    assert text == JoinPieces(ps) + " (" + rest;
    assert ps[0..] == ps && ps[..0] == [] && text[0..] == text;
    ScanBefore(text, 0, ps, 0, tail);
    var j := |text| - |tail|;
    assert text[j..] == tail && text[j] == '(' && text[j + 1..] == rest;
    ScanUnclosed(text, j, None, ps);
  }

  /** A text whose loop finds one more token than another's reads as the
      other's items followed by that token, baked. */
  lemma ReadAppendToken(text: string, prefix: string, ps: seq<Piece>, rest: string)
    requires Scan(text, 0, None, 0, []) == ps + [Token(rest)]
    requires Scan(prefix, 0, None, 0, []) == ps
    ensures Tokens(text) == Tokens(prefix) + [Rebake(BakeToken(rest))]
  {
    var found := ps + [Token(rest)];
    ScanWithin(text, 0, None, 0, []);
    ScanWithin(prefix, 0, None, 0, []);
    var baked := BakeAll(|text|, found, true);
    var front := BakeAll(|prefix|, ps, true);
    assert Tokens(text) == RebakeAll(baked);
    assert Tokens(prefix) == RebakeAll(front);
    forall k | 0 <= k < |ps|
      ensures baked[k] == front[k]
    {
      assert found[k] == ps[k];
    }
    assert baked[|ps|] == BakeToken(rest);
  }

  /** A canonical item prints as the text of a whole piece. */
  lemma PrintedWhole(x: Expr)
    requires Canonical(x)
    ensures Whole(Printed(x)) && PieceText(Printed(x)) == Stringify(x)
  {
    if x.Seq? {
      BalancedPrintAll(x.items, 1);
      assert Stringify(x) == "(" + StringifyAll(x.items) + ")";
    } else {
      AtomText(x);
    }
  }

  /** The printed form of a canonical forest is its pieces joined by
      blanks. */
  lemma {:induction false} PrintedAllJoined(xs: seq<Expr>)
    requires CanonicalAll(xs)
    ensures AllWhole(PrintedAll(xs)) && JoinPieces(PrintedAll(xs)) == StringifyAll(xs)
    decreases |xs|
  {
    if xs != [] {
      PrintedWhole(xs[0]);
      if |xs| > 1 {
        PrintedAllJoined(xs[1..]);
        assert PrintedAll(xs)[1..] == PrintedAll(xs[1..]);
      }
    }
  }

  lemma {:induction false} SizeMember(xs: seq<Expr>, k: nat)
    requires k < |xs|
    ensures Size(xs[k]) <= SizeAll(xs)
    decreases k
  {
    if k > 0 {
      SizeMember(xs[1..], k - 1);
    }
  }

  /** Each printed item bakes back to itself, given that a group's
      inside reads back. */
  lemma BakePrinted(n: nat, x: Expr)
    requires Canonical(x) && (x.Seq? ==> Tokens(StringifyAll(x.items)) == x.items)
    requires Printed(x).Group? ==> |Printed(x).inner| < n
    ensures Rebake(BakePiece(n, Printed(x), true)) == x
  {
    if !x.Seq? {
      AtomPrint(x);
    }
    RebakeCanonical(x);
  }

  /** Reading the printed form of a canonical forest (its items joined by
      single blanks) gives the forest back. */
  lemma {:induction false} TokensForest(xs: seq<Expr>)
    requires CanonicalAll(xs)
    ensures Tokens(StringifyAll(xs)) == xs
    decreases SizeAll(xs)
  {
    var text := StringifyAll(xs);
    var pieces := PrintedAll(xs);
    PrintedAllJoined(xs);
    assert text[0..] == text;
    ScanPieces(text, 0, pieces, 0);
    assert pieces[..0] == [];
    assert Scan(text, 0, None, 0, []) == pieces;
    ScanWithin(text, 0, None, 0, []);
    var baked := BakeAll(|text|, pieces, true);
    forall k | 0 <= k < |xs|
      ensures Rebake(baked[k]) == xs[k]
    {
      var x := xs[k];
      if x.Seq? {
        SizeMember(xs, k);
        TokensForest(x.items);
      }
      BakePrinted(|text|, x);
    }
    assert Tokens(text) == RebakeAll(baked);
  }

  /** Reading the printed form of a canonical tree gives the tree back. */
  lemma ReadPrinted(e: Expr)
    requires Canonical(e)
    ensures Tokens(Stringify(e)) == [e]
  {
    TokensForest([e]);
  }
}
