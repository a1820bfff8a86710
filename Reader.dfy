/** The reader: `bakeToken` and `tokenize`. Only `(` and `)` group, and at
    the top level of a group only a blank and a double quote end a token;
    an unclosed group or a trailing token is baked as it stands. */
module Reader {
  import opened Values
  import opened Numbers
  import opened JsConv

  predicate IsBoolLiteral(token: string) {
    token == "#t" || token == "#true" || token == "#f" || token == "#false"
  }

  /** First and last characters are both `"` (a lone `"` qualifies). */
  predicate IsQuoted(token: string) {
    |token| >= 1 && token[0] == '"' && token[|token| - 1] == '"'
  }

  /** `bakeToken`: booleans first, then quoted text (the inner part, empty
      for a lone quote), then numbers, and a symbol for everything else. */
  function BakeToken(token: string): Expr {
    if token == "#t" || token == "#true" then Bool(true)
    else if token == "#f" || token == "#false" then Bool(false)
    else if IsQuoted(token) then Str(if |token| >= 2 then token[1..|token| - 1] else "")
    else match ParseFloat(token)
      case Some(n) => Number(n)
      case None => Symbol(token)
  }

  /** The final pass of `tokenize` over each top-level item: a value equal
      to "#t"/"#true" or "#f"/"#false" becomes a boolean, and one whose
      `parseFloat` is a number becomes that number. */
  function Rebake(token: Expr): Expr {
    if LooseEquals(token, "#t") || LooseEquals(token, "#true") then Bool(true)
    else if LooseEquals(token, "#f") || LooseEquals(token, "#false") then Bool(false)
    else match ToNumber(token)
      case Some(n) => Number(n)
      case None => token
  }

  /** What the character loop of `tokenize` finds: the text of a token,
      or the text inside a group closed at depth 0. */
  datatype Piece = Token(token: string) | Group(inner: string)

  /** Every group found in a text is strictly shorter than the text. */
  predicate Within(pieces: seq<Piece>, n: nat) {
    forall k :: 0 <= k < |pieces| ==> pieces[k].Group? ==> |pieces[k].inner| < n
  }

  /** The character loop of `tokenize` from position `i` on, with the
      loop's state: where the pending token (or open group) starts, the
      group depth, and the pieces found so far. */
  function Scan(text: string, i: nat, tokenStart: Option<nat>, parenCount: nat, found: seq<Piece>): (r: seq<Piece>)
    requires i <= |text|
    requires tokenStart.Some? ==> tokenStart.value <= i
    requires parenCount > 0 ==> tokenStart.Some? && tokenStart.value >= 1
    decreases |text| - i
  {
    if i == |text| then
      if tokenStart.Some? then found + [Token(text[tokenStart.value..])] else found
    else
      var ch := text[i];
      if parenCount > 0 then
        if ch == '(' then Scan(text, i + 1, tokenStart, parenCount + 1, found)
        else if ch == ')' then
          if parenCount == 1 then
            Scan(text, i + 1, None, 0, found + [Group(text[tokenStart.value..i])])
          else Scan(text, i + 1, tokenStart, parenCount - 1, found)
        else Scan(text, i + 1, tokenStart, parenCount, found)
      else if ch == ' ' || ch == '"' then
        var pushed := if tokenStart.Some? then found + [Token(text[tokenStart.value..i])] else found;
        Scan(text, i + 1, if ch == '"' then Some(i) else None, 0, pushed)
      else if ch == '(' then Scan(text, i + 1, Some(i + 1), 1, found)
      else if tokenStart.None? then Scan(text, i + 1, Some(i), 0, found)
      else Scan(text, i + 1, tokenStart, 0, found)
  }

  /** The value `tokenize` pushes for a piece: a baked token, or the
      tokens of a group's inside as a nested sequence. `postPass` says
      whether the final pass runs over each level's items, as it does in
      the source (see `Tokens`). */
  function BakePiece(n: nat, piece: Piece, postPass: bool): Expr
    requires piece.Group? ==> |piece.inner| < n
    decreases n, 0
  {
    match piece
    case Token(t) => BakeToken(t)
    case Group(g) => Seq(Read(g, postPass))
  }

  /** Every group the character loop finds is strictly shorter than the
      text, since it starts after an opening parenthesis. */
  lemma {:induction false} ScanWithin(text: string, i: nat, tokenStart: Option<nat>, parenCount: nat, found: seq<Piece>)
    requires i <= |text|
    requires tokenStart.Some? ==> tokenStart.value <= i
    requires parenCount > 0 ==> tokenStart.Some? && tokenStart.value >= 1
    requires Within(found, |text|)
    ensures Within(Scan(text, i, tokenStart, parenCount, found), |text|)
    decreases |text| - i
  {
    if i < |text| {
      var ch := text[i];
      if parenCount > 0 {
        if ch == '(' {
          ScanWithin(text, i + 1, tokenStart, parenCount + 1, found);
        } else if ch == ')' && parenCount == 1 {
          var g := Group(text[tokenStart.value..i]);
          PushWithin(found, g, |text|);
          ScanWithin(text, i + 1, None, 0, found + [g]);
        } else if ch == ')' {
          ScanWithin(text, i + 1, tokenStart, parenCount - 1, found);
        } else {
          ScanWithin(text, i + 1, tokenStart, parenCount, found);
        }
      } else if ch == ' ' || ch == '"' {
        var pushed := if tokenStart.Some? then found + [Token(text[tokenStart.value..i])] else found;
        if tokenStart.Some? {
          PushWithin(found, Token(text[tokenStart.value..i]), |text|);
        }
        ScanWithin(text, i + 1, if ch == '"' then Some(i) else None, 0, pushed);
      } else if ch == '(' {
        ScanWithin(text, i + 1, Some(i + 1), 1, found);
      } else if tokenStart.None? {
        ScanWithin(text, i + 1, Some(i), 0, found);
      } else {
        ScanWithin(text, i + 1, tokenStart, 0, found);
      }
    } else if tokenStart.Some? {
      PushWithin(found, Token(text[tokenStart.value..]), |text|);
    }
  }

  /** Pushing a piece keeps every group shorter than the text. */
  lemma PushWithin(pieces: seq<Piece>, p: Piece, n: nat)
    requires Within(pieces, n) && (p.Group? ==> |p.inner| < n)
    ensures Within(pieces + [p], n)
  {
    assert forall k :: 0 <= k < |pieces| ==> (pieces + [p])[k] == pieces[k];
  }

  function BakeAll(n: nat, pieces: seq<Piece>, postPass: bool): (r: seq<Expr>)
    requires Within(pieces, n)
    ensures |r| == |pieces| && forall k :: 0 <= k < |pieces| ==> r[k] == BakePiece(n, pieces[k], postPass)
    decreases n, 1, |pieces|
  {
    seq(|pieces|, k requires 0 <= k < |pieces| => BakePiece(n, pieces[k], postPass))
  }

  /** Baking one more piece appends its value. */
  lemma BakeAllPush(n: nat, pieces: seq<Piece>, p: Piece, postPass: bool)
    requires Within(pieces, n) && (p.Group? ==> |p.inner| < n)
    ensures Within(pieces + [p], n)
    ensures BakeAll(n, pieces + [p], postPass) == BakeAll(n, pieces, postPass) + [BakePiece(n, p, postPass)]
  {
    PushWithin(pieces, p, n);
    assert (pieces + [p])[..|pieces|] == pieces;
  }

  function RebakeAll(raw: seq<Expr>): (r: seq<Expr>)
    ensures |r| == |raw| && forall k :: 0 <= k < |raw| ==> r[k] == Rebake(raw[k])
  {
    seq(|raw|, k requires 0 <= k < |raw| => Rebake(raw[k]))
  }

  /** The reader, with or without the final pass at every level. */
  function Read(text: string, postPass: bool): seq<Expr>
    decreases |text|, 2
  {
    var pieces := Scan(text, 0, None, 0, []);
    ScanWithin(text, 0, None, 0, []);
    var baked := BakeAll(|text|, pieces, postPass);
    if postPass then RebakeAll(baked) else baked
  }

  /** `tokenize(text)` */
  function Tokens(text: string): seq<Expr> {
    Read(text, true)
  }

  /** Inside a group, a character other than the closing parenthesis
      of the outermost group only changes the depth. */
  lemma ScanInGroup(text: string, i: nat, start: nat, d: nat, found: seq<Piece>)
    requires i < |text| && 1 <= start <= i && d > 0
    requires !(text[i] == ')' && d == 1)
    ensures var d' := if text[i] == '(' then d + 1 else if text[i] == ')' then d - 1 else d;
      Scan(text, i, Some(start), d, found) == Scan(text, i + 1, Some(start), d', found)
  {
  }

  /** The closing parenthesis of the outermost group pushes the group. */
  lemma ScanCloseGroup(text: string, i: nat, start: nat, found: seq<Piece>)
    requires i < |text| && 1 <= start <= i && text[i] == ')'
    ensures Scan(text, i, Some(start), 1, found) == Scan(text, i + 1, None, 0, found + [Group(text[start..i])])
  {
  }

  /** At depth 0, a blank or a quote ends the pending token, and a quote
      starts a new one. */
  lemma ScanSeparator(text: string, i: nat, tokenStart: Option<nat>, found: seq<Piece>)
    requires i < |text| && (text[i] == ' ' || text[i] == '"')
    requires tokenStart.Some? ==> tokenStart.value <= i
    ensures var pushed := if tokenStart.Some? then found + [Token(text[tokenStart.value..i])] else found;
      Scan(text, i, tokenStart, 0, found) == Scan(text, i + 1, if text[i] == '"' then Some(i) else None, 0, pushed)
  {
  }

  /** At depth 0, an opening parenthesis starts a group, dropping any
      pending token. */
  lemma ScanOpenGroup(text: string, i: nat, tokenStart: Option<nat>, found: seq<Piece>)
    requires i < |text| && text[i] == '('
    requires tokenStart.Some? ==> tokenStart.value <= i
    ensures Scan(text, i, tokenStart, 0, found) == Scan(text, i + 1, Some(i + 1), 1, found)
  {
  }

  /** At depth 0, any other character starts a token or continues one. */
  lemma ScanOther(text: string, i: nat, tokenStart: Option<nat>, found: seq<Piece>)
    requires i < |text| && text[i] != ' ' && text[i] != '"' && text[i] != '('
    requires tokenStart.Some? ==> tokenStart.value <= i
    ensures Scan(text, i, tokenStart, 0, found) ==
      Scan(text, i + 1, if tokenStart.None? then Some(i) else tokenStart, 0, found)
  {
  }

  /** `tokenize`, as the source writes it: one pass over the characters
      that pushes baked tokens and recursively tokenized groups, then the
      final pass over the items. */
  method Tokenize(text: string) returns (ast: seq<Expr>)
    ensures ast == Tokens(text)
    decreases |text|
  {
    var raw: seq<Expr> := [];
    ghost var found: seq<Piece> := [];
    var tokenStart: Option<nat> := None;
    var parenCount: nat := 0;
    for i := 0 to |text|
      invariant tokenStart.Some? ==> tokenStart.value <= i
      invariant parenCount > 0 ==> tokenStart.Some? && tokenStart.value >= 1
      invariant Within(found, |text|) && raw == BakeAll(|text|, found, true)
      invariant Scan(text, i, tokenStart, parenCount, found) == Scan(text, 0, None, 0, [])
    {
      var ch := text[i];
      if parenCount > 0 {
        if ch == '(' {
          ScanInGroup(text, i, tokenStart.value, parenCount, found);
          parenCount := parenCount + 1;
        } else if ch == ')' {
          if parenCount == 1 {
            var inner := text[tokenStart.value..i];
            ScanCloseGroup(text, i, tokenStart.value, found);
            var group := Tokenize(inner);
            BakeAllPush(|text|, found, Group(inner), true);
            raw := raw + [Seq(group)];
            found := found + [Group(inner)];
            tokenStart := None;
            parenCount := 0;
          } else {
            ScanInGroup(text, i, tokenStart.value, parenCount, found);
            parenCount := parenCount - 1;
          }
        } else {
          ScanInGroup(text, i, tokenStart.value, parenCount, found);
        }
      } else if ch == ' ' || ch == '"' {
        var next := if ch == '"' then Some(i) else None;
        ScanSeparator(text, i, tokenStart, found);
        if tokenStart.Some? {
          var token := text[tokenStart.value..i];
          BakeAllPush(|text|, found, Token(token), true);
          raw := raw + [BakeToken(token)];
          found := found + [Token(token)];
        } else {
        }
        tokenStart := next;
      } else if ch == '(' {
        ScanOpenGroup(text, i, tokenStart, found);
        parenCount := 1;
        tokenStart := Some(i + 1);
      } else if tokenStart.None? {
        ScanOther(text, i, tokenStart, found);
        tokenStart := Some(i);
      } else {
        ScanOther(text, i, tokenStart, found);
      }
    }
    if tokenStart.Some? {
      BakeAllPush(|text|, found, Token(text[tokenStart.value..]), true);
      raw := raw + [BakeToken(text[tokenStart.value..])];
      found := found + [Token(text[tokenStart.value..])];
    }
    ast := RebakeEach(raw);
  }

  /** `ast.map(token => ...)`, the final pass of `tokenize` */
  method RebakeEach(raw: seq<Expr>) returns (ast: seq<Expr>)
    ensures ast == RebakeAll(raw)
  {
    ast := [];
    for k := 0 to |raw|
      invariant ast == RebakeAll(raw[..k])
    {
      ast := ast + [Rebake(raw[k])];
    }
    assert raw[..|raw|] == raw;
  }
}
