// The lexer: what the next token at a position is, and the class that walks the source with a cursor, a line and a
// column. Tokens come out in order, cover everything but whitespace, and know where they stand.
module Lexing {
  import opened Bytes

  datatype Kind = Eof | Error | Identifier | Number | Text | Comment | CharLit | Keyword(word: string) | Directive(name: string) | Punct(p: string)

  // A token's place in the source and its position for messages; an error has a place but no text of its own.
  datatype Token = Token(kind: Kind, start: nat, length: nat, line: nat, column: nat)

  const KEYWORDS: seq<string> := [
    "arche", "proc", "map", "system", "query", "func", "policy", "enum", "match", "let", "for", "if", "else", "in",
    "break", "continue", "move", "own", "copy", "alias", "return"]

  const DIRECTIVES: seq<string> := ["import", "each_field", "module", "file", "foreign", "link", "cflags", "run"]

  predicate Space(c: char) { c == ' ' || c == '\r' || c == '\t' || c == '\n' }
  predicate Digit(c: char) { '0' <= c <= '9' }
  predicate IdentStart(c: char) { 'a' <= c <= 'z' || 'A' <= c <= 'Z' || c == '_' }
  predicate IdentChar(c: char) { IdentStart(c) || Digit(c) }
  predicate HexDigit(c: char) { Digit(c) || 'a' <= c <= 'f' || 'A' <= c <= 'F' }

  // Characters of a number with the given base letter after its zero.
  predicate BaseChar(n: char, c: char) {
    c == '_' || (if n == 'x' || n == 'X' then HexDigit(c) else if n == 'b' || n == 'B' then c == '0' || c == '1' else '0' <= c <= '7')
  }
  predicate DecChar(c: char) { Digit(c) || c == '_' }
  predicate IsBase(n: char) { n == 'x' || n == 'X' || n == 'b' || n == 'B' || n == 'o' || n == 'O' }

  // Two-character operators.
  predicate Pair(a: char, b: char) {
    (b == '=' && (a == '+' || a == '-' || a == '*' || a == '/' || a == '%' || a == '=' || a == '!' || a == '<' || a == '>'))
    || (a == '-' && b == '>') || (a == '&' && b == '&') || (a == '|' && (b == '|' || b == '>'))
  }

  predicate Single(c: char) {
    c in "(){}[],.:;@?+-*/%=!<>"
  }

  // ---- scanning ----

  // The end of the longest run of such characters.
  function While(s: string, i: nat, p: char -> bool): (r: nat)
    requires i <= |s|
    ensures i <= r <= |s| && (forall j :: i <= j < r ==> p(s[j])) && (r < |s| ==> !p(s[r]))
    decreases |s| - i
  {
    if i < |s| && p(s[i]) then While(s, i + 1, p) else i
  }

  // Behind the first */ at or after i.
  function BlockEnd(s: string, i: nat): (r: nat)
    requires i <= |s|
    ensures i <= r <= |s|
    decreases |s| - i
  {
    if i >= |s| then |s| else if s[i] == '*' && i + 1 < |s| && s[i + 1] == '/' then i + 2 else BlockEnd(s, i + 1)
  }

  // Behind the closing quote; a backslash takes the next character with it.
  function StringEnd(s: string, i: nat): (r: Option<nat>)
    requires i <= |s|
    ensures r.Some? ==> i < r.value <= |s|
    decreases |s| - i
  {
    if i >= |s| then None
    else if s[i] == '"' then Some(i + 1)
    else if s[i] == '\\' && i + 1 < |s| then StringEnd(s, i + 2)
    else StringEnd(s, i + 1)
  }

  // Behind the character between the quotes, if there is one.
  function CharEnd(s: string, i: nat): (r: Option<nat>)
    requires i <= |s|
    ensures r.Some? ==> i < r.value <= |s|
  {
    if i < |s| && s[i] == '\\' then Some(if i + 1 < |s| then i + 2 else i + 1)
    else if i < |s| && s[i] != '\'' then Some(i + 1) else None
  }

  // A token that ends at `end`, or an error after which lexing goes on there.
  datatype Lexed = Found(kind: Kind, end: nat) | Bad(end: nat)

  function WordKind(w: string): (k: Kind)
    ensures k != Eof
  {
    if w in KEYWORDS then Keyword(w) else Identifier
  }
  function DirectiveKind(w: string): (k: Kind)
    ensures k != Eof
  {
    Directive(if w in DIRECTIVES then w else "")
  }

  function NumberEnd(s: string, i: nat): (r: nat)
    requires i < |s| && Digit(s[i])
    ensures i < r <= |s|
  {
    if s[i] == '0' && i + 1 < |s| && IsBase(s[i + 1]) then While(s, i + 2, c => BaseChar(s[i + 1], c))
    else
      var e := While(s, i, DecChar);
      if e + 1 < |s| && s[e] == '.' && Digit(s[e + 1]) then While(s, e + 1, DecChar) else e
  }

  // The token that starts at i.
  function Next(s: string, i: nat): (r: Lexed)
    requires i < |s| && !Space(s[i])
    ensures i < r.end <= |s|
    ensures r.Found? ==> r.kind != Eof
  {
    var c := s[i];
    if c == '/' && i + 1 < |s| && s[i + 1] == '*' then Found(Comment, BlockEnd(s, i + 2))
    else if c == '/' && i + 1 < |s| && s[i + 1] == '/' then Found(Comment, While(s, i + 2, x => x != '\n'))
    else if IdentStart(c) then var e := While(s, i, IdentChar); Found(WordKind(s[i..e]), e)
    else if Digit(c) then Found(Number, NumberEnd(s, i))
    else if c == '"' then (match StringEnd(s, i + 1) case Some(e) => Found(Text, e) case None => Bad(|s|))
    else if c == '\'' then
      (match CharEnd(s, i + 1)
       case None => Bad(i + 1)
       case Some(e) => if e < |s| && s[e] == '\'' then Found(CharLit, e + 1) else Bad(e))
    else if c == '#' then var e := While(s, i + 1, IdentChar); Found(DirectiveKind(s[i + 1..e]), e)
    else if c == '.' && i + 2 < |s| && s[i + 1] == '.' && s[i + 2] == '.' then Found(Punct("..."), i + 3)
    else if i + 1 < |s| && Pair(c, s[i + 1]) then Found(Punct(s[i..i + 2]), i + 2)
    else if Single(c) then Found(Punct([c]), i + 1)
    else Bad(i + 1)
  }

  // ---- positions ----

  // Line and column of an offset, both counted from one.
  function Line(s: string, i: nat): nat
    requires i <= |s|
  {
    if i == 0 then 1 else Line(s, i - 1) + if s[i - 1] == '\n' then 1 else 0
  }

  function Column(s: string, i: nat): nat
    requires i <= |s|
  {
    if i == 0 then 1 else if s[i - 1] == '\n' then 1 else Column(s, i - 1) + 1
  }

  function TokenAt(s: string, i: nat): Token
    requires i < |s| && !Space(s[i])
  {
    match Next(s, i)
    case Found(k, e) => Token(k, i, e - i, Line(s, i), Column(s, i))
    case Bad(e) => Token(Error, i, e - i, Line(s, i), Column(s, i))
  }

  // All tokens from i on, the end of input last.
  function Tokens(s: string, i: nat): (r: seq<Token>)
    requires i <= |s|
    ensures r != []
    decreases |s| - i
  {
    var j := While(s, i, Space);
    if j == |s| then [Token(Eof, j, 0, Line(s, j), Column(s, j))]
    else [TokenAt(s, j)] + Tokens(s, Next(s, j).end)
  }

  // ---- the lexer ----

  class Lexer {
    const src: string
    var cur: nat
    var line: nat
    var column: nat

    ghost predicate Valid()
      reads this
    {
      cur <= |src| && line == Line(src, cur) && column == Column(src, cur)
    }

    constructor (src: string)
      ensures Valid() && cur == 0 && this.src == src
    {
      this.src := src;
      cur, line, column := 0, 1, 1;
    }

    // The character at the cursor or after it; 0 behind the end.
    function Peek(): char
      requires cur <= |src|
      reads this
    {
      if cur < |src| then src[cur] else 0 as char
    }

    function PeekNext(): char
      requires cur <= |src|
      reads this
    {
      if cur + 1 < |src| then src[cur + 1] else 0 as char
    }

    method Advance() returns (c: char)
      requires Valid()
      modifies this`cur, this`line, this`column
      ensures Valid()
      ensures old(cur) < |src| ==> cur == old(cur) + 1 && c == src[old(cur)]
      ensures old(cur) == |src| ==> cur == old(cur)
    {
      c := Peek();
      if cur < |src| {
        if c == '\n' {
          line := line + 1;
          column := 1;
        } else {
          column := column + 1;
        }
        cur := cur + 1;
      }
    }

    // Past the run of characters with the property.
    method AdvanceWhile(p: char -> bool)
      requires Valid()
      modifies this`cur, this`line, this`column
      ensures Valid() && cur == While(src, old(cur), p)
    {
      while cur < |src| && p(src[cur])
        invariant Valid() && old(cur) <= cur && While(src, old(cur), p) == While(src, cur, p)
        decreases |src| - cur
      {
        var _ := Advance();
      }
    }

    method LexBlockComment()
      requires Valid() && cur + 1 < |src|
      modifies this`cur, this`line, this`column
      ensures Valid() && cur == BlockEnd(src, old(cur) + 2)
    {
      var _ := Advance();
      var _ := Advance();
      ghost var from := cur;
      while cur < |src|
        invariant Valid() && from <= cur && BlockEnd(src, from) == BlockEnd(src, cur)
        decreases |src| - cur
      {
        if Peek() == '*' && cur + 1 < |src| && PeekNext() == '/' {
          var _ := Advance();
          var _ := Advance();
          return;
        }
        var _ := Advance();
      }
    }

    method LexNumber()
      requires Valid() && cur < |src| && Digit(src[cur])
      modifies this`cur, this`line, this`column
      ensures Valid() && cur == NumberEnd(src, old(cur))
    {
      if Peek() == '0' && cur + 1 < |src| && IsBase(PeekNext()) {
        var n := PeekNext();
        var _ := Advance();
        var _ := Advance();
        AdvanceWhile(c => BaseChar(n, c));
        return;
      }
      AdvanceWhile(DecChar);
      if Peek() == '.' && cur + 1 < |src| && Digit(PeekNext()) {
        var _ := Advance();
        AdvanceWhile(DecChar);
      }
    }

    // False if the string is not closed.
    method LexString() returns (ok: bool)
      requires Valid() && cur < |src|
      modifies this`cur, this`line, this`column
      ensures Valid()
      ensures match StringEnd(src, old(cur) + 1) case Some(e) => ok && cur == e case None => !ok && cur == |src|
    {
      var _ := Advance();
      ghost var from := cur;
      while cur < |src| && Peek() != '"'
        invariant Valid() && from <= cur && StringEnd(src, from) == StringEnd(src, cur)
        decreases |src| - cur
      {
        if Peek() == '\\' {
          var _ := Advance();
          if cur < |src| {
            var _ := Advance();
          }
        } else {
          var _ := Advance();
        }
      }
      if cur == |src| {
        return false;
      }
      var _ := Advance();
      return true;
    }

    method LexCharLit() returns (ok: bool)
      requires Valid() && cur < |src|
      modifies this`cur, this`line, this`column
      ensures Valid()
      ensures match CharEnd(src, old(cur) + 1)
              case None => !ok && cur == old(cur) + 1
              case Some(e) => if e < |src| && src[e] == '\'' then ok && cur == e + 1 else !ok && cur == e
    {
      var _ := Advance();
      if cur < |src| && Peek() == '\\' {
        var _ := Advance();
        if cur < |src| {
          var _ := Advance();
        }
      } else if cur < |src| && Peek() != '\'' {
        var _ := Advance();
      } else {
        return false;
      }
      if cur == |src| || Peek() != '\'' {
        return false;
      }
      var _ := Advance();
      return true;
    }

    // Operators, punctuation and directives.
    method LexSymbol() returns (r: Lexed)
      requires Valid() && cur < |src| && !Space(src[cur]) && !IdentStart(src[cur]) && !Digit(src[cur])
      requires src[cur] != '"' && src[cur] != '\''
      requires src[cur] == '/' && cur + 1 < |src| ==> src[cur + 1] != '*' && src[cur + 1] != '/'
      modifies this`cur, this`line, this`column
      ensures Valid() && r == Next(src, old(cur)) && cur == r.end
    {
      hide WordKind, DirectiveKind, Line, Column, Single, Pair;
      hide NumberEnd, StringEnd, CharEnd, BlockEnd, While;
      ghost var i := cur;
      var c := Advance();
      if c == '#' {
        var word := cur;
        AdvanceWhile(IdentChar);
        return Found(DirectiveKind(src[word..cur]), cur);
      }
      if c == '.' && cur + 1 < |src| && Peek() == '.' && PeekNext() == '.' {
        cur := cur + 2;
        column := column + 2;
        PlainColumns(src, cur);
        return Found(Punct("..."), cur);
      }
      if cur < |src| && Pair(c, Peek()) {
        var d := Advance();
        assert src[i..i + 2] == [c, d];
        return Found(Punct([c, d]), cur);
      }
      if Single(c) {
        return Found(Punct([c]), cur);
      }
      return Bad(cur);
    }

    // The next token, after whitespace.
    method NextToken() returns (t: Token)
      requires Valid()
      modifies this`cur, this`line, this`column
      ensures Valid() && cur <= |src|
      ensures var j := While(src, old(cur), Space);
              if j == |src| then t == Token(Eof, j, 0, Line(src, j), Column(src, j)) && cur == j
              else t == TokenAt(src, j) && cur == Next(src, j).end
    {
      hide Line, Column;
      AdvanceWhile(Space);
      var start, l, col := cur, line, column;
      if cur == |src| {
        return Token(Eof, start, 0, l, col);
      }
      var kind := Error;
      var c := Peek();
      if c == '/' && cur + 1 < |src| && PeekNext() == '*' {
        LexBlockComment();
        kind := Comment;
      } else if c == '/' && cur + 1 < |src| && PeekNext() == '/' {
        var _ := Advance();
        var _ := Advance();
        AdvanceWhile(x => x != '\n');
        kind := Comment;
      } else if IdentStart(c) {
        AdvanceWhile(IdentChar);
        kind := WordKind(src[start..cur]);
      } else if Digit(c) {
        LexNumber();
        kind := Number;
      } else if c == '"' {
        var ok := LexString();
        if ok {
          kind := Text;
        }
      } else if c == '\'' {
        var ok := LexCharLit();
        if ok {
          kind := CharLit;
        }
      } else {
        var r := LexSymbol();
        if r.Found? {
          kind := r.kind;
        }
      }
      return Token(kind, start, cur - start, l, col);
    }
  }

  lemma PlainColumns(s: string, i: nat)
    requires 2 <= i <= |s| && s[i - 1] != '\n' && s[i - 2] != '\n'
    ensures Column(s, i) == Column(s, i - 2) + 2 && Line(s, i) == Line(s, i - 2)
  {
    assert Line(s, i - 1) == Line(s, i - 2) && Column(s, i - 1) == Column(s, i - 2) + 1;
  }

  // Tokens up to and including the end of input; the call always comes to an end.
  method Tokenize(src: string) returns (toks: seq<Token>)
    ensures toks == Tokens(src, 0)
  {
    hide *;
    var lx := new Lexer(src);
    toks := [];
    ghost var all := Tokens(src, 0);
    assert [] + all == all;
    var done := false;
    while !done
      invariant lx.Valid() && lx.src == src && fresh(lx) && lx.cur <= |src|
      invariant done ==> toks == all
      invariant !done ==> all == toks + Tokens(src, lx.cur)
      decreases !done, |src| - lx.cur
    {
      ghost var at := lx.cur;
      FirstToken(src, at);
      var t := lx.NextToken();
      ghost var j := While(src, at, Space);
      if j < |src| {
        assert toks + ([t] + Tokens(src, lx.cur)) == (toks + [t]) + Tokens(src, lx.cur);
      }
      toks := toks + [t];
      done := t.kind == Eof;
    }
  }

  // One step of the token list.
  lemma FirstToken(s: string, i: nat)
    requires i <= |s|
    ensures var j := While(s, i, Space);
            i <= j
            && if j == |s| then Tokens(s, i) == [Token(Eof, j, 0, Line(s, j), Column(s, j))]
               else TokenAt(s, j).kind != Eof && j < Next(s, j).end <= |s|
                    && Tokens(s, i) == [TokenAt(s, j)] + Tokens(s, Next(s, j).end)
  {
    hide Line, Column;
    var j := While(s, i, Space);
    if j < |s| {
      NotEof(s, j);
    }
  }

  // ---- what the token list is ----

  predicate Blank(c: char) { c in " \t\r\n" }

  predicate AllSpace(s: string, a: nat, b: nat)
    requires a <= b <= |s|
  {
    forall i :: a <= i < b ==> Blank(s[i])
  }

  function End(t: Token): nat { t.start + t.length }

  // Tokens one after another from `from`, only whitespace between them, each at its true line and column, none empty
  // but the end of input, which is last and at the end.
  ghost predicate Stream(s: string, from: nat, toks: seq<Token>)
    decreases |toks|
  {
    && toks != [] && from <= toks[0].start && End(toks[0]) <= |s| && AllSpace(s, from, toks[0].start)
    && toks[0].line == Line(s, toks[0].start) && toks[0].column == Column(s, toks[0].start)
    && if |toks| == 1 then toks[0].kind == Eof && toks[0].start == |s| && toks[0].length == 0
       else toks[0].kind != Eof && toks[0].length > 0 && !Blank(s[toks[0].start]) && Stream(s, End(toks[0]), toks[1..])
  }

  lemma {:induction false} TokensStream(s: string, i: nat)
    requires i <= |s|
    ensures Stream(s, i, Tokens(s, i))
    decreases |s| - i
  {
    hide Line, Column;
    var j := While(s, i, Space);
    if j < |s| {
      var r := Next(s, j);
      TokensStream(s, r.end);
      assert Tokens(s, i)[1..] == Tokens(s, r.end);
      NotEof(s, j);
    }
  }

  lemma NotEof(s: string, i: nat)
    requires i < |s| && !Space(s[i])
    ensures TokenAt(s, i).kind != Eof && Tokens(s, Next(s, i).end) != []
  {
    hide Line, Column, Next, Tokens, Space;
  }

  // Without the numbers: any two tokens are apart, in order.
  lemma {:induction false} StreamOrdered(s: string, from: nat, toks: seq<Token>, a: nat, b: nat)
    requires Stream(s, from, toks) && a < b < |toks|
    ensures from <= toks[a].start && End(toks[a]) <= toks[b].start
    decreases b
  {
    hide Line, Column;
    if a == 0 {
      if b == 1 {
      } else {
        StreamOrdered(s, End(toks[0]), toks[1..], 0, b - 1);
      }
    } else {
      StreamOrdered(s, End(toks[0]), toks[1..], a - 1, b - 1);
    }
  }

  // ---- a token alone ----

  // The same run of characters, cut out of the source.
  lemma {:induction false} WhileAlone(s: string, i: nat, k: nat, e: nat, p: char -> bool)
    requires i <= k <= e <= |s| && While(s, k, p) == e
    ensures While(s[i..e], k - i, p) == e - i
    decreases e - k
  {
    if k < e {
      WhileAlone(s, i, k + 1, e, p);
    }
  }

  lemma {:induction false} BlockAlone(s: string, i: nat, k: nat, e: nat)
    requires i <= k <= e <= |s| && BlockEnd(s, k) == e
    ensures BlockEnd(s[i..e], k - i) == e - i
    decreases |s| - k
  {
    if k < |s| && !(s[k] == '*' && k + 1 < |s| && s[k + 1] == '/') {
      BlockAlone(s, i, k + 1, e);
    }
  }

  lemma {:induction false} StringAlone(s: string, i: nat, k: nat, e: nat)
    requires i <= k <= |s| && StringEnd(s, k) == Some(e) && i <= e
    ensures k < e <= |s| && StringEnd(s[i..e], k - i) == Some(e - i)
    decreases |s| - k
  {
    if s[k] == '"' {
    } else if s[k] == '\\' && k + 1 < |s| {
      StringAlone(s, i, k + 2, e);
    } else {
      StringAlone(s, i, k + 1, e);
    }
  }

  lemma NumberAlone(s: string, i: nat)
    requires i < |s| && Digit(s[i])
    ensures var e := NumberEnd(s, i); NumberEnd(s[i..e], 0) == e - i
  {
    var e := NumberEnd(s, i);
    var t := s[i..e];
    if s[i] == '0' && i + 1 < |s| && IsBase(s[i + 1]) {
      var n := s[i + 1];
      assert t[1] == n;
      WhileAlone(s, i, i + 2, e, c => BaseChar(n, c));
      SameRun(t, 2, c => BaseChar(n, c), c => BaseChar(t[1], c));
      SameRun(s, i + 2, c => BaseChar(n, c), c => BaseChar(s[i + 1], c));
    } else {
      var d := While(s, i, DecChar);
      DecimalAlone(s, i, d, e);
    }
  }

  lemma {:induction false} SameRun(s: string, i: nat, p: char -> bool, q: char -> bool)
    requires i <= |s| && forall c :: p(c) == q(c)
    ensures While(s, i, p) == While(s, i, q)
    decreases |s| - i
  {
    if i < |s| && p(s[i]) {
      SameRun(s, i + 1, p, q);
    }
  }

  lemma DecimalAlone(s: string, i: nat, d: nat, e: nat)
    requires i < d <= e <= |s| && Digit(s[i]) && d == While(s, i, DecChar) && !(s[i] == '0' && i + 1 < |s| && IsBase(s[i + 1]))
    requires e == if d + 1 < |s| && s[d] == '.' && Digit(s[d + 1]) then While(s, d + 1, DecChar) else d
    ensures NumberEnd(s[i..e], 0) == e - i
  {
    var t := s[i..e];
    if e == d {
      WhileAlone(s, i, i, d, DecChar);
    } else {
      WhileStops(s, i, i, d, e, DecChar);
      WhileAlone(s, i, d + 1, e, DecChar);
    }
  }

  // A run that stops before the cut stops there as well.
  lemma {:induction false} WhileStops(s: string, i: nat, k: nat, d: nat, e: nat, p: char -> bool)
    requires i <= k <= d < e <= |s| && While(s, k, p) == d
    ensures While(s[i..e], k - i, p) == d - i
    decreases d - k
  {
    if k < d {
      WhileStops(s, i, k + 1, d, e, p);
    }
  }

  // Every token is the one its own text makes: lexing the text alone gives the same kind and uses all of it.
  lemma TokenAlone(s: string, i: nat)
    requires i < |s| && !Space(s[i]) && Next(s, i).Found?
    ensures var r := Next(s, i); Next(s[i..r.end], 0) == Found(r.kind, r.end - i)
  {
    var c, r := s[i], Next(s, i);
    var e := r.end;
    var t := s[i..e];
    assert t[0] == c;
    if c == '/' && i + 1 < |s| && s[i + 1] == '*' {
      BlockAlone(s, i, i + 2, e);
      assert t[1] == s[i + 1];
    } else if c == '/' && i + 1 < |s| && s[i + 1] == '/' {
      WhileAlone(s, i, i + 2, e, x => x != '\n');
      assert t[1] == s[i + 1];
    } else if IdentStart(c) {
      WhileAlone(s, i, i, e, IdentChar);
      assert t[0..|t|] == t;
    } else if Digit(c) {
      NumberAlone(s, i);
    } else if c == '"' {
      StringAlone(s, i, i + 1, e);
    } else if c == '\'' {
      CharAlone(s, i);
    } else {
      SymbolAlone(s, i);
    }
  }

  lemma CharAlone(s: string, i: nat)
    requires i < |s| && s[i] == '\'' && Next(s, i).Found?
    ensures var r := Next(s, i); Next(s[i..r.end], 0) == Found(r.kind, r.end - i)
  {
    var e := Next(s, i).end;
    var t := s[i..e];
    var m := CharEnd(s, i + 1).value;
    assert m + 1 == e && t[m - i] == '\'';
    assert t[1] == s[i + 1];
  }

  lemma SymbolAlone(s: string, i: nat)
    requires i < |s| && !Space(s[i]) && Next(s, i).Found? && !IdentStart(s[i]) && !Digit(s[i]) && s[i] != '"' && s[i] != '\''
    requires s[i] == '/' && i + 1 < |s| ==> s[i + 1] != '*' && s[i + 1] != '/'
    ensures var r := Next(s, i); Next(s[i..r.end], 0) == Found(r.kind, r.end - i)
  {
    var e := Next(s, i).end;
    var t := s[i..e];
    if s[i] == '#' {
      DirectiveAlone(s, i);
    } else if e == i + 3 {
      assert t == "...";
    } else if e == i + 2 {
      PairAlone(s, i);
    } else {
      assert t == [s[i]];
    }
  }

  lemma DirectiveAlone(s: string, i: nat)
    requires i < |s| && s[i] == '#'
    ensures var r := Next(s, i); Next(s[i..r.end], 0) == Found(r.kind, r.end - i)
  {
    hide DirectiveKind;
    var e := Next(s, i).end;
    WhileAlone(s, i, i + 1, e, IdentChar);
    assert s[i..e][1..e - i] == s[i + 1..e];
  }

  lemma PairAlone(s: string, i: nat)
    requires i + 1 < |s| && Pair(s[i], s[i + 1])
    requires s[i] == '/' ==> s[i + 1] != '*' && s[i + 1] != '/'
    ensures var r := Next(s, i); Next(s[i..i + 2], 0) == Found(Punct(s[i..i + 2]), 2)
  {
    var t := s[i..i + 2];
    assert t[0] == s[i] && t[1] == s[i + 1] && t[0..2] == t;
  }
}
