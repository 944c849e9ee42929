// What the tokens are, said of the source text alone: which stretches of it are a word, a number, a text, a character, a
// comment, a directive or an operator, and that these are the tokens the lexer finds.
module LexingExact {
  import opened Bytes
  import opened Lexing

  // ---- runs ----

  // [a, e) is the longest run of such characters from a on.
  predicate RunEnds(s: string, a: nat, e: nat, p: char -> bool)
    requires a <= |s|
  {
    a <= e <= |s| && (forall j :: a <= j < e ==> p(s[j])) && (e < |s| ==> !p(s[e]))
  }

  lemma RunIs(s: string, a: nat, e: nat, p: char -> bool)
    requires a <= |s|
    ensures While(s, a, p) == e <==> RunEnds(s, a, e, p)
  {
  }

  // The same run, its characters described in another way.
  lemma RunAs(s: string, a: nat, e: nat, p: char -> bool, q: char -> bool)
    requires a <= |s| && forall c :: p(c) == q(c)
    ensures While(s, a, p) == e <==> RunEnds(s, a, e, q)
  {
    RunIs(s, a, e, p);
  }

  // ---- block comments ----

  predicate Closes(s: string, j: nat) { j + 1 < |s| && s[j] == '*' && s[j + 1] == '/' }

  // Behind the first closing mark that starts at a or later, or at the end if there is none.
  predicate BlockEnds(s: string, a: nat, e: nat) {
    || (a + 2 <= e <= |s| && Closes(s, e - 2) && forall j :: a <= j < e - 2 ==> !Closes(s, j))
    || (e == |s| && forall j :: a <= j < |s| ==> !Closes(s, j))
  }

  lemma {:induction false} BlockIs(s: string, a: nat, e: nat)
    requires a <= |s|
    ensures BlockEnd(s, a) == e <==> BlockEnds(s, a, e)
    decreases |s| - a
  {
    if a < |s| && !Closes(s, a) {
      BlockIs(s, a + 1, e);
      assert a + 2 <= e ==> (e == a + 2 ==> !Closes(s, e - 2));
    }
  }

  // ---- texts ----

  // How many backslashes stand right before j, down to a.
  function Backslashes(s: string, a: nat, j: nat): nat
    requires j <= |s|
    decreases j
  {
    if j > a && s[j - 1] == '\\' then 1 + Backslashes(s, a, j - 1) else 0
  }

  // A quote behind an even number of backslashes.
  predicate Quote(s: string, a: nat, j: nat) { a <= j < |s| && s[j] == '"' && Backslashes(s, a, j) % 2 == 0 }

  lemma {:induction false} SkipOne(s: string, a: nat, j: nat)
    requires a < j <= |s| && s[a] != '\\'
    ensures Backslashes(s, a, j) == Backslashes(s, a + 1, j)
    decreases j
  {
    if j > a + 1 && s[j - 1] == '\\' {
      SkipOne(s, a, j - 1);
    }
  }

  lemma {:induction false} SkipTwo(s: string, a: nat, j: nat)
    requires a + 2 <= j <= |s| && s[a] == '\\'
    ensures Backslashes(s, a, j) % 2 == Backslashes(s, a + 2, j) % 2
    decreases j
  {
    if j > a + 2 {
      if s[j - 1] == '\\' {
        SkipTwo(s, a, j - 1);
      }
    } else if s[a + 1] == '\\' {
      assert Backslashes(s, a, a + 1) == 1 + Backslashes(s, a, a);
    }
  }

  lemma SkipQuotes(s: string, a: nat, j: nat)
    requires a < |s| && j < |s|
    ensures s[a] != '\\' && j > a ==> (Quote(s, a, j) <==> Quote(s, a + 1, j))
    ensures s[a] == '\\' && j >= a + 2 ==> (Quote(s, a, j) <==> Quote(s, a + 2, j))
    ensures s[a] == '\\' ==> !Quote(s, a, a) && !Quote(s, a, a + 1)
  {
    if j > a && s[a] != '\\' {
      SkipOne(s, a, j);
    }
    if j >= a + 2 && s[a] == '\\' {
      SkipTwo(s, a, j);
    }
    if s[a] == '\\' && a + 1 < |s| {
      assert Backslashes(s, a, a + 1) == 1 + Backslashes(s, a, a);
    }
  }

  // Behind the first such quote.
  predicate TextEnds(s: string, a: nat, e: nat) { 0 < e && Quote(s, a, e - 1) && forall j :: a <= j < e - 1 ==> !Quote(s, a, j) }

  // For every place: the text ends behind the first quote that no backslash takes along; without one it does not end.
  lemma {:induction false} StringIs(s: string, a: nat)
    requires a <= |s|
    ensures match StringEnd(s, a)
            case Some(e) => TextEnds(s, a, e)
            case None => forall j :: a <= j < |s| ==> !Quote(s, a, j)
    decreases |s| - a
  {
    if a < |s| && s[a] != '"' {
      var n := if s[a] == '\\' && a + 1 < |s| then a + 2 else a + 1;
      StringIs(s, n);
      forall j | n <= j < |s|
        ensures Quote(s, a, j) <==> Quote(s, n, j)
      {
        SkipQuotes(s, a, j);
      }
      forall j | a <= j < n
        ensures !Quote(s, a, j)
      {
        if j < |s| {
          SkipQuotes(s, a, a);
        }
      }
    }
  }

  // ---- operators ----

  // The operators of two characters, those of one, and the three dots.
  predicate OfTwo(o: string) {
    || o == "+=" || o == "-=" || o == "*=" || o == "/=" || o == "%=" || o == "==" || o == "!=" || o == "<=" || o == ">="
    || o == "->" || o == "&&" || o == "||" || o == "|>"
  }

  predicate OfOne(c: char) {
    || c == '(' || c == ')' || c == '{' || c == '}' || c == '[' || c == ']' || c == ',' || c == '.' || c == ':' || c == ';'
    || c == '@' || c == '?' || c == '+' || c == '-' || c == '*' || c == '/' || c == '%' || c == '=' || c == '!' || c == '<' || c == '>'
  }

  predicate Operator(o: string) { o == "..." || OfTwo(o) || (|o| == 1 && OfOne(o[0])) }

  predicate StandsAt(s: string, i: nat, o: string) { i + |o| <= |s| && s[i..i + |o|] == o }

  // The operator that stands at i, none that is longer doing so.
  ghost predicate Longest(s: string, i: nat, o: string) {
    Operator(o) && StandsAt(s, i, o) && forall x :: Operator(x) && StandsAt(s, i, x) ==> |x| <= |o|
  }

  lemma PairIs(o: string)
    requires |o| == 2
    ensures OfTwo(o) <==> Pair(o[0], o[1])
  {
    assert o == [o[0], o[1]];
  }

  lemma SingleIs(c: char)
    ensures OfOne(c) <==> Single(c)
  {
    assert "(){}[],.:;@?+-*/%=!<>" == ['(', ')', '{', '}', '[', ']', ',', '.', ':', ';', '@', '?', '+', '-', '*', '/', '%', '=', '!', '<', '>'];
  }

  lemma OperatorLength(o: string)
    requires Operator(o)
    ensures |o| == 3 <==> o == "..."
    ensures |o| == 2 <==> OfTwo(o)
    ensures 1 <= |o| <= 3 && (|o| == 1 ==> OfOne(o[0]))
  {
  }

  // ---- all tokens ----

  predicate Letter(c: char) { 'a' <= c <= 'z' || 'A' <= c <= 'Z' || c == '_' }
  predicate Decimal(c: char) { '0' <= c <= '9' }
  predicate WordChar(c: char) { Letter(c) || Decimal(c) }
  predicate DecimalChar(c: char) { Decimal(c) || c == '_' }
  predicate HexChar(c: char) { Decimal(c) || 'a' <= c <= 'f' || 'A' <= c <= 'F' || c == '_' }
  predicate BinaryChar(c: char) { c == '0' || c == '1' || c == '_' }
  predicate OctalChar(c: char) { '0' <= c <= '7' || c == '_' }
  predicate NoNewline(c: char) { c != '\n' }

  predicate IsKeyword(w: string) {
    || w == "arche" || w == "proc" || w == "map" || w == "system" || w == "query" || w == "func" || w == "policy" || w == "enum"
    || w == "match" || w == "let" || w == "for" || w == "if" || w == "else" || w == "in" || w == "break" || w == "continue"
    || w == "move" || w == "own" || w == "copy" || w == "alias" || w == "return"
  }

  predicate IsDirective(w: string) {
    || w == "import" || w == "each_field" || w == "module" || w == "file" || w == "foreign" || w == "link" || w == "cflags" || w == "run"
  }

  // 0x, 0b or 0o and the digits behind it.
  predicate BaseNumber(s: string, i: nat, e: nat) {
    && i + 1 < |s| && s[i] == '0'
    && (if s[i + 1] == 'x' || s[i + 1] == 'X' then RunEnds(s, i + 2, e, HexChar)
        else if s[i + 1] == 'b' || s[i + 1] == 'B' then RunEnds(s, i + 2, e, BinaryChar)
        else (s[i + 1] == 'o' || s[i + 1] == 'O') && RunEnds(s, i + 2, e, OctalChar))
  }

  predicate BasePrefix(s: string, i: nat) {
    i + 1 < |s| && s[i] == '0' && (s[i + 1] == 'x' || s[i + 1] == 'X' || s[i + 1] == 'b' || s[i + 1] == 'B' || s[i + 1] == 'o' || s[i + 1] == 'O')
  }

  predicate Fraction(s: string, d: nat) { d + 1 < |s| && s[d] == '.' && Decimal(s[d + 1]) }

  // Digits, and behind a point that a digit follows more of them.
  predicate DecimalNumber(s: string, i: nat, e: nat)
    requires i < |s|
  {
    exists d :: i <= d <= e && RunEnds(s, i, d, DecimalChar) && if Fraction(s, d) then RunEnds(s, d + 1, e, DecimalChar) else e == d
  }

  predicate CommentStart(s: string, i: nat) { i + 1 < |s| && s[i] == '/' && (s[i + 1] == '*' || s[i + 1] == '/') }

  // [i, e) is a token of this kind.
  ghost predicate IsToken(s: string, i: nat, kind: Kind, e: nat)
    requires i < |s|
  {
    match kind
    case Comment =>
      CommentStart(s, i) && if s[i + 1] == '*' then BlockEnds(s, i + 2, e) else RunEnds(s, i + 2, e, NoNewline)
    case Identifier => Letter(s[i]) && RunEnds(s, i, e, WordChar) && !IsKeyword(s[i..e])
    case Keyword(w) => Letter(s[i]) && RunEnds(s, i, e, WordChar) && IsKeyword(s[i..e]) && w == s[i..e]
    case Number => Decimal(s[i]) && if BasePrefix(s, i) then BaseNumber(s, i, e) else DecimalNumber(s, i, e)
    case Text => s[i] == '"' && TextEnds(s, i + 1, e)
    case CharLit =>
      && s[i] == '\''
      && ((e == i + 3 && e <= |s| && s[i + 1] != '\\' && s[i + 1] != '\'' && s[i + 2] == '\'')
          || (e == i + 4 && e <= |s| && s[i + 1] == '\\' && s[i + 3] == '\''))
    case Directive(w) =>
      s[i] == '#' && RunEnds(s, i + 1, e, WordChar) && w == if IsDirective(s[i + 1..e]) then s[i + 1..e] else ""
    case Punct(o) =>
      && !CommentStart(s, i) && !Letter(s[i]) && !Decimal(s[i]) && s[i] != '"' && s[i] != '\'' && s[i] != '#'
      && Longest(s, i, o) && e == i + |o|
    case _ => false
  }

  lemma KeywordsAre(w: string)
    ensures w in KEYWORDS <==> IsKeyword(w)
  {
  }

  lemma DirectivesAre(w: string)
    ensures w in DIRECTIVES <==> IsDirective(w)
  {
  }

  lemma CommentExact(s: string, i: nat, kind: Kind, e: nat)
    requires CommentStart(s, i)
    ensures Next(s, i) == Found(kind, e) <==> IsToken(s, i, kind, e)
  {
    hide While, BlockEnd, BlockEnds, RunEnds, Backslashes, Quote, Longest, IsKeyword, IsDirective, BaseNumber, DecimalNumber;
    if s[i + 1] == '*' {
      BlockIs(s, i + 2, e);
    } else {
      RunAs(s, i + 2, e, x => x != '\n', NoNewline);
    }
  }

  lemma WordExact(s: string, i: nat, kind: Kind, e: nat)
    requires i < |s| && Letter(s[i])
    ensures Next(s, i) == Found(kind, e) <==> IsToken(s, i, kind, e)
  {
    hide While, BlockEnd, BlockEnds, RunEnds, Backslashes, Quote, Longest, IsKeyword, IsDirective, BaseNumber, DecimalNumber;
    var w := While(s, i, IdentChar);
    KeywordsAre(s[i..w]);
    RunAs(s, i, e, IdentChar, WordChar);
    RunAs(s, i, w, IdentChar, WordChar);
  }

  lemma DirectiveExact(s: string, i: nat, kind: Kind, e: nat)
    requires i < |s| && s[i] == '#'
    ensures Next(s, i) == Found(kind, e) <==> IsToken(s, i, kind, e)
  {
    hide While, BlockEnd, BlockEnds, RunEnds, Backslashes, Quote, Longest, IsKeyword, IsDirective, BaseNumber, DecimalNumber;
    var w := While(s, i + 1, IdentChar);
    DirectivesAre(s[i + 1..w]);
    RunAs(s, i + 1, e, IdentChar, WordChar);
    RunAs(s, i + 1, w, IdentChar, WordChar);
  }

  lemma NumberExact(s: string, i: nat, kind: Kind, e: nat)
    requires i < |s| && Decimal(s[i])
    ensures Next(s, i) == Found(kind, e) <==> IsToken(s, i, kind, e)
  {
    hide While, BlockEnd, BlockEnds, RunEnds, Backslashes, Quote, Longest, IsKeyword, IsDirective, BaseNumber, DecimalNumber;
    NumberIs(s, i, e);
  }

  lemma NumberIs(s: string, i: nat, e: nat)
    requires i < |s| && Decimal(s[i])
    ensures NumberEnd(s, i) == e <==> if BasePrefix(s, i) then BaseNumber(s, i, e) else DecimalNumber(s, i, e)
  {
    hide While, RunEnds;
    if BasePrefix(s, i) {
      var n := s[i + 1];
      var q := if n == 'x' || n == 'X' then HexChar else if n == 'b' || n == 'B' then BinaryChar else OctalChar;
      RunAs(s, i + 2, e, c => BaseChar(s[i + 1], c), q);
    } else {
      var d := While(s, i, DecChar);
      RunAs(s, i, d, DecChar, DecimalChar);
      if Fraction(s, d) {
        RunAs(s, d + 1, e, DecChar, DecimalChar);
      }
      forall x | RunEnds(s, i, x, DecimalChar)
        ensures x == d
      {
        RunAs(s, i, x, DecChar, DecimalChar);
      }
      assert NumberEnd(s, i) == if Fraction(s, d) then While(s, d + 1, DecChar) else d;
    }
  }

  lemma TextExact(s: string, i: nat, kind: Kind, e: nat)
    requires i < |s| && s[i] == '"'
    ensures Next(s, i) == Found(kind, e) <==> IsToken(s, i, kind, e)
  {
    hide While, BlockEnd, BlockEnds, RunEnds, Backslashes, Longest, IsKeyword, IsDirective, BaseNumber, DecimalNumber;
    StringIs(s, i + 1);
    if TextEnds(s, i + 1, e) && StringEnd(s, i + 1).Some? {
      var w := StringEnd(s, i + 1).value;
      assert !(w < e) && !(e < w);
    }
  }

  lemma CharExact(s: string, i: nat, kind: Kind, e: nat)
    requires i < |s| && s[i] == '\''
    ensures Next(s, i) == Found(kind, e) <==> IsToken(s, i, kind, e)
  {
    hide While, BlockEnd, BlockEnds, RunEnds, Backslashes, Quote, Longest, IsKeyword, IsDirective, BaseNumber, DecimalNumber;
  }

  // What the lexer takes for an operator at i, if anything.
  function Taken(s: string, i: nat): string
    requires i < |s|
  {
    if s[i] == '.' && i + 2 < |s| && s[i + 1] == '.' && s[i + 2] == '.' then "..."
    else if i + 1 < |s| && Pair(s[i], s[i + 1]) then s[i..i + 2]
    else if Single(s[i]) then [s[i]] else ""
  }

  lemma TakenIs(s: string, i: nat, o: string)
    requires i < |s| && o != ""
    ensures Taken(s, i) == o <==> Longest(s, i, o)
  {
    hide Pair, Single, OfTwo, OfOne;
    SingleIs(s[i]);
    if i + 1 < |s| {
      PairIs(s[i..i + 2]);
    }
    var t := Taken(s, i);
    forall x | Operator(x) && StandsAt(s, i, x)
      ensures |x| <= |t|
    {
      OperatorLength(x);
      if |x| == 2 {
        assert x == s[i..i + 2];
      } else if |x| == 1 {
        assert x == s[i..i + 1] == [s[i]];
      } else {
        assert s[i..i + 3] == "..." && s[i] == s[i..i + 3][0] && s[i + 1] == s[i..i + 3][1] && s[i + 2] == s[i..i + 3][2];
      }
    }
    if t != "" {
      assert t == s[i..i + |t|];
      assert Longest(s, i, t);
    }
    if Longest(s, i, o) {
      assert |o| <= |t|;
      assert o == s[i..i + |o|] && t == s[i..i + |t|];
    }
  }

  lemma OperatorExact(s: string, i: nat, kind: Kind, e: nat)
    requires i < |s| && !Space(s[i]) && !CommentStart(s, i) && !Letter(s[i]) && !Decimal(s[i]) && s[i] != '"' && s[i] != '\'' && s[i] != '#'
    ensures Next(s, i) == Found(kind, e) <==> IsToken(s, i, kind, e)
  {
    hide While, BlockEnd, BlockEnds, RunEnds, Backslashes, Quote, Longest, IsKeyword, IsDirective, BaseNumber, DecimalNumber, Pair, Single;
    var t := Taken(s, i);
    assert Next(s, i) == if t == "" then Bad(i + 1) else Found(Punct(t), i + |t|);
    if kind.Punct? {
      if kind.p == "" {
        NoEmpty(s, i);
      } else {
        TakenIs(s, i, kind.p);
      }
    }
  }

  lemma NoEmpty(s: string, i: nat)
    ensures !Longest(s, i, "")
  {
  }

  // The next token is of a kind and ends at a place exactly if the text has such a token there.
  lemma NextExact(s: string, i: nat, kind: Kind, e: nat)
    requires i < |s| && !Blank(s[i])
    ensures Next(s, i) == Found(kind, e) <==> IsToken(s, i, kind, e)
  {
    hide Next, IsToken;
    if CommentStart(s, i) {
      CommentExact(s, i, kind, e);
    } else if Letter(s[i]) {
      WordExact(s, i, kind, e);
    } else if Decimal(s[i]) {
      NumberExact(s, i, kind, e);
    } else if s[i] == '"' {
      TextExact(s, i, kind, e);
    } else if s[i] == '\'' {
      CharExact(s, i, kind, e);
    } else if s[i] == '#' {
      DirectiveExact(s, i, kind, e);
    } else {
      OperatorExact(s, i, kind, e);
    }
  }

  // Where lexing goes on if no token starts at i: behind the quote or the character it begins, at the end of the source
  // for a text that is not closed, and otherwise one character on.
  lemma ErrorExact(s: string, i: nat)
    requires i < |s| && !Blank(s[i])
    ensures Next(s, i).Bad? <==> forall kind, e: nat :: !IsToken(s, i, kind, e)
    ensures Next(s, i).Bad? ==>
              Next(s, i).end == if s[i] == '"' then |s|
                                else if s[i] == '\'' && i + 1 < |s| && s[i + 1] == '\\' then (if i + 2 < |s| then i + 3 else i + 2)
                                else if s[i] == '\'' && i + 1 < |s| && s[i + 1] != '\'' then i + 2 else i + 1
  {
    hide While, BlockEnd, StringEnd, IsToken, Pair, Single, WordKind, DirectiveKind, NumberEnd;
    var r := Next(s, i);
    if r.Found? {
      NextExact(s, i, r.kind, r.end);
    }
    forall kind, e: nat
      ensures IsToken(s, i, kind, e) ==> r.Found?
    {
      NextExact(s, i, kind, e);
    }
  }

  // ---- positions ----

  function Newlines(s: string, i: nat): set<nat>
    requires i <= |s|
  {
    set j: nat | j < i && s[j] == '\n'
  }

  // One more than the newlines before.
  lemma {:induction false} LineExact(s: string, i: nat)
    requires i <= |s|
    ensures Line(s, i) == 1 + |Newlines(s, i)|
  {
    if i > 0 {
      LineExact(s, i - 1);
      assert Newlines(s, i) == if s[i - 1] == '\n' then Newlines(s, i - 1) + {i - 1} else Newlines(s, i - 1);
    } else {
      assert Newlines(s, i) == {};
    }
  }

  // The distance to the newline before, or to the start of the source.
  lemma {:induction false} ColumnExact(s: string, i: nat)
    requires i <= |s|
    ensures var c := Column(s, i); 1 <= c <= i + 1 && (c <= i ==> s[i - c] == '\n') && forall j :: i - c < j < i ==> s[j] != '\n'
  {
    if i > 0 && s[i - 1] != '\n' {
      ColumnExact(s, i - 1);
    }
  }
}
