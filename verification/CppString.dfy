/** The counting test for "the next character is inside a string constant". */
module CppString {
  /** `line.replace(r'\\', 'XX')`: pairs of backslashes, from the left. */
  function Unpair(line: string): string {
    if |line| >= 2 && line[0] == '\\' && line[1] == '\\' then
      "XX" + Unpair(line[2..])
    else if line == "" then
      ""
    else
      [line[0]] + Unpair(line[1..])
  }

  /** `line.count(word)`: occurrences that do not overlap, from the left. */
  function Count(line: string, word: string): nat
    requires word != ""
  {
    if |line| < |word| then 0
    else if line[..|word|] == word then 1 + Count(line[|word|..], word)
    else Count(line[1..], word)
  }

  const QUOTE := "\""
  const ESCAPED_QUOTE := "\\\""
  const QUOTE_LITERAL := "'\"'"

  predicate Odd(n: int) {
    n % 2 == 1
  }

  /** The test as the linter makes it. */
  predicate IsCppString(line: string) {
    var s := Unpair(line);
    Odd(Count(s, QUOTE) - Count(s, ESCAPED_QUOTE) - Count(s, QUOTE_LITERAL))
  }

  /** Reading from the left: a backslash takes the next character with it, and a double quote
      that is not taken opens or closes a string. */
  predicate InString(line: string, inside: bool)
    decreases |line|
  {
    if line == "" then inside
    else if line[0] == '\\' then (if |line| == 1 then inside else InString(line[2..], inside))
    else InString(line[1..], if line[0] == '"' then !inside else inside)
  }

  function Bare(line: string): int {
    Count(Unpair(line), QUOTE) - Count(Unpair(line), ESCAPED_QUOTE)
  }

  function Literals(line: string): nat {
    Count(Unpair(line), QUOTE_LITERAL)
  }

  lemma CountChar(c: char, s: string, word: string)
    requires word != ""
    ensures c != word[0] ==> Count([c] + s, word) == Count(s, word)
    ensures word == [c] ==> Count([c] + s, word) == 1 + Count(s, word)
    ensures |word| >= 2 && (s == "" || s[0] != word[1]) ==> Count([c] + s, word) == Count(s, word)
  {
    var line := [c] + s;
    assert line[1..] == s;
    if |line| >= |word| && line[..|word|] == word {
      assert line[0] == word[0];
      if |word| >= 2 {
        assert line[..|word|][1] == s[0];
      }
    }
  }

  lemma PassCharacter(line: string)
    requires line != "" && line[0] != '\\'
    ensures Bare(line) == Bare(line[1..]) + if line[0] == '"' then 1 else 0
    ensures line[0] != '\'' ==> Literals(line) == Literals(line[1..])
  {
    var c, s := line[0], Unpair(line[1..]);
    assert Unpair(line) == [c] + s;
    CountChar(c, s, QUOTE);
    CountChar(c, s, ESCAPED_QUOTE);
    CountChar(c, s, QUOTE_LITERAL);
  }

  /** Quotes that no backslash stands before have the parity the reader arrives at. */
  lemma {:induction false} BareIsParity(line: string, inside: bool)
    ensures InString(line, inside) <==> Odd(Bare(line)) != inside
    decreases |line|
  {
    if line != "" {
      var c, rest := line[0], line[1..];
      if c != '\\' {
        PassCharacter(line);
        BareIsParity(rest, if c == '"' then !inside else inside);
      } else if |line| >= 2 {
        BareIsParity(line[2..], inside);
        BareAfterBackslash(line);
      } else {
        assert Unpair(line) == line;
        assert line[1..] == "";
      }
    }
  }

  /** A backslash and the character after it count for nothing. */
  lemma BareAfterBackslash(line: string)
    requires |line| >= 2 && line[0] == '\\'
    ensures Bare(line) == Bare(line[2..])
  {
    var c, s := line[1], Unpair(line[2..]);
    if c == '\\' {
      assert Unpair(line) == ['X'] + (['X'] + s);
      CountChar('X', s, QUOTE);
      CountChar('X', ['X'] + s, QUOTE);
      CountChar('X', s, ESCAPED_QUOTE);
      CountChar('X', ['X'] + s, ESCAPED_QUOTE);
    } else {
      assert line[1..][1..] == line[2..];
      var t := [c] + s;
      assert Unpair(line) == ['\\'] + t;
      CountChar(c, s, QUOTE);
      CountChar('\\', t, QUOTE);
      CountChar(c, s, ESCAPED_QUOTE);
      CountChar('\\', t, ESCAPED_QUOTE);
      if c == '"' {
        var u := ['\\'] + t;
        assert u[..2] == ESCAPED_QUOTE;
        assert u[2..] == s;
      }
    }
  }

  /** For every line: the test and the reader agree exactly when the line, its double backslashes
      replaced, has an even number of quotes written as a character constant. */
  lemma AgreesIff(line: string)
    ensures (IsCppString(line) <==> InString(line, false)) <==> !Odd(Literals(line))
  {
    BareIsParity(line, false);
  }

  // --------------------------------------------------------- with character constants

  datatype Place = InCode | InText | InChar

  /** Reading with character constants known: a double quote opens and closes strings outside
      character constants, a single quote opens and closes character constants outside strings, and
      a backslash takes the next character with it. */
  function Lex(line: string, at: Place): Place
    decreases |line|
  {
    if line == "" then at
    else if line[0] == '\\' then (if |line| == 1 then at else Lex(line[2..], at))
    else Lex(line[1..], After(line[0], at))
  }

  function After(c: char, at: Place): Place {
    if c == '"' && !at.InChar? then (if at.InCode? then InText else InCode)
    else if c == '\'' && !at.InText? then (if at.InCode? then InChar else InCode)
    else at
  }

  /** The double quotes read inside character constants, those behind a backslash left out. */
  function CharQuotes(line: string, at: Place): nat
    decreases |line|
  {
    if line == "" then 0
    else if line[0] == '\\' then (if |line| == 1 then 0 else CharQuotes(line[2..], at))
    else CharQuotes(line[1..], After(line[0], at)) + if line[0] == '"' && at.InChar? then 1 else 0
  }

  lemma OddNext(n: int)
    ensures Odd(n + 1) <==> !Odd(n)
  {
  }

  /** The quotes that open or close strings. */
  function Turns(line: string, at: Place): int {
    Bare(line) - CharQuotes(line, at)
  }

  lemma PassTurn(line: string, at: Place)
    requires line != "" && line[0] != '\\'
    ensures Turns(line, at) == Turns(line[1..], After(line[0], at)) + if line[0] == '"' && !at.InChar? then 1 else 0
  {
    PassCharacter(line);
  }

  lemma PassTaken(line: string, at: Place)
    requires line != "" && line[0] == '\\'
    ensures Turns(line, at) == if |line| == 1 then 0 else Turns(line[2..], at)
  {
    if |line| >= 2 {
      BareAfterBackslash(line);
    } else {
      assert Unpair(line) == line && line[1..] == "" && line[..1] == line;
      assert Count("", QUOTE) == 0;
    }
  }

  lemma {:induction false} LexIsParity(line: string, at: Place)
    ensures Lex(line, at).InText? <==> Odd(Turns(line, at)) != at.InText?
    decreases |line|
  {
    if line == "" {
    } else if line[0] != '\\' {
      var rest, next := line[1..], After(line[0], at);
      PassTurn(line, at);
      LexIsParity(rest, next);
      OddNext(Turns(rest, next));
    } else {
      PassTaken(line, at);
      if |line| >= 2 {
        LexIsParity(line[2..], at);
      }
    }
  }

  /** For every line: the test agrees with this reader exactly when the quotes that the test takes for
      character constants and the quotes that are in character constants have the same parity. */
  lemma AgreesWithLexIff(line: string)
    ensures (IsCppString(line) <==> Lex(line, InCode).InText?) <==>
            (Odd(Literals(line)) <==> Odd(CharQuotes(line, InCode)))
  {
    LexIsParity(line, InCode);
  }

  // ------------------------------------------------------------------- tidy lines

  /** A quote between single quotes does not stand here, but where it is a character constant. */
  predicate NoLiteral(line: string) {
    !(QUOTE_LITERAL <= line)
  }

  /** Every character constant is closed after one character or one character behind a backslash, and
      no string begins or ends between two single quotes. */
  predicate Tidy(line: string, inside: bool)
    decreases |line|
  {
    if line == "" then true
    else if line[0] == '\\' then |line| == 1 || (NoLiteral(line[1..]) && Tidy(line[2..], inside))
    else if line[0] == '"' then Tidy(line[1..], !inside)
    else if inside || line[0] != '\'' then NoLiteral(line) && Tidy(line[1..], inside)
    else if QUOTE_LITERAL <= line then Tidy(line[3..], inside)
    else if |line| >= 4 && line[1] == '\\' then
      line[3] == '\'' && NoLiteral(line[2..]) && NoLiteral(line[3..]) && Tidy(line[4..], inside)
    else
      |line| >= 3 && line[1] != '\\' && line[1] != '\'' && line[2] == '\'' && NoLiteral(line[2..]) &&
      Tidy(line[3..], inside)
  }

  lemma UnpairLiteral(line: string)
    ensures QUOTE_LITERAL <= Unpair(line) ==> QUOTE_LITERAL <= line
  {
    if QUOTE_LITERAL <= Unpair(line) {
      assert Unpair(line)[0] == '\'' && Unpair(line)[1] == '"' && Unpair(line)[2] == '\'';
      assert line != "" && line[0] == '\'' && Unpair(line) == [line[0]] + Unpair(line[1..]);
      var u := line[1..];
      assert Unpair(u)[0] == '"' && Unpair(u)[1] == '\'';
      assert u != "" && u[0] == '"' && Unpair(u) == [u[0]] + Unpair(u[1..]);
      var v := u[1..];
      assert Unpair(v)[0] == '\'' && v[0] == '\'';
      assert line[..3] == QUOTE_LITERAL;
    }
  }

  lemma PassUncounted(line: string)
    requires line != "" && line[0] != '\\' && NoLiteral(line)
    ensures Literals(line) == Literals(line[1..])
  {
    var s := Unpair(line);
    assert s == [line[0]] + Unpair(line[1..]) && s[1..] == Unpair(line[1..]);
    UnpairLiteral(line);
    if |s| >= 3 {
      assert s[..3] == QUOTE_LITERAL <==> QUOTE_LITERAL <= s;
    } else {
      assert Count(s[1..], QUOTE_LITERAL) == 0;
    }
  }

  lemma LiteralsAfterBackslash(line: string)
    requires |line| >= 2 && line[0] == '\\' && NoLiteral(line[1..])
    ensures Literals(line) == Literals(line[2..])
  {
    var c, s := line[1], Unpair(line[2..]);
    if c == '\\' {
      assert Unpair(line) == ['X'] + (['X'] + s);
      CountChar('X', s, QUOTE_LITERAL);
      CountChar('X', ['X'] + s, QUOTE_LITERAL);
    } else {
      assert line[1..][1..] == line[2..];
      assert Unpair(line) == ['\\'] + ([c] + s);
      PassUncounted(line[1..]);
      CountChar('\\', [c] + s, QUOTE_LITERAL);
    }
  }

  lemma PassLiteral(line: string)
    requires QUOTE_LITERAL <= line
    ensures Literals(line) == 1 + Literals(line[3..])
  {
    var s := Unpair(line[3..]);
    assert line[0] == '\'' && line[1] == '"' && line[2] == '\'';
    assert line[1..][1..] == line[2..] && line[2..][1..] == line[3..];
    var t := ['\''] + s;
    var u := ['"'] + t;
    assert Unpair(line[2..]) == t;
    assert Unpair(line[1..]) == u;
    assert Unpair(line) == ['\''] + u;
    assert (['\''] + u)[..3] == QUOTE_LITERAL && (['\''] + u)[3..] == s;
  }

  lemma NotBetween(line: string)
    requires |line| >= 3 && line[0] == '\'' && line[2] == '\'' && NoLiteral(line)
    ensures line[1] != '"'
  {
    assert line[..3] == [line[0], line[1], line[2]];
  }

  lemma TidyConstant(line: string, k: nat)
    requires line != "" && line[0] == '\'' && NoLiteral(line) && |line| > k && line[k] == '\'' && NoLiteral(line[k..])
    requires if k == 3 then line[1] == '\\' && NoLiteral(line[2..]) else k == 2 && line[1] != '\\' && line[1] != '\''
    ensures Literals(line) == Literals(line[k + 1..])
    ensures CharQuotes(line, InCode) == CharQuotes(line[k + 1..], InCode)
  {
    PassUncounted(line);
    var inner := line[1..];
    var close := line[k..];
    assert close[1..] == line[k + 1..];
    PassUncounted(close);
    assert CharQuotes(close, InChar) == CharQuotes(close[1..], InCode);
    if k == 3 {
      assert inner[1..] == line[2..] && inner[2..] == close;
      LiteralsAfterBackslash(inner);
    } else {
      assert inner[1..] == close;
      NotBetween(line);
      PassUncounted(inner);
      assert CharQuotes(inner, InChar) == CharQuotes(close, InChar);
    }
  }

  lemma LiteralConstant(line: string)
    requires QUOTE_LITERAL <= line
    ensures CharQuotes(line, InCode) == 1 + CharQuotes(line[3..], InCode)
  {
    var u, v := line[1..], line[2..];
    assert u[1..] == v && v[1..] == line[3..];
    assert line[0] == '\'' && u[0] == '"' && v[0] == '\'';
    assert CharQuotes(v, InChar) == CharQuotes(v[1..], InCode);
    assert CharQuotes(u, InChar) == 1 + CharQuotes(v, InChar);
  }

  lemma {:induction false} TidyLiterals(line: string, inside: bool)
    requires Tidy(line, inside)
    ensures Literals(line) == CharQuotes(line, if inside then InText else InCode)
    decreases |line|
  {
    if line == "" {
    } else if line[0] == '\\' {
      if |line| == 1 {
        assert Unpair(line) == line && line[1..] == "";
      } else {
        LiteralsAfterBackslash(line);
        TidyLiterals(line[2..], inside);
      }
    } else if line[0] == '"' {
      PassUncounted(line);
      TidyLiterals(line[1..], !inside);
    } else if inside || line[0] != '\'' {
      PassUncounted(line);
      TidyLiterals(line[1..], inside);
    } else if QUOTE_LITERAL <= line {
      PassLiteral(line);
      LiteralConstant(line);
      TidyLiterals(line[3..], inside);
    } else {
      var k := if |line| >= 4 && line[1] == '\\' then 3 else 2;
      TidyConstant(line, k);
      TidyLiterals(line[k + 1..], inside);
    }
  }

  /** On every tidy line the test gives the answer of the reader that knows character constants. */
  lemma AgreesWithLex(line: string)
    requires Tidy(line, false)
    ensures IsCppString(line) <==> Lex(line, InCode).InText?
  {
    AgreesWithLexIff(line);
    TidyLiterals(line, false);
  }

  /** The test agrees with the plain reader on every line without a single quote. */
  lemma AgreesWithoutSingleQuote(line: string)
    requires '\'' !in line
    ensures IsCppString(line) <==> InString(line, false)
  {
    AgreesIff(line);
    NoLiterals(line);
  }

  lemma {:induction false} NoLiterals(line: string)
    requires '\'' !in line
    ensures Literals(line) == 0
    decreases |line|
  {
    if line != "" {
      assert line[0] in line && (|line| > 1 ==> line[1] in line);
      if line[0] != '\\' {
        PassUncounted(line);
        NoLiterals(line[1..]);
      } else if |line| >= 2 {
        LiteralsAfterBackslash(line);
        NoLiterals(line[2..]);
      } else {
        assert Unpair(line) == line && line[1..] == "";
      }
    }
  }
}
