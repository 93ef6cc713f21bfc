/**
  The demonstration program of lis.py, tokenized.

  The token stream is first derived for a program of the same shape whose
  words are left abstract, a few tokens at a time, and only then instantiated
  with the actual words, so that no step has to compute over the whole
  literal text.
*/
module LexerExamples {
  import opened Lexer

  const Program := "(begin (define r 10) (* pi (* r r)))"

  const ProgramTokens: seq<string> :=
    ["(", "begin", "(", "define", "r", "10", ")", "(", "*", "pi", "(", "*", "r", "r", ")", ")", ")"]

  /** `w x`: a word, a space, then `x`. */
  function WordThen(w: string, x: string): string {
    w + " " + x
  }

  /** `(w x`: an opening parenthesis, a word, a space, then `x`. */
  function OpenThen(w: string, x: string): string {
    "(" + w + " " + x
  }

  /** `w)x`: a word, a closing parenthesis, then `x`. */
  function CloseAfter(w: string, x: string): string {
    w + ")" + x
  }

  /** The text of a program shaped like the demonstration program,
      `(a (b c d) (e f (g h i)))`, for any nine words. */
  function ShapeText(a: string, b: string, c: string, d: string, e: string,
                     f: string, g: string, h: string, i: string): string
  {
    OpenThen(a, OpenThen(b, WordThen(c, CloseAfter(d,
      " " + OpenThen(e, WordThen(f, OpenThen(g, WordThen(h, CloseAfter(i, "))")))))))))
  }

  /** A word followed by a space is one token. */
  lemma LexWordSpace(w: string, x: string)
    requires IsWord(w)
    ensures Lex(WordThen(w, x)) == [w] + Lex(x)
  {
    LexWordThen(w, " " + x);
    LexSpaceThen(x);
    assert w + " " + x == w + (" " + x);
  }

  /** `(w ` opens a list headed by the word `w`. */
  lemma LexOpenWord(w: string, x: string)
    requires IsWord(w)
    ensures Lex(OpenThen(w, x)) == ["(", w] + Lex(x)
  {
    LexParenThen("(", WordThen(w, x));
    LexWordSpace(w, x);
    assert "(" + w + " " + x == "(" + (w + " " + x);
  }

  /** `w)` is a word and a closing parenthesis. */
  lemma LexWordClose(w: string, x: string)
    requires IsWord(w)
    ensures Lex(CloseAfter(w, x)) == [w, ")"] + Lex(x)
  {
    LexWordThen(w, ")" + x);
    LexParenThen(")", x);
    assert w + ")" + x == w + (")" + x);
  }

  lemma LexCloseClose()
    ensures Lex("))") == [")", ")"]
  {
    LexParenThen(")", "");
    LexParenThen(")", ")" + "");
    assert ")" + (")" + "") == "))";
  }

  /** `(a (b ` opens two lists. */
  lemma LexOpenOpen(a: string, b: string, x: string)
    requires IsWord(a) && IsWord(b)
    ensures Lex(OpenThen(a, OpenThen(b, x))) == ["(", a, "(", b] + Lex(x)
  {
    LexOpenWord(b, x);
    LexOpenWord(a, OpenThen(b, x));
  }

  /** `c d)` is two words and a closing parenthesis. */
  lemma LexWordWordClose(c: string, d: string, x: string)
    requires IsWord(c) && IsWord(d)
    ensures Lex(WordThen(c, CloseAfter(d, x))) == [c, d, ")"] + Lex(x)
  {
    LexWordClose(d, x);
    LexWordSpace(c, CloseAfter(d, x));
  }

  /** ` (e f ` opens a list with two words. */
  lemma LexSpaceOpenWord(e: string, f: string, x: string)
    requires IsWord(e) && IsWord(f)
    ensures Lex(" " + OpenThen(e, WordThen(f, x))) == ["(", e, f] + Lex(x)
  {
    LexWordSpace(f, x);
    LexOpenWord(e, WordThen(f, x));
    LexSpaceThen(OpenThen(e, WordThen(f, x)));
  }

  /** `(g h i)` is a closed list of three words. */
  lemma LexOpenWordWordClose(g: string, h: string, i: string, x: string)
    requires IsWord(g) && IsWord(h) && IsWord(i)
    ensures Lex(OpenThen(g, WordThen(h, CloseAfter(i, x)))) == ["(", g, h, i, ")"] + Lex(x)
  {
    LexWordClose(i, x);
    LexWordSpace(h, CloseAfter(i, x));
    LexOpenWord(g, WordThen(h, CloseAfter(i, x)));
  }

  /** The text `(a (b c d)` followed by `x`. */
  lemma LexProgramHead(a: string, b: string, c: string, d: string, x: string)
    requires IsWord(a) && IsWord(b) && IsWord(c) && IsWord(d)
    ensures Lex(OpenThen(a, OpenThen(b, WordThen(c, CloseAfter(d, x)))))
      == ["(", a, "(", b, c, d, ")"] + Lex(x)
  {
    LexWordWordClose(c, d, x);
    LexOpenOpen(a, b, WordThen(c, CloseAfter(d, x)));
  }

  /** The text ` (e f (g h i)))`. */
  lemma LexProgramTail(e: string, f: string, g: string, h: string, i: string)
    requires IsWord(e) && IsWord(f) && IsWord(g) && IsWord(h) && IsWord(i)
    ensures Lex(" " + OpenThen(e, WordThen(f, OpenThen(g, WordThen(h, CloseAfter(i, "))"))))))
      == ["(", e, f, "(", g, h, i, ")", ")", ")"]
  {
    LexCloseClose();
    var inner := OpenThen(g, WordThen(h, CloseAfter(i, "))")));
    LexOpenWordWordClose(g, h, i, "))");
    LexSpaceOpenWord(e, f, inner);
  }

  /** Any program shaped like the demonstration program, whatever its nine
      words, lexes to the same 17-token pattern. */
  lemma LexProgramShape(a: string, b: string, c: string, d: string, e: string,
                        f: string, g: string, h: string, i: string)
    requires IsWord(a) && IsWord(b) && IsWord(c) && IsWord(d) && IsWord(e)
    requires IsWord(f) && IsWord(g) && IsWord(h) && IsWord(i)
    ensures Lex(ShapeText(a, b, c, d, e, f, g, h, i))
      == ["(", a, "(", b, c, d, ")", "(", e, f, "(", g, h, i, ")", ")", ")"]
  {
    LexProgramTail(e, f, g, h, i);
    LexProgramHead(a, b, c, d, " " + OpenThen(e, WordThen(f, OpenThen(g, WordThen(h, CloseAfter(i, "))"))))));
  }

  lemma ProgramWords()
    ensures IsWord("begin") && IsWord("define") && IsWord("r") && IsWord("10")
    ensures IsWord("*") && IsWord("pi")
  {
  }

  lemma ProgramHeadText(x: string)
    ensures OpenThen("begin", OpenThen("define", WordThen("r", CloseAfter("10", x))))
      == "(begin (define r 10)" + x
  {
  }

  lemma ProgramTailText()
    ensures " " + OpenThen("*", WordThen("pi", OpenThen("*", WordThen("r", CloseAfter("r", "))")))))
      == " (* pi (* r r)))"
  {
  }

  lemma ProgramText()
    ensures ShapeText("begin", "define", "r", "10", "*", "pi", "*", "r", "r") == Program
  {
    ProgramTailText();
    ProgramHeadText(" (* pi (* r r)))");
  }

  /** The demonstration program has the 17 tokens lis.py prints. */
  lemma TokenizeProgram()
    ensures Tokenize(Program) == ProgramTokens
    ensures |Tokenize(Program)| == 17
  {
    ProgramText();
    ProgramWords();
    LexProgramShape("begin", "define", "r", "10", "*", "pi", "*", "r", "r");
  }
}
