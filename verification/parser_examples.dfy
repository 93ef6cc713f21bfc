/**
  The demonstration program of lis.py, parsed, and the two ways a parse
  can fail on the smallest inputs.
*/
module ParserExamples {
  import opened Lexer
  import opened Reader
  import opened Parser
  import opened LexerExamples
  import opened ReaderExamples

  /** Parsing the demonstration program gives the nested list
      `begin`, (`define`, `r`, 10), (`*`, `pi`, (`*`, `r`, `r`)). */
  lemma ParseProgram()
    ensures Parse(Program) == Ok(ProgramTree)
  {
    TokenizeProgram();
    ReadProgram();
  }

  /** A lone `)` is reported as unmatched. */
  lemma ParseStrayClose()
    ensures Parse(")") == Err(UnmatchedClose)
  {
    LexParenThen(")", "");
    assert ")" + "" == ")";
  }

  /** A lone `(` runs off the end of the tokens. */
  lemma ParseUnclosed()
    ensures Parse("(") == Err(UnexpectedEnd)
  {
    LexParenThen("(", "");
    assert "(" + "" == "(";
    DepthOne("(");
    assert ["("][..1] == ["("];
    UnclosedFails(["("]);
  }
}
