/**
  The parse entry point: tokenize the program text, then read one expression
  from the front of the token stream. Tokens after the first complete form are
  ignored; failures from the reader are passed through unchanged.
*/
module Parser {
  import opened Lexer
  import opened Atoms
  import opened Reader

  /** Parse the first form of `program`. It succeeds exactly when the token
      stream starts with a balanced form, and reports a stray `)` exactly when
      the first token is `)`. */
  function Parse(program: string): (r: Result<Exp>)
    ensures r.Ok? <==>
      exists n :: 0 < n <= |Tokenize(program)| && IsForm(Tokenize(program)[..n])
    ensures r == Err(UnmatchedClose) <==>
      |Tokenize(program)| > 0 && Tokenize(program)[0] == ")"
  {
    ReadOutcome(Tokenize(program));
    match Read(Tokenize(program))
    case Ok((e, _)) => Ok(e)
    case Err(error) => Err(error)
  }

  /** The text of a tree: its tokens joined by single spaces. */
  function Unparse(e: Exp): string {
    Join(Print(e))
  }

  /** Only the first top-level form is read: whatever follows it, after a
      separating space, does not change the result. */
  lemma ParseIgnoresLeftovers(a: string, b: string)
    requires Parse(a).Ok?
    ensures Parse(a + " " + b) == Parse(a)
  {
    TokenizeAppend(a, b);
    ReadAppend(Tokenize(a), Tokenize(b));
  }

  /** Parsing the text of a well-formed tree gives the tree back. */
  lemma ParseUnparse(e: Exp)
    requires WellFormed(e)
    ensures Parse(Unparse(e)) == Ok(e)
  {
    PrintTokens(e);
    LexJoin(Print(e));
    ReadPrint(e, []);
    assert Print(e) + [] == Print(e);
  }

  /** Text made only of whitespace has no tokens. */
  lemma {:induction false} LexBlank(s: string)
    requires forall i :: 0 <= i < |s| ==> IsSpace(s[i])
    ensures Lex(s) == []
    decreases |s|
  {
    if |s| > 0 {
      LexBlank(s[1..]);
    }
  }

  /** An empty or whitespace-only program fails with an unexpected end. */
  lemma ParseBlank(s: string)
    requires forall i :: 0 <= i < |s| ==> IsSpace(s[i])
    ensures Parse(s) == Err(UnexpectedEnd)
  {
    LexBlank(s);
  }
}
