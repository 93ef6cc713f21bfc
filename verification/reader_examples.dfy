/**
  The tree of lis.py's demonstration program: it prints to the program's
  tokens, and reading those tokens gives the tree back.

  As for the tokens, the tree is first handled with its nine atoms left
  abstract and only then instantiated.
*/
module ReaderExamples {
  import opened Lexer
  import opened Atoms
  import opened Reader
  import opened LexerExamples

  /** A tree shaped like the demonstration program: `(a (b c d) (e f (g h i)))`. */
  function ProgramShape(a: Atoms.Atom, b: Atoms.Atom, c: Atoms.Atom, d: Atoms.Atom, e: Atoms.Atom,
                        f: Atoms.Atom, g: Atoms.Atom, h: Atoms.Atom, i: Atoms.Atom): Exp
  {
    List([Exp.Atom(a),
          List([Exp.Atom(b), Exp.Atom(c), Exp.Atom(d)]),
          List([Exp.Atom(e), Exp.Atom(f), List([Exp.Atom(g), Exp.Atom(h), Exp.Atom(i)])])])
  }

  /** The tree the intended reader produces for the demonstration program.
      (As written, lis.py's own parse of it fails at the emptiness test.) */
  const ProgramTree :=
    ProgramShape(Symbol("begin"), Symbol("define"), Symbol("r"), Integer(10),
                 Symbol("*"), Symbol("pi"), Symbol("*"), Symbol("r"), Symbol("r"))

  lemma PrintThree(x: Exp, y: Exp, z: Exp)
    ensures PrintAll([x, y, z]) == Print(x) + Print(y) + Print(z)
  {
    assert [z][1..] == [];
    assert PrintAll([z]) == Print(z) + [];
    assert [y, z][1..] == [z];
    assert PrintAll([y, z]) == Print(y) + Print(z);
    assert [x, y, z][1..] == [y, z];
  }

  /** A list of three atoms prints as its three atom texts in parentheses. */
  lemma PrintAtomTriple(x: Atoms.Atom, y: Atoms.Atom, z: Atoms.Atom)
    ensures Print(List([Exp.Atom(x), Exp.Atom(y), Exp.Atom(z)]))
      == ["(", AtomText(x), AtomText(y), AtomText(z), ")"]
  {
    PrintThree(Exp.Atom(x), Exp.Atom(y), Exp.Atom(z));
  }

  lemma PrintProgramTail(e: Atoms.Atom, f: Atoms.Atom, g: Atoms.Atom, h: Atoms.Atom, i: Atoms.Atom)
    ensures Print(List([Exp.Atom(e), Exp.Atom(f), List([Exp.Atom(g), Exp.Atom(h), Exp.Atom(i)])]))
      == ["(", AtomText(e), AtomText(f), "(", AtomText(g), AtomText(h), AtomText(i), ")", ")"]
  {
    var inner := List([Exp.Atom(g), Exp.Atom(h), Exp.Atom(i)]);
    PrintAtomTriple(g, h, i);
    PrintThree(Exp.Atom(e), Exp.Atom(f), inner);
  }

  lemma PrintProgramShape(a: Atoms.Atom, b: Atoms.Atom, c: Atoms.Atom, d: Atoms.Atom, e: Atoms.Atom,
                          f: Atoms.Atom, g: Atoms.Atom, h: Atoms.Atom, i: Atoms.Atom)
    ensures Print(ProgramShape(a, b, c, d, e, f, g, h, i))
      == ["(", AtomText(a), "(", AtomText(b), AtomText(c), AtomText(d), ")",
          "(", AtomText(e), AtomText(f), "(", AtomText(g), AtomText(h), AtomText(i), ")", ")", ")"]
  {
    var second := List([Exp.Atom(b), Exp.Atom(c), Exp.Atom(d)]);
    var third := List([Exp.Atom(e), Exp.Atom(f), List([Exp.Atom(g), Exp.Atom(h), Exp.Atom(i)])]);
    PrintAtomTriple(b, c, d);
    PrintProgramTail(e, f, g, h, i);
    PrintThree(Exp.Atom(a), second, third);
  }

  lemma WellFormedTriple(x: Exp, y: Exp, z: Exp)
    requires WellFormed(x) && WellFormed(y) && WellFormed(z)
    ensures WellFormed(List([x, y, z]))
  {
  }

  lemma WellFormedProgramShape(a: Atoms.Atom, b: Atoms.Atom, c: Atoms.Atom, d: Atoms.Atom, e: Atoms.Atom,
                               f: Atoms.Atom, g: Atoms.Atom, h: Atoms.Atom, i: Atoms.Atom)
    requires Canonical(a) && Canonical(b) && Canonical(c) && Canonical(d) && Canonical(e)
    requires Canonical(f) && Canonical(g) && Canonical(h) && Canonical(i)
    ensures WellFormed(ProgramShape(a, b, c, d, e, f, g, h, i))
  {
    var inner := List([Exp.Atom(g), Exp.Atom(h), Exp.Atom(i)]);
    var second := List([Exp.Atom(b), Exp.Atom(c), Exp.Atom(d)]);
    var third := List([Exp.Atom(e), Exp.Atom(f), inner]);
    WellFormedTriple(Exp.Atom(g), Exp.Atom(h), Exp.Atom(i));
    WellFormedTriple(Exp.Atom(b), Exp.Atom(c), Exp.Atom(d));
    WellFormedTriple(Exp.Atom(e), Exp.Atom(f), inner);
    WellFormedTriple(Exp.Atom(a), second, third);
  }

  /** A word without digits is a canonical symbol. */
  lemma WordSymbol(n: string)
    requires IsWord(n)
    requires forall i :: 0 <= i < |n| ==> !IsDigit(n[i])
    ensures Canonical(Symbol(n))
  {
    ClassifyNoDigits(n);
    ClassifyCanonical(n);
  }

  lemma BeginSymbol()
    ensures Canonical(Symbol("begin"))
  {
    assert IsWord("begin");
    WordSymbol("begin");
  }

  lemma DefineSymbol()
    ensures Canonical(Symbol("define"))
  {
    assert IsWord("define");
    WordSymbol("define");
  }

  lemma RSymbol()
    ensures Canonical(Symbol("r"))
  {
    assert IsWord("r");
    WordSymbol("r");
  }

  lemma TimesSymbol()
    ensures Canonical(Symbol("*"))
  {
    assert IsWord("*");
    WordSymbol("*");
  }

  lemma PiSymbol()
    ensures Canonical(Symbol("pi"))
  {
    assert IsWord("pi");
    WordSymbol("pi");
  }

  lemma TenText()
    ensures AtomText(Integer(10)) == "10"
  {
    assert NatText(10) == NatText(1) + [DigitChar(0)];
  }

  /** The demonstration tree prints to the demonstration program's tokens. */
  lemma PrintProgram()
    ensures Print(ProgramTree) == ProgramTokens
  {
    TenText();
    PrintProgramShape(Symbol("begin"), Symbol("define"), Symbol("r"), Integer(10),
                      Symbol("*"), Symbol("pi"), Symbol("*"), Symbol("r"), Symbol("r"));
  }

  lemma WellFormedProgram()
    ensures WellFormed(ProgramTree)
  {
    BeginSymbol();
    DefineSymbol();
    RSymbol();
    TimesSymbol();
    PiSymbol();
    WellFormedProgramShape(Symbol("begin"), Symbol("define"), Symbol("r"), Integer(10),
                           Symbol("*"), Symbol("pi"), Symbol("*"), Symbol("r"), Symbol("r"));
  }

  /** Reading the demonstration program's tokens consumes all of them. */
  lemma ReadProgram()
    ensures Read(ProgramTokens) == Ok((ProgramTree, []))
  {
    PrintProgram();
    WellFormedProgram();
    ReadPrint(ProgramTree, []);
    assert ProgramTokens + [] == ProgramTokens;
  }
}
