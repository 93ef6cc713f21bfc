/**
  The tokenizer of the S-expression front end.

  The program text is turned into tokens by surrounding every parenthesis with
  spaces and then splitting on runs of whitespace. `Tokenize` models exactly that
  recipe (`Replace` twice, then `Split`); `Lex` is an independent,
  character-by-character definition of the same token sequence, and the lemmas
  below prove the two agree and derive the token-level properties from `Lex`.
*/
module Lexer {

  /** Whitespace as Python's `str.split()` sees it: the characters Python's
      `str.isspace` accepts. */
  predicate IsSpace(c: char) {
    var n := c as int;
    || (9 <= n <= 13)
    || (28 <= n <= 32)
    || n == 0x85 || n == 0xA0 || n == 0x1680
    || (0x2000 <= n <= 0x200A)
    || n == 0x2028 || n == 0x2029 || n == 0x202F || n == 0x205F || n == 0x3000
  }

  predicate IsParenChar(c: char) {
    c == '(' || c == ')'
  }

  /** A character that can be part of a word token (a symbol or a number). */
  predicate IsWordChar(c: char) {
    !IsSpace(c) && !IsParenChar(c)
  }

  /** A non-empty run of word characters. */
  predicate IsWord(t: string) {
    |t| > 0 && forall i :: 0 <= i < |t| ==> IsWordChar(t[i])
  }

  predicate IsParen(t: string) {
    t == "(" || t == ")"
  }

  /** The shape every token has: a lone parenthesis or a word. */
  predicate IsToken(t: string) {
    IsParen(t) || IsWord(t)
  }

  predicate AllTokens(ts: seq<string>) {
    forall i :: 0 <= i < |ts| ==> IsToken(ts[i])
  }

  // ---------------------------------------------------------------------------
  // Generic string helpers

  /** The characters of `s` that satisfy `p`, in order. */
  function Keep(s: string, p: char -> bool): (r: string)
    ensures |r| <= |s|
  {
    if |s| == 0 then ""
    else (if p(s[0]) then [s[0]] else "") + Keep(s[1..], p)
  }

  /** `s` with all whitespace removed. */
  function Squeeze(s: string): string {
    Keep(s, c => !IsSpace(c))
  }

  /** The parenthesis characters of `s`, in order. */
  function ParenChars(s: string): string {
    Keep(s, IsParenChar)
  }

  /** The tokens glued together with nothing in between. */
  function Concat(ts: seq<string>): string {
    if |ts| == 0 then "" else ts[0] + Concat(ts[1..])
  }

  /** The parenthesis tokens of `ts`, one character each, in order. */
  function ParenTokens(ts: seq<string>): string {
    if |ts| == 0 then "" else (if IsParen(ts[0]) then ts[0] else "") + ParenTokens(ts[1..])
  }

  /** The tokens joined by single spaces. */
  function Join(ts: seq<string>): string {
    if |ts| == 0 then ""
    else if |ts| == 1 then ts[0]
    else ts[0] + " " + Join(ts[1..])
  }

  // ---------------------------------------------------------------------------
  // lis.py's `tokenize`: two replacements, then a whitespace split

  /** Every occurrence of the character `c` in `s` replaced by `with`. */
  function Replace(s: string, c: char, with: string): string {
    if |s| == 0 then ""
    else (if s[0] == c then with else [s[0]]) + Replace(s[1..], c, with)
  }

  /** Length of the leading run of non-whitespace characters. */
  function WordLen(s: string): (n: nat)
    ensures n <= |s|
    ensures forall i :: 0 <= i < n ==> !IsSpace(s[i])
    ensures n < |s| ==> IsSpace(s[n])
  {
    if |s| == 0 || IsSpace(s[0]) then 0 else 1 + WordLen(s[1..])
  }

  /** Split on runs of whitespace, dropping empty pieces. */
  function Split(s: string): (r: seq<string>)
    ensures forall i :: 0 <= i < |r| ==> |r[i]| > 0
    decreases |s|
  {
    if |s| == 0 then []
    else if IsSpace(s[0]) then Split(s[1..])
    else
      var n := WordLen(s);
      [s[..n]] + Split(s[n..])
  }

  /** The tokenizer: pad both parentheses with spaces, then split on whitespace.
      The tokens are exactly those of the reference lexer `Lex`; each is a lone
      parenthesis or a word, and together they spell the input without its
      whitespace. */
  function Tokenize(s: string): (tokens: seq<string>)
    ensures tokens == Lex(s)
    ensures AllTokens(tokens)
    ensures Concat(tokens) == Squeeze(s)
  {
    TokenizeIsLex(s);
    LexConcat(s);
    LexTokens(s);
    Split(Replace(Replace(s, '(', " ( "), ')', " ) "))
  }

  // ---------------------------------------------------------------------------
  // The reference lexer

  /** Length of the leading run of word characters. */
  function RunLen(s: string): (n: nat)
    ensures n <= |s|
    ensures forall i :: 0 <= i < n ==> IsWordChar(s[i])
    ensures n < |s| ==> !IsWordChar(s[n])
  {
    if |s| == 0 || !IsWordChar(s[0]) then 0 else 1 + RunLen(s[1..])
  }

  /** Scan left to right: skip whitespace, emit each parenthesis on its own,
      emit each maximal run of word characters as one token. */
  function Lex(s: string): seq<string>
    decreases |s|
  {
    if |s| == 0 then []
    else if IsSpace(s[0]) then Lex(s[1..])
    else if IsParenChar(s[0]) then [[s[0]]] + Lex(s[1..])
    else
      var n := RunLen(s);
      [s[..n]] + Lex(s[n..])
  }

  /** Every token the lexer emits is a lone parenthesis or a word. */
  lemma {:induction false} LexTokens(s: string)
    ensures AllTokens(Lex(s))
    decreases |s|
  {
    if |s| > 0 {
      if IsSpace(s[0]) || IsParenChar(s[0]) {
        LexTokens(s[1..]);
      } else {
        LexTokens(s[RunLen(s)..]);
      }
    }
  }

  // ---------------------------------------------------------------------------
  // Helper lemmas on Keep

  /** A prefix whose characters are all kept passes through `Keep` unchanged. */
  lemma {:induction false} KeepPrefix(s: string, p: char -> bool, n: nat)
    requires n <= |s|
    requires forall i :: 0 <= i < n ==> p(s[i])
    ensures Keep(s, p) == s[..n] + Keep(s[n..], p)
    decreases n
  {
    if n > 0 {
      KeepPrefix(s[1..], p, n - 1);
      assert s[1..][n - 1..] == s[n..];
      assert s[..n] == [s[0]] + s[1..][..n - 1];
    }
  }

  /** A prefix whose characters are all dropped disappears from `Keep`. */
  lemma {:induction false} KeepSkip(s: string, p: char -> bool, n: nat)
    requires n <= |s|
    requires forall i :: 0 <= i < n ==> !p(s[i])
    ensures Keep(s, p) == Keep(s[n..], p)
    decreases n
  {
    if n > 0 {
      KeepSkip(s[1..], p, n - 1);
      assert s[1..][n - 1..] == s[n..];
    }
  }

  // ---------------------------------------------------------------------------
  // Properties of the reference lexer

  /** Gluing the tokens back together gives the input minus its whitespace. */
  lemma {:induction false} LexConcat(s: string)
    ensures Concat(Lex(s)) == Squeeze(s)
    decreases |s|
  {
    if |s| == 0 {
    } else if IsSpace(s[0]) {
      LexConcat(s[1..]);
    } else if IsParenChar(s[0]) {
      LexConcat(s[1..]);
      assert ([[s[0]]] + Lex(s[1..]))[1..] == Lex(s[1..]);
    } else {
      var n := RunLen(s);
      LexConcat(s[n..]);
      KeepPrefix(s, c => !IsSpace(c), n);
      assert ([s[..n]] + Lex(s[n..]))[1..] == Lex(s[n..]);
    }
  }

  /** Every parenthesis of the input becomes its own token, in the same order. */
  lemma {:induction false} LexParens(s: string)
    ensures ParenTokens(Lex(s)) == ParenChars(s)
    decreases |s|
  {
    if |s| == 0 {
    } else if IsSpace(s[0]) {
      LexParens(s[1..]);
    } else if IsParenChar(s[0]) {
      LexParens(s[1..]);
      assert ([[s[0]]] + Lex(s[1..]))[1..] == Lex(s[1..]);
    } else {
      var n := RunLen(s);
      LexParens(s[n..]);
      KeepSkip(s, IsParenChar, n);
      assert s[..n][0] == s[0];
      assert !IsParen(s[..n]);
      assert ([s[..n]] + Lex(s[n..]))[1..] == Lex(s[n..]);
    }
  }

  /** A single space separates: lexing `a + " " + b` lexes the two halves apart. */
  lemma {:induction false} LexAppend(a: string, b: string)
    ensures Lex(a + " " + b) == Lex(a) + Lex(b)
    decreases |a|
  {
    var s := a + " " + b;
    if |a| == 0 {
      assert s[1..] == b;
    } else if IsSpace(a[0]) || IsParenChar(a[0]) {
      assert s[0] == a[0];
      assert s[1..] == a[1..] + " " + b;
      LexAppend(a[1..], b);
    } else {
      var n := RunLen(a);
      RunLenAppend(a, " " + b);
      assert s == a + (" " + b);
      assert s[..n] == a[..n];
      assert s[n..] == a[n..] + " " + b;
      LexAppend(a[n..], b);
    }
  }

  /** The leading word run is unaffected by what follows a non-word character. */
  lemma {:induction false} RunLenAppend(a: string, b: string)
    requires |b| > 0 && !IsWordChar(b[0])
    ensures RunLen(a + b) == RunLen(a)
    decreases |a|
  {
    if |a| > 0 && IsWordChar(a[0]) {
      assert (a + b)[1..] == a[1..] + b;
      RunLenAppend(a[1..], b);
    }
  }

  /** A run made only of word characters is one run. */
  lemma {:induction false} RunLenWord(t: string)
    requires forall i :: 0 <= i < |t| ==> IsWordChar(t[i])
    ensures RunLen(t) == |t|
    decreases |t|
  {
    if |t| > 0 {
      RunLenWord(t[1..]);
    }
  }

  /** A run that stops inside `a` stops at the same place in `a + b`. */
  lemma {:induction false} RunLenPrefix(a: string, b: string)
    requires RunLen(a) < |a|
    ensures RunLen(a + b) == RunLen(a)
    decreases |a|
  {
    assert (a + b)[0] == a[0];
    if IsWordChar(a[0]) {
      assert (a + b)[1..] == a[1..] + b;
      RunLenPrefix(a[1..], b);
    }
  }

  /** Lexing a text that starts with a word character: the run, then the rest. */
  lemma LexRun(s: string)
    requires |s| > 0 && IsWordChar(s[0])
    ensures Lex(s) == [s[..RunLen(s)]] + Lex(s[RunLen(s)..])
  {
  }

  /** A word run at the start of `a` is read the same way when `b` follows,
      as long as the run does not reach the end of `a` and continue into `b`. */
  lemma LexRunStep(a: string, b: string)
    requires |a| > 0 && IsWordChar(a[0]) && |b| > 0
    requires RunLen(a) < |a| || !IsWordChar(b[0])
    ensures Lex(a + b) == [a[..RunLen(a)]] + Lex(a[RunLen(a)..] + b)
  {
    RunLenJoin(a, b);
    SliceAppend(a, b, RunLen(a));
    LexRun(a + b);
  }

  /** The run at the start of `a` is unchanged by appending `b`, unless it
      reaches the end of `a` and `b` starts with a word character. */
  lemma RunLenJoin(a: string, b: string)
    requires |b| > 0
    requires RunLen(a) < |a| || !IsWordChar(b[0])
    ensures RunLen(a + b) == RunLen(a)
  {
    if RunLen(a) < |a| {
      RunLenPrefix(a, b);
    } else {
      RunLenAppend(a, b);
    }
  }

  lemma SliceAppend(a: string, b: string, n: nat)
    requires n <= |a|
    ensures (a + b)[..n] == a[..n] && (a + b)[n..] == a[n..] + b
    ensures |a| > 0 ==> (a + b)[0] == a[0]
  {
  }

  /** Lexing is compositional wherever the cut does not fall inside a word:
      text can be lexed piece by piece, split at any whitespace or
      parenthesis. */
  lemma {:induction false} LexSplitAt(a: string, b: string)
    requires |a| == 0 || |b| == 0 || !IsWordChar(a[|a| - 1]) || !IsWordChar(b[0])
    ensures Lex(a + b) == Lex(a) + Lex(b)
    decreases |a|
  {
    var s := a + b;
    if |a| == 0 {
      assert s == b;
    } else if |b| == 0 {
      assert s == a;
    } else if IsSpace(a[0]) || IsParenChar(a[0]) {
      assert s[0] == a[0];
      assert s[1..] == a[1..] + b;
      LexSplitAt(a[1..], b);
    } else {
      var n := RunLen(a);
      LexRunStep(a, b);
      LexRun(a);
      LexSplitAt(a[n..], b);
    }
  }

  /** A well-shaped token lexes to itself. */
  lemma LexToken(t: string)
    requires IsToken(t)
    ensures Lex(t) == [t]
  {
    if IsWord(t) {
      RunLenWord(t);
      assert t[..|t|] == t;
    }
  }

  /** Lexing the space-joined tokens gives the tokens back. */
  lemma {:induction false} LexJoin(ts: seq<string>)
    requires AllTokens(ts)
    ensures Lex(Join(ts)) == ts
    decreases |ts|
  {
    if |ts| == 1 {
      LexToken(ts[0]);
    } else if |ts| > 1 {
      LexToken(ts[0]);
      LexJoin(ts[1..]);
      LexAppend(ts[0], Join(ts[1..]));
    }
  }

  // ---------------------------------------------------------------------------
  // lis.py's `tokenize` agrees with the reference lexer

  /** The padding `tokenize` applies, one character at a time. */
  function Pad(s: string): string {
    if |s| == 0 then ""
    else (if s[0] == '(' then " ( " else if s[0] == ')' then " ) " else [s[0]]) + Pad(s[1..])
  }

  lemma {:induction false} ReplaceAppend(a: string, b: string, c: char, with: string)
    ensures Replace(a + b, c, with) == Replace(a, c, with) + Replace(b, c, with)
    decreases |a|
  {
    if |a| > 0 {
      var head := if a[0] == c then with else [a[0]];
      assert (a + b)[0] == a[0];
      assert (a + b)[1..] == a[1..] + b;
      ReplaceAppend(a[1..], b, c, with);
      assert Replace(a + b, c, with) == head + Replace(a[1..] + b, c, with);
      assert Replace(a, c, with) == head + Replace(a[1..], c, with);
    } else {
      assert a + b == b;
    }
  }

  /** The two `replace` calls together pad each parenthesis. */
  lemma {:induction false} ReplaceTwice(s: string)
    ensures Replace(Replace(s, '(', " ( "), ')', " ) ") == Pad(s)
    decreases |s|
  {
    if |s| > 0 {
      var head := if s[0] == '(' then " ( " else [s[0]];
      assert Replace(s, '(', " ( ") == head + Replace(s[1..], '(', " ( ");
      ReplaceAppend(head, Replace(s[1..], '(', " ( "), ')', " ) ");
      ReplaceTwice(s[1..]);
      if s[0] == '(' {
        assert Replace(" ( ", ')', " ) ") == " ( " by {
          assert " ( "[1..] == "( ";
          assert "( "[1..] == " ";
          assert " "[1..] == "";
        }
      } else {
        assert Replace([s[0]], ')', " ) ") == (if s[0] == ')' then " ) " else [s[0]]) by {
          assert [s[0]][1..] == "";
        }
      }
    }
  }

  lemma {:induction false} PadAppend(a: string, b: string)
    ensures Pad(a + b) == Pad(a) + Pad(b)
    decreases |a|
  {
    if |a| > 0 {
      var head := if a[0] == '(' then " ( " else if a[0] == ')' then " ) " else [a[0]];
      assert (a + b)[0] == a[0];
      assert (a + b)[1..] == a[1..] + b;
      PadAppend(a[1..], b);
      assert Pad(a + b) == head + Pad(a[1..] + b);
      assert Pad(a) == head + Pad(a[1..]);
    } else {
      assert a + b == b;
    }
  }

  /** Padding leaves text without parentheses alone. */
  lemma {:induction false} PadPlain(w: string)
    requires forall i :: 0 <= i < |w| ==> !IsParenChar(w[i])
    ensures Pad(w) == w
    decreases |w|
  {
    if |w| > 0 {
      PadPlain(w[1..]);
      assert w == [w[0]] + w[1..];
    }
  }

  /** After padding, text that does not start with a word character starts with
      whitespace (or is empty). */
  lemma PadStart(s: string)
    requires |s| == 0 || !IsWordChar(s[0])
    ensures |Pad(s)| == 0 || IsSpace(Pad(s)[0])
  {
  }

  /** The leading non-whitespace run of `w + x` is `w` when `x` starts with
      whitespace. */
  lemma {:induction false} WordLenAppend(w: string, x: string)
    requires forall i :: 0 <= i < |w| ==> !IsSpace(w[i])
    requires |x| == 0 || IsSpace(x[0])
    ensures WordLen(w + x) == |w|
    decreases |w|
  {
    if |w| > 0 {
      assert (w + x)[1..] == w[1..] + x;
      WordLenAppend(w[1..], x);
    }
  }

  /** Splitting a word followed by whitespace (or nothing) splits off the word. */
  lemma SplitWord(w: string, x: string)
    requires |w| > 0 && forall i :: 0 <= i < |w| ==> !IsSpace(w[i])
    requires |x| == 0 || IsSpace(x[0])
    ensures Split(w + x) == [w] + Split(x)
  {
    var s := w + x;
    WordLenAppend(w, x);
    assert s[..|w|] == w;
    assert s[|w|..] == x;
  }

  lemma SplitSpace(x: string)
    ensures Split(" " + x) == Split(x)
  {
    assert (" " + x)[1..] == x;
  }

  /** Splitting the padded text gives the reference lexer's tokens. */
  lemma {:induction false} SplitPad(s: string)
    ensures Split(Pad(s)) == Lex(s)
    decreases |s|
  {
    if |s| == 0 {
    } else if IsSpace(s[0]) {
      assert Pad(s) == [s[0]] + Pad(s[1..]);
      assert Pad(s)[1..] == Pad(s[1..]);
      SplitPad(s[1..]);
    } else if IsParenChar(s[0]) {
      var p := [s[0]];
      var rest := Pad(s[1..]);
      assert Pad(s) == " " + (p + (" " + rest));
      SplitSpace(p + (" " + rest));
      SplitWord(p, " " + rest);
      SplitSpace(rest);
      SplitPad(s[1..]);
    } else {
      var n := RunLen(s);
      assert s == s[..n] + s[n..];
      PadAppend(s[..n], s[n..]);
      PadPlain(s[..n]);
      PadStart(s[n..]);
      SplitWord(s[..n], Pad(s[n..]));
      SplitPad(s[n..]);
    }
  }

  lemma TokenizeIsLex(s: string)
    ensures Split(Replace(Replace(s, '(', " ( "), ')', " ) ")) == Lex(s)
  {
    ReplaceTwice(s);
    SplitPad(s);
  }

  // ---------------------------------------------------------------------------
  // Properties of Tokenize

  /** No token is empty and no token contains whitespace. */
  lemma TokenizeNoBlank(s: string)
    ensures forall i :: 0 <= i < |Tokenize(s)| ==>
      |Tokenize(s)[i]| > 0 && forall j :: 0 <= j < |Tokenize(s)[i]| ==> !IsSpace(Tokenize(s)[i][j])
  {
  }

  /** Each parenthesis of the input is a token of its own, in input order, and no
      other token contains a parenthesis. */
  lemma TokenizeParens(s: string)
    ensures ParenTokens(Tokenize(s)) == ParenChars(s)
    ensures forall i :: 0 <= i < |Tokenize(s)| && !IsParen(Tokenize(s)[i]) ==>
      forall j :: 0 <= j < |Tokenize(s)[i]| ==> !IsParenChar(Tokenize(s)[i][j])
  {
    LexParens(s);
  }

  /** Re-tokenizing the space-joined tokens gives the same tokens. */
  lemma TokenizeIdempotent(s: string)
    ensures Tokenize(Join(Tokenize(s))) == Tokenize(s)
  {
    LexJoin(Tokenize(s));
  }

  /** Tokenizing two texts separated by a space gives the two token sequences. */
  lemma TokenizeAppend(a: string, b: string)
    ensures Tokenize(a + " " + b) == Tokenize(a) + Tokenize(b)
  {
    LexAppend(a, b);
  }

  // ---------------------------------------------------------------------------
  // Spacing around parentheses does not matter

  /** The tokens written out with a space after `ts[i]` exactly when
      `spaced[i]` holds. */
  function Layout(ts: seq<string>, spaced: seq<bool>): string
    requires |spaced| == |ts|
  {
    if |ts| == 0 then ""
    else ts[0] + (if spaced[0] then " " else "") + Layout(ts[1..], spaced[1..])
  }

  /** Two adjacent words are always separated by a space. */
  predicate Separated(ts: seq<string>, spaced: seq<bool>)
    requires |spaced| == |ts|
  {
    forall i :: 0 <= i < |ts| - 1 && IsWord(ts[i]) && IsWord(ts[i + 1]) ==> spaced[i]
  }

  lemma LayoutStart(ts: seq<string>, spaced: seq<bool>)
    requires |spaced| == |ts| && |ts| > 0 && |ts[0]| > 0
    ensures |Layout(ts, spaced)| > 0 && Layout(ts, spaced)[0] == ts[0][0]
  {
  }

  lemma LexSpaceThen(x: string)
    ensures Lex(" " + x) == Lex(x)
  {
    assert (" " + x)[1..] == x;
  }

  lemma LexParenThen(p: string, x: string)
    requires IsParen(p)
    ensures Lex(p + x) == [p] + Lex(x)
  {
    assert (p + x)[0] == p[0];
    assert (p + x)[1..] == x;
  }

  /** A word followed by a non-word character (or by nothing) is one token. */
  lemma LexWordThen(w: string, x: string)
    requires IsWord(w) && (|x| == 0 || !IsWordChar(x[0]))
    ensures Lex(w + x) == [w] + Lex(x)
  {
    var s := w + x;
    RunLenWord(w);
    if |x| > 0 {
      RunLenAppend(w, x);
    } else {
      assert s == w;
    }
    assert s[0] == w[0];
    assert s[..|w|] == w;
    assert s[|w|..] == x;
  }

  /** Whatever the spacing, as long as adjacent words are kept apart, the text
      lexes to the same tokens: `(foo)` and `( foo )` are both `(`, `foo`, `)`. */
  lemma {:induction false} LexLayout(ts: seq<string>, spaced: seq<bool>)
    requires |spaced| == |ts| && AllTokens(ts) && Separated(ts, spaced)
    ensures Lex(Layout(ts, spaced)) == ts
    decreases |ts|
  {
    if |ts| > 0 {
      var t := ts[0];
      var rest := Layout(ts[1..], spaced[1..]);
      var gap := if spaced[0] then " " else "";
      var x := gap + rest;
      assert Layout(ts, spaced) == t + x;
      LexLayout(ts[1..], spaced[1..]);
      if spaced[0] {
        LexSpaceThen(rest);
      } else {
        assert x == rest;
        if |ts| > 1 {
          LayoutStart(ts[1..], spaced[1..]);
        }
      }
      if IsParen(t) {
        LexParenThen(t, x);
      } else {
        LexWordThen(t, x);
      }
    }
  }
}
