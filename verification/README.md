# lis.py front end in Dafny

`lis.py` is the front half of a small Scheme interpreter after Peter Norvig's
"lispy": it turns program text into a nested-list syntax tree. Four functions
do the work.

- `tokenize` pads every `(` and `)` with spaces and splits the result on
  whitespace.
- `read_from_tokens` is a recursive-descent reader. It takes one expression
  off the front of the token list. A `(` starts a list whose elements are read
  until the lookahead is `)`. A stray `)` is a syntax error. Any other token
  is an atom.
- `atom` turns a token into an `int` if Python's `int` accepts it, otherwise
  a `float` if `float` accepts it, otherwise a symbol.
- `parse` composes `tokenize` and `read_from_tokens`.

The model has one module for each stage.

- `Lexer` (`lexer.dfy`) models `tokenize`.
  - `Tokenize` is `tokenize`'s recipe, written as replace, replace, split.
  - `Lex` is an independent character-level lexer. It skips whitespace,
    emits each parenthesis on its own and emits each maximal run of other
    characters as one word. The two are proved equal.
  - Whitespace is the set of characters Python's `str.isspace` accepts.
- `Atoms` (`atoms.dfy`) models `atom`.
  - `Atom` is `Integer(value) | Float(text) | Symbol(name)`.
  - The integer and float literal grammars are written out as predicates.
  - `AtomText` prints an atom back to a token.
- `Reader` (`reader.dfy`) models `read_from_tokens`.
  - `Exp` is `Atom(atom) | List(items)`.
  - `read_from_tokens` pops tokens off a shared list. Here `Read` and `ReadItems`
    return the tree together with the remaining tokens, as a
    `Result<(Exp, seq<string>)>`.
  - The two errors are `UnexpectedEnd` and `UnmatchedClose`.
  - The lemmas characterise reading completely in terms of parenthesis depth.
- `Parser` (`parser.dfy`) models `parse`.
- `LexerExamples`, `AtomExamples`, `ReaderExamples` and `ParserExamples`
  state facts about lis.py's demonstration program
  `(begin (define r 10) (* pi (* r r)))`:
  - its 17 tokens;
  - the classification of its atoms;
  - its tree;
  - its parse.

  They also cover the smallest failing inputs.

## Model

| member | source | states |
|---|---|---|
| Lexer.Tokenize | lis.py:14-18 | The replace/replace/split recipe yields exactly the tokens of the reference lexer `Lex`. Every token is a lone parenthesis or a non-empty run of characters that are neither whitespace nor parentheses. Glued together, the tokens spell the input with its whitespace removed. |
| Lexer.TokenizeIsLex | lis.py:18 | Splitting the text with both parentheses padded gives the same sequence as the character-level lexer, for every input. |
| Lexer.TokenizeNoBlank | lis.py:18 | No token is empty and no token contains whitespace. |
| Lexer.TokenizeParens | lis.py:18 | The parenthesis tokens are exactly the input's parentheses, in order and one per token. No other token contains a parenthesis. |
| Lexer.TokenizeIdempotent | lis.py:18 | Joining the tokens with single spaces and tokenizing again gives the same tokens. |
| Lexer.TokenizeAppend | lis.py:18 | Tokenizing two texts joined by a space gives the concatenation of their token sequences. |
| Lexer.LexSplitAt | lis.py:18 | Text can be tokenized piece by piece, split anywhere except inside a word. |
| Lexer.LexLayout | lis.py:18-19 | Spacing around parentheses does not matter. Any layout of a token sequence that keeps adjacent words apart tokenizes back to that sequence, so `(foo)` and `( foo )` give the same tokens. |
| Lexer.LexConcat | lis.py:18 | The lexer's tokens, glued together, are the input without whitespace. |
| LexerExamples.LexProgramShape | lis.py:18-22 | Any program of the demonstration program's shape, whatever its nine words, gives the same 17-token pattern. |
| LexerExamples.TokenizeProgram | lis.py:18-23 | The demonstration program tokenizes to `( begin ( define r 10 ) ( * pi ( * r r ) ) )`, 17 tokens. |
| Atoms.Classify | lis.py:55-65 | A float or symbol keeps the token's text unchanged. Every word classifies to a canonical atom, one whose printed text classifies back to it (see `AtomRoundTrip`). |
| Atoms.ClassifyInteger | lis.py:59-60 | An optional `+` or `-`, any number of zeros and the decimal numeral of `n` classify as the integer `n`, negated under `-`: `007`, `+5` and `-0` are integers, as Python's `int` accepts them. |
| Atoms.ClassifyIntegerParts | lis.py:59-60 | Conversely, every token classified as an integer is an optional sign, some zeros and the numeral of its absolute value. |
| Atoms.ClassifyNoDigits | lis.py:59-65 | Every number literal contains a digit, so a token without digits, such as `pi`, `*` or `begin`, is a symbol. |
| Atoms.ClassifyDecimalPoint | lis.py:62-63 | Digits, a decimal point and digits, with at least one digit in all, classify as a float: `3.14`, `10.`, `.5`. |
| Atoms.IntTextValue | lis.py:59-60 | The printed text of any integer is an integer literal whose value is that integer. |
| Atoms.AtomRoundTrip | lis.py:55-65 | Printing any atom that classification can produce gives a word that classifies back to the same atom. |
| Atoms.ClassifyStable | lis.py:55-65 | Printing a classified word and classifying it again changes nothing. |
| Atoms.AtomAsWrittenFails | lis.py:65 | As written, `atom` agrees with the intended classifier on numbers. On every other token it fails because the name `Symbol` is unbound. |
| AtomExamples.ClassifyTen | lis.py:59-60 | `10` is the integer 10. |
| AtomExamples.ClassifyNegative | lis.py:59-60 | `-7` is the integer -7. |
| AtomExamples.ClassifyDecimal | lis.py:62-63 | `3.14` is a float. |
| Reader.Read | lis.py:34-52 | On success the read leaves a strict suffix of the tokens. An empty stream fails with `UnexpectedEnd`. A leading `)` fails with `UnmatchedClose`. The result is an atom exactly when the first token is not a parenthesis. |
| Reader.ReadItems | lis.py:42-48 | Reading list elements leaves a strict suffix, and running out of tokens fails with `UnexpectedEnd`. |
| Reader.ReadOutcome | lis.py:38-52 | The read's complete behaviour. It reports a stray `)` exactly when the stream starts with `)`. It succeeds exactly when some prefix of the stream is one balanced form. Otherwise it reports an unexpected end. |
| Reader.ReadSucceedsIff | lis.py:40-48 | A read succeeds exactly when some prefix of the stream is a balanced form. |
| Reader.ReadBalanced | lis.py:42-48 | The tokens a successful read consumes form exactly one balanced form: depth zero at its end and positive before. |
| Reader.ReadComplete | lis.py:42-48 | If the stream starts with a balanced form, the read succeeds and leaves exactly the tokens after that form. |
| Reader.ReadPrints | lis.py:42-52 | The tree prints back to the consumed tokens, with atoms spelled canonically. Lists mirror the parentheses, and children come in token order. |
| Reader.ReadLeaves | lis.py:51-52 | The tree's atoms, left to right, are the classified non-parenthesis tokens it consumed, in order and equal in number. |
| Reader.UnclosedFails | lis.py:42-45 | A `(` whose depth never returns to zero before the end of the stream makes the read fail with an unexpected end. |
| Reader.ReadAppend | lis.py:40-48 | A read never looks past its form. Appending tokens changes only the leftover tokens. |
| Reader.ReadPrint | lis.py:34-52 | Reading the printed form of a well-formed tree, followed by anything, gives back the tree and the following tokens. |
| Reader.ReadAsWrittenFails | lis.py:38-40 | As written, every read fails at the emptiness test because `token` is not yet bound. The intended reader accepts every stream that starts with an atom. |
| ReaderExamples.PrintProgramShape | lis.py:42-52 | A tree of the demonstration program's shape prints to the 17-token pattern, whatever its atoms. |
| ReaderExamples.ReadProgram | lis.py:34-52 | Reading the demonstration program's tokens gives the tree `begin`, (`define`, `r`, 10), (`*`, `pi`, (`*`, `r`, `r`)) and consumes every token. |
| Parser.Parse | lis.py:28-32 | Parsing succeeds exactly when the program's token stream starts with a balanced form. It reports a stray `)` exactly when the first token is `)`. |
| Parser.ParseIgnoresLeftovers | lis.py:28-32 | Only the first form is read. Text appended after a space does not change a successful parse. |
| Parser.ParseUnparse | lis.py:28-32 | Parsing the space-joined printed form of any well-formed tree gives the tree back. |
| Parser.ParseBlank | lis.py:28-39 | An empty or whitespace-only program fails with an unexpected end. |
| ParserExamples.ParseProgram | lis.py:28-32 | The demonstration program parses to the tree above. |
| ParserExamples.ParseStrayClose | lis.py:49-50 | The program `)` fails with an unmatched close. |
| ParserExamples.ParseUnclosed | lis.py:42-45 | The program `(` fails with an unexpected end. |

## Left out

- The module-level demonstration statements (lis.py:22-23, 67) are I/O and
  top-level side effects. Their results are stated as lemmas instead:
  `TokenizeProgram` and `ParseProgram`.
- The reader's emptiness test at lis.py:38 measures `len(token)`. That is an
  unassigned local, so every call fails there. The model follows the evident
  intent, `len(tokens)`, in `Reader.Read`. The code as written is
  `Reader.ReadAsWritten` (see Findings).
- `Symbol` at lis.py:65 is never defined. The model gives atoms a `Symbol`
  variant holding the token text. The code as written is `Atoms.AtomAsWritten`
  (see Findings).
- Reader.Read: when a list is still open and the tokens run out, lis.py
  evaluates `tokens[0]` on an empty list at lis.py:44. That raises
  `IndexError`, not the `SyntaxError` of lis.py:39. The model reports it as the
  same `UnexpectedEnd` as an empty stream.
- Reader.Read: lis.py mutates the caller's token list with `pop(0)`. The
  model returns the remaining tokens instead. On success the two agree: the
  list is left holding exactly the returned rest. On an error the model
  promises nothing about the tokens, because `Err` carries no rest.
  lis.py leaves a partly consumed list for a caller that catches the
  exception. For example, `[")", "x"]` is left as `["x"]` (lis.py:40, 50),
  and `["(", "a"]` is left empty (lis.py:40, 44).
- Atoms.Classify: floats carry their token text, not an IEEE-754 value, so
  float rounding and comparison are not modelled.
- Atoms.Classify: only the plain literal grammars are modelled:
  - integers: an optional sign, then ASCII digits;
  - floats: an optional sign, a mantissa with at least one digit and an
    optional point, then an optional `e`/`E` exponent.

  Python's `int` and `float` also accept other spellings, which the model
  classifies as symbols:
  - digit-group underscores (`1_000`);
  - non-ASCII digits;
  - `inf`, `nan` and `infinity`;
  - surrounding whitespace. This cannot occur in a token.
- Atoms.Classify: the model does not include the integer-string conversion
  limit. Since Python 3.11, and in the 3.7-3.10 security releases, `int()`
  raises `ValueError` on a decimal string of more than 4300 digits.
  lis.py:61-63 then falls through to `float(token)`, which gives a float, or
  `inf` for a very long token. The model classifies every such token as an
  `Integer` with its exact value.
- Recursion depth: Python stops deeply nested input with `RecursionError`.
  The model has unbounded recursion.
- `Parser.Parse` returns only the first form. Tokens after it are dropped,
  as in lis.py.

## Findings

| source | as written | input that shows it | evidently intended | confidence | as-written member | corrected member |
|---|---|---|---|---|---|---|
| lis.py:38 | `if len(token) == 0:` reads the local `token` before its assignment on line 40, so every call raises `UnboundLocalError` | any token list, e.g. `["x"]` from the program `x` | `if len(tokens) == 0:` | high; not executed | Reader.ReadAsWrittenFails | Reader.ReadOutcome |
| lis.py:65 | `return Symbol(token)` names `Symbol`, which the file never defines or imports, so every non-numeric token raises `NameError` | the token `pi` of the demonstration program | a symbol holding the token text, as in Norvig's `Symbol = str` | high; not executed | Atoms.AtomAsWrittenPi | Atoms.Classify |
