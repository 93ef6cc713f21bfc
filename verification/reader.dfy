/**
  The expression reader: recursive descent over a token stream.

  A read takes one expression off the front of the stream and hands back the
  rest. An empty stream fails with `UnexpectedEnd`; `(` starts a list whose
  elements are read until the lookahead is `)`, and running out of tokens
  before that `)` is also `UnexpectedEnd`; a `)` where an expression should
  start fails with `UnmatchedClose`; any other token is classified as an atom.

  The lemmas characterise the reader completely in terms of parenthesis depth:
  a read succeeds exactly when some prefix of the stream is one balanced form,
  it consumes exactly that prefix, the tree prints back to that prefix, and it
  fails with `UnmatchedClose` exactly when the stream starts with `)`.
*/
module Reader {
  import opened Lexer
  import opened Atoms

  datatype Exp = Atom(atom: Atoms.Atom) | List(items: seq<Exp>)

  datatype ParseError = UnexpectedEnd | UnmatchedClose

  datatype Result<T> = Ok(value: T) | Err(error: ParseError)

  /** `rest` is what is left of `tokens` after dropping a prefix. */
  predicate IsSuffix(rest: seq<string>, tokens: seq<string>) {
    |rest| <= |tokens| && rest == tokens[|tokens| - |rest|..]
  }

  /** The prefix of `tokens` a read consumed when it left `rest`. */
  function Used(tokens: seq<string>, rest: seq<string>): seq<string>
    requires |rest| <= |tokens|
  {
    tokens[..|tokens| - |rest|]
  }

  /** Read one expression off the front of `tokens`; on success, also return
      the tokens after it. */
  function Read(tokens: seq<string>): (r: Result<(Exp, seq<string>)>)
    ensures r.Ok? ==> |r.value.1| < |tokens| && IsSuffix(r.value.1, tokens)
    ensures |tokens| == 0 ==> r == Err(UnexpectedEnd)
    ensures |tokens| > 0 && tokens[0] == ")" ==> r == Err(UnmatchedClose)
    ensures (r.Ok? && r.value.0.Atom?) <==> (|tokens| > 0 && !IsParen(tokens[0]))
    decreases |tokens|, 0
  {
    if |tokens| == 0 then Err(UnexpectedEnd)
    else
      var token := tokens[0];
      if token == "(" then
        match ReadItems(tokens[1..])
        case Err(e) => Err(e)
        case Ok((items, rest)) => Ok((List(items), rest))
      else if token == ")" then Err(UnmatchedClose)
      else Ok((Atom(Classify(token)), tokens[1..]))
  }

  /** Read list elements until the lookahead is `)`, then drop the `)`. */
  function ReadItems(tokens: seq<string>): (r: Result<(seq<Exp>, seq<string>)>)
    ensures r.Ok? ==> |r.value.1| < |tokens| && IsSuffix(r.value.1, tokens)
    ensures |tokens| == 0 ==> r == Err(UnexpectedEnd)
    decreases |tokens|, 1
  {
    if |tokens| == 0 then Err(UnexpectedEnd)
    else if tokens[0] == ")" then Ok(([], tokens[1..]))
    else
      match Read(tokens)
      case Err(e) => Err(e)
      case Ok((first, rest)) =>
        match ReadItems(rest)
        case Err(e) => Err(e)
        case Ok((others, rest')) => Ok(([first] + others, rest'))
  }

  // ---------------------------------------------------------------------------
  // Parenthesis depth

  function Delta(t: string): int {
    if t == "(" then 1 else if t == ")" then -1 else 0
  }

  /** Opening minus closing parentheses. */
  function Depth(ts: seq<string>): int {
    if |ts| == 0 then 0 else Depth(ts[..|ts| - 1]) + Delta(ts[|ts| - 1])
  }

  /** Exactly one balanced form: the depth returns to zero at the end and not
      before (so an atom alone, or `(` ... its matching `)`). */
  predicate IsForm(ts: seq<string>) {
    && |ts| > 0
    && Depth(ts) == 0
    && forall k :: 0 < k < |ts| ==> Depth(ts[..k]) > 0
  }

  /** The tail of a list: balanced forms followed by the `)` that closes the
      list, where the depth first drops below zero. */
  predicate ClosesList(ts: seq<string>) {
    && |ts| > 0
    && Depth(ts) == -1
    && forall k :: 0 <= k < |ts| ==> Depth(ts[..k]) >= 0
  }

  // ---------------------------------------------------------------------------
  // Printing trees back to tokens

  function Print(e: Exp): seq<string>
    decreases e
  {
    match e
    case Atom(a) => [AtomText(a)]
    case List(items) => ["("] + PrintAll(items) + [")"]
  }

  function PrintAll(items: seq<Exp>): seq<string>
    decreases items
  {
    if |items| == 0 then [] else Print(items[0]) + PrintAll(items[1..])
  }

  /** A token with its atom spelled canonically; parentheses are kept. */
  function CanonToken(t: string): string {
    if IsParen(t) then t else AtomText(Classify(t))
  }

  function Canon(ts: seq<string>): (r: seq<string>)
    ensures |r| == |ts|
  {
    seq(|ts|, i requires 0 <= i < |ts| => CanonToken(ts[i]))
  }

  /** The atoms of a tree, left to right. */
  function Leaves(e: Exp): seq<Atoms.Atom>
    decreases e
  {
    match e
    case Atom(a) => [a]
    case List(items) => LeavesAll(items)
  }

  function LeavesAll(items: seq<Exp>): seq<Atoms.Atom>
    decreases items
  {
    if |items| == 0 then [] else Leaves(items[0]) + LeavesAll(items[1..])
  }

  /** The tokens that are not parentheses, in order. */
  function AtomTokens(ts: seq<string>): seq<string> {
    if |ts| == 0 then [] else (if IsParen(ts[0]) then [] else [ts[0]]) + AtomTokens(ts[1..])
  }

  function ClassifyAll(ts: seq<string>): (r: seq<Atoms.Atom>)
    ensures |r| == |ts|
  {
    seq(|ts|, i requires 0 <= i < |ts| => Classify(ts[i]))
  }

  /** Every atom of the tree is one `Classify` can produce from a word. */
  predicate WellFormed(e: Exp)
    decreases e
  {
    match e
    case Atom(a) => Canonical(a)
    case List(items) => forall i :: 0 <= i < |items| ==> WellFormed(items[i])
  }

  // ---------------------------------------------------------------------------
  // Helper lemmas

  lemma {:induction false} DepthAppend(a: seq<string>, b: seq<string>)
    ensures Depth(a + b) == Depth(a) + Depth(b)
    decreases |b|
  {
    if |b| == 0 {
      assert a + b == a;
    } else {
      var c := a + b;
      assert c[..|c| - 1] == a + b[..|b| - 1];
      assert c[|c| - 1] == b[|b| - 1];
      DepthAppend(a, b[..|b| - 1]);
    }
  }

  lemma DepthOne(t: string)
    ensures Depth([t]) == Delta(t)
  {
    assert [t][..0] == [];
  }

  /** Consumption composes: what two reads in a row used is the concatenation
      of what each used. */
  lemma UsedSplit(tokens: seq<string>, mid: seq<string>, rest: seq<string>)
    requires IsSuffix(mid, tokens) && IsSuffix(rest, mid)
    ensures IsSuffix(rest, tokens)
    ensures Used(tokens, rest) == Used(tokens, mid) + Used(mid, rest)
  {
    var i := |tokens| - |mid|;
    var j := |mid| - |rest|;
    assert mid[j..] == tokens[i + j..];
    assert mid[..j] == tokens[i..i + j];
    assert tokens[..i + j] == tokens[..i] + tokens[i..i + j];
  }

  lemma UsedFirst(tokens: seq<string>, rest: seq<string>)
    requires |tokens| > 0 && IsSuffix(rest, tokens[1..])
    ensures IsSuffix(rest, tokens)
    ensures Used(tokens, rest) == [tokens[0]] + Used(tokens[1..], rest)
  {
    assert tokens[1..][|tokens| - 1 - |rest|..] == tokens[|tokens| - |rest|..];
    assert tokens[..|tokens| - |rest|] == [tokens[0]] + tokens[1..][..|tokens| - 1 - |rest|];
  }

  lemma CanonAppend(a: seq<string>, b: seq<string>)
    ensures Canon(a + b) == Canon(a) + Canon(b)
  {
  }

  lemma {:induction false} AtomTokensAppend(a: seq<string>, b: seq<string>)
    ensures AtomTokens(a + b) == AtomTokens(a) + AtomTokens(b)
    decreases |a|
  {
    if |a| == 0 {
      assert a + b == b;
    } else {
      assert (a + b)[0] == a[0];
      assert (a + b)[1..] == a[1..] + b;
      AtomTokensAppend(a[1..], b);
    }
  }

  lemma ClassifyAllAppend(a: seq<string>, b: seq<string>)
    ensures ClassifyAll(a + b) == ClassifyAll(a) + ClassifyAll(b)
  {
  }

  /** A form followed by a list tail is a list tail. */
  lemma FormThenClose(a: seq<string>, b: seq<string>)
    requires IsForm(a) && ClosesList(b)
    ensures ClosesList(a + b)
  {
    var c := a + b;
    DepthAppend(a, b);
    forall k | 0 <= k < |c|
      ensures Depth(c[..k]) >= 0
    {
      if k <= |a| {
        assert c[..k] == a[..k];
        if k == |a| {
          assert a[..k] == a;
        } else if k == 0 {
          assert a[..k] == [];
        }
      } else {
        assert c[..k] == a + b[..k - |a|];
        DepthAppend(a, b[..k - |a|]);
      }
    }
  }

  /** An opening parenthesis followed by a list tail is a form. */
  lemma OpenThenClose(b: seq<string>)
    requires ClosesList(b)
    ensures IsForm(["("] + b)
  {
    var c := ["("] + b;
    DepthAppend(["("], b);
    DepthOne("(");
    forall k | 0 < k < |c|
      ensures Depth(c[..k]) > 0
    {
      assert c[..k] == ["("] + b[..k - 1];
      DepthAppend(["("], b[..k - 1]);
    }
  }

  // ---------------------------------------------------------------------------
  // Soundness: what a successful read consumed

  /** The tree prints back to the consumed tokens, atoms spelled canonically:
      the list structure is exactly the parenthesis structure read, and the
      children are in the order their tokens came. */
  lemma {:induction false} ReadPrints(tokens: seq<string>)
    ensures Read(tokens).Ok? ==>
      Canon(Used(tokens, Read(tokens).value.1)) == Print(Read(tokens).value.0)
    decreases |tokens|, 0
  {
    if |tokens| > 0 && tokens[0] == "(" {
      ReadItemsPrints(tokens[1..]);
      if ReadItems(tokens[1..]).Ok? {
        var (items, rest) := ReadItems(tokens[1..]).value;
        UsedFirst(tokens, rest);
        CanonAppend(["("], Used(tokens[1..], rest));
      }
    } else if |tokens| > 0 && tokens[0] != ")" {
      assert Used(tokens, tokens[1..]) == [tokens[0]];
    }
  }

  lemma {:induction false} ReadItemsPrints(tokens: seq<string>)
    ensures ReadItems(tokens).Ok? ==>
      Canon(Used(tokens, ReadItems(tokens).value.1)) == PrintAll(ReadItems(tokens).value.0) + [")"]
    decreases |tokens|, 1
  {
    if |tokens| > 0 && tokens[0] == ")" {
      assert Used(tokens, tokens[1..]) == [")"];
    } else if |tokens| > 0 {
      ReadPrints(tokens);
      if Read(tokens).Ok? {
        var (first, mid) := Read(tokens).value;
        ReadItemsPrints(mid);
        if ReadItems(mid).Ok? {
          var (others, rest) := ReadItems(mid).value;
          UsedSplit(tokens, mid, rest);
          CanonAppend(Used(tokens, mid), Used(mid, rest));
          var items := [first] + others;
          assert items[0] == first && items[1..] == others;
        }
      }
    }
  }

  /** The atoms of the tree, left to right, are the classified non-parenthesis
      tokens consumed, in order; so the tree has as many atoms as the consumed
      prefix has non-parenthesis tokens. */
  lemma {:induction false} ReadLeaves(tokens: seq<string>)
    ensures Read(tokens).Ok? ==>
      && ClassifyAll(AtomTokens(Used(tokens, Read(tokens).value.1))) == Leaves(Read(tokens).value.0)
      && |Leaves(Read(tokens).value.0)| == |AtomTokens(Used(tokens, Read(tokens).value.1))|
    decreases |tokens|, 0
  {
    if |tokens| > 0 && tokens[0] == "(" {
      ReadItemsLeaves(tokens[1..]);
      if ReadItems(tokens[1..]).Ok? {
        var (items, rest) := ReadItems(tokens[1..]).value;
        UsedFirst(tokens, rest);
        AtomTokensAppend(["("], Used(tokens[1..], rest));
        assert AtomTokens(["("]) == [];
      }
    } else if |tokens| > 0 && tokens[0] != ")" {
      assert Used(tokens, tokens[1..]) == [tokens[0]];
      assert AtomTokens([tokens[0]]) == [tokens[0]];
    }
  }

  lemma {:induction false} ReadItemsLeaves(tokens: seq<string>)
    ensures ReadItems(tokens).Ok? ==>
      ClassifyAll(AtomTokens(Used(tokens, ReadItems(tokens).value.1))) == LeavesAll(ReadItems(tokens).value.0)
    decreases |tokens|, 1
  {
    if |tokens| > 0 && tokens[0] == ")" {
      assert Used(tokens, tokens[1..]) == [")"];
      assert AtomTokens([")"]) == [];
    } else if |tokens| > 0 {
      ReadLeaves(tokens);
      if Read(tokens).Ok? {
        var (first, mid) := Read(tokens).value;
        ReadItemsLeaves(mid);
        if ReadItems(mid).Ok? {
          var (others, rest) := ReadItems(mid).value;
          UsedSplit(tokens, mid, rest);
          AtomTokensAppend(Used(tokens, mid), Used(mid, rest));
          ClassifyAllAppend(AtomTokens(Used(tokens, mid)), AtomTokens(Used(mid, rest)));
          var items := [first] + others;
          assert items[0] == first && items[1..] == others;
        }
      }
    }
  }

  /** The consumed prefix is one balanced form. */
  lemma {:induction false} ReadBalanced(tokens: seq<string>)
    ensures Read(tokens).Ok? ==> IsForm(Used(tokens, Read(tokens).value.1))
    decreases |tokens|, 0
  {
    if |tokens| > 0 && tokens[0] == "(" {
      ReadItemsBalanced(tokens[1..]);
      if ReadItems(tokens[1..]).Ok? {
        var (items, rest) := ReadItems(tokens[1..]).value;
        UsedFirst(tokens, rest);
        OpenThenClose(Used(tokens[1..], rest));
      }
    } else if |tokens| > 0 && tokens[0] != ")" {
      assert Used(tokens, tokens[1..]) == [tokens[0]];
      DepthOne(tokens[0]);
    }
  }

  lemma {:induction false} ReadItemsBalanced(tokens: seq<string>)
    ensures ReadItems(tokens).Ok? ==> ClosesList(Used(tokens, ReadItems(tokens).value.1))
    decreases |tokens|, 1
  {
    if |tokens| > 0 && tokens[0] == ")" {
      assert Used(tokens, tokens[1..]) == [")"];
      DepthOne(")");
      assert [")"][..0] == [];
    } else if |tokens| > 0 {
      ReadBalanced(tokens);
      if Read(tokens).Ok? {
        var (first, mid) := Read(tokens).value;
        ReadItemsBalanced(mid);
        if ReadItems(mid).Ok? {
          var (others, rest) := ReadItems(mid).value;
          UsedSplit(tokens, mid, rest);
          FormThenClose(Used(tokens, mid), Used(mid, rest));
        }
      }
    }
  }

  // ---------------------------------------------------------------------------
  // Completeness: a balanced prefix is always read

  /** Scanning right from an opening parenthesis of a list tail, the depth
      returns to zero before the tail closes; the first such point ends a form. */
  lemma {:induction false} FindFormEnd(ts: seq<string>, n: nat, j: nat) returns (m: nat)
    requires 1 <= j < n <= |ts|
    requires Depth(ts[..n]) == -1
    requires forall k :: 0 <= k < n ==> Depth(ts[..k]) >= 0
    requires forall k :: 0 < k <= j ==> Depth(ts[..k]) > 0
    ensures j < m < n && IsForm(ts[..m])
    decreases n - j
  {
    assert ts[..j + 1] == ts[..j] + [ts[j]];
    DepthAppend(ts[..j], [ts[j]]);
    DepthOne(ts[j]);
    if Depth(ts[..j + 1]) == 0 {
      m := j + 1;
      forall k | 0 < k < m
        ensures Depth(ts[..m][..k]) > 0
      {
        assert ts[..m][..k] == ts[..k];
      }
    } else {
      m := FindFormEnd(ts, n, j + 1);
    }
  }

  lemma PrefixClosesList(ts: seq<string>, n: nat)
    requires 0 < n <= |ts| && Depth(ts[..n]) == -1
    requires forall k :: 0 <= k < n ==> Depth(ts[..k]) >= 0
    ensures ClosesList(ts[..n])
  {
    forall k | 0 <= k < n
      ensures Depth(ts[..n][..k]) >= 0
    {
      assert ts[..n][..k] == ts[..k];
    }
  }

  /** A list tail that does not start with `)` starts with a form. */
  lemma FirstForm(ts: seq<string>, n: nat) returns (m: nat)
    requires 0 < n <= |ts| && ClosesList(ts[..n]) && ts[0] != ")"
    ensures 0 < m < n && IsForm(ts[..m])
  {
    DepthOne(ts[0]);
    assert ts[..1] == [ts[0]];
    assert ts[..n][..1] == ts[..1];
    forall k | 0 <= k < n
      ensures Depth(ts[..k]) >= 0
    {
      assert ts[..n][..k] == ts[..k];
    }
    if ts[0] == "(" {
      m := FindFormEnd(ts, n, 1);
    } else {
      m := 1;
    }
  }

  /** If the stream starts with a form, the read succeeds and leaves exactly the
      tokens after that form. */
  lemma {:induction false} ReadComplete(tokens: seq<string>, n: nat)
    requires 0 < n <= |tokens| && IsForm(tokens[..n])
    ensures Read(tokens).Ok? && Read(tokens).value.1 == tokens[n..]
    decreases |tokens|, 0
  {
    DepthOne(tokens[0]);
    assert tokens[..1] == [tokens[0]];
    if n > 1 {
      assert tokens[..n][..1] == tokens[..1];
      var inner := tokens[1..];
      assert tokens[..n] == [tokens[0]] + inner[..n - 1];
      DepthAppend([tokens[0]], inner[..n - 1]);
      forall k | 0 <= k < n - 1
        ensures Depth(inner[..k]) >= 0
      {
        assert tokens[..n][..k + 1] == [tokens[0]] + inner[..k];
        DepthAppend([tokens[0]], inner[..k]);
      }
      PrefixClosesList(inner, n - 1);
      ReadItemsComplete(inner, n - 1);
      assert inner[n - 1..] == tokens[n..];
    }
  }

  /** If the stream starts with a list tail, reading the list elements succeeds
      and leaves exactly the tokens after the closing `)`. */
  lemma {:induction false} ReadItemsComplete(tokens: seq<string>, n: nat)
    requires 0 < n <= |tokens| && ClosesList(tokens[..n])
    ensures ReadItems(tokens).Ok? && ReadItems(tokens).value.1 == tokens[n..]
    decreases |tokens|, 1
  {
    if tokens[0] == ")" {
      assert tokens[..n][..1] == [")"];
      DepthOne(")");
    } else {
      var m := FirstForm(tokens, n);
      ReadComplete(tokens, m);
      var mid := tokens[m..];
      assert tokens[..n] == tokens[..m] + mid[..n - m];
      DepthAppend(tokens[..m], mid[..n - m]);
      forall k | 0 <= k < n - m
        ensures Depth(mid[..k]) >= 0
      {
        assert tokens[..n][..m + k] == tokens[..m] + mid[..k];
        DepthAppend(tokens[..m], mid[..k]);
      }
      PrefixClosesList(mid, n - m);
      ReadItemsComplete(mid, n - m);
      assert mid[n - m..] == tokens[n..];
    }
  }

  // ---------------------------------------------------------------------------
  // Failures

  /** Reading list elements never reports a stray `)`: inside a list, `)` is
      the end of the list. */
  lemma {:induction false} ReadItemsNotUnmatched(tokens: seq<string>)
    ensures ReadItems(tokens) != Err(UnmatchedClose)
    decreases |tokens|, 1
  {
    if |tokens| > 0 && tokens[0] != ")" {
      ReadUnmatched(tokens);
      if Read(tokens).Ok? {
        ReadItemsNotUnmatched(Read(tokens).value.1);
      }
    }
  }

  /** A read reports a stray `)` only when the stream starts with one. */
  lemma {:induction false} ReadUnmatched(tokens: seq<string>)
    ensures Read(tokens) == Err(UnmatchedClose) ==> |tokens| > 0 && tokens[0] == ")"
    decreases |tokens|, 0
  {
    if |tokens| > 0 && tokens[0] == "(" {
      ReadItemsNotUnmatched(tokens[1..]);
    }
  }

  /** A read succeeds exactly when some prefix of the stream is a balanced
      form. */
  lemma ReadSucceedsIff(tokens: seq<string>)
    ensures Read(tokens).Ok? <==> exists n :: 0 < n <= |tokens| && IsForm(tokens[..n])
  {
    if Read(tokens).Ok? {
      ReadBalanced(tokens);
      var n := |tokens| - |Read(tokens).value.1|;
      assert Used(tokens, Read(tokens).value.1) == tokens[..n];
    } else if exists n :: 0 < n <= |tokens| && IsForm(tokens[..n]) {
      var n :| 0 < n <= |tokens| && IsForm(tokens[..n]);
      ReadComplete(tokens, n);
    }
  }

  /** The complete behaviour of a read: it reports a stray `)` exactly when the
      stream starts with `)`; it succeeds exactly when some prefix of the stream
      is a balanced form; in every other case the tokens run out and it reports
      an unexpected end. */
  lemma ReadOutcome(tokens: seq<string>)
    ensures Read(tokens) == Err(UnmatchedClose) <==> |tokens| > 0 && tokens[0] == ")"
    ensures Read(tokens).Ok? <==> exists n :: 0 < n <= |tokens| && IsForm(tokens[..n])
    ensures Read(tokens) == Err(UnexpectedEnd) <==>
      && !(|tokens| > 0 && tokens[0] == ")")
      && forall n :: 0 < n <= |tokens| ==> !IsForm(tokens[..n])
  {
    ReadUnmatched(tokens);
    ReadSucceedsIff(tokens);
    var r := Read(tokens);
    if r.Err? && r.error != UnmatchedClose {
      assert r == Err(UnexpectedEnd);
    }
  }

  /** An opening parenthesis that is never closed (the depth stays positive to
      the end of the stream) makes the read fail with an unexpected end; it never
      succeeds. */
  lemma UnclosedFails(tokens: seq<string>)
    requires |tokens| > 0 && tokens[0] == "("
    requires forall k :: 0 < k <= |tokens| ==> Depth(tokens[..k]) > 0
    ensures Read(tokens) == Err(UnexpectedEnd)
  {
    ReadOutcome(tokens);
  }

  // ---------------------------------------------------------------------------
  // Leftover tokens and the round trip

  /** A read never looks past the form it reads: appending tokens to the stream
      changes only what is left over. */
  lemma {:induction false} ReadAppend(tokens: seq<string>, more: seq<string>)
    ensures Read(tokens).Ok? ==>
      Read(tokens + more) == Ok((Read(tokens).value.0, Read(tokens).value.1 + more))
    decreases |tokens|, 0
  {
    if |tokens| > 0 {
      assert (tokens + more)[0] == tokens[0];
      assert (tokens + more)[1..] == tokens[1..] + more;
      if tokens[0] == "(" {
        ReadItemsAppend(tokens[1..], more);
      }
    }
  }

  lemma {:induction false} ReadItemsAppend(tokens: seq<string>, more: seq<string>)
    ensures ReadItems(tokens).Ok? ==>
      ReadItems(tokens + more) == Ok((ReadItems(tokens).value.0, ReadItems(tokens).value.1 + more))
    decreases |tokens|, 1
  {
    if |tokens| > 0 {
      assert (tokens + more)[0] == tokens[0];
      assert (tokens + more)[1..] == tokens[1..] + more;
      if tokens[0] != ")" {
        ReadAppend(tokens, more);
        if Read(tokens).Ok? {
          ReadItemsAppend(Read(tokens).value.1, more);
        }
      }
    }
  }

  /** The printed form of a well-formed tree never starts with `)`. */
  lemma PrintStart(e: Exp)
    requires WellFormed(e)
    ensures |Print(e)| > 0 && Print(e)[0] != ")"
  {
    if e.Atom? {
      AtomRoundTrip(e.atom);
    }
  }

  /** Reading a printed tree gives the tree back and leaves what followed. */
  lemma {:induction false} ReadPrint(e: Exp, rest: seq<string>)
    requires WellFormed(e)
    ensures Read(Print(e) + rest) == Ok((e, rest))
    decreases e
  {
    match e
    case Atom(a) =>
      AtomRoundTrip(a);
      assert (Print(e) + rest)[1..] == rest;
    case List(items) =>
      var s := Print(e) + rest;
      assert s[1..] == PrintAll(items) + [")"] + rest;
      ReadItemsPrint(items, rest);
  }

  lemma {:induction false} ReadItemsPrint(items: seq<Exp>, rest: seq<string>)
    requires forall i :: 0 <= i < |items| ==> WellFormed(items[i])
    ensures ReadItems(PrintAll(items) + [")"] + rest) == Ok((items, rest))
    decreases items
  {
    var s := PrintAll(items) + [")"] + rest;
    if |items| == 0 {
      assert s == [")"] + rest;
      assert s[1..] == rest;
    } else {
      var tail := PrintAll(items[1..]) + [")"] + rest;
      assert s == Print(items[0]) + tail;
      PrintStart(items[0]);
      ReadPrint(items[0], tail);
      ReadItemsPrint(items[1..], rest);
      assert [items[0]] + items[1..] == items;
    }
  }

  /** Every token of a well-formed tree's printed form is a lone parenthesis or
      a word. */
  lemma {:induction false} PrintTokens(e: Exp)
    requires WellFormed(e)
    ensures AllTokens(Print(e))
    decreases e
  {
    match e
    case Atom(a) =>
      AtomRoundTrip(a);
    case List(items) =>
      PrintAllTokens(items);
  }

  lemma {:induction false} PrintAllTokens(items: seq<Exp>)
    requires forall i :: 0 <= i < |items| ==> WellFormed(items[i])
    ensures AllTokens(PrintAll(items))
    decreases items
  {
    if |items| > 0 {
      PrintTokens(items[0]);
      PrintAllTokens(items[1..]);
    }
  }

  // ---------------------------------------------------------------------------
  // The reader as written

  /** `read_from_tokens` as written: its emptiness test measures `token`,
      which at that point is a local of the function not yet assigned (it is
      first assigned on the next line), so the lookup fails before anything
      is read, whatever the tokens. */
  function ReadAsWritten(tokens: seq<string>): Evaluated<Result<(Exp, seq<string>)>> {
    UnboundName("token")
  }

  /** As written, every read fails on the unbound `token`, including reads of
      a single atom, which the intended reader accepts. */
  lemma ReadAsWrittenFails(tokens: seq<string>)
    ensures ReadAsWritten(tokens) == UnboundName("token")
    ensures |tokens| > 0 && !IsParen(tokens[0]) ==> Read(tokens).Ok?
  {
  }
}
