/** The word-level tokenizer of the stepping elaborator
    (forth-elf/src/parse.ts; forth-elf/src/state.ts carries an identical copy). */
module Parse {
  import opened Outcomes
  import opened Lexing

  /** The instruction alphabet. `Bind` is the `>` token. `>` and `.` carry the
      name announced by a preceding `: name`, if there was one. */
  datatype Tok =
    | TType
    | Bind(name: Option<string>)
    | LParen
    | RParen
    | LBracket
    | RBracket
    | Dot(name: Option<string>)
    | Id(ident: string)

  /** The words that the tokenizer does not turn into an `Id`. */
  predicate IsKeyword(w: string) {
    w in {"type", "(", ")", "[", "]", ":", ">", "."}
  }

  /** The token a word other than `:` becomes, given the pending name. */
  function WordToken(w: string, pending: Option<string>): Tok {
    if w == "type" then TType
    else if w == "(" then LParen
    else if w == ")" then RParen
    else if w == "[" then LBracket
    else if w == "]" then RBracket
    else if w == ">" then Bind(pending)
    else if w == "." then Dot(pending)
    else Id(w)
  }

  /** Whether a word other than `:` consumes the pending name. */
  predicate TakesName(w: string) {
    w == ">" || w == "."
  }

  /** The tokens for the words `w`, given the pending name `pending`
      announced by an earlier `:`. A `:` emits nothing and takes the next word,
      whatever it is, as the pending name; a `:` with no word after it leaves
      no pending name. `>` and `.` consume the pending name. */
  function TokensOf(w: seq<string>, pending: Option<string>): seq<Tok>
    decreases |w|
  {
    if w == [] then []
    else if w[0] == ":" then
      if |w| == 1 then [] else TokensOf(w[2..], Some(w[1]))
    else [WordToken(w[0], pending)] + TokensOf(w[1..], if TakesName(w[0]) then None else pending)
  }

  /** The token list of a word list; no name is pending at the start. */
  function Tokenize(w: seq<string>): seq<Tok> {
    TokensOf(w, None)
  }

  function Drop(w: seq<string>, i: nat): seq<string> {
    if i <= |w| then w[i..] else []
  }

  /** `parse`: split the text into words, then translate word by word with a
      pending name that a `:` sets and a `>` or `.` consumes. */
  method Parse(input: string) returns (out: seq<Tok>)
    ensures out == Tokenize(Words(input))
  {
    var toks := Words(input);
    out := [];
    var name: Option<string> := None;
    var i: nat := 0;
    while i < |toks|
      invariant i <= |toks| + 1
      invariant out + TokensOf(Drop(toks, i), name) == Tokenize(toks)
    {
      var w := toks[i];
      assert Drop(toks, i)[1..] == Drop(toks, i + 1);
      if w == ":" {
        i := i + 1;
        name := if i < |toks| then Some(toks[i]) else None;
        assert i < |toks| ==> Drop(toks, i - 1)[2..] == Drop(toks, i + 1);
      } else {
        out := out + [WordToken(w, name)];
        if TakesName(w) {
          name := None;
        }
      }
      i := i + 1;
    }
  }

  /** The token a word becomes when no `:` is involved. */
  function PlainToken(w: string): Tok {
    WordToken(w, None)
  }

  /** Without a `:`, every word yields exactly one token, in order, and no
      `>` or `.` carries a name. */
  lemma {:induction false} TokenizeWithoutColon(w: seq<string>)
    requires ":" !in w
    ensures |Tokenize(w)| == |w|
    ensures forall k :: 0 <= k < |w| ==> Tokenize(w)[k] == PlainToken(w[k])
  {
    if w != [] {
      assert ":" !in w[1..] by { assert forall k :: 0 <= k < |w[1..]| ==> w[1..][k] == w[k + 1]; }
      TokenizeWithoutColon(w[1..]);
    }
  }

  /** The output never has more tokens than there are words, and it has as
      many exactly when no `:` occurs (each `:` emits nothing). */
  lemma {:induction false} TokenCount(w: seq<string>, pending: Option<string>)
    ensures |TokensOf(w, pending)| <= |w|
    ensures |TokensOf(w, pending)| == |w| <==> ":" !in w
  {
    if w != [] {
      if w[0] == ":" {
        if |w| > 1 {
          TokenCount(w[2..], Some(w[1]));
        }
      } else {
        assert ":" in w[1..] <==> ":" in w by {
          assert w == [w[0]] + w[1..];
        }
        TokenCount(w[1..], if TakesName(w[0]) then None else pending);
      }
    }
  }

  /** The number of words a `:` in command position takes out of the
      token stream: itself and the name after it, or only itself when it is
      the last word. A `:` read as a name is not in command position. */
  function Consumed(w: seq<string>): nat
    decreases |w|
  {
    if w == [] then 0
    else if w[0] == ":" then (if |w| == 1 then 1 else 2 + Consumed(w[2..]))
    else Consumed(w[1..])
  }

  /** Exactly one token per word that neither is a `:` in command position
      nor is the name following one. */
  lemma {:induction false} TokenCountExact(w: seq<string>, pending: Option<string>)
    ensures Consumed(w) <= |w|
    ensures |TokensOf(w, pending)| == |w| - Consumed(w)
    decreases |w|
  {
    if w != [] {
      if w[0] == ":" {
        if |w| > 1 {
          TokenCountExact(w[2..], Some(w[1]));
        }
      } else {
        TokenCountExact(w[1..], if TakesName(w[0]) then None else pending);
      }
    }
  }

  /** Words other than `:`, `>` and `.`, i.e. those that leave the pending
      name alone. */
  predicate Neutral(u: seq<string>) {
    forall k :: 0 <= k < |u| ==> u[k] != ":" && !TakesName(u[k])
  }

  /** A pending name survives any run of neutral words, which become their
      plain tokens; the next `>` or `.` carries it, and after that no name
      is pending. */
  lemma {:induction false} NameSurvives(u: seq<string>, t: string, rest: seq<string>, n: string)
    requires Neutral(u) && TakesName(t)
    ensures TokensOf(u + [t] + rest, Some(n))
         == seq(|u|, k requires 0 <= k < |u| => PlainToken(u[k])) + [WordToken(t, Some(n))] + TokensOf(rest, None)
    decreases |u|
  {
    var plain := seq(|u|, k requires 0 <= k < |u| => PlainToken(u[k]));
    if u == [] {
      assert u + [t] + rest == [t] + rest;
      assert ([t] + rest)[1..] == rest;
      assert plain == [];
    } else {
      var w := u + [t] + rest;
      assert w[0] == u[0] && w[1..] == u[1..] + [t] + rest;
      assert Neutral(u[1..]);
      NameSurvives(u[1..], t, rest, n);
      assert WordToken(u[0], Some(n)) == PlainToken(u[0]);
      assert plain == [PlainToken(u[0])] + seq(|u[1..]|, k requires 0 <= k < |u[1..]| => PlainToken(u[1..][k]));
    }
  }

  /** `: n` followed by neutral words and then `>` or `.`: the name lands on
      that token, whatever was pending before. */
  lemma NamedAfterNeutral(u: seq<string>, t: string, rest: seq<string>, n: string, pending: Option<string>)
    requires Neutral(u) && TakesName(t)
    ensures TokensOf([":", n] + u + [t] + rest, pending)
         == seq(|u|, k requires 0 <= k < |u| => PlainToken(u[k])) + [WordToken(t, Some(n))] + TokensOf(rest, None)
  {
    var w := [":", n] + u + [t] + rest;
    assert w[0] == ":" && w[1] == n && w[2..] == u + [t] + rest;
    NameSurvives(u, t, rest, n);
  }

  /** The words a token is written as: `: n` before a named `>` or `.`. */
  function NamePrefix(n: Option<string>): seq<string> {
    match n
    case None => []
    case Some(x) => [":", x]
  }

  function UnparseTok(t: Tok): seq<string> {
    match t
    case TType => ["type"]
    case Bind(n) => NamePrefix(n) + [">"]
    case LParen => ["("]
    case RParen => [")"]
    case LBracket => ["["]
    case RBracket => ["]"]
    case Dot(n) => NamePrefix(n) + ["."]
    case Id(x) => [x]
  }

  function Unparse(ts: seq<Tok>): seq<string> {
    if ts == [] then [] else UnparseTok(ts[0]) + Unparse(ts[1..])
  }

  /** A token that the tokenizer can produce: identifiers are words that are
      not keywords, and names are words. */
  predicate Producible(t: Tok) {
    match t
    case Id(x) => IsWord(x) && !IsKeyword(x)
    case Bind(n) => n.Some? ==> IsWord(n.value)
    case Dot(n) => n.Some? ==> IsWord(n.value)
    case _ => true
  }

  lemma UnparseTokStep(t: Tok, rest: seq<string>)
    requires Producible(t)
    ensures TokensOf(UnparseTok(t) + rest, None) == [t] + TokensOf(rest, None)
  {
    var w := UnparseTok(t) + rest;
    match t
    case Bind(Some(x)) =>
      assert w[2..] == [">"] + rest;
      assert ([">"] + rest)[1..] == rest;
    case Dot(Some(x)) =>
      assert w[2..] == ["."] + rest;
      assert (["."] + rest)[1..] == rest;
    case _ =>
      assert w[1..] == rest;
  }

  /** Tokenizing the words of a producible token list gives the list back. */
  lemma {:induction false} TokenizeUnparse(ts: seq<Tok>)
    requires forall k :: 0 <= k < |ts| ==> Producible(ts[k])
    ensures Tokenize(Unparse(ts)) == ts
  {
    if ts != [] {
      UnparseTokStep(ts[0], Unparse(ts[1..]));
      TokenizeUnparse(ts[1..]);
    }
  }

  lemma {:induction false} UnparseWords(ts: seq<Tok>)
    requires forall k :: 0 <= k < |ts| ==> Producible(ts[k])
    ensures forall k :: 0 <= k < |Unparse(ts)| ==> IsWord(Unparse(ts)[k])
  {
    if ts != [] {
      UnparseWords(ts[1..]);
      var u := UnparseTok(ts[0]);
      assert forall k :: 0 <= k < |u| ==> IsWord(u[k]);
    }
  }

  /** Round trip through text: writing producible tokens out as words
      separated by spaces and parsing that text gives the tokens back. */
  lemma ParseOfPrinted(ts: seq<Tok>)
    requires forall k :: 0 <= k < |ts| ==> Producible(ts[k])
    ensures Tokenize(Words(Unwords(Unparse(ts)))) == ts
  {
    UnparseWords(ts);
    WordsUnwords(Unparse(ts));
    TokenizeUnparse(ts);
  }
}
