/** The word splitter that every text input of the repository goes through:
    `#` comments are removed up to the end of their line, then the text is
    split at runs of JavaScript `\s` whitespace. */
module Lexing {

  /** JavaScript's `\s` character class. */
  predicate IsSpace(c: char) {
    || c == ' ' || c == '\t' || c == '\n' || c == '\U{B}' || c == '\U{C}' || c == '\r'
    || c == '\U{A0}' || c == '\U{1680}' || ('\U{2000}' <= c <= '\U{200A}')
    || c == '\U{2028}' || c == '\U{2029}' || c == '\U{202F}' || c == '\U{205F}'
    || c == '\U{3000}' || c == '\U{FEFF}'
  }

  /** The characters that end a line for JavaScript's `.` (it matches every other character). */
  predicate IsLineTerminator(c: char) {
    c == '\n' || c == '\r' || c == '\U{2028}' || c == '\U{2029}'
  }

  predicate NoSpace(w: string) {
    forall k :: 0 <= k < |w| ==> !IsSpace(w[k])
  }

  /** A word as the splitter delivers it: non-empty, no whitespace, no `#`. */
  predicate IsWord(w: string) {
    w != [] && NoSpace(w) && '#' !in w
  }

  /** `replace(/#.*\/g, '')`: from each `#` up to, not including, the next line
      terminator. `inComment` says whether a `#` is open. */
  function StripFrom(s: string, inComment: bool): (r: string)
    ensures '#' !in r
    ensures |r| <= |s|
  {
    if s == [] then []
    else if inComment && !IsLineTerminator(s[0]) then StripFrom(s[1..], true)
    else if !inComment && s[0] == '#' then StripFrom(s[1..], true)
    else [s[0]] + StripFrom(s[1..], false)
  }

  function StripComments(s: string): (r: string) {
    StripFrom(s, false)
  }

  lemma {:induction false} StripCommentsNoHash(s: string)
    requires '#' !in s
    ensures StripComments(s) == s
  {
    if s != [] {
      assert '#' !in s[1..] by { assert forall k :: 0 <= k < |s[1..]| ==> s[1..][k] == s[k + 1]; }
      StripCommentsNoHash(s[1..]);
    }
  }

  /** Index of the first whitespace character, or `|s|`. */
  function FirstSpace(s: string): (i: nat)
    ensures i <= |s|
    ensures forall k :: 0 <= k < i ==> !IsSpace(s[k])
    ensures i < |s| ==> IsSpace(s[i])
  {
    if s == [] || IsSpace(s[0]) then 0 else 1 + FirstSpace(s[1..])
  }

  /** Length of the whitespace run that starts `s`. */
  function SpaceRun(s: string): (n: nat)
    ensures n <= |s|
    ensures forall k :: 0 <= k < n ==> IsSpace(s[k])
    ensures n < |s| ==> !IsSpace(s[n])
  {
    if s == [] || !IsSpace(s[0]) then 0 else 1 + SpaceRun(s[1..])
  }

  /** `s.split(/\s+/)`: the pieces between maximal whitespace runs, including
      an empty first piece when `s` starts with whitespace and an empty last
      piece when it ends with whitespace (`"".split(/\s+/)` is `[""]`). */
  function SplitWs(s: string): (r: seq<string>)
    ensures |r| >= 1
    ensures forall k :: 0 <= k < |r| ==> NoSpace(r[k])
    decreases |s|
  {
    var i := FirstSpace(s);
    if i == |s| then [s]
    else [s[..i]] + SplitWs(s[i + SpaceRun(s[i..])..])
  }

  /** `.filter(x => x.length != 0)` */
  function NonEmpty(ws: seq<string>): (r: seq<string>)
    ensures forall k :: 0 <= k < |r| ==> r[k] != []
    ensures |r| <= |ws|
    ensures forall w :: w in r ==> w in ws
  {
    if ws == [] then []
    else if ws[0] == [] then NonEmpty(ws[1..])
    else [ws[0]] + NonEmpty(ws[1..])
  }

  /** The filter works piece by piece: filtering a concatenation filters
      each part, keeping their order. */
  lemma {:induction false} NonEmptyAppend(a: seq<string>, b: seq<string>)
    ensures NonEmpty(a + b) == NonEmpty(a) + NonEmpty(b)
    decreases |a|
  {
    if a == [] {
      assert a + b == b;
    } else {
      assert (a + b)[0] == a[0] && (a + b)[1..] == a[1..] + b;
      NonEmptyAppend(a[1..], b);
    }
  }

  /** On one piece, the filter drops it exactly when it is empty. */
  lemma NonEmptySingle(w: string)
    ensures NonEmpty([w]) == if w == [] then [] else [w]
  {
    assert [w][1..] == [];
  }

  /** Every non-empty piece survives the filter. */
  lemma {:induction false} NonEmptyKeeps(ws: seq<string>, w: string)
    requires w in ws && w != []
    ensures w in NonEmpty(ws)
    decreases |ws|
  {
    if ws[0] != w {
      assert w in ws[1..];
      NonEmptyKeeps(ws[1..], w);
    }
  }

  /** The words of a text: comments stripped, split at whitespace, empty
      pieces dropped. */
  function Words(text: string): (r: seq<string>)
    ensures forall k :: 0 <= k < |r| ==> IsWord(r[k])
  {
    var pieces := SplitWs(StripComments(text));
    assert forall w :: w in pieces ==> NoSpace(w) && '#' !in w by {
      forall w | w in pieces ensures NoSpace(w) && '#' !in w {
        var k :| 0 <= k < |pieces| && pieces[k] == w;
        SplitWsSub(StripComments(text), k);
      }
    }
    var r := NonEmpty(pieces);
    assert forall k :: 0 <= k < |r| ==> r[k] in pieces;
    r
  }

  /** Every piece of `SplitWs(s)` is a slice of `s`, so it holds no character that `s` lacks. */
  lemma {:induction false} SplitWsSub(s: string, k: nat)
    requires k < |SplitWs(s)|
    ensures forall c :: c in SplitWs(s)[k] ==> c in s
    decreases |s|
  {
    var i := FirstSpace(s);
    if i < |s| && k > 0 {
      var rest := s[i + SpaceRun(s[i..])..];
      SplitWsSub(rest, k - 1);
    }
  }

  /** Words joined by single spaces: the inverse of `Words` on proper words. */
  function Unwords(ws: seq<string>): string {
    if ws == [] then []
    else if |ws| == 1 then ws[0]
    else ws[0] + " " + Unwords(ws[1..])
  }

  lemma {:induction false} UnwordsNoHash(ws: seq<string>)
    requires forall k :: 0 <= k < |ws| ==> IsWord(ws[k])
    ensures '#' !in Unwords(ws)
  {
    if |ws| > 1 {
      UnwordsNoHash(ws[1..]);
    }
  }

  lemma {:induction false} SplitUnwords(ws: seq<string>)
    requires ws != []
    requires forall k :: 0 <= k < |ws| ==> IsWord(ws[k])
    ensures SplitWs(Unwords(ws)) == ws
  {
    var w := ws[0];
    if |ws| == 1 {
      assert FirstSpace(w) == |w|;
    } else {
      var rest := Unwords(ws[1..]);
      var s := w + " " + rest;
      assert Unwords(ws) == s;
      assert s == w + (" " + rest);
      FirstSpaceOfWord(w, " " + rest);
      assert FirstSpace(s) == |w|;
      assert s[|w|..] == " " + rest;
      assert rest != [] && !IsSpace(rest[0]) by { UnwordsHead(ws[1..]); }
      assert SpaceRun(s[|w|..]) == 1;
      assert s[|w| + 1..] == rest;
      assert s[..|w|] == w;
      SplitUnwords(ws[1..]);
    }
  }

  lemma {:induction false} FirstSpaceOfWord(w: string, t: string)
    requires NoSpace(w)
    requires t != [] && IsSpace(t[0])
    ensures FirstSpace(w + t) == |w|
    decreases |w|
  {
    if w != [] {
      assert (w + t)[1..] == w[1..] + t;
      FirstSpaceOfWord(w[1..], t);
    }
  }

  lemma UnwordsHead(ws: seq<string>)
    requires ws != [] && IsWord(ws[0])
    ensures Unwords(ws) != [] && Unwords(ws)[0] == ws[0][0]
  {
  }

  lemma {:induction false} NonEmptyOfWords(ws: seq<string>)
    requires forall k :: 0 <= k < |ws| ==> ws[k] != []
    ensures NonEmpty(ws) == ws
  {
    if ws != [] {
      NonEmptyOfWords(ws[1..]);
    }
  }

  /** Splitting words that were joined by spaces gives the words back. */
  lemma WordsUnwords(ws: seq<string>)
    requires forall k :: 0 <= k < |ws| ==> IsWord(ws[k])
    ensures Words(Unwords(ws)) == ws
  {
    UnwordsNoHash(ws);
    StripCommentsNoHash(Unwords(ws));
    if ws == [] {
      assert SplitWs([]) == [[]];
    } else {
      SplitUnwords(ws);
      NonEmptyOfWords(ws);
    }
  }
}
