/** Which configuration texts the tokenizer refuses, and what it makes of all others. */
module TokenLaws {
  import opened Wrappers
  import opened ConfigText

  /** A word of the text, and whether the line it stands on ends in ";". */
  datatype Word = Word(text: string, closed: bool)

  /** The words of a line from position `last` on, up to the first that begins with "#". */
  function LineWords(line: string, last: nat, closed: bool): seq<Word>
    requires last <= |line|
    decreases |line| - last
  {
    var first := NextWord(line, last);
    if first == |line| || line[first] == '#' then []
    else
      var end := NextBlank(line, first);
      [Word(line[first..end], closed)] + LineWords(line, end, closed)
  }

  /** The words of all lines. */
  function TextWords(text: string): seq<Word>
    decreases |text|
  {
    if text == "" then []
    else
      var (line, rest) := FirstLine(text);
      LineWords(line, 0, ClosesLine(line)) + TextWords(rest)
  }

  /** The last character that is neither a space nor a tab is ";". */
  predicate ClosesLine(line: string) {
    exists k :: 0 <= k < |line| && line[k] == ';' && forall j :: k < j < |line| ==> line[j] in " \t"
  }

  lemma {:induction false} ClosesIs(line: string)
    ensures ClosesLine(line) <==> EndsInSemicolon(line)
    decreases |line|
  {
    if line != "" {
      var n := |line| - 1;
      BlankIs(line[n]);
      if IsBlank(line[n]) {
        ClosesIs(line[..n]);
        if ClosesLine(line) {
          var k :| 0 <= k < |line| && line[k] == ';' && forall j :: k < j < |line| ==> line[j] in " \t";
          assert k != n;
          assert line[..n][k] == ';' && forall j :: k < j < n ==> line[..n][j] in " \t";
        }
        if ClosesLine(line[..n]) {
          var k :| 0 <= k < n && line[..n][k] == ';' && forall j :: k < j < n ==> line[..n][j] in " \t";
          assert line[k] == ';' && forall j :: k < j < |line| ==> line[j] in " \t";
        }
      } else if ClosesLine(line) {
        var k :| 0 <= k < |line| && line[k] == ';' && forall j :: k < j < |line| ==> line[j] in " \t";
        assert k == n;
      }
    }
  }

  lemma BlankIs(c: char)
    ensures c in " \t" <==> IsBlank(c)
  {
    var s := " \t";
    assert s[0] == ' ' && s[1] == '\t';
  }

  /** How often a word stands among the first n. */
  function Count(words: seq<Word>, text: string): nat {
    if words == [] then 0
    else Count(words[..|words| - 1], text) + if words[|words| - 1].text == text then 1 else 0
  }

  /** A closing brace without its opening one, or a directive on a line that nothing closes. */
  predicate Wrong(words: seq<Word>, depth: nat, k: nat)
    requires k < |words|
  {
    var w := words[k];
    || (w.text == "}" && Count(words[..k + 1], "}") > Count(words[..k + 1], "{") + depth)
    || (!w.closed && (w.text == "listen" || w.text == "root" || w.text == "methods" || w.text == "index"
                      || w.text == "server_name" || w.text == "client_max_body_size"))
  }

  /** The tokens of a word: a ";" at its end is one of its own. */
  function TokensOfWord(w: string): seq<string> {
    if w != "" && w[|w| - 1] == ';' then [w[..|w| - 1], ";"] else [w]
  }

  function TokensOfWords(words: seq<Word>): seq<string> {
    if words == [] then [] else TokensOfWords(words[..|words| - 1]) + TokensOfWord(words[|words| - 1].text)
  }

  // ---------------------------------------------------------------- one by one

  /** The scan over words: as the loops make it. */
  function Run(words: seq<Word>, depth: nat): Scan
    decreases |words|
  {
    if words == [] then Some(([], depth))
    else if Refused(words[0].text, words[0].closed, depth) then None
    else Behind(Split(words[0].text), Run(words[1..], Depth(words[0].text, depth)))
  }

  lemma {:induction false} LineRun(line: string, last: nat, depth: nat)
    requires last <= |line|
    ensures LineTokens(line, last, depth) == Run(LineWords(line, last, EndsInSemicolon(line)), depth)
    decreases |line| - last
  {
    hide Refused, EndsInSemicolon, Split;
    var first := NextWord(line, last);
    if first < |line| && line[first] != '#' {
      var end := NextBlank(line, first);
      var words := LineWords(line, last, EndsInSemicolon(line));
      assert words[1..] == LineWords(line, end, EndsInSemicolon(line));
      if !Refused(line[first..end], EndsInSemicolon(line), depth) {
        NotBelow(line[first..end], EndsInSemicolon(line), depth);
        LineRun(line, end, Depth(line[first..end], depth));
      }
    }
  }

  lemma NotBelow(word: string, closed: bool, depth: nat)
    requires !Refused(word, closed, depth)
    ensures word == "}" ==> depth > 0
  {
  }

  lemma {:induction false} RunAppend(a: seq<Word>, b: seq<Word>, depth: nat)
    ensures Run(a + b, depth) ==
      match Run(a, depth)
      case None => None
      case Some((tokens, d)) => Behind(tokens, Run(b, d))
    decreases |a|
  {
    hide Refused, Split;
    if a == [] {
      assert a + b == b;
      var r := Run(b, depth);
      if r.Some? { assert [] + r.value.0 == r.value.0; }
    } else {
      assert (a + b)[1..] == a[1..] + b && (a + b)[0] == a[0];
      if !Refused(a[0].text, a[0].closed, depth) {
        NotBelow(a[0].text, a[0].closed, depth);
        RunAppend(a[1..], b, Depth(a[0].text, depth));
        var r := Run(a[1..], Depth(a[0].text, depth));
        if r.Some? { BehindTwice(Split(a[0].text), r.value.0, Run(b, r.value.1)); }
      }
    }
  }

  lemma {:induction false} TextRun(text: string, depth: nat)
    ensures TextTokens(text, depth) == Run(TextWords(text), depth)
    decreases |text|
  {
    hide Run, LineTokens, LineWords, EndsInSemicolon, ClosesLine;
    if text == "" {
      EmptyRun(depth);
    } else {
      var (line, rest) := FirstLine(text);
      ClosesIs(line);
      LineRun(line, 0, depth);
      RunAppend(LineWords(line, 0, ClosesLine(line)), TextWords(rest), depth);
      var scan := LineTokens(line, 0, depth);
      if scan.Some? { TextRun(rest, scan.value.1); }
    }
  }

  lemma EmptyRun(depth: nat)
    ensures Run([], depth) == Some(([], depth))
  {
  }

  lemma CountSnoc(words: seq<Word>, w: Word, text: string)
    ensures Count(words + [w], text) == Count(words, text) + if w.text == text then 1 else 0
  {
    assert (words + [w])[..|words + [w]| - 1] == words;
  }

  lemma WrongEarlier(front: seq<Word>, w: Word, depth: nat, k: nat)
    requires k < |front|
    ensures Wrong(front + [w], depth, k) == Wrong(front, depth, k)
  {
    assert (front + [w])[..k + 1] == front[..k + 1];
  }

  /** The scan fails exactly when some word is wrong; else it gives the tokens of all words and the number
      of braces that are open. */
  lemma {:induction false} RunLaw(words: seq<Word>, depth: nat)
    ensures Run(words, depth).None? <==> exists k :: 0 <= k < |words| && Wrong(words, depth, k)
    ensures Run(words, depth).Some? ==>
      && Run(words, depth).value.0 == TokensOfWords(words)
      && Run(words, depth).value.1 == depth + Count(words, "{") - Count(words, "}")
    decreases |words|
  {
    hide Wrong, Run, Count, TokensOfWord;
    if words == [] {
      EmptyRun(depth);
      NoneCounted();
    } else {
      var front, w := words[..|words| - 1], words[|words| - 1];
      assert words == front + [w];
      RunLaw(front, depth);
      RunAppend(front, [w], depth);
      forall k | 0 <= k < |front| ensures Wrong(words, depth, k) == Wrong(front, depth, k) {
        WrongEarlier(front, w, depth, k);
      }
      CountSnoc(front, w, "{");
      CountSnoc(front, w, "}");
      if Run(front, depth).Some? {
        LastOne(front, w, depth, Run(front, depth).value.1);
      } else {
        var k :| 0 <= k < |front| && Wrong(front, depth, k);
        assert Wrong(words, depth, k);
      }
    }
  }

  lemma NoneCounted()
    ensures Count([], "{") == 0 && Count([], "}") == 0 && TokensOfWords([]) == []
  {
  }

  lemma LastOne(front: seq<Word>, w: Word, depth: nat, d: nat)
    requires d == depth + Count(front, "{") - Count(front, "}")
    ensures Run([w], d).None? <==> Wrong(front + [w], depth, |front|)
    ensures Run([w], d).Some? ==>
      Run([w], d).value == (TokensOfWord(w.text),
          d + (if w.text == "{" then 1 else 0) - (if w.text == "}" then 1 else 0))
  {
    hide Count, IsStrict, Run, TokensOfWord;
    CountSnoc(front, w, "{");
    CountSnoc(front, w, "}");
    assert (front + [w])[..|front| + 1] == front + [w] && (front + [w])[|front|] == w;
    StrictIs(w.text);
    RunOne(w, d);
  }

  lemma RunOne(w: Word, d: nat)
    ensures Run([w], d).None? <==> Refused(w.text, w.closed, d)
    ensures Run([w], d).Some? ==>
      Run([w], d).value == (TokensOfWord(w.text),
          d + (if w.text == "{" then 1 else 0) - (if w.text == "}" then 1 else 0))
  {
    hide IsStrict;
    assert [w][1..] == [];
    if !Refused(w.text, w.closed, d) {
      EmptyRun(Depth(w.text, d));
      assert Split(w.text) + [] == Split(w.text);
    }
  }

  lemma StrictIs(word: string)
    ensures IsStrict(word) && word != "location" <==>
      word == "listen" || word == "root" || word == "methods" || word == "index"
      || word == "server_name" || word == "client_max_body_size"
  {
  }

  /** A text is refused exactly when a closing brace has no opening one before it, or one of six
      directives stands on a line that does not end in ";".  Any other gives the tokens of its words. */
  lemma TextLaw(text: string)
    ensures TextTokens(text, 0).None? <==> exists k :: 0 <= k < |TextWords(text)| && Wrong(TextWords(text), 0, k)
    ensures TextTokens(text, 0).Some? ==> TextTokens(text, 0).value.0 == TokensOfWords(TextWords(text))
  {
    hide Wrong, Run, TextTokens, TextWords;
    TextRun(text, 0);
    RunLaw(TextWords(text), 0);
  }
}
