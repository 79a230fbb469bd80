/** The tokenizer of configuration files, and the text that a configuration tree prints. */
module ConfigText {
  import opened Wrappers
  import opened Text
  import opened ConfigSpec

  // -------------------------------------------------------------- tokenizer

  predicate IsBlank(c: char) { c == ' ' || c == '\t' }

  /** find_first_not_of(" \t") and find_first_of(" \t"), with |s| for npos. */
  function NextWord(s: string, i: nat): (k: nat)
    requires i <= |s|
    ensures i <= k <= |s| && (k < |s| ==> !IsBlank(s[k]))
    ensures forall j :: i <= j < k ==> IsBlank(s[j])
    decreases |s| - i
  {
    if i == |s| || !IsBlank(s[i]) then i else NextWord(s, i + 1)
  }

  function NextBlank(s: string, i: nat): (k: nat)
    requires i <= |s|
    ensures i <= k <= |s| && (k < |s| ==> IsBlank(s[k]))
    ensures forall j :: i <= j < k ==> !IsBlank(s[j])
    decreases |s| - i
  {
    if i == |s| || IsBlank(s[i]) then i else NextBlank(s, i + 1)
  }

  /** The last character that is no blank is ";". */
  predicate EndsInSemicolon(line: string) {
    if line == "" then false
    else if IsBlank(line[|line| - 1]) then EndsInSemicolon(line[..|line| - 1])
    else line[|line| - 1] == ';'
  }

  /** Config::isValidDirective, which knows fewer words than the one of ServerConfig. */
  predicate IsStrict(word: string) {
    word in {"listen", "location", "root", "methods", "index", "server_name", "client_max_body_size"}
  }

  /** A word that ends in ";" gives two tokens. */
  function Split(word: string): seq<string> {
    if EndsIn(word, ';') then [word[..|word| - 1], ";"] else [word]
  }

  /** Tokens, and the number of open braces; None is an exception. */
  type Scan = Option<(seq<string>, nat)>

  function Behind(first: seq<string>, rest: Scan): Scan {
    if rest.None? then None else Some((first + rest.value.0, rest.value.1))
  }

  predicate Refused(word: string, closed: bool, depth: nat) {
    (word == "}" && depth == 0) || (IsStrict(word) && !closed && word != "location")
  }

  function Depth(word: string, depth: nat): nat
    requires word == "}" ==> depth > 0
  {
    if word == "{" then depth + 1 else if word == "}" then depth - 1 else depth
  }

  /** The tokens of a line from position `last` on. */
  function LineTokens(line: string, last: nat, depth: nat): Scan
    requires last <= |line|
    decreases |line| - last
  {
    var first := NextWord(line, last);
    if first == |line| || line[first] == '#' then Some(([], depth))
    else
      var end := NextBlank(line, first);
      var word := line[first..end];
      if Refused(word, EndsInSemicolon(line), depth) then None
      else Behind(Split(word), LineTokens(line, end, Depth(word, depth)))
  }

  /** The first line of a text, and the text behind it. */
  function FirstLine(text: string): (string, string) {
    var k := IndexOf(text, '\n');
    if k == |text| then (text, "") else (text[..k], text[k + 1..])
  }

  /** The tokens of a whole text. */
  function TextTokens(text: string, depth: nat): Scan
    decreases |text|
  {
    if text == "" then Some(([], depth))
    else
      var (line, rest) := FirstLine(text);
      var scan := LineTokens(line, 0, depth);
      if scan.None? then None else Behind(scan.value.0, TextTokens(rest, scan.value.1))
  }

  // --------------------------------------------------------------- printing

  /** How one line is laid out: the blank and comment lines above it, and the blanks before its first
      word, between words and at its end. */
  datatype Layout = Layout(above: seq<string>, indent: string, gap: string, trail: string)

  predicate AllBlank(s: string) { forall i :: 0 <= i < |s| ==> IsBlank(s[i]) }

  /** Blanks, and a comment behind them or nothing. */
  predicate IsFiller(line: string) {
    '\n' !in line && exists k :: 0 <= k <= |line| && AllBlank(line[..k]) && (k < |line| ==> line[k] == '#')
  }

  predicate AreFillers(lines: seq<string>) { forall i :: 0 <= i < |lines| ==> IsFiller(lines[i]) }

  predicate IsLayout(l: Layout) {
    AreFillers(l.above) && AllBlank(l.indent) && AllBlank(l.gap) && l.gap != "" && AllBlank(l.trail)
  }

  predicate AreLayouts(ls: seq<Layout>) { forall i :: 0 <= i < |ls| ==> IsLayout(ls[i]) }

  predicate NoBlank(s: string) { forall i :: 0 <= i < |s| ==> !IsBlank(s[i]) && s[i] != '\n' }

  /** A value that stands for itself in a configuration file. */
  predicate IsWord(w: string) {
    && w != "" && NoBlank(w) && w[0] != '#' && !EndsIn(w, ';') && w != "{" && w != "}"
  }

  predicate AreWords(ws: seq<string>) { forall i :: 0 <= i < |ws| ==> IsWord(ws[i]) }

  function Join(words: seq<string>, gap: string): string
    requires words != []
  {
    if |words| == 1 then words[0] else words[0] + gap + Join(words[1..], gap)
  }

  function PrintFillers(lines: seq<string>): string {
    if lines == [] then "" else lines[0] + "\n" + PrintFillers(lines[1..])
  }

  function PrintLine(words: seq<string>, end: string, l: Layout): string
    requires words != []
  {
    PrintFillers(l.above) + (l.indent + Join(words, l.gap) + end + l.trail + "\n")
  }

  /** A directive whose words can be printed. */
  predicate Printable(d: Directive)
    decreases d, 0
  {
    match d
    case Location(uri, body) => IsWord(uri) && (IsStrict(uri) ==> uri == "location") && AllPrintable(body)
    case Methods(names) => AreWords(names)
    case Other(words) => words != [] && AreWords(words)
    case _ => AreWords(Words(d))
  }

  predicate AllPrintable(ds: seq<Directive>)
    decreases ds, 1
  {
    ds == [] || (Printable(ds[0]) && AllPrintable(ds[1..]))
  }

  /** How many lines a directive takes, each with a layout of its own. */
  function Lines(d: Directive): nat
    decreases d, 0
  {
    if d.Location? then LinesOf(d.body) + 2 else 1
  }

  function LinesOf(ds: seq<Directive>): nat
    decreases ds, 1
  {
    if ds == [] then 0 else Lines(ds[0]) + LinesOf(ds[1..])
  }

  function LinesOfServers(trees: seq<seq<Directive>>): nat {
    if trees == [] then 0 else LinesOf(trees[0]) + 2 + LinesOfServers(trees[1..])
  }

  function Print(d: Directive, ls: seq<Layout>): string
    requires Printable(d) && |ls| == Lines(d)
    decreases d, 0
  {
    if d.Location? then
      PrintLine(["location", d.uri, "{"], "", ls[0])
        + PrintAll(d.body, ls[1..|ls| - 1]) + PrintLine(["}"], "", ls[|ls| - 1])
    else PrintLine(Words(d), ";", ls[0])
  }

  function PrintAll(ds: seq<Directive>, ls: seq<Layout>): string
    requires AllPrintable(ds) && |ls| == LinesOf(ds)
    decreases ds, 1
  {
    if ds == [] then "" else Print(ds[0], ls[..Lines(ds[0])]) + PrintAll(ds[1..], ls[Lines(ds[0])..])
  }

  function PrintServer(tree: seq<Directive>, ls: seq<Layout>): string
    requires AllPrintable(tree) && |ls| == LinesOf(tree) + 2
  {
    PrintLine(["server", "{"], "", ls[0]) + PrintAll(tree, ls[1..|ls| - 1]) + PrintLine(["}"], "", ls[|ls| - 1])
  }

  /** The servers, and the blank and comment lines below them. */
  function PrintServers(trees: seq<seq<Directive>>, ls: seq<Layout>, below: seq<string>): string
    requires (forall k :: 0 <= k < |trees| ==> AllPrintable(trees[k])) && |ls| == LinesOfServers(trees)
  {
    if trees == [] then PrintFillers(below)
    else
      var n := LinesOf(trees[0]) + 2;
      PrintServer(trees[0], ls[..n]) + PrintServers(trees[1..], ls[n..], below)
  }

  // ------------------------------------------------------- words of a line

  /** One word of a line: blanks, the word, and then a blank or the end. */
  lemma OneWord(line: string, last: nat, blanks: string, word: string, rest: string, depth: nat)
    requires last <= |line| && line[last..] == blanks + word + rest
    requires AllBlank(blanks) && word != "" && NoBlank(word) && word[0] != '#'
    requires rest == "" || IsBlank(rest[0])
    ensures
      var end := last + |blanks| + |word|;
      && end <= |line| && line[end..] == rest
      && LineTokens(line, last, depth) ==
           if Refused(word, EndsInSemicolon(line), depth) then None
           else Behind(Split(word), LineTokens(line, end, Depth(word, depth)))
  {
    hide IsStrict, EndsInSemicolon, Split, Behind;
    WordSpan(line, last, blanks, word, rest);
  }

  lemma WordSpan(line: string, last: nat, blanks: string, word: string, rest: string)
    requires last <= |line| && line[last..] == blanks + word + rest
    requires AllBlank(blanks) && word != "" && NoBlank(word)
    requires rest == "" || IsBlank(rest[0])
    ensures
      var first, end := last + |blanks|, last + |blanks| + |word|;
      && end <= |line| && line[end..] == rest && line[first..end] == word && line[first] == word[0]
      && NextWord(line, last) == first && NextBlank(line, first) == end
  {
    var first, end := last + |blanks|, last + |blanks| + |word|;
    var s := line[last..];
    assert |s| == |line| - last;
    assert forall j :: last <= j < |line| ==> line[j] == s[j - last];
    assert forall j :: last <= j < first ==> line[j] == blanks[j - last];
    assert forall j :: first <= j < end ==> line[j] == word[j - first];
    assert rest != "" ==> line[end] == rest[0];
    NextWordIs(line, last, first);
    NextBlankIs(line, first, end);
    assert line[end..] == s[|blanks| + |word|..] == rest;
  }

  lemma NextWordIs(s: string, i: nat, k: nat)
    requires i <= k < |s| && !IsBlank(s[k]) && forall j :: i <= j < k ==> IsBlank(s[j])
    ensures NextWord(s, i) == k
  {
    var n := NextWord(s, i);
    assert n == |s| || !IsBlank(s[n]);
  }

  lemma NextBlankIs(s: string, i: nat, k: nat)
    requires i <= k <= |s| && (k < |s| ==> IsBlank(s[k])) && forall j :: i <= j < k ==> !IsBlank(s[j])
    ensures NextBlank(s, i) == k
  {
    var n := NextBlank(s, i);
    assert n == |s| || IsBlank(s[n]);
  }

  /** Blanks, or blanks and a comment, have no words. */
  lemma NoWords(line: string, last: nat, depth: nat)
    requires last <= |line|
    requires exists k :: last <= k <= |line| && AllBlank(line[last..k]) && (k < |line| ==> line[k] == '#')
    ensures LineTokens(line, last, depth) == Some(([], depth))
  {
    var k :| last <= k <= |line| && AllBlank(line[last..k]) && (k < |line| ==> line[k] == '#');
    assert forall j :: last <= j < k ==> line[j] == line[last..k][j - last];
    if k < |line| { NextWordIs(line, last, k); }
  }

  lemma NoWordsInTrail(line: string, last: nat, trail: string, depth: nat)
    requires last <= |line| && line[last..] == trail && AllBlank(trail)
    ensures LineTokens(line, last, depth) == Some(([], depth))
  {
    assert line[last..|line|] == trail;
    NoWords(line, last, depth);
  }

  /** The words of a line that ends in ";". */
  lemma {:induction false} ClosedWords(line: string, last: nat, blanks: string, words: seq<string>, gap: string,
      trail: string, depth: nat)
    requires words != [] && AreWords(words) && AllBlank(blanks) && AllBlank(gap) && gap != "" && AllBlank(trail)
    requires last <= |line| && line[last..] == blanks + Join(words, gap) + ";" + trail && EndsInSemicolon(line)
    ensures LineTokens(line, last, depth) == Some((words + [";"], depth))
    decreases |words|
  {
    hide LineTokens, IsStrict, EndsInSemicolon;
    if |words| == 1 {
      LastWord(line, last, blanks, words[0], trail, depth);
      assert [words[0], ";"] == words + [";"];
    } else {
      var rest := gap + Join(words[1..], gap) + ";" + trail;
      assert line[last..] == blanks + words[0] + rest;
      assert rest[0] == gap[0];
      OneWord(line, last, blanks, words[0], rest, depth);
      ClosedWords(line, last + |blanks| + |words[0]|, gap, words[1..], gap, trail, depth);
      assert [words[0]] + (words[1..] + [";"]) == words + [";"];
    }
  }

  lemma LastWord(line: string, last: nat, blanks: string, last': string, trail: string, depth: nat)
    requires IsWord(last') && AllBlank(blanks) && AllBlank(trail)
    requires last <= |line| && line[last..] == blanks + last' + ";" + trail && EndsInSemicolon(line)
    ensures LineTokens(line, last, depth) == Some(([last', ";"], depth))
  {
    hide LineTokens, IsStrict, EndsInSemicolon;
    var word := last' + ";";
    assert line[last..] == blanks + word + trail;
    OneWord(line, last, blanks, word, trail, depth);
    assert EndsIn(word, ';') && word[..|word| - 1] == last';
    assert word != "}" && word != "{";
    NoWordsInTrail(line, last + |blanks| + |word|, trail, depth);
    NotStrict(word);
    assert [last', ";"] + [] == [last', ";"];
  }

  lemma NotStrict(word: string)
    requires EndsIn(word, ';')
    ensures !IsStrict(word)
  {
  }

  lemma {:induction false} ClosedLine(line: string, trail: string)
    requires EndsIn(line, ';') && AllBlank(trail)
    ensures EndsInSemicolon(line + trail)
    decreases |trail|
  {
    if trail == "" {
      assert line + trail == line;
    } else {
      var n := |trail| - 1;
      assert (line + trail)[..|line + trail| - 1] == line + trail[..n];
      ClosedLine(line, trail[..n]);
    }
  }

  lemma {:induction false} FirstLineOf(line: string, rest: string)
    requires '\n' !in line
    ensures FirstLine(line + "\n" + rest) == (line, rest)
  {
    var text := line + "\n" + rest;
    assert forall j :: 0 <= j < |line| ==> text[j] == line[j];
    IndexOfIs(text, '\n', 0, |line|);
    assert text[..|line|] == line && text[|line| + 1..] == rest;
  }

  lemma {:induction false} NoNewline(words: seq<string>, gap: string)
    requires words != [] && (forall i :: 0 <= i < |words| ==> NoBlank(words[i])) && AllBlank(gap)
    ensures '\n' !in Join(words, gap)
  {
    if |words| > 1 { NoNewline(words[1..], gap); }
  }

  lemma {:induction false} FillersVanish(lines: seq<string>, rest: string, depth: nat)
    requires AreFillers(lines)
    ensures TextTokens(PrintFillers(lines) + rest, depth) == TextTokens(rest, depth)
    decreases |lines|
  {
    hide TextTokens;
    if lines == [] {
      assert "" + rest == rest;
    } else {
      var line, tail := lines[0], PrintFillers(lines[1..]) + rest;
      assert PrintFillers(lines) + rest == line + "\n" + tail;
      var k :| 0 <= k <= |line| && AllBlank(line[..k]) && (k < |line| ==> line[k] == '#');
      assert line[0..k] == line[..k];
      NoWords(line, 0, depth);
      LineRead(line, tail, depth);
      FillersVanish(lines[1..], rest, depth);
      var scan := TextTokens(tail, depth);
      if scan.Some? { assert [] + scan.value.0 == scan.value.0; }
    }
  }

  lemma LineRead(line: string, rest: string, depth: nat)
    requires '\n' !in line && LineTokens(line, 0, depth).Some?
    ensures
      var scan := LineTokens(line, 0, depth).value;
      TextTokens(line + "\n" + rest, depth) == Behind(scan.0, TextTokens(rest, scan.1))
  {
    FirstLineOf(line, rest);
  }

  lemma PrintedLine(words: seq<string>, end: string, l: Layout, rest: string, depth: nat)
    requires words != [] && IsLayout(l)
    ensures
      var line := l.indent + Join(words, l.gap) + end + l.trail;
      TextTokens(PrintLine(words, end, l) + rest, depth) == TextTokens(line + "\n" + rest, depth)
  {
    hide TextTokens;
    var line := l.indent + Join(words, l.gap) + end + l.trail;
    assert PrintLine(words, end, l) + rest == PrintFillers(l.above) + (line + "\n" + rest);
    FillersVanish(l.above, line + "\n" + rest, depth);
  }

  /** A directive's line gives its tokens. */
  lemma DirectiveLine(words: seq<string>, l: Layout, rest: string, depth: nat)
    requires words != [] && AreWords(words) && IsLayout(l)
    ensures TextTokens(PrintLine(words, ";", l) + rest, depth) == Behind(words + [";"], TextTokens(rest, depth))
  {
    hide TextTokens, LineTokens, PrintLine;
    var front := l.indent + Join(words, l.gap) + ";";
    var line := front + l.trail;
    PrintedLine(words, ";", l, rest, depth);
    NoNewline(words, l.gap);
    ClosedLine(front, l.trail);
    assert line[0..] == line;
    ClosedWords(line, 0, l.indent, words, l.gap, l.trail, depth);
    LineRead(line, rest, depth);
  }

  /** The words of a line that opens a block: none but "location" may be a strict directive. */
  predicate IsOpening(w: string) {
    IsWord(w) && (IsStrict(w) ==> w == "location")
  }

  lemma {:induction false} OpeningWords(line: string, last: nat, blanks: string, words: seq<string>, gap: string,
      trail: string, depth: nat)
    requires (forall i :: 0 <= i < |words| ==> IsOpening(words[i]))
    requires AllBlank(blanks) && AllBlank(gap) && gap != "" && AllBlank(trail)
    requires last <= |line| && line[last..] == blanks + Join(words + ["{"], gap) + trail
    ensures LineTokens(line, last, depth) == Some((words + ["{"], depth + 1))
    decreases |words|
  {
    hide LineTokens, IsStrict, EndsInSemicolon;
    if words == [] {
      assert line[last..] == blanks + "{" + trail;
      LoneWord(line, last, blanks, "{", trail, depth);
      assert words + ["{"] == ["{"];
    } else {
      var others := Join(words[1..] + ["{"], gap) + trail;
      assert (words + ["{"])[1..] == words[1..] + ["{"];
      assert line[last..] == blanks + words[0] + (gap + others);
      OneWord(line, last, blanks, words[0], gap + others, depth);
      OpeningWords(line, last + |blanks| + |words[0]|, gap, words[1..], gap, trail, depth);
      assert [words[0]] + (words[1..] + ["{"]) == words + ["{"];
    }
  }

  /** A brace as the last word of a line. */
  lemma LoneWord(line: string, last: nat, blanks: string, word: string, trail: string, depth: nat)
    requires (word == "{" || (word == "}" && depth > 0)) && AllBlank(blanks) && AllBlank(trail)
    requires last <= |line| && line[last..] == blanks + word + trail
    ensures LineTokens(line, last, depth) == Some(([word], Depth(word, depth)))
  {
    hide LineTokens, EndsInSemicolon;
    OneWord(line, last, blanks, word, trail, depth);
    NoWordsInTrail(line, last + |blanks| + |word|, trail, Depth(word, depth));
    assert Split(word) == [word] && !IsStrict(word);
    assert [word] + [] == [word];
  }

  lemma OpeningLine(words: seq<string>, l: Layout, rest: string, depth: nat)
    requires (forall i :: 0 <= i < |words| ==> IsOpening(words[i])) && IsLayout(l)
    ensures TextTokens(PrintLine(words + ["{"], "", l) + rest, depth)
         == Behind(words + ["{"], TextTokens(rest, depth + 1))
  {
    hide TextTokens, LineTokens, PrintLine, IsStrict;
    var all := words + ["{"];
    var line := l.indent + Join(all, l.gap) + "" + l.trail;
    PrintedLine(all, "", l, rest, depth);
    NoNewline(all, l.gap);
    assert line[0..] == l.indent + Join(all, l.gap) + l.trail;
    OpeningWords(line, 0, l.indent, words, l.gap, l.trail, depth);
    LineRead(line, rest, depth);
  }

  lemma ClosingLine(l: Layout, rest: string, depth: nat)
    requires IsLayout(l) && depth > 0
    ensures TextTokens(PrintLine(["}"], "", l) + rest, depth) == Behind(["}"], TextTokens(rest, depth - 1))
  {
    hide TextTokens, LineTokens, PrintLine;
    var line := l.indent + Join(["}"], l.gap) + "" + l.trail;
    PrintedLine(["}"], "", l, rest, depth);
    assert line[0..] == l.indent + "}" + l.trail;
    LoneWord(line, 0, l.indent, "}", l.trail, depth);
    LineRead(line, rest, depth);
  }

  // ------------------------------------------------------------ whole trees

  lemma BehindTwice(a: seq<string>, b: seq<string>, s: Scan)
    ensures Behind(a, Behind(b, s)) == Behind(a + b, s)
  {
    if s.Some? { assert a + (b + s.value.0) == a + b + s.value.0; }
  }

  lemma {:induction false} CommaWords(names: seq<string>)
    requires AreWords(names)
    ensures AreWords(CommaList(names))
  {
    if |names| > 1 {
      CommaWords(names[1..]);
      assert IsWord(names[0] + ",") by {
        assert EndsIn(names[0] + ",", ',');
      }
    }
  }

  /** The names of the directives are words themselves. */
  lemma WordsPrintable(d: Directive)
    requires Printable(d) && !d.Location?
    ensures Words(d) != [] && AreWords(Words(d))
  {
    if d.Methods? {
      CommaWords(d.names);
      assert IsWord("methods");
    }
  }

  lemma {:induction false} ScanOne(d: Directive, ls: seq<Layout>, rest: string, depth: nat)
    requires Printable(d) && |ls| == Lines(d) && AreLayouts(ls)
    ensures TextTokens(Print(d, ls) + rest, depth) == Behind(Tokens(d), TextTokens(rest, depth))
    decreases d, 0
  {
    hide TextTokens, PrintLine, IsStrict, IsLayout;
    if d.Location? {
      var l, inner, m := ls[0], ls[1..|ls| - 1], ls[|ls| - 1];
      var head := PrintLine(["location", d.uri, "{"], "", l);
      var body, foot := PrintAll(d.body, inner), PrintLine(["}"], "", m);
      assert Print(d, ls) + rest == head + (body + (foot + rest));
      assert ["location", d.uri] + ["{"] == ["location", d.uri, "{"];
      assert IsOpening("location");
      OpeningLine(["location", d.uri], l, body + (foot + rest), depth);
      ScanAll(d.body, inner, foot + rest, depth + 1);
      ClosingLine(m, rest, depth + 1);
      var scan := TextTokens(rest, depth);
      BehindTwice(TokensOf(d.body), ["}"], scan);
      BehindTwice(["location", d.uri, "{"], TokensOf(d.body) + ["}"], scan);
      assert ["location", d.uri, "{"] + (TokensOf(d.body) + ["}"]) == Tokens(d);
    } else {
      WordsPrintable(d);
      DirectiveLine(Words(d), ls[0], rest, depth);
    }
  }

  /** Tokenizing a printed block gives its tokens and leaves the braces balanced. */
  lemma {:induction false} ScanAll(ds: seq<Directive>, ls: seq<Layout>, rest: string, depth: nat)
    requires AllPrintable(ds) && |ls| == LinesOf(ds) && AreLayouts(ls)
    ensures TextTokens(PrintAll(ds, ls) + rest, depth) == Behind(TokensOf(ds), TextTokens(rest, depth))
    decreases ds, 1
  {
    hide TextTokens, Print, Tokens, IsLayout;
    var scan := TextTokens(rest, depth);
    if ds == [] {
      assert "" + rest == rest;
      assert Behind([], scan) == scan by { if scan.Some? { assert [] + scan.value.0 == scan.value.0; } }
    } else {
      var n := Lines(ds[0]);
      assert PrintAll(ds, ls) + rest == Print(ds[0], ls[..n]) + (PrintAll(ds[1..], ls[n..]) + rest);
      ScanOne(ds[0], ls[..n], PrintAll(ds[1..], ls[n..]) + rest, depth);
      ScanAll(ds[1..], ls[n..], rest, depth);
      BehindTwice(Tokens(ds[0]), TokensOf(ds[1..]), scan);
    }
  }

  lemma ScanServer(tree: seq<Directive>, ls: seq<Layout>, rest: string)
    requires AllPrintable(tree) && |ls| == LinesOf(tree) + 2 && AreLayouts(ls)
    ensures TextTokens(PrintServer(tree, ls) + rest, 0)
         == Behind(["server", "{"] + TokensOf(tree) + ["}"], TextTokens(rest, 0))
  {
    hide TextTokens, PrintLine, PrintAll, TokensOf, IsStrict, IsLayout;
    var l, inner, m := ls[0], ls[1..|ls| - 1], ls[|ls| - 1];
    var head, foot := PrintLine(["server", "{"], "", l), PrintLine(["}"], "", m);
    var body := PrintAll(tree, inner);
    assert PrintServer(tree, ls) + rest == head + (body + (foot + rest));
    ServerIsOpening();
    assert ["server"] + ["{"] == ["server", "{"];
    OpeningLine(["server"], l, body + (foot + rest), 0);
    ScanAll(tree, inner, foot + rest, 1);
    ClosingLine(m, rest, 1);
    var scan := TextTokens(rest, 0);
    BehindTwice(TokensOf(tree), ["}"], scan);
    BehindTwice(["server", "{"], TokensOf(tree) + ["}"], scan);
    assert ["server", "{"] + (TokensOf(tree) + ["}"]) == ["server", "{"] + TokensOf(tree) + ["}"];
  }

  /** Tokenizing printed servers gives their tokens. */
  lemma {:induction false} ScanServers(trees: seq<seq<Directive>>, ls: seq<Layout>, below: seq<string>)
    requires (forall k :: 0 <= k < |trees| ==> AllPrintable(trees[k])) && |ls| == LinesOfServers(trees)
    requires AreLayouts(ls) && AreFillers(below)
    ensures TextTokens(PrintServers(trees, ls, below), 0) == Some((ServerTokens(trees), 0))
    decreases |trees|
  {
    hide TextTokens, PrintServer, TokensOf, IsLayout;
    if trees == [] {
      FillersVanish(below, "", 0);
      assert PrintFillers(below) + "" == PrintFillers(below);
      EmptyText();
    } else {
      var n := LinesOf(trees[0]) + 2;
      ScanServer(trees[0], ls[..n], PrintServers(trees[1..], ls[n..], below));
      ScanServers(trees[1..], ls[n..], below);
    }
  }

  lemma EmptyText()
    ensures TextTokens("", 0) == Some(([], 0))
  {
  }

  lemma ServerIsOpening()
    ensures IsOpening("server")
  {
  }

  /** Reading a configuration text: Config::parseConfig behind the file access. */
  function Load(text: string): Loaded {
    var scan := TextTokens(text, 0);
    if scan.None? then Failed else ParseServers(scan.value.0, 0, 1)
  }

  /** Reading back any printed configuration gives its big-step meaning, inheritance by copy
      and errors included, whatever the layout of each line. */
  lemma ConfigRoundTrip(trees: seq<seq<Directive>>, ls: seq<Layout>, below: seq<string>)
    requires forall k :: 0 <= k < |trees| ==> AllPrintable(trees[k]) && AllParsable(trees[k])
    requires |ls| == LinesOfServers(trees) && AreLayouts(ls) && AreFillers(below)
    ensures Load(PrintServers(trees, ls, below)) == MeaningOfServers(trees, 1)
  {
    hide TextTokens, PrintServers, ServerTokens, ParseServers;
    ScanServers(trees, ls, below);
    var t := ServerTokens(trees);
    assert t[0..] == t;
    ParsePrinted(t, 0, trees, 1);
  }
}
