/** What a configuration means, and what the token parser makes of a token list. */
module ConfigSpec {
  import opened Wrappers
  import opened CLib
  import opened Libft

  /** The fields of ServerConfig; `locations` holds copies. */
  datatype Settings = Settings(
    autoindex: bool, statusCode: int, id: int, listen: string, redir: string,
    locations: seq<Settings>, root: string, error: string, cgiExt: string, exec: string,
    maxBodySize: nat, methods: seq<string>, index: seq<string>, serverName: seq<string>, uri: string)

  function Blank(id: int): Settings {
    Settings(false, 0, id, "", "", [], "", "", "", "", 0, [], [], [], "")
  }

  /** The directives of a server block as a tree. */
  datatype Directive =
    | Listen(value: string)
    | Root(value: string)
    | Methods(names: seq<string>)
    | Index(names: seq<string>)
    | ServerName(names: seq<string>)
    | MaxBody(value: string)
    | Autoindex(value: string)
    | Cgi(value: string)
    | Exec(value: string)
    | Error(value: string)
    | Return(code: string, target: string)
    | Location(uri: string, body: seq<Directive>)
    | Other(words: seq<string>)

  // ---------------------------------------------------- big-step semantics

  /** What a directive does to the settings around it; None when it is an error.  A location
      starts as a copy of the settings so far, earlier locations included. */
  function Meaning(s: Settings, d: Directive): Option<Settings>
    decreases d, 0
  {
    match d
    case Listen(v) => Some(s.(listen := v))
    case Root(v) => Some(s.(root := v))
    case Methods(names) => Some(s.(methods := s.methods + names))
    case Index(names) => Some(s.(index := s.index + names))
    case ServerName(names) => Some(s.(serverName := s.serverName + names))
    case MaxBody(v) => Some(s.(maxBodySize := StoiValue(v)))
    case Autoindex(v) => Some(s.(autoindex := AutoindexAfter(s.autoindex, v)))
    case Cgi(v) => Some(s.(cgiExt := v))
    case Exec(v) => Some(s.(exec := v))
    case Error(v) => Some(s.(error := v))
    case Return(code, target) =>
      if ToInt32(StoiValue(code)) == 0 then None
      else Some(s.(statusCode := ToInt32(StoiValue(code)), redir := target))
    case Location(uri, body) =>
      var inner := MeaningOf(s.(uri := uri), body);
      if inner.None? then None else Some(s.(locations := s.locations + [inner.value]))
    case Other(_) => Some(s)
  }

  /** Directives take effect in order. */
  function MeaningOf(s: Settings, ds: seq<Directive>): Option<Settings>
    decreases ds, 1
  {
    if ds == [] then Some(s)
    else
      var first := Meaning(s, ds[0]);
      if first.None? then None else MeaningOf(first.value, ds[1..])
  }

  function AutoindexAfter(before: bool, v: string): bool {
    if v == "off" then false else if v == "on" then true else before
  }

  // ----------------------------------------------------------- token parser

  /** How a parsing method ends: the iterator and the settings it leaves, an exception, or a
      read behind the last token. */
  datatype Outcome = Parsed(pos: nat, s: Settings) | Thrown | Overrun

  datatype Keyword =
    | KListen | KLocation | KRoot | KMethods | KIndex | KServerName | KMaxBody
    | KAutoindex | KCgi | KExec | KError | KReturn | NoKeyword

  function KeywordOf(word: string): Keyword {
    if word == "listen" then KListen
    else if word == "location" then KLocation
    else if word == "root" then KRoot
    else if word == "methods" then KMethods
    else if word == "index" then KIndex
    else if word == "server_name" then KServerName
    else if word == "client_max_body_size" then KMaxBody
    else if word == "autoindex" then KAutoindex
    else if word == "CGI" then KCgi
    else if word == "exec" then KExec
    else if word == "error" then KError
    else if word == "return" then KReturn
    else NoKeyword
  }

  predicate IsDirective(word: string) { KeywordOf(word) != NoKeyword }

  predicate EndsIn(word: string, c: char) { word != "" && word[|word| - 1] == c }

  /** Method names up to the first that no comma ends. */
  function MethodNames(t: seq<string>, i: nat, s: Settings): (r: Outcome)
    ensures r.Parsed? ==> i < r.pos <= |t|
    decreases |t| - i
  {
    if i >= |t| then Overrun
    else if EndsIn(t[i], ',') then MethodNames(t, i + 1, s.(methods := s.methods + [t[i][..|t[i]| - 1]]))
    else Parsed(i + 1, s.(methods := s.methods + [t[i]]))
  }

  /** The position of the next ";". */
  function Semicolon(t: seq<string>, i: nat): (k: nat)
    requires i <= |t|
    ensures i <= k <= |t|
    ensures k < |t| ==> t[k] == ";"
    ensures forall j :: i <= j < k ==> t[j] != ";"
    decreases |t| - i
  {
    if i == |t| || t[i] == ";" then i else Semicolon(t, i + 1)
  }

  /** The directive at `i`. */
  function ParseDirective(t: seq<string>, i: nat, s: Settings): (r: Outcome)
    requires i < |t|
    ensures r.Parsed? ==> i <= r.pos <= |t|
    decreases |t| - i, 0
  {
    var word := t[i];
    if KeywordOf(word) == NoKeyword then Parsed(i, s)
    else if i + 1 == |t| then Overrun
    else
      var v := t[i + 1];
      match KeywordOf(word)
      case KListen => Parsed(i + 2, s.(listen := v))
      case KLocation =>
        if i + 2 == |t| then Overrun
        else if t[i + 2] != "{" then Thrown
        else
          var inner := ParseBlock(t, i + 3, s.(uri := v));
          if inner.Parsed? then Parsed(inner.pos, s.(locations := s.locations + [inner.s])) else inner
      case KRoot => Parsed(i + 2, s.(root := v))
      case KMethods => MethodNames(t, i + 1, s)
      case KIndex =>
        var k := Semicolon(t, i + 1);
        if k == |t| then Overrun else Parsed(k, s.(index := s.index + t[i + 1..k]))
      case KServerName =>
        var k := Semicolon(t, i + 1);
        if k == |t| then Overrun else Parsed(k, s.(serverName := s.serverName + t[i + 1..k]))
      case KMaxBody => Parsed(i + 2, s.(maxBodySize := StoiValue(v)))
      case KAutoindex => Parsed(i + 1, s.(autoindex := AutoindexAfter(s.autoindex, v)))
      case KCgi => Parsed(i + 2, s.(cgiExt := v))
      case KExec => Parsed(i + 2, s.(exec := v))
      case KError => Parsed(i + 2, s.(error := v))
      case KReturn =>
        if ToInt32(StoiValue(v)) == 0 then Thrown
        else if i + 2 == |t| then Overrun
        else Parsed(i + 3, s.(statusCode := ToInt32(StoiValue(v)), redir := t[i + 2]))
  }

  /** A block from `i` on, up to its "}". */
  function ParseBlock(t: seq<string>, i: nat, s: Settings): (r: Outcome)
    ensures r.Parsed? ==> i <= r.pos < |t| && t[r.pos] == "}"
    decreases |t| - i, 1
  {
    if i >= |t| then Overrun
    else if t[i] == "}" then Parsed(i, s)
    else if IsDirective(t[i]) then
      var d := ParseDirective(t, i, s);
      if d.Parsed? then ParseBlock(t, d.pos + 1, d.s) else d
    else ParseBlock(t, i + 1, s)
  }

  /** How reading all servers ends. */
  datatype Loaded = Servers(servers: seq<Settings>) | Failed | RanOver

  function Prepend(s: Settings, others: Loaded): Loaded {
    if others.Servers? then Servers([s] + others.servers) else others
  }

  /** Config::parseConfig from token `i` on, the next server being number `id`. */
  function ParseServers(t: seq<string>, i: nat, id: int): Loaded
    decreases |t| - i
  {
    if i >= |t| then Servers([])
    else if t[i] != "server" then ParseServers(t, i + 1, id)
    else if i + 1 == |t| then RanOver
    else if t[i + 1] != "{" then Failed
    else
      match ParseBlock(t, i + 2, Blank(id))
      case Thrown => Failed
      case Overrun => RanOver
      case Parsed(j, s) =>
        Prepend(s, ParseServers(t, j + 1, id + 1))
  }

  /** What the servers of a file mean, the first being number `id`. */
  function MeaningOfServers(trees: seq<seq<Directive>>, id: int): Loaded {
    if trees == [] then Servers([])
    else
      match MeaningOf(Blank(id), trees[0])
      case None => Failed
      case Some(s) =>
        Prepend(s, MeaningOfServers(trees[1..], id + 1))
  }

  // ---------------------------------------------------- trees as token lists

  /** All names but the last with a comma. */
  function CommaList(names: seq<string>): seq<string> {
    if |names| <= 1 then names else [names[0] + ","] + CommaList(names[1..])
  }

  /** The words of a directive that is not a location. */
  function Words(d: Directive): seq<string>
    requires !d.Location?
  {
    match d
    case Listen(v) => ["listen", v]
    case Root(v) => ["root", v]
    case Methods(names) => ["methods"] + CommaList(names)
    case Index(names) => ["index"] + names
    case ServerName(names) => ["server_name"] + names
    case MaxBody(v) => ["client_max_body_size", v]
    case Autoindex(v) => ["autoindex", v]
    case Cgi(v) => ["CGI", v]
    case Exec(v) => ["exec", v]
    case Error(v) => ["error", v]
    case Return(code, target) => ["return", code, target]
    case Other(words) => words
  }

  function Tokens(d: Directive): seq<string>
    decreases d, 0
  {
    if d.Location? then ["location", d.uri, "{"] + TokensOf(d.body) + ["}"]
    else Words(d) + [";"]
  }

  function TokensOf(ds: seq<Directive>): seq<string>
    decreases ds, 1
  {
    if ds == [] then [] else Tokens(ds[0]) + TokensOf(ds[1..])
  }

  function ServerTokens(trees: seq<seq<Directive>>): seq<string> {
    if trees == [] then []
    else ["server", "{"] + TokensOf(trees[0]) + ["}"] + ServerTokens(trees[1..])
  }

  /** A directive that can be told apart from its surroundings as a token list. */
  predicate Parsable(d: Directive)
    decreases d, 0
  {
    match d
    case Methods(names) => names != [] && forall i :: 0 <= i < |names| ==> !EndsIn(names[i], ',')
    case Index(names) => ";" !in names
    case ServerName(names) => ";" !in names
    case Location(_, body) => AllParsable(body)
    case Other(words) => forall i :: 0 <= i < |words| ==> !IsDirective(words[i]) && words[i] != "}"
    case _ => true
  }

  predicate AllParsable(ds: seq<Directive>)
    decreases ds, 1
  {
    ds == [] || (Parsable(ds[0]) && AllParsable(ds[1..]))
  }

  // ------------------------------------------- parsing what a tree prints

  /** `part` stands at position i of t. */
  predicate StandsAt(t: seq<string>, i: nat, part: seq<string>) {
    i + |part| <= |t| && t[i..i + |part|] == part
  }

  lemma SplitStands(t: seq<string>, i: nat, a: seq<string>, b: seq<string>)
    requires StandsAt(t, i, a + b)
    ensures StandsAt(t, i, a) && StandsAt(t, i + |a|, b)
  {
    var w := t[i..i + |a + b|];
    assert t[i..i + |a|] == w[..|a|] == a;
    assert t[i + |a|..i + |a| + |b|] == w[|a|..] == b;
  }

  lemma TokenAt(t: seq<string>, i: nat, part: seq<string>, k: nat)
    requires StandsAt(t, i, part) && k < |part|
    ensures i + k < |t| && t[i + k] == part[k]
  {
    assert t[i..i + |part|][k] == t[i + k];
  }

  lemma {:induction false} ParseNames(t: seq<string>, i: nat, names: seq<string>, s: Settings)
    requires names != [] && (forall k :: 0 <= k < |names| ==> !EndsIn(names[k], ','))
    requires StandsAt(t, i, CommaList(names))
    ensures MethodNames(t, i, s) == Parsed(i + |names|, s.(methods := s.methods + names))
    ensures |CommaList(names)| == |names|
    decreases |names|
  {
    hide StandsAt, EndsIn;
    if |names| == 1 {
      TokenAt(t, i, names, 0);
      assert names == [names[0]];
    } else {
      var others := CommaList(names[1..]);
      CommaName(names[0]);
      SplitStands(t, i, [names[0] + ","], others);
      TokenAt(t, i, [names[0] + ","], 0);
      ParseNames(t, i + 1, names[1..], s.(methods := s.methods + [names[0]]));
      assert s.methods + [names[0]] + names[1..] == s.methods + ([names[0]] + names[1..]);
      assert [names[0]] + names[1..] == names;
    }
  }

  lemma CommaName(name: string)
    ensures EndsIn(name + ",", ',') && (name + ",")[..|name + ","| - 1] == name
  {
  }

  lemma SemicolonAt(t: seq<string>, i: nat, names: seq<string>)
    requires ";" !in names && StandsAt(t, i, names + [";"])
    ensures Semicolon(t, i) == i + |names| && t[i..i + |names|] == names
  {
    SplitStands(t, i, names, [";"]);
    TokenAt(t, i + |names|, [";"], 0);
    assert forall j :: i <= j < i + |names| ==> t[j] == names[j - i];
    var k := Semicolon(t, i);
    assert t[i + |names|] == ";";
  }

  lemma {:induction false} SkipWords(t: seq<string>, i: nat, words: seq<string>, s: Settings)
    requires StandsAt(t, i, words)
    requires forall k :: 0 <= k < |words| ==> !IsDirective(words[k]) && words[k] != "}"
    ensures ParseBlock(t, i, s) == ParseBlock(t, i + |words|, s)
    decreases |words|
  {
    hide KeywordOf, StandsAt;
    if words != [] {
      TokenAt(t, i, words, 0);
      assert [words[0]] + words[1..] == words;
      SplitStands(t, i, [words[0]], words[1..]);
      SkipWords(t, i + 1, words[1..], s);
    }
  }

  lemma Keywords()
    ensures KeywordOf("listen") == KListen && KeywordOf("location") == KLocation
    ensures KeywordOf("root") == KRoot && KeywordOf("methods") == KMethods && KeywordOf("index") == KIndex
    ensures KeywordOf("server_name") == KServerName && KeywordOf("client_max_body_size") == KMaxBody
    ensures KeywordOf("autoindex") == KAutoindex && KeywordOf("CGI") == KCgi && KeywordOf("exec") == KExec
    ensures KeywordOf("error") == KError && KeywordOf("return") == KReturn
    ensures KeywordOf("}") == KeywordOf(";") == KeywordOf("server") == NoKeyword
  {
  }

  /** The rest of a block behind one directive. */
  function After(t: seq<string>, i: nat, m: Option<Settings>): Outcome {
    if m.None? then Thrown else ParseBlock(t, i, m.value)
  }

  /** A directive in a block is read as what it means, and parsing goes on behind it. */
  lemma {:induction false} ParseOne(t: seq<string>, i: nat, d: Directive, s: Settings)
    requires Parsable(d) && StandsAt(t, i, Tokens(d))
    ensures ParseBlock(t, i, s) == After(t, i + |Tokens(d)|, Meaning(s, d))
    decreases d, 1
  {
    hide ParseBlock, StandsAt, Meaning, Tokens, Parsable;
    if d.Location? {
      ParseLocation(t, i, d, s);
    } else if d.Other? {
      ParseOther(t, i, d, s);
    } else {
      ParseSimple(t, i, d, s);
    }
  }

  lemma ParseOther(t: seq<string>, i: nat, d: Directive, s: Settings)
    requires d.Other? && Parsable(d) && StandsAt(t, i, Tokens(d))
    ensures ParseBlock(t, i, s) == After(t, i + |Tokens(d)|, Meaning(s, d))
  {
    hide ParseBlock, StandsAt, KeywordOf;
    Keywords();
    assert Tokens(d) == d.words + [";"];
    SplitStands(t, i, d.words, [";"]);
    SkipWords(t, i, d.words, s);
    SkipWords(t, i + |d.words|, [";"], s);
  }

  /** Behind a directive whose values end at a ";". */
  lemma BehindDirective(t: seq<string>, i: nat, j: nat, s: Settings)
    requires i < |t| && IsDirective(t[i]) && ParseDirective(t, i, s).Parsed?
    requires ParseDirective(t, i, s).pos <= j < |t| && j <= ParseDirective(t, i, s).pos + 1
    requires t[j] == ";"
    ensures ParseBlock(t, i, s) == ParseBlock(t, j + 1, ParseDirective(t, i, s).s)
  {
    hide KeywordOf, ParseDirective;
    Keywords();
    var d := ParseDirective(t, i, s);
    assert ParseBlock(t, i, s) == ParseBlock(t, d.pos + 1, d.s);
    if j == d.pos + 1 { assert ParseBlock(t, j, d.s) == ParseBlock(t, j + 1, d.s); }
  }

  lemma ParseSimple(t: seq<string>, i: nat, d: Directive, s: Settings)
    requires Parsable(d) && !d.Location? && !d.Other? && StandsAt(t, i, Tokens(d))
    ensures ParseBlock(t, i, s) == After(t, i + |Tokens(d)|, Meaning(s, d))
  {
    hide ParseBlock, ParseDirective, Meaning, Tokens;
    if d.Methods? {
      ParseMethods(t, i, d, s);
    } else if d.Index? || d.ServerName? {
      ParseList(t, i, d, s);
    } else {
      ParseValue(t, i, d, s);
    }
  }

  lemma ListTokens(t: seq<string>, i: nat, name: string, words: seq<string>)
    requires StandsAt(t, i, [name] + words + [";"])
    ensures i + 1 + |words| < |t| && t[i] == name && t[i + 1 + |words|] == ";"
    ensures StandsAt(t, i + 1, words) && StandsAt(t, i + 1, words + [";"])
  {
    assert [name] + words + [";"] == [name] + (words + [";"]);
    SplitStands(t, i, [name], words + [";"]);
    SplitStands(t, i + 1, words, [";"]);
    TokenAt(t, i, [name], 0);
    TokenAt(t, i + 1 + |words|, [";"], 0);
  }

  lemma ParseMethods(t: seq<string>, i: nat, d: Directive, s: Settings)
    requires d.Methods? && Parsable(d) && StandsAt(t, i, Tokens(d))
    ensures ParseBlock(t, i, s) == After(t, i + |Tokens(d)|, Meaning(s, d))
  {
    hide KeywordOf, ParseBlock, StandsAt, CommaList, EndsIn, MethodNames, TokensOf;
    Keywords();
    var words := CommaList(d.names);
    assert Tokens(d) == ["methods"] + words + [";"];
    ListTokens(t, i, "methods", words);
    ParseNames(t, i + 1, d.names, s);
    BehindDirective(t, i, i + 1 + |words|, s);
  }

  lemma ParseList(t: seq<string>, i: nat, d: Directive, s: Settings)
    requires d.Index? || d.ServerName?
    requires Parsable(d) && StandsAt(t, i, Tokens(d))
    ensures ParseBlock(t, i, s) == After(t, i + |Tokens(d)|, Meaning(s, d))
  {
    hide KeywordOf, ParseBlock, StandsAt, Semicolon, TokensOf;
    Keywords();
    var name := if d.Index? then "index" else "server_name";
    assert Tokens(d) == [name] + d.names + [";"];
    ListTokens(t, i, name, d.names);
    SemicolonAt(t, i + 1, d.names);
    BehindDirective(t, i, i + 1 + |d.names|, s);
  }

  lemma ParseValue(t: seq<string>, i: nat, d: Directive, s: Settings)
    requires !d.Location? && !d.Other? && !d.Methods? && !d.Index? && !d.ServerName?
    requires StandsAt(t, i, Tokens(d))
    ensures ParseBlock(t, i, s) == After(t, i + |Tokens(d)|, Meaning(s, d))
  {
    hide KeywordOf, ParseBlock, StoiValue, ToInt32, StandsAt;
    Keywords();
    var n := |Tokens(d)|;
    TokenAt(t, i, Tokens(d), 0);
    TokenAt(t, i, Tokens(d), 1);
    TokenAt(t, i, Tokens(d), 2);
    TokenAt(t, i, Tokens(d), n - 1);
    if Meaning(s, d).None? {
      DirectiveThrown(t, i, s);
    } else {
      BehindDirective(t, i, i + n - 1, s);
    }
  }

  lemma DirectiveThrown(t: seq<string>, i: nat, s: Settings)
    requires i < |t| && IsDirective(t[i]) && ParseDirective(t, i, s).Thrown?
    ensures ParseBlock(t, i, s) == Thrown
  {
    hide KeywordOf, ParseDirective;
    Keywords();
  }

  lemma LocationRound(t: seq<string>, i: nat, s: Settings)
    requires i + 2 < |t| && t[i] == "location" && t[i + 2] == "{"
    ensures
      var inner := ParseBlock(t, i + 3, s.(uri := t[i + 1]));
      ParseBlock(t, i, s) ==
        if inner.Parsed? then ParseBlock(t, inner.pos + 1, s.(locations := s.locations + [inner.s])) else inner
  {
    hide KeywordOf;
    Keywords();
  }

  lemma {:induction false} ParseLocation(t: seq<string>, i: nat, d: Directive, s: Settings)
    requires d.Location? && Parsable(d) && StandsAt(t, i, Tokens(d))
    ensures ParseBlock(t, i, s) == After(t, i + |Tokens(d)|, Meaning(s, d))
    decreases d, 0
  {
    hide ParseBlock, StandsAt, TokensOf;
    var head := ["location", d.uri, "{"];
    var body := TokensOf(d.body) + ["}"];
    assert Tokens(d) == head + body;
    SplitStands(t, i, head, body);
    TokenAt(t, i, head, 0);
    TokenAt(t, i, head, 1);
    TokenAt(t, i, head, 2);
    LocationRound(t, i, s);
    ParseAll(t, i + 3, d.body, s.(uri := d.uri));
  }

  lemma BlockEnd(t: seq<string>, i: nat, s: Settings)
    requires StandsAt(t, i, TokensOf([]) + ["}"])
    ensures ParseBlock(t, i, s) == Parsed(i, s)
  {
    assert TokensOf([]) + ["}"] == ["}"];
    TokenAt(t, i, ["}"], 0);
  }

  /** A block is read as what its directives mean, and the iterator stops on its "}". */
  lemma {:induction false} ParseAll(t: seq<string>, i: nat, ds: seq<Directive>, s: Settings)
    requires AllParsable(ds) && StandsAt(t, i, TokensOf(ds) + ["}"])
    ensures ParseBlock(t, i, s) ==
      match MeaningOf(s, ds)
      case Some(r) => Parsed(i + |TokensOf(ds)|, r)
      case None => Thrown
    decreases ds, 1
  {
    hide Tokens, Meaning, ParseBlock, StandsAt;
    if ds == [] {
      BlockEnd(t, i, s);
    } else {
      var first, others := Tokens(ds[0]), TokensOf(ds[1..]) + ["}"];
      assert TokensOf(ds) + ["}"] == first + others;
      SplitStands(t, i, first, others);
      ParseOne(t, i, ds[0], s);
      var m := Meaning(s, ds[0]);
      if m.Some? {
        ParseAll(t, i + |first|, ds[1..], m.value);
      }
    }
  }

  lemma ParseServer(t: seq<string>, i: nat, tree: seq<Directive>, others: seq<string>, id: int)
    requires AllParsable(tree)
    requires i <= |t| && t[i..] == ["server", "{"] + TokensOf(tree) + ["}"] + others
    ensures ParseServers(t, i, id) ==
      match MeaningOf(Blank(id), tree)
      case None => Failed
      case Some(s) => Prepend(s, ParseServers(t, i + |TokensOf(tree)| + 3, id + 1))
    ensures t[i + |TokensOf(tree)| + 3..] == others
  {
    hide ParseBlock, MeaningOf, TokensOf, AllParsable, Blank;
    var head, body := ["server", "{"], TokensOf(tree) + ["}"];
    assert t[i..] == head + (body + others);
    assert StandsAt(t, i, head + (body + others));
    SplitStands(t, i, head, body + others);
    TokenAt(t, i, head, 0);
    TokenAt(t, i, head, 1);
    SplitStands(t, i + 2, body, others);
    ParseAll(t, i + 2, tree, Blank(id));
    assert t[i..][|head| + |body|..] == others;
  }

  /** The token lists of any number of servers are read as what the servers mean. */
  lemma {:induction false} ParsePrinted(t: seq<string>, i: nat, trees: seq<seq<Directive>>, id: int)
    requires forall k :: 0 <= k < |trees| ==> AllParsable(trees[k])
    requires i <= |t| && t[i..] == ServerTokens(trees)
    ensures ParseServers(t, i, id) == MeaningOfServers(trees, id)
    decreases |trees|
  {
    hide ParseBlock, MeaningOf, TokensOf;
    if trees != [] {
      ParseServer(t, i, trees[0], ServerTokens(trees[1..]), id);
      if MeaningOf(Blank(id), trees[0]).Some? {
        ParsePrinted(t, i + |TokensOf(trees[0])| + 3, trees[1..], id + 1);
      }
    }
  }
}
