/** Config and ServerConfig: the tokenizer's loops, and the mutually recursive methods that
    advance one iterator over the tokens. */
module ConfigReader {
  import opened CLib
  import opened Libft
  import opened ConfigSpec
  import opened ConfigText

  /** How a parsing method returns: normally, with an exception, or after it read behind the
      last token. */
  datatype Ending = Done | Threw | PastEnd

  function OutcomeOf(e: Ending, pos: nat, s: Settings): Outcome {
    match e
    case Done => Parsed(pos, s)
    case Threw => Thrown
    case PastEnd => Overrun
  }

  /** An iterator over the tokens, shared by all methods. */
  class TokenCursor {
    const tokens: seq<string>
    var pos: nat

    constructor (tokens: seq<string>, pos: nat)
      ensures this.tokens == tokens && this.pos == pos
    {
      this.tokens, this.pos := tokens, pos;
    }

    /** *it++ */
    method Take() returns (e: Ending, v: string)
      modifies this
      ensures e == if old(pos) < |tokens| then Done else PastEnd
      ensures e == Done ==> v == tokens[old(pos)] && pos == old(pos) + 1
      ensures e != Done ==> pos == old(pos)
    {
      if pos < |tokens| {
        e, v, pos := Done, tokens[pos], pos + 1;
      } else {
        e, v := PastEnd, "";
      }
    }
  }

  class ServerConfig {
    var autoindex: bool
    var statusCode: int
    var id: int
    var listen: string
    var redir: string
    var locations: seq<Settings>
    var root: string
    var error: string
    var cgiExt: string
    var exec: string
    var maxBodySize: nat
    var methods: seq<string>
    var index: seq<string>
    var serverName: seq<string>
    var uri: string

    /** A copy of the object. */
    function View(): Settings
      reads this
    {
      Settings(autoindex, statusCode, id, listen, redir, locations, root, error, cgiExt, exec,
               maxBodySize, methods, index, serverName, uri)
    }

    constructor (id: int)
      ensures View() == Blank(id)
    {
      autoindex, statusCode, this.id, maxBodySize := false, 0, id, 0;
      listen, redir, root, error, cgiExt, exec, uri := "", "", "", "", "", "", "";
      locations, methods, index, serverName := [], [], [], [];
    }

    /** loc = *this */
    constructor Copy(s: Settings)
      ensures View() == s
    {
      autoindex, statusCode, id, maxBodySize := s.autoindex, s.statusCode, s.id, s.maxBodySize;
      listen, redir, root, error := s.listen, s.redir, s.root, s.error;
      cgiExt, exec, uri := s.cgiExt, s.exec, s.uri;
      locations, methods, index, serverName := s.locations, s.methods, s.index, s.serverName;
    }

    // ------------------------------------------------- scalar directives

    method ParseListen(it: TokenCursor) returns (e: Ending)
      modifies this`listen, it
      ensures OutcomeOf(e, it.pos, View()) ==
        if old(it.pos) >= |it.tokens| then Overrun
        else Parsed(old(it.pos) + 1, old(View()).(listen := it.tokens[old(it.pos)]))
    {
      var v;
      e, v := it.Take();
      if e == Done { listen := v; }
    }

    method ParseRoot(it: TokenCursor) returns (e: Ending)
      modifies this`root, it
      ensures OutcomeOf(e, it.pos, View()) ==
        if old(it.pos) >= |it.tokens| then Overrun
        else Parsed(old(it.pos) + 1, old(View()).(root := it.tokens[old(it.pos)]))
    {
      var v;
      e, v := it.Take();
      if e == Done { root := v; }
    }

    method ParseError(it: TokenCursor) returns (e: Ending)
      modifies this`error, it
      ensures OutcomeOf(e, it.pos, View()) ==
        if old(it.pos) >= |it.tokens| then Overrun
        else Parsed(old(it.pos) + 1, old(View()).(error := it.tokens[old(it.pos)]))
    {
      var v;
      e, v := it.Take();
      if e == Done { error := v; }
    }

    method ParseCgi(it: TokenCursor) returns (e: Ending)
      modifies this`cgiExt, it
      ensures OutcomeOf(e, it.pos, View()) ==
        if old(it.pos) >= |it.tokens| then Overrun
        else Parsed(old(it.pos) + 1, old(View()).(cgiExt := it.tokens[old(it.pos)]))
    {
      var v;
      e, v := it.Take();
      if e == Done { cgiExt := v; }
    }

    method ParseExec(it: TokenCursor) returns (e: Ending)
      modifies this`exec, it
      ensures OutcomeOf(e, it.pos, View()) ==
        if old(it.pos) >= |it.tokens| then Overrun
        else Parsed(old(it.pos) + 1, old(View()).(exec := it.tokens[old(it.pos)]))
    {
      var v;
      e, v := it.Take();
      if e == Done { exec := v; }
    }

    method ParseClientMaxBodySize(it: TokenCursor) returns (e: Ending)
      modifies this`maxBodySize, it
      ensures OutcomeOf(e, it.pos, View()) ==
        if old(it.pos) >= |it.tokens| then Overrun
        else Parsed(old(it.pos) + 1, old(View()).(maxBodySize := StoiValue(it.tokens[old(it.pos)])))
    {
      var v;
      e, v := it.Take();
      if e == Done { maxBodySize := Stoi(v); }
    }

    /** The iterator stays on the value. */
    method ParseAutoindex(it: TokenCursor) returns (e: Ending)
      modifies this`autoindex
      ensures OutcomeOf(e, it.pos, View()) ==
        if it.pos >= |it.tokens| then Overrun
        else Parsed(it.pos, old(View()).(autoindex := AutoindexAfter(old(autoindex), it.tokens[it.pos])))
    {
      if it.pos >= |it.tokens| { return PastEnd; }
      if it.tokens[it.pos] == "off" {
        autoindex := false;
      } else if it.tokens[it.pos] == "on" {
        autoindex := true;
      }
      return Done;
    }

    method ParseRedir(it: TokenCursor) returns (e: Ending)
      modifies this`statusCode, this`redir, it
      ensures OutcomeOf(e, it.pos, View()) ==
        if old(it.pos) >= |it.tokens| then Overrun
        else
          var code := ToInt32(StoiValue(it.tokens[old(it.pos)]));
          if code == 0 then Thrown
          else if old(it.pos) + 1 >= |it.tokens| then Overrun
          else Parsed(old(it.pos) + 2, old(View()).(statusCode := code, redir := it.tokens[old(it.pos) + 1]))
    {
      hide StoiValue, ToInt32;
      var v, code;
      e, v := it.Take();
      if e != Done { return; }
      code := Stoi(v);
      statusCode := ToInt32(code);
      if statusCode == 0 { return Threw; }
      e, v := it.Take();
      if e == Done { redir := v; }
    }

    // --------------------------------------------------- list directives

    method ParseMethod(it: TokenCursor) returns (e: Ending)
      modifies this`methods, it
      ensures OutcomeOf(e, it.pos, View()) == MethodNames(it.tokens, old(it.pos), old(View()))
    {
      while true
        invariant MethodNames(it.tokens, it.pos, View()) == MethodNames(it.tokens, old(it.pos), old(View()))
        decreases |it.tokens| - it.pos
      {
        if it.pos >= |it.tokens| { return PastEnd; }
        var temp := it.tokens[it.pos];
        if EndsIn(temp, ',') {
          methods := methods + [temp[..|temp| - 1]];
        } else {
          methods := methods + [temp];
          it.pos := it.pos + 1;
          return Done;
        }
        it.pos := it.pos + 1;
      }
    }

    /** The loop of index and server_name: names up to ";". */
    method TakeNames(it: TokenCursor) returns (e: Ending, names: seq<string>)
      requires it.pos <= |it.tokens|
      modifies it
      ensures
        var k := Semicolon(it.tokens, old(it.pos));
        if k == |it.tokens| then e == PastEnd
        else e == Done && it.pos == k && names == it.tokens[old(it.pos)..k]
    {
      names := [];
      while true
        invariant old(it.pos) <= it.pos <= |it.tokens| && names == it.tokens[old(it.pos)..it.pos]
        invariant Semicolon(it.tokens, it.pos) == Semicolon(it.tokens, old(it.pos))
        decreases |it.tokens| - it.pos
      {
        if it.pos == |it.tokens| { return PastEnd, names; }
        if it.tokens[it.pos] == ";" { return Done, names; }
        names := names + [it.tokens[it.pos]];
        it.pos := it.pos + 1;
      }
    }

    method ParseIndex(it: TokenCursor) returns (e: Ending)
      requires it.pos <= |it.tokens|
      modifies this`index, it
      ensures
        var k := Semicolon(it.tokens, old(it.pos));
        OutcomeOf(e, it.pos, View()) ==
          if k == |it.tokens| then Overrun
          else Parsed(k, old(View()).(index := old(index) + it.tokens[old(it.pos)..k]))
    {
      var names;
      e, names := TakeNames(it);
      if e == Done { index := index + names; }
    }

    method ParseServerName(it: TokenCursor) returns (e: Ending)
      requires it.pos <= |it.tokens|
      modifies this`serverName, it
      ensures
        var k := Semicolon(it.tokens, old(it.pos));
        OutcomeOf(e, it.pos, View()) ==
          if k == |it.tokens| then Overrun
          else Parsed(k, old(View()).(serverName := old(serverName) + it.tokens[old(it.pos)..k]))
    {
      var names;
      e, names := TakeNames(it);
      if e == Done { serverName := serverName + names; }
    }

    // --------------------------------------------------- blocks, recursive

    method GetDirective(it: TokenCursor) returns (e: Ending)
      requires it.pos < |it.tokens|
      modifies this, it
      ensures OutcomeOf(e, it.pos, View()) == ParseDirective(it.tokens, old(it.pos), old(View()))
      decreases |it.tokens| - it.pos, 0
    {
      hide KeywordOf, StoiValue, ToInt32, ConfigSpec.ParseBlock, Semicolon;
      var word := KeywordOf(it.tokens[it.pos]);
      if word == NoKeyword { return Done; }
      it.pos := it.pos + 1;
      match word {
        case KListen => e := ParseListen(it);
        case KLocation => e := ParseLocations(it);
        case KRoot => e := ParseRoot(it);
        case KMethods => e := ParseMethod(it);
        case KIndex => e := ParseIndex(it);
        case KServerName => e := ParseServerName(it);
        case KMaxBody => e := ParseClientMaxBodySize(it);
        case KAutoindex => e := ParseAutoindex(it);
        case KCgi => e := ParseCgi(it);
        case KExec => e := ParseExec(it);
        case KError => e := ParseError(it);
        case KReturn => e := ParseRedir(it);
      }
    }

    /** A new object that starts as a copy of this one parses the location and pushes itself. */
    method ParseLocations(it: TokenCursor) returns (e: Ending)
      requires it.pos <= |it.tokens|
      modifies this`locations, it
      ensures OutcomeOf(e, it.pos, View()) == LocationOutcome(it.tokens, old(it.pos), old(View()))
      decreases |it.tokens| - it.pos, 3
    {
      hide ConfigSpec.ParseBlock;
      var loc := new ServerConfig.Copy(View());
      e := loc.LoopLocation(it, this);
    }

    method LoopLocation(it: TokenCursor, parent: ServerConfig) returns (e: Ending)
      requires it.pos <= |it.tokens| && parent != this
      modifies this, it, parent`locations
      ensures OutcomeOf(e, it.pos, parent.View()) ==
        LocationOutcomeIn(it.tokens, old(it.pos), old(View()), old(parent.View()))
      decreases |it.tokens| - it.pos, 2
    {
      hide ConfigSpec.ParseBlock;
      var v;
      e, v := it.Take();
      if e != Done { return; }
      uri := v;
      if it.pos == |it.tokens| { return PastEnd; }
      if it.tokens[it.pos] != "{" { return Threw; }
      e := LoopBlock(it);
      if e == Done {
        parent.locations := parent.locations + [View()];
      }
    }

    method InitServer(it: TokenCursor) returns (e: Ending)
      requires it.pos <= |it.tokens|
      modifies this, it
      ensures OutcomeOf(e, it.pos, View()) ==
        if old(it.pos) == |it.tokens| then Overrun
        else if it.tokens[old(it.pos)] != "{" then Thrown
        else ConfigSpec.ParseBlock(it.tokens, old(it.pos) + 1, old(View()))
    {
      if it.pos == |it.tokens| { return PastEnd; }
      if it.tokens[it.pos] != "{" { return Threw; }
      e := LoopBlock(it);
    }

    /** while (*(++it) != "}") */
    method LoopBlock(it: TokenCursor) returns (e: Ending)
      requires it.pos < |it.tokens|
      modifies this, it
      ensures OutcomeOf(e, it.pos, View()) == ConfigSpec.ParseBlock(it.tokens, old(it.pos) + 1, old(View()))
      decreases |it.tokens| - it.pos, 1
    {
      hide KeywordOf, ParseDirective;
      it.pos := it.pos + 1;
      while true
        invariant old(it.pos) < it.pos
        invariant ConfigSpec.ParseBlock(it.tokens, it.pos, View())
               == ConfigSpec.ParseBlock(it.tokens, old(it.pos) + 1, old(View()))
        decreases |it.tokens| - it.pos
      {
        if it.pos >= |it.tokens| { return PastEnd; }
        if it.tokens[it.pos] == "}" { return Done; }
        if IsDirective(it.tokens[it.pos]) {
          ghost var i := it.pos;
          e := GetDirective(it);
          if e != Done { return; }
          assert it.pos >= i;
        }
        it.pos := it.pos + 1;
      }
    }
  }

  /** What ParseDirective says of a location whose uri stands at `i`. */
  function LocationOutcome(t: seq<string>, i: nat, s: Settings): Outcome {
    LocationOutcomeIn(t, i, s, s)
  }

  function LocationOutcomeIn(t: seq<string>, i: nat, loc: Settings, parent: Settings): Outcome {
    if i >= |t| || i + 1 == |t| then Overrun
    else if t[i + 1] != "{" then Thrown
    else
      var inner := ConfigSpec.ParseBlock(t, i + 2, loc.(uri := t[i]));
      if inner.Parsed? then Parsed(inner.pos, parent.(locations := parent.locations + [inner.s])) else inner
  }

  class Config {
    var tokens: seq<string>
    var servers: seq<Settings>

    constructor ()
      ensures tokens == [] && servers == []
    {
      tokens, servers := [], [];
    }

    /** Appends the tokens of the text; false stands for an exception. */
    method Tokenize(text: string) returns (ok: bool)
      modifies this`tokens
      ensures ok <==> TextTokens(text, 0).Some?
      ensures ok ==> tokens == old(tokens) + TextTokens(text, 0).value.0
    {
      hide LineTokens;
      var buffer := text;
      var brace: seq<string> := [];
      ghost var all := TextTokens(text, 0);
      while buffer != ""
        invariant Behind(tokens, TextTokens(buffer, |brace|)) == Behind(old(tokens), all)
        decreases |buffer|
      {
        var line := FirstLine(buffer).0;
        ghost var depth, done := |brace|, tokens;
        ghost var scan := LineTokens(line, 0, depth);
        buffer := FirstLine(buffer).1;
        ok, brace := TokenizeLine(line, brace);
        if !ok { return false; }
        BehindTwice(done, scan.value.0, TextTokens(buffer, |brace|));
      }
      assert tokens + [] == tokens;
      return true;
    }

    /** The inner loop: the words of one line, with the stack of open braces. */
    method TokenizeLine(line: string, open: seq<string>) returns (ok: bool, brace: seq<string>)
      modifies this`tokens
      ensures
        var scan := LineTokens(line, 0, |open|);
        && (ok <==> scan.Some?)
        && (ok ==> tokens == old(tokens) + scan.value.0 && |brace| == scan.value.1)
    {
      hide IsStrict, EndsInSemicolon;
      brace := open;
      var last := 0;
      ghost var all := LineTokens(line, 0, |open|);
      while true
        invariant last <= |line|
        invariant Behind(tokens, LineTokens(line, last, |brace|)) == Behind(old(tokens), all)
        decreases |line| - last
      {
        var first := NextWord(line, last);
        if first == |line| || line[first] == '#' { break; }
        last := NextBlank(line, first);
        var temp := line[first..last];
        ghost var depth, done := |brace|, tokens;
        if temp == "{" {
          brace := brace + [temp];
        } else if temp == "}" {
          if brace == [] { return false, brace; }
          brace := brace[..|brace| - 1];
        }
        if IsStrict(temp) && !EndsInSemicolon(line) {
          if temp != "location" { return false, brace; }
        }
        if EndsIn(temp, ';') {
          tokens := tokens + [temp[..|temp| - 1]];
          tokens := tokens + [";"];
        } else {
          tokens := tokens + [temp];
        }
        assert tokens == done + Split(temp);
        BehindTwice(done, Split(temp), LineTokens(line, last, |brace|));
      }
      assert tokens + [] == tokens;
      return true, brace;
    }

    /** What the servers read so far and the rest of a loop make of a configuration. */
    ghost function Outcome(e: Ending): Loaded
      reads this
    {
      match e case Done => Servers(servers) case Threw => Failed case PastEnd => RanOver
    }

    /** Config::parseConfig, given the text of the file. */
    method ParseConfig(text: string) returns (e: Ending)
      requires tokens == [] && servers == []
      modifies this
      ensures Outcome(e) == Load(text)
    {
      hide ParseServers, TextTokens;
      var ok := Tokenize(text);
      if !ok { return Threw; }
      assert [] + TextTokens(text, 0).value.0 == TextTokens(text, 0).value.0;
      e := ReadServers();
    }

    /** The loop over the tokens. */
    method ReadServers() returns (e: Ending)
      requires servers == []
      modifies this`servers
      ensures Outcome(e) == ParseServers(tokens, 0, 1)
    {
      hide ConfigSpec.ParseBlock;
      var it := new TokenCursor(tokens, 0);
      var i := 1;
      NonePrepended(ParseServers(tokens, 0, 1));
      while it.pos < |tokens|
        invariant fresh(it) && it.tokens == tokens
        invariant PrependAll(servers, ParseServers(tokens, it.pos, i)) == ParseServers(tokens, 0, 1)
        decreases |tokens| - it.pos
      {
        if tokens[it.pos] == "server" {
          var serverConfig := new ServerConfig(i);
          i := i + 1;
          it.pos := it.pos + 1;
          e := serverConfig.InitServer(it);
          if e != Done { return; }
          PrependOne(servers, serverConfig.View(), ParseServers(tokens, it.pos + 1, i));
          servers := servers + [serverConfig.View()];
        }
        it.pos := it.pos + 1;
      }
      assert servers + [] == servers;
      return Done;
    }
  }

  function PrependAll(done: seq<Settings>, others: Loaded): Loaded {
    if others.Servers? then Servers(done + others.servers) else others
  }

  lemma NonePrepended(others: Loaded)
    ensures PrependAll([], others) == others
  {
    if others.Servers? { assert [] + others.servers == others.servers; }
  }

  lemma PrependOne(done: seq<Settings>, s: Settings, others: Loaded)
    ensures PrependAll(done, Prepend(s, others)) == PrependAll(done + [s], others)
  {
    if others.Servers? { assert done + ([s] + others.servers) == done + [s] + others.servers; }
  }
}
