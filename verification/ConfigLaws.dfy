/** What a configuration sets, told from the words of its directives: the last value wins, lists
    grow, and what a location inherits. */
module ConfigLaws {
  import opened Wrappers
  import opened Libft
  import opened CLib
  import opened ConfigSpec
  import opened ConfigText
  import opened Inheritance

  /** The directive is printed with this word first and has at least one more. */
  predicate Named(d: Directive, key: string) {
    !d.Location? && |Words(d)| >= 2 && Words(d)[0] == key
  }

  /** The last value given to a setting of one value. */
  function LastOf(ds: seq<Directive>, key: string): Option<string> {
    if ds == [] then None
    else
      var d := ds[|ds| - 1];
      if Named(d, key) then Some(Words(d)[1]) else LastOf(ds[..|ds| - 1], key)
  }

  /** The last "on" or "off". */
  function LastSwitch(ds: seq<Directive>): Option<bool> {
    if ds == [] then None
    else
      var d := ds[|ds| - 1];
      if Named(d, "autoindex") && Words(d)[1] == "on" then Some(true)
      else if Named(d, "autoindex") && Words(d)[1] == "off" then Some(false)
      else LastSwitch(ds[..|ds| - 1])
  }

  /** The words behind the last "return". */
  function LastReturn(ds: seq<Directive>): Option<(string, string)> {
    if ds == [] then None
    else
      var d := ds[|ds| - 1];
      if Named(d, "return") && |Words(d)| == 3 then Some((Words(d)[1], Words(d)[2]))
      else LastReturn(ds[..|ds| - 1])
  }

  /** All names given to a list, in order. */
  function NamesOf(ds: seq<Directive>, key: string): seq<string> {
    if ds == [] then []
    else
      var d := ds[|ds| - 1];
      NamesOf(ds[..|ds| - 1], key) + if Named(d, key) then Words(d)[1..] else []
  }

  /** Names without the comma that all but the last one carry. */
  function WithoutCommas(words: seq<string>): seq<string> {
    if words == [] then []
    else
      var w := words[0];
      [if w != "" && w[|w| - 1] == ',' then w[..|w| - 1] else w] + WithoutCommas(words[1..])
  }

  function MethodsOf(ds: seq<Directive>): seq<string> {
    if ds == [] then []
    else
      var d := ds[|ds| - 1];
      MethodsOf(ds[..|ds| - 1]) + if Named(d, "methods") then WithoutCommas(Words(d)[1..]) else []
  }

  function LocationsIn(ds: seq<Directive>): nat {
    if ds == [] then 0 else LocationsIn(ds[..|ds| - 1]) + if ds[|ds| - 1].Location? then 1 else 0
  }

  function Or<T>(o: Option<T>, before: T): T { if o.Some? then o.value else before }

  /** The settings of one value. */
  ghost predicate FollowsValues(s: Settings, ds: seq<Directive>, r: Settings) {
    && r.listen == Or(LastOf(ds, "listen"), s.listen)
    && r.root == Or(LastOf(ds, "root"), s.root)
    && r.cgiExt == Or(LastOf(ds, "CGI"), s.cgiExt)
    && r.exec == Or(LastOf(ds, "exec"), s.exec)
    && r.error == Or(LastOf(ds, "error"), s.error)
    && r.maxBodySize == (match LastOf(ds,
        "client_max_body_size") case Some(v) => StoiValue(v) case None => s.maxBodySize)
    && r.autoindex == Or(LastSwitch(ds), s.autoindex)
    && (match LastReturn(ds)
        case Some((code, target)) => r.statusCode == ToInt32(StoiValue(code)) != 0 && r.redir == target
        case None => r.statusCode == s.statusCode && r.redir == s.redir)
  }

  /** The lists, and what no directive changes. */
  ghost predicate FollowsLists(s: Settings, ds: seq<Directive>, r: Settings) {
    && r.index == s.index + NamesOf(ds, "index")
    && r.serverName == s.serverName + NamesOf(ds, "server_name")
    && r.methods == s.methods + MethodsOf(ds)
    && |r.locations| == |s.locations| + LocationsIn(ds) && s.locations <= r.locations
    && r.uri == s.uri && r.id == s.id
  }

  /** r is what the directives make of s. */
  ghost predicate Follows(s: Settings, ds: seq<Directive>, r: Settings) {
    FollowsValues(s, ds, r) && FollowsLists(s, ds, r)
  }

  // ---------------------------------------------------------- one directive

  function KindOf(d: Directive): Keyword {
    match d
    case Listen(_) => KListen
    case Root(_) => KRoot
    case Methods(_) => KMethods
    case Index(_) => KIndex
    case ServerName(_) => KServerName
    case MaxBody(_) => KMaxBody
    case Autoindex(_) => KAutoindex
    case Cgi(_) => KCgi
    case Exec(_) => KExec
    case Error(_) => KError
    case Return(_, _) => KReturn
    case Location(_, _) => KLocation
    case Other(_) => NoKeyword
  }

  lemma KindIs(d: Directive)
    requires Parsable(d) && !d.Location? && Words(d) != []
    ensures KeywordOf(Words(d)[0]) == KindOf(d)
  {
    hide KeywordOf, CommaList;
    Keywords();
  }

  function Literal(k: Keyword): string {
    match k
    case KListen => "listen"
    case KLocation => "location"
    case KRoot => "root"
    case KMethods => "methods"
    case KIndex => "index"
    case KServerName => "server_name"
    case KMaxBody => "client_max_body_size"
    case KAutoindex => "autoindex"
    case KCgi => "CGI"
    case KExec => "exec"
    case KError => "error"
    case KReturn => "return"
    case NoKeyword => ""
  }

  lemma KeywordIs(word: string)
    requires KeywordOf(word) != NoKeyword
    ensures word == Literal(KeywordOf(word))
  {
  }

  /** The printed name of a directive tells its kind. */
  lemma NamedIs(d: Directive, key: string)
    requires Parsable(d) && KeywordOf(key) != NoKeyword && KeywordOf(key) != KLocation
    ensures Named(d, key) <==> KindOf(d) == KeywordOf(key) && |Words(d)| >= 2
  {
    hide KeywordOf, Words;
    if !d.Location? && |Words(d)| >= 2 {
      KindIs(d);
      if KindOf(d) == KeywordOf(key) {
        KeywordIs(key);
        KeywordIs(Words(d)[0]);
      }
    }
  }

  /** All names at once. */
  lemma NamesAre(d: Directive)
    requires Parsable(d)
    ensures Named(d, "listen") <==> d.Listen?
    ensures Named(d, "root") <==> d.Root?
    ensures Named(d, "CGI") <==> d.Cgi?
    ensures Named(d, "exec") <==> d.Exec?
    ensures Named(d, "error") <==> d.Error?
    ensures Named(d, "client_max_body_size") <==> d.MaxBody?
    ensures Named(d, "autoindex") <==> d.Autoindex?
    ensures Named(d, "return") <==> d.Return?
    ensures Named(d, "index") <==> d.Index? && d.names != []
    ensures Named(d, "server_name") <==> d.ServerName? && d.names != []
    ensures Named(d, "methods") <==> d.Methods?
  {
    hide KeywordOf, Named;
    Keywords();
    NamedIs(d, "listen");
    NamedIs(d, "root");
    NamedIs(d, "CGI");
    NamedIs(d, "exec");
    NamedIs(d, "error");
    NamedIs(d, "client_max_body_size");
    NamedIs(d, "autoindex");
    NamedIs(d, "return");
    NamedIs(d, "index");
    NamedIs(d, "server_name");
    NamedIs(d, "methods");
  }

  lemma {:induction false} CommasTaken(names: seq<string>)
    requires forall i :: 0 <= i < |names| ==> !EndsIn(names[i], ',')
    ensures WithoutCommas(CommaList(names)) == names
  {
    if names != [] {
      if |names| > 1 {
        CommasTaken(names[1..]);
        assert CommaList(names)[1..] == CommaList(names[1..]);
      } else {
        assert names[1..] == [];
      }
      assert (names[0] + ",")[..|names[0]|] == names[0];
      assert [names[0]] + names[1..] == names;
    }
  }

  lemma OneOf(d: Directive)
    ensures forall key :: LastOf([d], key) == if Named(d, key) then Some(Words(d)[1]) else None
    ensures forall key :: NamesOf([d], key) == if Named(d, key) then Words(d)[1..] else []
    ensures MethodsOf([d]) == if Named(d, "methods") then WithoutCommas(Words(d)[1..]) else []
    ensures LastReturn([d]) == if Named(d, "return") && |Words(d)| == 3 then Some((Words(d)[1],
        Words(d)[2])) else None
    ensures LastSwitch([d]) ==
      if Named(d, "autoindex") && Words(d)[1] == "on" then Some(true)
      else if Named(d, "autoindex") && Words(d)[1] == "off" then Some(false) else None
    ensures LocationsIn([d]) == if d.Location? then 1 else 0
  {
    hide Named, Words;
    assert [d][..0] == [] && [d][|[d]| - 1] == d;
  }

  lemma SecondWord(d: Directive)
    ensures d.Listen? || d.Root? || d.Cgi? || d.Exec? || d.Error? || d.MaxBody? || d.Autoindex? ==>
      |Words(d)| == 2 && Words(d)[1] == d.value
    ensures d.Return? ==> |Words(d)| == 3 && Words(d)[1] == d.code && Words(d)[2] == d.target
    ensures d.Index? || d.ServerName? ==> Words(d)[1..] == d.names
    ensures d.Methods? ==> Words(d)[1..] == CommaList(d.names)
  {
    hide CommaList;
  }

  lemma LastIs(d: Directive, key: string)
    ensures LastOf([d], key) == if Named(d, key) then Some(Words(d)[1]) else None
  {
    hide Named, Words;
    OneOf(d);
  }

  lemma LastValues(d: Directive)
    requires Parsable(d)
    ensures LastOf([d], "listen") == if d.Listen? then Some(d.value) else None
    ensures LastOf([d], "root") == if d.Root? then Some(d.value) else None
    ensures LastOf([d], "CGI") == if d.Cgi? then Some(d.value) else None
    ensures LastOf([d], "exec") == if d.Exec? then Some(d.value) else None
    ensures LastOf([d], "error") == if d.Error? then Some(d.value) else None
    ensures LastOf([d], "client_max_body_size") == if d.MaxBody? then Some(d.value) else None
  {
    hide Named, Words, LastOf, Parsable;
    NamesAre(d);
    SecondWord(d);
    LastIs(d, "listen");
    LastIs(d, "root");
    LastIs(d, "CGI");
    LastIs(d, "exec");
    LastIs(d, "error");
    LastIs(d, "client_max_body_size");
  }

  lemma LastOthers(d: Directive)
    requires Parsable(d)
    ensures LastReturn([d]) == if d.Return? then Some((d.code, d.target)) else None
    ensures LastSwitch([d]) ==
      if d.Autoindex? && d.value == "on" then Some(true) else if d.Autoindex? &&
          d.value == "off" then Some(false) else None
  {
    hide Named, Words, LastReturn, LastSwitch, LastOf, NamesOf, Parsable;
    NamesAre(d);
    SecondWord(d);
    OneOf(d);
  }

  lemma OneValue(s: Settings, d: Directive)
    requires Parsable(d) && Meaning(s, d).Some?
    ensures FollowsValues(s, [d], Meaning(s, d).value)
  {
    hide Named, Words, LastOf, LastSwitch, LastReturn, StoiValue, ToInt32, MeaningOf, Parsable;
    LastValues(d);
    LastOthers(d);
  }

  lemma ListValues(d: Directive)
    requires Parsable(d)
    ensures NamesOf([d], "index") == if d.Index? then d.names else []
    ensures NamesOf([d], "server_name") == if d.ServerName? then d.names else []
    ensures MethodsOf([d]) == if d.Methods? then d.names else []
    ensures LocationsIn([d]) == if d.Location? then 1 else 0
  {
    hide Named, Words, NamesOf, MethodsOf, LocationsIn, CommaList, WithoutCommas;
    NamesAre(d);
    OneOf(d);
    SecondWord(d);
    if d.Methods? { CommasTaken(d.names); }
  }

  lemma OneList(s: Settings, d: Directive)
    requires Parsable(d) && Meaning(s, d).Some?
    ensures FollowsLists(s, [d], Meaning(s, d).value)
  {
    hide Named, Words, NamesOf, MethodsOf, LocationsIn, StoiValue, ToInt32, AutoindexAfter, MeaningOf, Parsable;
    ListValues(d);
    assert s.index + [] == s.index && s.serverName + [] == s.serverName && s.methods + [] == s.methods;
  }

  /** One directive does what its words say. */
  lemma OneFollows(s: Settings, d: Directive)
    requires Parsable(d) && Meaning(s, d).Some?
    ensures Follows(s, [d], Meaning(s, d).value)
  {
    hide FollowsValues, FollowsLists, Meaning, Parsable;
    OneValue(s, d);
    OneList(s, d);
  }

  lemma AppendedOf(front: seq<Directive>, d: Directive)
    ensures forall key :: LastOf(front + [d], key) == if LastOf([d], key).Some? then LastOf([d],
        key) else LastOf(front, key)
    ensures forall key :: NamesOf(front + [d], key) == NamesOf(front, key) + NamesOf([d], key)
    ensures MethodsOf(front + [d]) == MethodsOf(front) + MethodsOf([d])
    ensures LastReturn(front + [d]) == if LastReturn([d]).Some? then LastReturn([d]) else LastReturn(front)
    ensures LastSwitch(front + [d]) == if LastSwitch([d]).Some? then LastSwitch([d]) else LastSwitch(front)
    ensures LocationsIn(front + [d]) == LocationsIn(front) + LocationsIn([d])
  {
    hide Named, Words;
    var all := front + [d];
    assert all[..|all| - 1] == front && all[|all| - 1] == d;
    OneOf(d);
  }

  lemma FollowsOn(s: Settings, front: seq<Directive>, m: Settings, d: Directive, r: Settings)
    requires Follows(s, front, m) && Follows(m, [d], r)
    ensures Follows(s, front + [d], r)
  {
    hide LastOf, LastSwitch, LastReturn, NamesOf, MethodsOf, LocationsIn, StoiValue, ToInt32;
    AppendedOf(front, d);
    assert s.index + (NamesOf(front, "index") + NamesOf([d], "index"))
        == s.index + NamesOf(front, "index") + NamesOf([d], "index");
    assert s.serverName + (NamesOf(front, "server_name") + NamesOf([d], "server_name"))
        == s.serverName + NamesOf(front, "server_name") + NamesOf([d], "server_name");
    assert s.methods + (MethodsOf(front) + MethodsOf([d])) == s.methods + MethodsOf(front) + MethodsOf([d]);
  }

  lemma NothingFollows(s: Settings)
    ensures Follows(s, [], s)
  {
    assert s.index + [] == s.index && s.serverName + [] == s.serverName && s.methods + [] == s.methods;
  }

  lemma {:induction false} ParsableAt(ds: seq<Directive>, i: nat)
    requires AllParsable(ds) && i < |ds|
    ensures Parsable(ds[i]) && AllParsable(ds[..i])
  {
    if i > 0 {
      ParsableAt(ds[1..], i - 1);
      assert ds[..i][1..] == ds[1..][..i - 1];
    }
  }

  // ------------------------------------------------------------ whole blocks

  /** What a block sets: for each setting of one value the last directive with its name decides, lists
      grow by all names in order, each location adds one, and nothing else changes. */
  lemma {:induction false} SettingsLaw(s: Settings, ds: seq<Directive>)
    requires AllParsable(ds) && MeaningOf(s, ds).Some?
    ensures Follows(s, ds, MeaningOf(s, ds).value)
    decreases |ds|
  {
    hide Meaning, Follows, Parsable;
    if ds == [] {
      NothingFollows(s);
    } else {
      var front, d := ds[..|ds| - 1], ds[|ds| - 1];
      assert ds == front + [d];
      ParsableAt(ds, |ds| - 1);
      MeaningAppend(s, front, [d]);
      SettingsLaw(s, front);
      var m := MeaningOf(s, front).value;
      assert [d][1..] == [];
      OneFollows(m, d);
      FollowsOn(s, front, m, d, Meaning(m, d).value);
    }
  }

  lemma {:induction false} ParsableAppend(a: seq<Directive>, b: seq<Directive>)
    requires AllParsable(a) && AllParsable(b)
    ensures AllParsable(a + b)
    decreases |a|
  {
    if a == [] {
      assert a + b == b;
    } else {
      assert (a + b)[1..] == a[1..] + b;
      ParsableAppend(a[1..], b);
    }
  }

  lemma {:induction false} PlainParsable(ds: seq<Directive>)
    requires AllParsable(ds)
    ensures AllParsable(Plain(ds))
    decreases |ds|
  {
    if ds != [] {
      PlainParsable(ds[1..]);
      var first := if ds[0].Location? then [] else [ds[0]];
      assert first == [ds[0]] ==> first[1..] == [];
      ParsableAppend(first, Plain(ds[1..]));
    }
  }

  /** What a location has: of each setting, what the directives before it in its parent and its own
      say, read as one list; its uri; and the locations before it, followed by its own. */
  lemma LocationLaw(s: Settings, before: seq<Directive>, uri: string, body: seq<Directive>, later: seq<Directive>)
    requires AllParsable(before) && AllParsable(body)
    requires MeaningOf(s, before + ([Location(uri, body)] + later)).Some?
    ensures
      var r := MeaningOf(s, before + ([Location(uri, body)] + later)).value;
      var n := |s.locations| + LocationsIn(before);
      && n < |r.locations| && r.locations[n].uri == uri
      && Follows(Bare(s), Plain(before) + Plain(body), Bare(r.locations[n]))
      && r.locations[..n] <= r.locations[n].locations
      && |r.locations[n].locations| == n + LocationsIn(body)
  {
    hide Follows, Plain, MeaningOf, Meaning;
    LocationSnapshot(s, before, uri, body, later);
    SettingsLaw(s, before);
    var p := MeaningOf(s, before).value;
    CountOf(s, before, p);
    SettingsLaw(p.(uri := uri), body);
    CountOf(p.(uri := uri), body, MeaningOf(p.(uri := uri), body).value);
    PlainParsable(before);
    PlainParsable(body);
    ParsableAppend(Plain(before), Plain(body));
    SettingsLaw(Bare(s), Plain(before) + Plain(body));
    EarlierStay(s, before, [Location(uri, body)] + later);
  }

  lemma CountOf(s: Settings, ds: seq<Directive>, r: Settings)
    requires Follows(s, ds, r)
    ensures |r.locations| == |s.locations| + LocationsIn(ds)
  {
    hide LastOf, LastSwitch, LastReturn, NamesOf, MethodsOf, StoiValue, ToInt32;
  }

  lemma EarlierStay(s: Settings, before: seq<Directive>, others: seq<Directive>)
    requires MeaningOf(s, before + others).Some?
    ensures MeaningOf(s, before).Some? && MeaningOf(s, before).value.locations <= MeaningOf(s,
        before + others).value.locations
  {
    MeaningAppend(s, before, others);
    ListsGrow(MeaningOf(s, before).value, others);
  }

  // ------------------------------------------------------------------ errors

  /** A block is an error when a "return" in it, at any depth, has a code that reads as 0. */
  predicate IsError(d: Directive)
    decreases d, 0
  {
    if d.Location? then AreErrors(d.body)
    else |Words(d)| == 3 && Named(d, "return") && ToInt32(StoiValue(Words(d)[1])) == 0
  }

  predicate AreErrors(ds: seq<Directive>)
    decreases ds, 1
  {
    ds != [] && (IsError(ds[0]) || AreErrors(ds[1..]))
  }

  lemma {:induction false} ErrorLaw(s: Settings, d: Directive)
    requires Parsable(d)
    ensures Meaning(s, d).None? <==> IsError(d)
    decreases d, 0
  {
    hide Named, StoiValue, ToInt32, CommaList;
    if d.Location? {
      ErrorsLaw(s.(uri := d.uri), d.body);
    } else {
      NamesAre(d);
    }
  }

  /** Which blocks are errors. */
  lemma {:induction false} ErrorsLaw(s: Settings, ds: seq<Directive>)
    requires AllParsable(ds)
    ensures MeaningOf(s, ds).None? <==> AreErrors(ds)
    decreases ds, 1
  {
    hide Meaning, IsError, Parsable;
    if ds != [] {
      ErrorLaw(s, ds[0]);
      if Meaning(s, ds[0]).Some? { ErrorsLaw(Meaning(s, ds[0]).value, ds[1..]); }
    }
  }

  // ------------------------------------------------------------- whole files

  lemma {:induction false} ServersLaw(trees: seq<seq<Directive>>, id: int)
    requires forall k :: 0 <= k < |trees| ==> AllParsable(trees[k])
    ensures
      match MeaningOfServers(trees, id)
      case Servers(servers) =>
        && |servers| == |trees|
        && (forall k :: 0 <= k < |trees| ==> !AreErrors(trees[k]))
        && (forall k :: 0 <= k < |trees| ==> MeaningOf(Blank(id + k), trees[k]) == Some(servers[k]))
      case Failed => exists k :: 0 <= k < |trees| && AreErrors(trees[k])
      case RanOver => false
    decreases |trees|
  {
    hide MeaningOf, AreErrors, AllParsable, Blank;
    if trees != [] {
      ErrorsLaw(Blank(id), trees[0]);
      ServersLaw(trees[1..], id + 1);
      var others := MeaningOfServers(trees[1..], id + 1);
      if MeaningOf(Blank(id), trees[0]).Some? {
        if others.Servers? {
          forall k | 0 < k < |trees| ensures !AreErrors(trees[k])
            ensures MeaningOf(Blank(id + k), trees[k]) == Some(others.servers[k - 1])
          {
            assert trees[k] == trees[1..][k - 1];
          }
        } else {
          var k :| 0 <= k < |trees[1..]| && AreErrors(trees[1..][k]);
          assert AreErrors(trees[k + 1]);
        }
      }
    }
  }

  /** Loading a printed file: it fails exactly when some "return" reads as 0, and else the k-th server
      has the settings that its directives say, from nothing. */
  lemma LoadLaw(trees: seq<seq<Directive>>, ls: seq<Layout>, below: seq<string>)
    requires forall k :: 0 <= k < |trees| ==> AllPrintable(trees[k]) && AllParsable(trees[k])
    requires |ls| == LinesOfServers(trees) && AreLayouts(ls) && AreFillers(below)
    ensures
      match Load(PrintServers(trees, ls, below))
      case Servers(servers) =>
        && |servers| == |trees|
        && (forall k :: 0 <= k < |trees| ==> !AreErrors(trees[k]))
        && (forall k :: 0 <= k < |trees| ==>
              Follows(Settings(false, 0, k + 1, "", "", [], "", "", "", "", 0, [], [], [], ""), trees[k], servers[k]))
      case Failed => exists k :: 0 <= k < |trees| && AreErrors(trees[k])
      case RanOver => false
  {
    hide Load, MeaningOfServers, MeaningOf, AreErrors, AllParsable, AllPrintable, Follows, AreLayouts, AreFillers;
    ConfigRoundTrip(trees, ls, below);
    ServersLaw(trees, 1);
    if Load(PrintServers(trees, ls, below)).Servers? {
      forall k | 0 <= k < |trees|
        ensures Follows(Settings(false, 0, k + 1, "", "", [], "", "", "", "", 0, [], [], [], ""), trees[k],
                        Load(PrintServers(trees, ls, below)).servers[k])
      {
        SettingsLaw(Blank(1 + k), trees[k]);
      }
    }
  }

  /** Token lists that are no configuration: a server or a location without a block is an exception, and
      a list that ends before its block does makes the parser read past it. */
  lemma Malformed(u: string, x: string, rest: seq<string>)
    requires x != "{"
    ensures ParseServers(["server", x] + rest, 0, 1) == Failed
    ensures ParseServers(["server", "{", "location", u, x] + rest, 0, 1) == Failed
    ensures ParseServers(["server"], 0, 1) == RanOver
    ensures ParseServers(["server", "{"], 0, 1) == RanOver
    ensures ParseServers(["server", "{", "location", u], 0, 1) == RanOver
  {
    hide KeywordOf;
    Keywords();
    var t := ["server", "{", "location", u, x] + rest;
    assert t[2] == "location" && t[4] == x;
    assert ParseDirective(t, 2, Blank(1)) == Thrown;
    assert ParseBlock(t, 2, Blank(1)) == Thrown;
    var v := ["server", "{", "location", u];
    assert ParseDirective(v, 2, Blank(1)) == Overrun;
    assert ParseBlock(v, 2, Blank(1)) == Overrun;
  }
}
