/** What a location block inherits: the settings of its parent at the point where it stands. */
module Inheritance {
  import opened Wrappers
  import opened ConfigSpec

  /** Settings without what tells a location from its parent. */
  function Bare(s: Settings): Settings { s.(locations := [], uri := "") }

  /** A block without its locations. */
  function Plain(ds: seq<Directive>): seq<Directive> {
    if ds == [] then []
    else (if ds[0].Location? then [] else [ds[0]]) + Plain(ds[1..])
  }

  lemma {:induction false} MeaningAppend(s: Settings, a: seq<Directive>, b: seq<Directive>)
    ensures MeaningOf(s, a + b) ==
      if MeaningOf(s, a).None? then None else MeaningOf(MeaningOf(s, a).value, b)
    decreases |a|
  {
    if a == [] {
      assert a + b == b;
    } else {
      assert (a + b)[0] == a[0] && (a + b)[1..] == a[1..] + b;
      var first := Meaning(s, a[0]);
      if first.Some? { MeaningAppend(first.value, a[1..], b); }
    }
  }

  predicate Grown(s: Settings, r: Settings) {
    && s.locations <= r.locations && s.methods <= r.methods && s.index <= r.index
    && s.serverName <= r.serverName && r.uri == s.uri && r.id == s.id
  }

  lemma OneGrows(s: Settings, d: Directive)
    requires Meaning(s, d).Some?
    ensures Grown(s, Meaning(s, d).value)
  {
  }

  /** Directives only add to the lists, and leave the uri and the number alone. */
  lemma {:induction false} ListsGrow(s: Settings, ds: seq<Directive>)
    requires MeaningOf(s, ds).Some?
    ensures Grown(s, MeaningOf(s, ds).value)
    decreases |ds|
  {
    hide Meaning;
    if ds != [] {
      OneGrows(s, ds[0]);
      ListsGrow(Meaning(s, ds[0]).value, ds[1..]);
    }
  }

  /** A block means what it means without its locations, but for the locations. */
  lemma {:induction false} PlainMeaning(s: Settings, ds: seq<Directive>)
    requires MeaningOf(s, ds).Some?
    ensures MeaningOf(Bare(s), Plain(ds)) == Some(Bare(MeaningOf(s, ds).value))
    decreases |ds|
  {
    if ds != [] {
      var d, first := ds[0], Meaning(s, ds[0]).value;
      PlainMeaning(first, ds[1..]);
      if d.Location? {
        assert Bare(first) == Bare(s) && Plain(ds) == Plain(ds[1..]);
      } else {
        assert Meaning(Bare(s), d) == Some(Bare(first));
        assert Plain(ds)[0] == d && Plain(ds)[1..] == Plain(ds[1..]);
      }
    }
  }

  /** A location is what its own block makes of its parent's settings at that point, earlier
      siblings copied in and lists only added to; what follows it does not change it.  But for its uri and locations it
      is the directives before it in the parent and its own, read as one flat list. */
  lemma LocationSnapshot(s: Settings, before: seq<Directive>, uri: string, body: seq<Directive>,
      later: seq<Directive>)
    requires MeaningOf(s, before + ([Location(uri, body)] + later)).Some?
    ensures MeaningOf(s, before).Some?
    ensures
      var r, p := MeaningOf(s, before + ([Location(uri, body)] + later)).value, MeaningOf(s, before).value;
      && MeaningOf(p.(uri := uri), body).Some?
      && |p.locations| < |r.locations|
      && var inner := r.locations[|p.locations|];
         && inner == MeaningOf(p.(uri := uri), body).value
         && Grown(p.(uri := uri), inner)
         && MeaningOf(Bare(s), Plain(before) + Plain(body)) == Some(Bare(inner))
  {
    hide Plain;
    var here := Location(uri, body);
    MeaningAppend(s, before, [here] + later);
    var p := MeaningOf(s, before).value;
    assert ([here] + later)[1..] == later;
    var after := Meaning(p, here).value;
    ListsGrow(p.(uri := uri), body);
    ListsGrow(after, later);
    PlainMeaning(s, before);
    PlainMeaning(p.(uri := uri), body);
    MeaningAppend(Bare(s), Plain(before), Plain(body));
  }
}
