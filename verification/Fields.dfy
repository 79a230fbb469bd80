/** The header map: `std::map<std::string, std::string>` as the sequence of its entries
    in iteration order, that is, with strictly increasing keys. */
module Fields {
  import opened Wrappers
  import opened Text

  datatype Field = Field(key: string, value: string)

  type FieldMap = seq<Field>

  /** The order of std::string: lexicographic on characters. */
  predicate Less(a: string, b: string) {
    if b == [] then false
    else if a == [] then true
    else if a[0] != b[0] then a[0] < b[0]
    else Less(a[1..], b[1..])
  }

  ghost predicate Sorted(m: FieldMap) {
    forall i, j :: 0 <= i < j < |m| ==> Less(m[i].key, m[j].key)
  }

  /** std::map::insert: a key that is already there keeps its value. */
  function Insert(m: FieldMap, key: string, value: string): FieldMap {
    if m == [] then [Field(key, value)]
    else if m[0].key == key then m
    else if Less(key, m[0].key) then [Field(key, value)] + m
    else [m[0]] + Insert(m[1..], key, value)
  }

  /** std::map::find. */
  function Lookup(m: FieldMap, key: string): Option<string> {
    if m == [] then None
    else if m[0].key == key then Some(m[0].value)
    else Lookup(m[1..], key)
  }

  function FieldLine(f: Field): string { f.key + ": " + f.value }

  /** What putHeaders writes: the entries in map order, then the blank line. */
  function PrintFields(m: FieldMap): string {
    if m == [] then CRLF else FieldLine(m[0]) + CRLF + PrintFields(m[1..])
  }

  // ---------------------------------------------------------------- lemmas

  lemma {:induction false} LessIrreflexive(a: string)
    ensures !Less(a, a)
  {
    if a != [] { LessIrreflexive(a[1..]); }
  }

  lemma {:induction false} LessAsymmetric(a: string, b: string)
    requires Less(a, b)
    ensures !Less(b, a)
  {
    if a != [] && a[0] == b[0] { LessAsymmetric(a[1..], b[1..]); }
  }

  lemma {:induction false} LessTransitive(a: string, b: string, c: string)
    requires Less(a, b) && Less(b, c)
    ensures Less(a, c)
  {
    if a != [] && a[0] == b[0] && b[0] == c[0] { LessTransitive(a[1..], b[1..], c[1..]); }
  }

  lemma {:induction false} LessTotal(a: string, b: string)
    requires a != b
    ensures Less(a, b) || Less(b, a)
  {
    if a != [] && b != [] && a[0] == b[0] {
      assert a == [a[0]] + a[1..] && b == [b[0]] + b[1..];
      LessTotal(a[1..], b[1..]);
    }
  }

  lemma {:induction false} InsertKeys(m: FieldMap, key: string, value: string)
    ensures forall f :: f in Insert(m, key, value) ==> f in m || f == Field(key, value)
  {
    if m != [] {
      InsertKeys(m[1..], key, value);
    }
  }

  /** Insertion keeps the entries in map order. */
  lemma {:induction false} InsertSorted(m: FieldMap, key: string, value: string)
    requires Sorted(m)
    ensures Sorted(Insert(m, key, value))
  {
    if m == [] || m[0].key == key {
    } else if Less(key, m[0].key) {
      forall j | 0 < j < |m| ensures Less(key, m[j].key) {
        LessTransitive(key, m[0].key, m[j].key);
      }
    } else {
      LessTotal(key, m[0].key);
      InsertSorted(m[1..], key, value);
      InsertKeys(m[1..], key, value);
      var r := Insert(m[1..], key, value);
      forall j | 0 <= j < |r| ensures Less(m[0].key, r[j].key) {
        assert r[j] in r;
        if r[j] in m[1..] {
          var k :| 0 <= k < |m[1..]| && m[1..][k] == r[j];
          assert m[k + 1] == r[j];
        }
      }
    }
  }

  /** What insertion means for every later find: the first value given to a key stays. */
  lemma {:induction false} InsertLookup(m: FieldMap, key: string, value: string, x: string)
    requires Sorted(m)
    ensures Lookup(Insert(m, key, value), x)
         == if x == key && Lookup(m, key).None? then Some(value) else Lookup(m, x)
  {
    if m == [] || m[0].key == key {
    } else if Less(key, m[0].key) {
      assert ([Field(key, value)] + m)[1..] == m;
      LookupBelow(m, key);
    } else {
      InsertLookup(m[1..], key, value, x);
      assert ([m[0]] + Insert(m[1..], key, value))[1..] == Insert(m[1..], key, value);
    }
  }

  lemma {:induction false} LookupBelow(m: FieldMap, key: string)
    requires Sorted(m) && m != [] && Less(key, m[0].key)
    ensures Lookup(m, key).None?
  {
    LessIrreflexive(key);
    if |m| > 1 {
      LessTransitive(key, m[0].key, m[1].key);
      LookupBelow(m[1..], key);
    }
  }

  /** Inserting above every key appends: this is how a printed map is rebuilt. */
  lemma {:induction false} InsertLast(m: FieldMap, key: string, value: string)
    requires Sorted(m + [Field(key, value)])
    ensures Insert(m, key, value) == m + [Field(key, value)]
  {
    if m != [] {
      var all := m + [Field(key, value)];
      assert Less(all[0].key, all[|m|].key);
      LessAsymmetric(m[0].key, key);
      LessIrreflexive(key);
      assert m[1..] + [Field(key, value)] == all[1..];
      InsertLast(m[1..], key, value);
    }
  }

  /** The order of keys: a prefix comes before what extends it, and else the first difference decides. */
  lemma {:induction false} LessExact(a: string, b: string)
    ensures Less(a, b) <==>
      exists k :: 0 <= k <= |a| && k < |b| && a[..k] == b[..k] && (k == |a| || a[k] < b[k])
    decreases |a|
  {
    if a != [] && b != [] && a[0] == b[0] {
      LessExact(a[1..], b[1..]);
      if Less(a, b) {
        var k :| 0 <= k <= |a[1..]| && k < |b[1..]| && a[1..][..k] == b[1..][..k] &&
            (k == |a[1..]| || a[1..][k] < b[1..][k]);
        assert a[..k + 1] == [a[0]] + a[1..][..k] == b[..k + 1];
      }
      if k :| 0 <= k <= |a| && k < |b| && a[..k] == b[..k] && (k == |a| || a[k] < b[k]) {
        assert k > 0;
        assert a[1..][..k - 1] == a[..k][1..] == b[1..][..k - 1];
        assert k == |a| || a[1..][k - 1] < b[1..][k - 1];
      }
    } else if Less(a, b) {
      assert a[..0] == b[..0];
    }
  }

  lemma LessBy(a: string, b: string, k: nat)
    requires k <= |a| && k < |b| && a[..k] == b[..k] && (k == |a| || a[k] < b[k])
    ensures Less(a, b)
  {
    LessExact(a, b);
  }

  /** A map in order is determined by what it finds. */
  lemma {:induction false} SameMap(a: FieldMap, b: FieldMap)
    requires Sorted(a) && Sorted(b) && forall key :: Lookup(a, key) == Lookup(b, key)
    ensures a == b
    decreases |a|
  {
    FirstFound(a);
    FirstFound(b);
    if a != [] {
      FirstSmallest(a, b);
      FirstSmallest(b, a);
      LessAntisymmetricKeys(a, b);
      forall key ensures Lookup(a[1..], key) == Lookup(b[1..], key) {
        NotInRest(a);
        NotInRest(b);
        assert Lookup(a, key) == Lookup(b, key);
      }
      SameMap(a[1..], b[1..]);
    }
  }

  lemma FirstFound(m: FieldMap)
    ensures m != [] ==> Lookup(m, m[0].key) == Some(m[0].value)
  {
  }

  lemma NotInRest(m: FieldMap)
    requires Sorted(m) && m != []
    ensures Lookup(m[1..], m[0].key).None?
  {
    if |m| > 1 { LookupBelow(m[1..], m[0].key); }
  }

  lemma LessAntisymmetricKeys(a: FieldMap, b: FieldMap)
    requires a != [] && b != [] && !Less(a[0].key, b[0].key) && !Less(b[0].key, a[0].key)
    ensures a[0].key == b[0].key
  {
    if a[0].key != b[0].key { LessTotal(a[0].key, b[0].key); }
  }

  lemma FirstSmallest(a: FieldMap, b: FieldMap)
    requires Sorted(a) && Sorted(b) && a != [] && forall key :: Lookup(a, key) == Lookup(b, key)
    ensures b != [] && !Less(a[0].key, b[0].key)
  {
    FirstFound(a);
    if b != [] && Less(a[0].key, b[0].key) { LookupBelow(b, a[0].key); }
  }

  lemma LookupAppend(a: FieldMap, b: FieldMap, key: string)
    ensures Lookup(a + b, key) == if Lookup(a, key).Some? then Lookup(a, key) else Lookup(b, key)
  {
    if a == [] {
      assert a + b == b;
    } else {
      assert (a + b)[1..] == a[1..] + b;
      LookupAppend(a[1..], b, key);
    }
  }

  /** The printed form, character by character. */
  lemma PrintFieldsIs(f: Field, later: FieldMap)
    ensures PrintFields([]) == "\r\n"
    ensures PrintFields([f] + later) == f.key + ": " + f.value + "\r\n" + PrintFields(later)
  {
    assert ([f] + later)[1..] == later;
  }
}
