/**
 The per-resource plugin store: `plugin -> key -> value` updated by compare-and-set.

 A missing key and a key holding the empty string read the same, and writing the empty string
 deletes. The laws below take that reading (`View`) as what the store means.
 */
module PluginData {
  type Data = map<string, string>
  type Entries = map<string, Data>

  /** A nil and an empty `expected` ask for nothing, so both are the empty map. */
  datatype Params = Params(kind: string, resource: string, plugin: string, writes: Data, expected: Data)

  datatype Result = Done | KindMismatch | NameMismatch | CompareFailed(field: string)

  datatype Store = Store(subKind: string, name: string, entries: Entries)

  function Get(d: Data, key: string): string {
    if key in d then d[key] else ""
  }

  function DataOf(es: Entries, plugin: string): Data {
    if plugin in es then es[plugin] else map[]
  }

  /** What the store means: a value for every plugin and key, the empty string by default. */
  function View(es: Entries, plugin: string, key: string): string {
    Get(DataOf(es, plugin), key)
  }

  // ---------- One update on values ----------

  function Write(d: Data, key: string, val: string): Data {
    if val == "" then d - {key} else d[key := val]
  }

  /** The writes applied one after the other in the given order of keys. */
  function WriteAll(d: Data, writes: Data, order: seq<string>): Data
    requires forall k | k in order :: k in writes
  {
    if order == [] then d
    else
      var last := order[|order| - 1];
      Write(WriteAll(d, writes, order[..|order| - 1]), last, writes[last])
  }

  /** The writes applied all at once. */
  function Overlay(d: Data, writes: Data): Data {
    map k | k in d.Keys + writes.Keys && (k in writes ==> writes[k] != "") ::
      if k in writes then writes[k] else d[k]
  }

  function Updated(es: Entries, p: Params): Entries {
    var d := Overlay(DataOf(es, p.plugin), p.writes);
    if d == map[] then es - {p.plugin} else es[p.plugin := d]
  }

  predicate Met(es: Entries, p: Params) {
    forall k | k in p.expected :: View(es, p.plugin, k) == p.expected[k]
  }

  predicate Accepts(s: Store, p: Params) {
    p.kind == s.subKind && p.resource == s.name && Met(s.entries, p)
  }

  /** The answers the checks of an update may give; only the choice of a failing field is open. */
  predicate Answers(s: Store, p: Params, r: Result) {
    match r
    case Done => Accepts(s, p)
    case KindMismatch => p.kind != s.subKind
    case NameMismatch => p.kind == s.subKind && p.resource != s.name
    case CompareFailed(f) =>
      && p.kind == s.subKind && p.resource == s.name
      && f in p.expected && View(s.entries, p.plugin, f) != p.expected[f]
  }

  function Next(s: Store, p: Params): Store {
    if Accepts(s, p) then s.(entries := Updated(s.entries, p)) else s
  }

  function Run(s: Store, ps: seq<Params>): Store {
    if ps == [] then s else Next(Run(s, ps[..|ps| - 1]), ps[|ps| - 1])
  }

  lemma {:induction false} WriteAllAt(d: Data, writes: Data, order: seq<string>, k: string)
    requires forall x | x in order :: x in writes
    ensures var r := WriteAll(d, writes, order);
      && (k in r <==> if k in order then writes[k] != "" else k in d)
      && (k in r ==> r[k] == if k in order then writes[k] else d[k])
  {
    if order != [] {
      var front := order[..|order| - 1];
      assert order == front + [order[|order| - 1]];
      WriteAllAt(d, writes, front, k);
    }
  }

  lemma LastWriteStays(es: Entries, plugin: string, d: Data)
    ensures es[plugin := map[]][plugin := d] == es[plugin := d]
    ensures es[plugin := d] - {plugin} == es - {plugin}
  {
  }

  /** The loop over `writes` has one result, whatever order the map is iterated in. */
  lemma AnyOrder(d: Data, writes: Data, order: seq<string>)
    requires forall k :: k in order <==> k in writes
    ensures WriteAll(d, writes, order) == Overlay(d, writes)
  {
    forall k: string
      ensures k in WriteAll(d, writes, order) <==> k in Overlay(d, writes)
      ensures k in Overlay(d, writes) ==> WriteAll(d, writes, order)[k] == Overlay(d, writes)[k]
    {
      WriteAllAt(d, writes, order, k);
    }
  }

  // ---------- The store itself ----------

  class PluginDataV3 {
    var subKind: string
    var name: string
    var entries: Entries

    constructor Init(resourceName: string, resourceKind: string)
      ensures Value() == Store(resourceKind, resourceName, map[])
    {
      subKind, name, entries := resourceKind, resourceName, map[];
    }

    function Value(): Store
      reads this
    {
      Store(subKind, name, entries)
    }

    /** Yields `Done` exactly when every expectation holds, else some field that does not. */
    method CheckExpectations(plugin: string, expected: Data) returns (r: Result)
      ensures r == Done || r.CompareFailed?
      ensures r == Done <==> forall k | k in expected :: View(entries, plugin, k) == expected[k]
      ensures r.CompareFailed? ==> r.field in expected && View(entries, plugin, r.field) != expected[r.field]
    {
      var rest := expected.Keys;
      if plugin !in entries {
        while rest != {}
          invariant rest <= expected.Keys
          invariant forall k | k in expected && k !in rest :: expected[k] == ""
        {
          var key :| key in rest;
          if expected[key] != "" {
            return CompareFailed(key);
          }
          rest := rest - {key};
        }
        return Done;
      }
      var data := entries[plugin];
      while rest != {}
        invariant rest <= expected.Keys
        invariant forall k | k in expected && k !in rest :: Get(data, k) == expected[k]
      {
        var key :| key in rest;
        if Get(data, key) != expected[key] {
          return CompareFailed(key);
        }
        rest := rest - {key};
      }
      return Done;
    }

    /** The loop over the keys to set, in whatever order the map yields them. */
    method WriteKeys(plugin: string, writes: Data)
      requires plugin in entries
      modifies `entries
      ensures entries == old(entries)[plugin := Overlay(old(entries)[plugin], writes)]
    {
      var data := entries[plugin];
      ghost var order: seq<string> := [];
      var rest := writes.Keys;
      while rest != {}
        invariant rest <= writes.Keys
        invariant forall k :: k in order <==> k in writes && k !in rest
        invariant data == WriteAll(entries[plugin], writes, order)
      {
        var key :| key in rest;
        if writes[key] == "" {
          data := data - {key};
        } else {
          data := data[key := writes[key]];
        }
        rest := rest - {key};
        assert (order + [key])[..|order|] == order;
        order := order + [key];
      }
      AnyOrder(entries[plugin], writes, order);
      entries := entries[plugin := data];
    }

    method Apply(p: Params)
      modifies `entries
      ensures entries == Updated(old(entries), p)
    {
      if p.plugin !in entries {
        entries := entries[p.plugin := map[]];
      }
      WriteKeys(p.plugin, p.writes);
      LastWriteStays(old(entries), p.plugin, entries[p.plugin]);
      if |entries[p.plugin]| == 0 {
        entries := entries - {p.plugin};
      }
    }

    method Update(p: Params) returns (r: Result)
      modifies this
      ensures Answers(old(Value()), p, r)
      ensures r == Done <==> Accepts(old(Value()), p)
      ensures Value() == Next(old(Value()), p)
    {
      if p.kind != subKind {
        return KindMismatch;
      }
      if p.resource != name {
        return NameMismatch;
      }
      r := CheckExpectations(p.plugin, p.expected);
      if r != Done {
        return;
      }
      Apply(p);
    }
  }

  /** A new store is made exactly for a named resource of a given kind, and it is empty. */
  method NewPluginData(resourceName: string, resourceKind: string) returns (r: PluginDataV3?)
    ensures r != null <==> resourceName != "" && resourceKind != ""
    ensures r != null ==> fresh(r) && r.Value() == Store(resourceKind, resourceName, map[])
  {
    if resourceName == "" || resourceKind == "" {
      return null;
    }
    r := new PluginDataV3.Init(resourceName, resourceKind);
  }

  // ---------- Compare-and-set on the meaning ----------

  /** An unbounded array of cells; nothing here knows about entries or deletion. */
  type Cells = (string, string) -> string

  ghost predicate Shows(es: Entries, v: Cells) {
    forall plugin, key :: View(es, plugin, key) == v(plugin, key)
  }

  predicate CasAccepts(kind: string, name: string, v: Cells, p: Params) {
    p.kind == kind && p.resource == name && forall k | k in p.expected :: v(p.plugin, k) == p.expected[k]
  }

  function CasNext(kind: string, name: string, v: Cells, p: Params): Cells {
    if CasAccepts(kind, name, v, p)
    then (plugin, key) => if plugin == p.plugin && key in p.writes then p.writes[key] else v(plugin, key)
    else v
  }

  function CasRun(kind: string, name: string, v: Cells, ps: seq<Params>): Cells {
    if ps == [] then v else CasNext(kind, name, CasRun(kind, name, v, ps[..|ps| - 1]), ps[|ps| - 1])
  }

  /** An update overrides the written keys of its own plugin and nothing else. */
  lemma UpdatedView(es: Entries, p: Params, plugin: string, key: string)
    ensures View(Updated(es, p), plugin, key)
         == if plugin == p.plugin && key in p.writes then p.writes[key] else View(es, plugin, key)
  {
    var d := Overlay(DataOf(es, p.plugin), p.writes);
    assert d == map[] ==> key !in d;
    assert plugin == p.plugin ==> DataOf(Updated(es, p), plugin) == d;
  }

  lemma NextRefines(s: Store, v: Cells, p: Params)
    requires Shows(s.entries, v)
    ensures Accepts(s, p) == CasAccepts(s.subKind, s.name, v, p)
    ensures Shows(Next(s, p).entries, CasNext(s.subKind, s.name, v, p))
  {
    assert Accepts(s, p) ==> CasAccepts(s.subKind, s.name, v, p);
    assert CasAccepts(s.subKind, s.name, v, p) ==> Accepts(s, p);
    forall plugin, key
      ensures View(Next(s, p).entries, plugin, key) == CasNext(s.subKind, s.name, v, p)(plugin, key)
    {
      UpdatedView(s.entries, p, plugin, key);
    }
  }

  /** Every run of updates is a run of compare-and-set over cells: same answers, same contents. */
  lemma {:induction false} RunRefines(s: Store, v: Cells, ps: seq<Params>)
    requires Shows(s.entries, v)
    ensures Run(s, ps).subKind == s.subKind && Run(s, ps).name == s.name
    ensures Shows(Run(s, ps).entries, CasRun(s.subKind, s.name, v, ps))
    ensures forall i | 0 <= i < |ps| ::
      Accepts(Run(s, ps[..i]), ps[i]) == CasAccepts(s.subKind, s.name, CasRun(s.subKind, s.name, v, ps[..i]), ps[i])
  {
    if ps != [] {
      var n := |ps| - 1;
      var front := ps[..n];
      RunRefines(s, v, front);
      NextRefines(Run(s, front), CasRun(s.subKind, s.name, v, front), ps[n]);
      forall i | 0 <= i < |ps|
        ensures Accepts(Run(s, ps[..i]), ps[i])
             == CasAccepts(s.subKind, s.name, CasRun(s.subKind, s.name, v, ps[..i]), ps[i])
      {
        if i < n {
          assert front[..i] == ps[..i] && front[i] == ps[i];
        }
      }
    }
  }

  // ---------- One representation for each meaning ----------

  /** No plugin is kept without data and no key without a value. */
  predicate Normal(es: Entries) {
    forall plugin | plugin in es :: es[plugin] != map[] && forall k | k in es[plugin] :: es[plugin][k] != ""
  }

  lemma UpdatedNormal(es: Entries, p: Params)
    requires Normal(es)
    ensures Normal(Updated(es, p))
  {
    var base := DataOf(es, p.plugin);
    var d := Overlay(base, p.writes);
    forall k | k in d ensures d[k] != "" {
      assert k !in p.writes ==> k in base;
    }
  }

  lemma {:induction false} RunNormal(s: Store, ps: seq<Params>)
    requires Normal(s.entries)
    ensures Normal(Run(s, ps).entries)
  {
    if ps != [] {
      var front := ps[..|ps| - 1];
      RunNormal(s, front);
      UpdatedNormal(Run(s, front).entries, ps[|ps| - 1]);
    }
  }

  ghost predicate SameView(a: Entries, b: Entries) {
    forall plugin, key :: View(a, plugin, key) == View(b, plugin, key)
  }

  lemma Witness(d: Data) returns (k: string)
    requires d != map[]
    ensures k in d
  {
    k :| k in d;
  }

  lemma SameDomain(a: Entries, b: Entries, plugin: string)
    requires Normal(a) && SameView(a, b) && plugin in a
    ensures plugin in b
  {
    var k := Witness(a[plugin]);
    assert View(a, plugin, k) == View(b, plugin, k);
  }

  lemma SameData(a: Entries, b: Entries, plugin: string)
    requires Normal(a) && Normal(b) && SameView(a, b) && plugin in a && plugin in b
    ensures a[plugin] == b[plugin]
  {
    forall k
      ensures k in a[plugin] <==> k in b[plugin]
      ensures k in a[plugin] && k in b[plugin] ==> a[plugin][k] == b[plugin][k]
    {
      assert View(a, plugin, k) == View(b, plugin, k);
    }
  }

  lemma NormalIsUnique(a: Entries, b: Entries)
    requires Normal(a) && Normal(b) && SameView(a, b)
    ensures a == b
  {
    forall plugin: string
      ensures plugin in a <==> plugin in b
      ensures plugin in a && plugin in b ==> a[plugin] == b[plugin]
    {
      if plugin in a {
        SameDomain(a, b, plugin);
        SameData(a, b, plugin);
      } else if plugin in b {
        SameDomain(b, a, plugin);
      }
    }
  }

  /** Two histories of one resource that leave the same meaning leave the same maps. */
  lemma HistoriesAgree(kind: string, name: string, v: Cells, ps: seq<Params>, qs: seq<Params>)
    requires forall plugin, key :: v(plugin, key) == ""
    requires forall plugin, key :: CasRun(kind, name, v, ps)(plugin, key) == CasRun(kind, name, v, qs)(plugin, key)
    ensures Run(Store(kind, name, map[]), ps) == Run(Store(kind, name, map[]), qs)
  {
    var s := Store(kind, name, map[]);
    assert Shows(s.entries, v);
    RunRefines(s, v, ps);
    RunRefines(s, v, qs);
    RunNormal(s, ps);
    RunNormal(s, qs);
    var a, b := Run(s, ps).entries, Run(s, qs).entries;
    forall plugin, key ensures View(a, plugin, key) == View(b, plugin, key) {
      assert CasRun(kind, name, v, ps)(plugin, key) == CasRun(kind, name, v, qs)(plugin, key);
    }
    NormalIsUnique(a, b);
  }

  // ---------- What plugins rely on ----------

  /** `p` writes no cell that `q` writes or looks at. */
  predicate Ignores(p: Params, q: Params) {
    p.plugin == q.plugin ==> p.writes.Keys !! q.writes.Keys && p.writes.Keys !! q.expected.Keys
  }

  lemma AcceptsAfter(s: Store, p: Params, q: Params)
    requires Ignores(p, q)
    ensures Accepts(Next(s, p), q) == Accepts(s, q)
  {
    forall k | k in q.expected ensures View(Next(s, p).entries, q.plugin, k) == View(s.entries, q.plugin, k) {
      UpdatedView(s.entries, p, q.plugin, k);
    }
    assert Met(Next(s, p).entries, q) == Met(s.entries, q);
  }

  lemma NextNormal(s: Store, p: Params)
    requires Normal(s.entries)
    ensures Normal(Next(s, p).entries)
  {
    UpdatedNormal(s.entries, p);
  }

  /** Updates that do not touch each other's cells, such as those of two plugins, commute exactly. */
  lemma Commute(s: Store, p: Params, q: Params)
    requires Normal(s.entries) && Ignores(p, q) && Ignores(q, p)
    ensures Accepts(Next(s, p), q) == Accepts(s, q) && Accepts(Next(s, q), p) == Accepts(s, p)
    ensures Next(Next(s, p), q) == Next(Next(s, q), p)
  {
    AcceptsAfter(s, p, q);
    AcceptsAfter(s, q, p);
    var sp, sq := Next(s, p), Next(s, q);
    var a, b := Next(sp, q).entries, Next(sq, p).entries;
    forall plugin, key ensures View(a, plugin, key) == View(b, plugin, key) {
      UpdatedView(s.entries, p, plugin, key);
      UpdatedView(s.entries, q, plugin, key);
      UpdatedView(sp.entries, q, plugin, key);
      UpdatedView(sq.entries, p, plugin, key);
    }
    NextNormal(s, p);
    NextNormal(s, q);
    NextNormal(sp, q);
    NextNormal(sq, p);
    NormalIsUnique(a, b);
  }

  /** The update that puts back what `p` overwrote. */
  function Undo(es: Entries, p: Params): Params {
    p.(writes := map k | k in p.writes :: View(es, p.plugin, k), expected := p.writes)
  }

  /** After an accepted update its undo is accepted and restores the maps, deletions included. */
  lemma UndoRestores(s: Store, p: Params)
    requires Normal(s.entries) && Accepts(s, p)
    ensures Accepts(Next(s, p), Undo(s.entries, p)) && Next(Next(s, p), Undo(s.entries, p)) == s
  {
    var t, u := Next(s, p), Undo(s.entries, p);
    forall k | k in u.expected ensures View(t.entries, u.plugin, k) == u.expected[k] {
      UpdatedView(s.entries, p, p.plugin, k);
    }
    assert Accepts(t, u);
    var back := Next(t, u).entries;
    forall plugin, key ensures View(back, plugin, key) == View(s.entries, plugin, key) {
      UpdatedView(s.entries, p, plugin, key);
      UpdatedView(t.entries, u, plugin, key);
    }
    NextNormal(s, p);
    NextNormal(t, u);
    NormalIsUnique(back, s.entries);
  }

  predicate Takes(p: Params, plugin: string, key: string, from: string) {
    p.plugin == plugin && key in p.expected && p.expected[key] == from && key in p.writes && p.writes[key] != from
  }

  predicate PutsBack(p: Params, plugin: string, key: string, from: string) {
    p.plugin == plugin && key in p.writes && p.writes[key] == from
  }

  /** A cell moved away from a value keeps other values until some accepted update writes it back. */
  lemma {:induction false} StaysAway(s: Store, ps: seq<Params>, plugin: string, key: string, from: string)
    requires View(s.entries, plugin, key) != from
    requires forall m | 0 <= m < |ps| :: PutsBack(ps[m], plugin, key, from) ==> !Accepts(Run(s, ps[..m]), ps[m])
    ensures View(Run(s, ps).entries, plugin, key) != from
  {
    if ps != [] {
      var n := |ps| - 1;
      var front := ps[..n];
      forall m | 0 <= m < n ensures front[..m] == ps[..m] && front[m] == ps[m] {}
      StaysAway(s, front, plugin, key, from);
      UpdatedView(Run(s, front).entries, ps[n], plugin, key);
    }
  }

  lemma {:induction false} RunSplit(s: Store, ps: seq<Params>, qs: seq<Params>)
    ensures Run(s, ps + qs) == Run(Run(s, ps), qs)
  {
    if qs == [] {
      assert ps + qs == ps;
    } else {
      var front := qs[..|qs| - 1];
      assert (ps + qs)[..|ps + qs| - 1] == ps + front;
      RunSplit(s, ps, front);
    }
  }

  /** Between two updates that both took a cell away from one value, an accepted update put it back. */
  lemma OneWinner(s: Store, ps: seq<Params>, i: nat, j: nat, plugin: string, key: string, from: string)
    requires i < j < |ps|
    requires Takes(ps[i], plugin, key, from) && Takes(ps[j], plugin, key, from)
    requires Accepts(Run(s, ps[..i]), ps[i]) && Accepts(Run(s, ps[..j]), ps[j])
    ensures exists m :: i < m < j && PutsBack(ps[m], plugin, key, from) && Accepts(Run(s, ps[..m]), ps[m])
  {
    var t := Run(s, ps[..i + 1]);
    assert ps[..i + 1][..i] == ps[..i];
    UpdatedView(Run(s, ps[..i]).entries, ps[i], plugin, key);
    var mid := ps[i + 1..j];
    assert ps[..j] == ps[..i + 1] + mid;
    RunSplit(s, ps[..i + 1], mid);
    if forall m | i < m < j :: PutsBack(ps[m], plugin, key, from) ==> !Accepts(Run(s, ps[..m]), ps[m]) {
      forall m | 0 <= m < |mid| ensures PutsBack(mid[m], plugin, key, from) ==> !Accepts(Run(t, mid[..m]), mid[m]) {
        assert ps[..i + 1 + m] == ps[..i + 1] + mid[..m];
        RunSplit(s, ps[..i + 1], mid[..m]);
      }
      StaysAway(t, mid, plugin, key, from);
      assert false;
    }
  }
}
