// What a projection makes of any document, leaf by leaf, told from the settings as they are given
// (typeferry-ts/src/minimongo/projection.ts).
module ProjectionExact {
  import opened Results
  import opened Fields
  import opened ValueOrder
  import opened DocumentStore
  import opened Projection
  import opened ProjectionApply

  /* ---------- Splitting a path ---------- */

  function Join(parts: seq<string>): string
    requires parts != []
  {
    if |parts| == 1 then parts[0] else parts[0] + "." + Join(parts[1..])
  }

  // The parts hold no dot, and joined with dots they are the path.
  lemma {:induction false} SplitExactly(path: string)
    ensures Join(Split(path)) == path
    ensures forall i :: 0 <= i < |Split(path)| ==> '.' !in Split(path)[i]
  {
    if path != "" {
      var rest := Split(path[1..]);
      SplitExactly(path[1..]);
      assert path == [path[0]] + path[1..];
      if path[0] == '.' {
        assert ([""] + rest)[1..] == rest;
      } else {
        var parts := [[path[0]] + rest[0]] + rest[1..];
        assert parts[1..] == rest[1..];
        if |rest| > 1 {
          assert Join(parts) == [path[0]] + rest[0] + "." + Join(rest[1..]);
        }
      }
    }
  }

  /* ---------- Leaves ---------- */

  // A way into a document: under a key of an object, to an item of an array.
  datatype Hop = Into(key: string) | Item(i: nat)

  function KeysOf(path: seq<Hop>): seq<string> {
    if path == [] then []
    else (if path[0].Into? then [path[0].key] else []) + KeysOf(path[1..])
  }

  // What is neither object nor array at the end of the way, if there is such a thing.
  function LeafAt(v: Value, path: seq<Hop>): Option<Value>
    decreases |path|
  {
    if path == [] then (if v.Obj? || v.Arr? then None else Some(v))
    else
      match path[0]
      case Into(k) =>
        if v.Obj? && Lookup(v.fields, k).Some? then LeafAt(Lookup(v.fields, k).value, path[1..]) else None
      case Item(i) => if v.Arr? && i < |v.items| then LeafAt(v.items[i], path[1..]) else None
  }

  // Some path of the tree goes on below the keys.
  predicate Inside(children: Children, keys: seq<string>)
    decreases |keys|
  {
    keys == []
    || (var rule := Lookup(children, keys[0]);
        rule.Some? && rule.value.Node? && Inside(rule.value.children, keys[1..]))
  }

  // A leaf where some path goes on: as an item, or the whole value, it stays if it is null or
  // undefined; under a key it stays when excluding, unless it is a date or bytes.
  predicate StaysInside(path: seq<Hop>, including: bool, leaf: Value) {
    if path == [] || path[|path| - 1].Item? then leaf == Null || leaf == Undefined
    else !including && !leaf.Date? && !leaf.Bin?
  }

  predicate Survives(covered: bool, inside: bool, path: seq<Hop>, including: bool, leaf: Value) {
    if covered then including else if inside then StaysInside(path, including, leaf) else !including
  }

  predicate SurvivesIn(children: Children, path: seq<Hop>, including: bool, leaf: Value) {
    Survives(Covered(children, KeysOf(path)), Inside(children, KeysOf(path)), path, including, leaf)
  }

  function Left(children: Children, including: bool, v: Value, path: seq<Hop>): Option<Value> {
    var leaf := LeafAt(v, path);
    if leaf.Some? && SurvivesIn(children, path, including, leaf.value) then leaf else None
  }

  lemma TidyField(fields: seq<Field<Value>>, key: string)
    requires Tidy(Obj(fields)) && Lookup(fields, key).Some?
    ensures Tidy(Lookup(fields, key).value)
  {
    var i := LookupFinds(fields, key);
  }

  // Applying a tree leaves exactly the surviving leaves, unchanged and where they were.
  lemma {:induction false} ApplyLeaves(v: Value, children: Children, including: bool, path: seq<Hop>)
    requires Tidy(v) && Bushy(children)
    ensures LeafAt(Apply(v, children, including), path) == Left(children, including, v, path)
    decreases |path|
  {
    hide Ruled, Survives;
    if path == [] {
      SurvivesAtOnce(children, including, v);
    } else {
      assert path == [path[0]] + path[1..];
      if v.Arr? && path[0].Item? && path[0].i < |v.items| {
        ApplyLeaves(v.items[path[0].i], children, including, path[1..]);
        ItemSurvives(children, including, v, path);
      } else if v.Obj? && path[0].Into? {
        ObjectLeaves(v.fields, children, including, path);
      } else if !v.Obj? {
        RuledNothing(v, children, including);
      }
    }
  }

  lemma {:induction false} RuledNothing(v: Value, children: Children, including: bool)
    requires !v.Obj?
    ensures Ruled(v, children, including) == []
    decreases |children|
  {
    if children != [] {
      RuledNothing(v, children[..|children| - 1], including);
    }
  }

  lemma AppliedIsNoLeaf(v: Value, children: Children, including: bool)
    requires ObjectLike(v)
    ensures LeafAt(Apply(v, children, including), []) == None
  {
  }

  lemma SurvivesAtOnce(children: Children, including: bool, v: Value)
    ensures LeafAt(Apply(v, children, including), []) == Left(children, including, v, [])
  {
  }

  // The rules go through arrays.
  lemma ItemSurvives(children: Children, including: bool, v: Value, path: seq<Hop>)
    requires v.Arr? && path != [] && path[0].Item? && path[0].i < |v.items|
    ensures Left(children, including, v.items[path[0].i], path[1..]) == Left(children, including, v, path)
  {
    assert KeysOf(path) == KeysOf(path[1..]);
  }

  lemma ObjectLeaves(fields: seq<Field<Value>>, children: Children, including: bool, path: seq<Hop>)
    requires Tidy(Obj(fields)) && Bushy(children) && path != [] && path[0].Into?
    ensures LeafAt(Obj(Ruled(Obj(fields), children, including)), path) == Left(children, including, Obj(fields), path)
    decreases |path|, 1
  {
    hide Ruled, Lookup, Apply, Survives;
    var k, rest := path[0].key, path[1..];
    var child, rule := Lookup(fields, k), Lookup(children, k);
    assert KeysOf(path)[0] == k && KeysOf(path)[1..] == KeysOf(rest);
    RuledLooks(fields, children, including, k);
    if child.Some? {
      TidyField(fields, k);
      if rule == None || rule.value.Leaf? {
        PlainRule(fields, children, including, path);
      } else {
        BushyChild(children, k);
        if rest != [] && ObjectLike(child.value) {
          ApplyLeaves(child.value, rule.value.children, including, rest);
          InnerRule(child.value, children, including, path);
        } else {
          LastRule(child.value, children, including, path);
          if ObjectLike(child.value) {
            AppliedIsNoLeaf(child.value, rule.value.children, including);
          }
        }
      }
    }
  }

  lemma PlainRule(fields: seq<Field<Value>>, children: Children, including: bool, path: seq<Hop>)
    requires path != [] && path[0].Into? && KeysOf(path)[0] == path[0].key && Lookup(fields, path[0].key).Some?
    requires Lookup(children, path[0].key) == None || Lookup(children, path[0].key).value.Leaf?
    ensures var covered := Lookup(children, path[0].key).Some?;
            Left(children, including, Obj(fields), path)
            == if covered == including then LeafAt(Lookup(fields, path[0].key).value, path[1..]) else None
  {
    hide Lookup;
  }

  // Further in, what survives is decided by the subtree.
  lemma InnerRule(child: Value, children: Children, including: bool, path: seq<Hop>)
    requires |path| > 1 && path[0].Into? && KeysOf(path) == [path[0].key] + KeysOf(path[1..])
    requires Lookup(children, path[0].key).Some? && Lookup(children, path[0].key).value.Node?
    ensures var below := Lookup(children, path[0].key).value.children;
            var leaf := LeafAt(child, path[1..]);
            Left(below, including, child, path[1..])
            == if leaf.Some? && SurvivesIn(children, path, including, leaf.value) then leaf else None
  {
    hide Lookup;
    assert path[1..][|path[1..]| - 1] == path[|path| - 1];
    assert KeysOf(path)[1..] == KeysOf(path[1..]);
  }

  lemma LastRule(child: Value, children: Children, including: bool, path: seq<Hop>)
    requires path != [] && path[0].Into? && KeysOf(path) == [path[0].key] + KeysOf(path[1..])
    requires Lookup(children, path[0].key).Some? && Lookup(children, path[0].key).value.Node?
    requires |path| == 1 || !ObjectLike(child)
    ensures var leaf := LeafAt(child, path[1..]);
            && (|path| > 1 ==> leaf == None)
            && (|path| == 1 && leaf.Some? ==>
                  (SurvivesIn(children, path, including, leaf.value) <==> !including && !ObjectLike(leaf.value)))
  {
    hide Lookup;
    if |path| == 1 {
      assert KeysOf(path)[1..] == [];
      var below := Lookup(children, path[0].key).value.children;
      assert !Covered(below, []) && Inside(below, []);
    }
  }

  /* ---------- The tree, told from the settings ---------- */

  ghost predicate Extends(children: Children, q: seq<string>, keys: seq<string>) { HasLeaf(children, q) && keys < q }

  lemma {:induction false} InsideExactly(children: Children, keys: seq<string>)
    requires Bushy(children) && children != []
    ensures Inside(children, keys) <==> exists q :: Extends(children, q, keys)
    decreases |keys|
  {
    if keys == [] {
      var q := SomeLeaf(children);
      assert Extends(children, q, keys);
    } else {
      var k, rule := keys[0], Lookup(children, keys[0]);
      forall q | Extends(children, q, keys)
        ensures rule.Some? && rule.value.Node? && Extends(rule.value.children, q[1..], keys[1..])
      {
        assert q[0] == k;
      }
      if rule.Some? && rule.value.Node? {
        BushyChild(children, k);
        var below := rule.value.children;
        InsideExactly(below, keys[1..]);
        if q :| Extends(below, q, keys[1..]) {
          LeafBelow(children, k, q);
          assert Extends(children, [k] + q, keys);
        }
      }
    }
  }

  // The settings that count: all but an `_id` that is switched off beside others.
  predicate Counts(projection: seq<Field<Setting>>, i: nat) {
    i < |projection| && (projection[i].key != "_id" || |projection| == 1 || projection[i].value == Flag(true))
  }

  lemma EffectiveMembers(projection: seq<Field<Setting>>, f: Field<Setting>)
    requires Distinct(Keys(projection)) && Supported(projection)
    ensures f in Effective(projection) <==> exists i: nat :: Counts(projection, i) && projection[i] == f
    ensures Distinct(Keys(Effective(projection)))
  {
    hide Split, Sort, Drop, Lookup;
    var sorted := Sort(projection);
    SortMembers(projection);
    SortAscending(projection);
    AscendingDistinct(sorted);
    DropExactly(sorted, "_id");
    forall i | 0 <= i < |projection|
      ensures Lookup(projection, projection[i].key) == Some(projection[i].value)
    {
      LookupAt(projection, i);
    }
    assert |projection| == 1 ==> sorted[0] in projection;
    if f in projection {
      var i :| 0 <= i < |projection| && projection[i] == f;
      assert Counts(projection, i) <==> f.key != "_id" || |projection| == 1 || f.value == Flag(true);
      forall j: nat | j < |projection| && projection[j] == f
        ensures j == i
      {
        assert Keys(projection)[i] == Keys(projection)[j];
      }
    }
    if Lookup(projection, "_id").Some? {
      var j := LookupFinds(projection, "_id");
    }
  }

  lemma {:induction false} DropExactly(fields: seq<Field<Setting>>, key: string)
    requires Distinct(Keys(fields))
    ensures forall f :: f in Drop(fields, key) <==> f in fields && f.key != key
    ensures Distinct(Keys(Drop(fields, key)))
  {
    DropKeys(fields, key);
    DropKeyMembers(Keys(fields), key);
    if fields != [] {
      assert Keys(fields[1..]) == Keys(fields)[1..];
      DropExactly(fields[1..], key);
      assert fields == [fields[0]] + fields[1..];
      if fields[0].key == key {
        forall f | f in fields[1..]
          ensures f.key != key
        {
          var j :| 0 <= j < |fields[1..]| && fields[1..][j] == f;
          assert Keys(fields)[j + 1] != Keys(fields)[0];
        }
      }
    }
  }

  // Two settings that count clash: one includes and the other excludes, or the parts of one path
  // begin the other's.
  ghost predicate AtOdds(projection: seq<Field<Setting>>, i: nat, j: nat) {
    && Counts(projection, i) && Counts(projection, j) && i != j
    && (projection[i].value != projection[j].value || Split(projection[i].key) <= Split(projection[j].key))
  }

  // A projection compiles exactly if its settings are supported and no two that count clash. It
  // includes exactly if some setting is on, and keeps `_id` exactly if that is not switched off.
  lemma CompilesExactly(projection: seq<Field<Setting>>)
    requires Distinct(Keys(projection))
    ensures Compile(projection).Compiled?
            <==> && (forall i :: 0 <= i < |projection| ==> projection[i].value != Unsupported)
                 && (forall i :: 0 <= i < |projection| ==> "$" !in Split(projection[i].key))
                 && (forall i: nat, j: nat :: !AtOdds(projection, i, j))
    ensures Compile(projection).Compiled? ==>
              var c := Compile(projection);
              && (c.including <==> exists i :: 0 <= i < |projection| && projection[i].value == Flag(true))
              && (c.keepId <==> !exists i :: 0 <= i < |projection| && projection[i] == Field("_id", Flag(false)))
  {
    hide Split, Effective, Grow, AtOdds;
    CompileExactly(projection);
    if Supported(projection) {
      var paths := Effective(projection);
      EffectiveDistinct(projection);
      ClashExactly(paths);
      OddsExactly(projection);
      if Compile(projection).Compiled? {
        KeptId(projection);
        IncludesExactly(projection);
      }
    }
  }

  lemma EffectiveDistinct(projection: seq<Field<Setting>>)
    requires Distinct(Keys(projection)) && Supported(projection)
    ensures Distinct(Keys(Effective(projection)))
  {
    hide Effective;
    EffectiveMembers(projection, Field("", Unsupported));
  }

  lemma KeptId(projection: seq<Field<Setting>>)
    requires Distinct(Keys(projection)) && Supported(projection)
    ensures KeepId(projection) <==> !exists i :: 0 <= i < |projection| && projection[i] == Field("_id", Flag(false))
  {
    hide Split;
    if Lookup(projection, "_id").Some? {
      var i := LookupFinds(projection, "_id");
    }
    if i :| 0 <= i < |projection| && projection[i] == Field("_id", Flag(false)) {
      LookupAt(projection, i);
    }
  }

  lemma IncludesExactly(projection: seq<Field<Setting>>)
    requires Distinct(Keys(projection)) && Supported(projection)
    requires OneSided(Effective(projection), Including(Effective(projection)))
    ensures Including(Effective(projection)) <==> exists i :: 0 <= i < |projection| && projection[i].value == Flag(true)
  {
    hide Split, Effective;
    var paths := Effective(projection);
    if Including(paths) {
      EffectiveMembers(projection, paths[0]);
      assert paths[0] in paths;
      var i: nat :| Counts(projection, i) && projection[i] == paths[0];
    }
    if i :| 0 <= i < |projection| && projection[i].value == Flag(true) {
      assert Counts(projection, i);
      EffectiveMembers(projection, projection[i]);
      var j :| 0 <= j < |paths| && paths[j] == projection[i];
    }
  }

  lemma OddsExactly(projection: seq<Field<Setting>>)
    requires Distinct(Keys(projection)) && Supported(projection)
    ensures var paths := Effective(projection);
            (exists i: nat, j: nat :: AtOdds(projection, i, j)) <==>
              !OneSided(paths, Including(paths))
              || exists a, b :: a in Keys(paths) && b in Keys(paths) && a != b && Split(a) <= Split(b)
  {
    hide Split, Effective;
    var paths := Effective(projection);
    if i: nat, j: nat :| AtOdds(projection, i, j) {
      var m := InEffective(projection, i);
      var n := InEffective(projection, j);
      assert Keys(projection)[i] != Keys(projection)[j];
      assert Keys(paths)[m] in Keys(paths) && Keys(paths)[n] in Keys(paths);
    }
    if a, b :| a in Keys(paths) && b in Keys(paths) && a != b && Split(a) <= Split(b) {
      var i := FromEffective(projection, a);
      var j := FromEffective(projection, b);
      assert AtOdds(projection, i, j);
    }
    if !OneSided(paths, Including(paths)) {
      var n :| 0 <= n < |paths| && paths[n].value != Flag(Including(paths));
      var i := FromEffective(projection, Keys(paths)[0]);
      var j := FromEffective(projection, Keys(paths)[n]);
      SameEntry(projection, 0, i);
      SameEntry(projection, n, j);
      assert AtOdds(projection, i, j);
    }
  }

  lemma InEffective(projection: seq<Field<Setting>>, i: nat) returns (m: nat)
    requires Distinct(Keys(projection)) && Supported(projection) && Counts(projection, i)
    ensures m < |Effective(projection)| && Effective(projection)[m] == projection[i]
  {
    hide Split, Effective;
    EffectiveMembers(projection, projection[i]);
    m :| 0 <= m < |Effective(projection)| && Effective(projection)[m] == projection[i];
  }

  lemma FromEffective(projection: seq<Field<Setting>>, key: string) returns (i: nat)
    requires Distinct(Keys(projection)) && Supported(projection) && key in Keys(Effective(projection))
    ensures Counts(projection, i) && projection[i].key == key && projection[i].value.Flag?
  {
    hide Split, Effective;
    var paths := Effective(projection);
    var m :| 0 <= m < |paths| && Keys(paths)[m] == key;
    EffectiveMembers(projection, paths[m]);
    assert paths[m] in paths;
    i :| Counts(projection, i) && projection[i] == paths[m];
  }

  lemma SameEntry(projection: seq<Field<Setting>>, m: nat, i: nat)
    requires Distinct(Keys(projection)) && Supported(projection) && m < |Effective(projection)|
    requires Counts(projection, i) && projection[i].key == Effective(projection)[m].key
    ensures projection[i] == Effective(projection)[m]
  {
    hide Split, Effective;
    var f := Effective(projection)[m];
    EffectiveMembers(projection, f);
    assert f in Effective(projection);
    var j: nat :| Counts(projection, j) && projection[j] == f;
    assert Keys(projection)[i] == Keys(projection)[j];
  }

  /* ---------- The result, leaf by leaf ---------- */

  ghost predicate CoveredBy(projection: seq<Field<Setting>>, keys: seq<string>) {
    exists i :: 0 <= i < |projection| && Split(projection[i].key) <= keys
  }

  ghost predicate InsideOf(projection: seq<Field<Setting>>, keys: seq<string>) {
    exists i :: 0 <= i < |projection| && keys < Split(projection[i].key)
  }

  lemma TreeExactly(projection: seq<Field<Setting>>, keys: seq<string>)
    requires Distinct(Keys(projection)) && Compile(projection).Compiled? && keys != [] && keys[0] != "_id"
    ensures Bushy(Compile(projection).children)
    ensures Covered(Compile(projection).children, keys) <==> CoveredBy(projection, keys)
    ensures Inside(Compile(projection).children, keys) <==> InsideOf(projection, keys)
  {
    hide Split, Effective, Grow;
    var c, paths := Compile(projection), Effective(projection);
    CompileExactly(projection);
    GrowExactly(paths, Including(paths));
    CoveredExactly(c.children, keys);
    if c.children != [] {
      InsideExactly(c.children, keys);
    } else {
      NothingBelow();
    }
    forall q | HasLeaf(c.children, q)
      ensures exists i :: 0 <= i < |projection| && Split(projection[i].key) == q
    {
      var m :| 0 <= m < |paths| && Split(paths[m].key) == q;
      EffectiveMembers(projection, paths[m]);
      assert paths[m] in paths;
    }
    forall i | 0 <= i < |projection| && projection[i].key != "_id"
      ensures HasLeaf(c.children, Split(projection[i].key))
    {
      assert Counts(projection, i);
      var m := InEffective(projection, i);
    }
    NoDots("_id");
    if Covered(c.children, keys) {
      var q :| Prefixes(c.children, q, keys);
    }
    if i :| 0 <= i < |projection| && Split(projection[i].key) <= keys {
      assert projection[i].key != "_id";
      assert Prefixes(c.children, Split(projection[i].key), keys);
    }
    if Inside(c.children, keys) && c.children != [] {
      var q :| Extends(c.children, q, keys);
    }
    if i :| 0 <= i < |projection| && keys < Split(projection[i].key) {
      assert projection[i].key != "_id";
      assert Extends(c.children, Split(projection[i].key), keys);
    }
  }

  lemma {:induction false} NoDots(path: string)
    requires '.' !in path
    ensures Split(path) == [path]
  {
    if path != "" {
      NoDots(path[1..]);
      assert path == [path[0]] + path[1..];
      assert [path[1..]][1..] == [];
    }
  }

  // Of a projected document, outside `_id`, exactly these leaves are left, unchanged and where they
  // were: those covered by a path when including, those neither covered nor inside when
  // excluding, and those at an inner point of some path that the rules cannot go on from.
  lemma ProjectLeaves(projection: seq<Field<Setting>>, fields: seq<Field<Value>>, path: seq<Hop>)
    requires Distinct(Keys(projection)) && Compile(projection).Compiled?
    requires Tidy(Obj(fields)) && path != [] && path[0].Into? && path[0].key != "_id"
    ensures var c, leaf, keys := Compile(projection), LeafAt(Obj(fields), path), KeysOf(path);
            LeafAt(Obj(Project(c, fields)), path)
            == if leaf.Some?
                  && Survives(CoveredBy(projection, keys), InsideOf(projection, keys), path, c.including, leaf.value)
               then leaf else None
  {
    hide Effective, Split, Ruled, Grow, Survives;
    var c := Compile(projection);
    assert KeysOf(path)[0] == path[0].key;
    TreeExactly(projection, KeysOf(path));
    ObjectLeaves(fields, c.children, c.including, path);
    ProjectedBeside(c, fields, path[0].key);
  }

  lemma ProjectedBeside(c: Compiled, fields: seq<Field<Value>>, k: string)
    requires c.Compiled? && Bushy(c.children) && Distinct(Keys(fields)) && k != "_id"
    ensures Lookup(Project(c, fields), k) == Lookup(Ruled(Obj(fields), c.children, c.including), k)
  {
    hide Ruled, Drop, Put;
    var result := Ruled(Obj(fields), c.children, c.including);
    RuledLooks(fields, c.children, c.including, k);
    DropLooks(result, "_id", k);
    if Lookup(fields, "_id").Some? {
      PutLooks(result, "_id", Lookup(fields, "_id").value, k);
    }
  }

  // Including and excluding the same paths split a document's leaves between them: every leaf
  // outside `_id` is in exactly one result, unchanged, unless it is at an inner point of some path
  // and an array item, a date or bytes.
  lemma ProjectionsSplit(paths: seq<string>, fields: seq<Field<Value>>, path: seq<Hop>)
    requires Distinct(paths) && "_id" !in paths && paths != []
    requires Compile(Settings(paths, true)).Compiled? && Compile(Settings(paths, false)).Compiled?
    requires Tidy(Obj(fields)) && path != [] && path[0].Into? && path[0].key != "_id"
    requires LeafAt(Obj(fields), path).Some?
    requires InsideOf(Settings(paths, true), KeysOf(path)) ==>
               path[|path| - 1].Into? && !ObjectLike(LeafAt(Obj(fields), path).value)
    ensures var leaf := LeafAt(Obj(fields), path);
            var inside := LeafAt(Obj(Project(Compile(Settings(paths, true)), fields)), path);
            var outside := LeafAt(Obj(Project(Compile(Settings(paths, false)), fields)), path);
            if exists p :: p in paths && Split(p) <= KeysOf(path) then inside == leaf && outside == None
            else inside == None && outside == leaf
  {
    hide Split, Project, Compile, LeafAt;
    var keys := KeysOf(path);
    forall on: bool
      ensures CoveredBy(Settings(paths, on), keys) <==> exists p :: p in paths && Split(p) <= keys
      ensures InsideOf(Settings(paths, on), keys) <==> InsideOf(Settings(paths, true), keys)
      ensures Compile(Settings(paths, on)).including == on
    {
      SettingsCover(paths, on, keys);
    }
    ProjectLeaves(Settings(paths, true), fields, path);
    ProjectLeaves(Settings(paths, false), fields, path);
  }

  lemma SettingsCover(paths: seq<string>, on: bool, keys: seq<string>)
    requires Distinct(paths) && "_id" !in paths && paths != [] && Compile(Settings(paths, on)).Compiled?
    ensures CoveredBy(Settings(paths, on), keys) <==> exists p :: p in paths && Split(p) <= keys
    ensures InsideOf(Settings(paths, on), keys) <==> InsideOf(Settings(paths, true), keys)
    ensures Compile(Settings(paths, on)).including == on
  {
    hide Split, Compile;
    var given := Settings(paths, on);
    CompilesExactly(given);
    assert forall i :: 0 <= i < |paths| ==> given[i] == Field(paths[i], Flag(on));
    if p :| p in paths && Split(p) <= keys {
      var i :| 0 <= i < |paths| && paths[i] == p;
      assert Split(given[i].key) <= keys;
    }
    assert given[0].value == Flag(on);
    var plus := Settings(paths, true);
    assert forall i :: 0 <= i < |paths| ==> plus[i].key == given[i].key;
  }
}
