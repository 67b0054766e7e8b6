// Applying a compiled projection to a document (typeferry-ts/src/minimongo/projection.ts).
module ProjectionApply {
  import opened Results
  import opened Fields
  import opened ValueOrder
  import opened DocumentStore
  import opened Projection

  // typeof value === 'object' && value !== null
  predicate ObjectLike(v: Value) { v.Obj? || v.Arr? || v.Bin? || v.Date? }

  /* ---------- applyRuleTree ---------- */

  function Apply(value: Value, children: Children, including: bool): Value
    decreases children, value, 1
  {
    match value
    case Arr(items) => Arr(seq(|items|, i requires 0 <= i < |items| => Apply(items[i], children, including)))
    case Null => Null
    case Undefined => Undefined
    case _ => Obj(Ruled(value, children, including))
  }

  // The result after the rules, taken in order.
  function Ruled(value: Value, children: Children, including: bool): seq<Field<Value>>
    decreases children, value, 0
  {
    if children == [] then (if !including && value.Obj? then value.fields else [])
    else
      var f := children[|children| - 1];
      var result := Ruled(value, children[..|children| - 1], including);
      var child := if value.Obj? then Lookup(value.fields, f.key) else None;
      if child == None then result
      else if f.value.Node? then
        if ObjectLike(child.value) then Put(result, f.key, Apply(child.value, f.value.children, including)) else result
      else if including then Put(result, f.key, child.value)
      else Drop(result, f.key)
  }

  // applyRuleTree as written: a result object filled and pruned rule by rule.
  method ApplyRuleTree(value: Value, children: Children, including: bool) returns (projected: Value)
    ensures projected == Apply(value, children, including)
    decreases children, value
  {
    if value.Arr? {
      var items := [];
      for i := 0 to |value.items|
        invariant items == Apply(value, children, including).items[..i]
      {
        var element := ApplyRuleTree(value.items[i], children, including);
        items := items + [element];
      }
      return Arr(items);
    }
    if value == Null || value == Undefined {
      return value;
    }
    var result := if including then [] else if value.Obj? then value.fields else [];
    for i := 0 to |children|
      invariant result == Ruled(value, children[..i], including)
    {
      assert children[..i + 1][..i] == children[..i];
      var field, rule := children[i].key, children[i].value;
      if value.Obj? && Lookup(value.fields, field).Some? {
        var child := Lookup(value.fields, field).value;
        if rule.Node? {
          if ObjectLike(child) {
            var below := ApplyRuleTree(child, rule.children, including);
            result := Put(result, field, below);
          }
        } else if including {
          result := Put(result, field, child);
        } else {
          result := Drop(result, field);
        }
      }
    }
    assert children[..|children|] == children;
    return Obj(result);
  }

  // The compiled projection function.
  function Project(compiled: Compiled, fields: seq<Field<Value>>): seq<Field<Value>>
    requires compiled.Compiled?
  {
    var result := Ruled(Obj(fields), compiled.children, compiled.including);
    var id := Lookup(fields, "_id");
    if compiled.keepId then (if id.Some? then Put(result, "_id", id.value) else result)
    else Drop(result, "_id")
  }

  /* ---------- What one rule leaves under its key ---------- */

  function Kept(child: Option<Value>, rule: Option<Tree>, including: bool): Option<Value> {
    if child == None then None
    else if rule == None then (if including then None else child)
    else if rule.value.Leaf? then (if including then child else None)
    else if ObjectLike(child.value) then Some(Apply(child.value, rule.value.children, including))
    else if including then None else child
  }

  lemma {:induction false} RuledLooks(fields: seq<Field<Value>>, children: Children, including: bool, k: string)
    requires Distinct(Keys(fields)) && Distinct(Keys(children))
    ensures Lookup(Ruled(Obj(fields), children, including), k)
            == Kept(Lookup(fields, k), Lookup(children, k), including)
    ensures Distinct(Keys(Ruled(Obj(fields), children, including)))
    decreases |children|
  {
    hide Apply, Put, Drop, Lookup;
    if children == [] {
      NotFound(children, k);
      if including {
        NotFound(Ruled(Obj(fields), children, including), k);
      }
    } else {
      var front, f := children[..|children| - 1], children[|children| - 1];
      FrontKeys(children);
      assert children == front + [f];
      LookupSnoc(front, f, k);
      NotFound(front, f.key);
      RuledLooks(fields, front, including, k);
      var result := Ruled(Obj(fields), front, including);
      var child := Lookup(fields, f.key);
      DropLooks(result, f.key, k);
      DropKeys(result, f.key);
      DropKeyMembers(Keys(result), f.key);
      if child.Some? {
        var value := if f.value.Node? then Apply(child.value, f.value.children, including) else child.value;
        PutLooks(result, f.key, value, k);
        PutDistinct(result, f.key, value);
      }
    }
  }

  /* ---------- Which leaves a tree covers ---------- */

  // Some path of the tree is a prefix of the leaf's path.
  predicate Covered(children: Children, path: seq<string>)
    decreases |path|
  {
    path != [] &&
    var rule := Lookup(children, path[0]);
    rule.Some? && (rule.value.Leaf? || Covered(rule.value.children, path[1..]))
  }

  ghost predicate Prefixes(children: Children, q: seq<string>, path: seq<string>) {
    HasLeaf(children, q) && q <= path
  }

  lemma {:induction false} CoveredExactly(children: Children, path: seq<string>)
    ensures Covered(children, path) <==> exists q :: Prefixes(children, q, path)
    decreases |path|
  {
    if path != [] {
      var k, rule := path[0], Lookup(children, path[0]);
      forall q | Prefixes(children, q, path)
        ensures rule.Some? && (rule.value.Node? ==> Prefixes(rule.value.children, q[1..], path[1..]))
      {
        assert q[0] == k;
      }
      if rule.Some? && rule.value.Leaf? {
        assert Prefixes(children, [k], path);
      } else if rule.Some? {
        var below := rule.value.children;
        CoveredExactly(below, path[1..]);
        if Covered(below, path[1..]) {
          var q :| Prefixes(below, q, path[1..]);
          LeafBelow(children, k, q);
          assert Prefixes(children, [k] + q, path);
        }
      }
    }
  }

  // `_id` comes with every projection that does not switch it off.
  lemma ProjectId(projection: seq<Field<Setting>>, fields: seq<Field<Value>>)
    requires Distinct(Keys(fields)) && Compile(projection).Compiled?
    ensures Lookup(Project(Compile(projection), fields), "_id")
            == if KeepId(projection) then Lookup(fields, "_id") else None
  {
    hide Effective, Ruled, Grow;
    var c := Compile(projection);
    GrowExactly(Effective(projection), Including(Effective(projection)));
    var result := Ruled(Obj(fields), c.children, c.including);
    RuledLooks(fields, c.children, c.including, "_id");
    DropLooks(result, "_id", "_id");
    if Lookup(fields, "_id").Some? {
      PutLooks(result, "_id", Lookup(fields, "_id").value, "_id");
    }
  }

  function Settings(paths: seq<string>, on: bool): (r: seq<Field<Setting>>)
    ensures |r| == |paths| && Keys(r) == paths
  {
    seq(|paths|, i requires 0 <= i < |paths| => Field(paths[i], Flag(on)))
  }

  lemma {:induction false} DropMissing<T(!new)>(fields: seq<Field<T>>, key: string)
    requires key !in Keys(fields)
    ensures Drop(fields, key) == fields
  {
    if fields != [] {
      assert Keys(fields) == [fields[0].key] + Keys(fields[1..]);
      DropMissing(fields[1..], key);
      assert fields == [fields[0]] + fields[1..];
    }
  }

  // Paths other than `_id`, all with one rule, all count.
  lemma EffectiveSettings(paths: seq<string>, on: bool)
    requires Distinct(paths) && "_id" !in paths
    ensures var effective := Effective(Settings(paths, on));
            && Distinct(Keys(effective)) && OneSided(effective, on)
            && (forall k :: k in Keys(effective) <==> k in paths)
            && |effective| == |paths|
  {
    var given := Settings(paths, on);
    var sorted := Sort(given);
    SortMembers(given);
    SortAscending(given);
    AscendingDistinct(sorted);
    forall k
      ensures k in Keys(sorted) <==> k in paths
    {
      if k in paths {
        var i :| 0 <= i < |paths| && paths[i] == k;
        assert given[i] in sorted;
        var j :| 0 <= j < |sorted| && sorted[j] == given[i];
        assert Keys(sorted)[j] == k;
      }
      if k in Keys(sorted) {
        var j :| 0 <= j < |sorted| && Keys(sorted)[j] == k;
        assert sorted[j] in given;
        var i :| 0 <= i < |given| && given[i] == sorted[j];
        assert paths[i] == k;
      }
    }
    forall j | 0 <= j < |sorted|
      ensures sorted[j].value == Flag(on)
    {
      assert sorted[j] in given;
    }
    DropMissing(sorted, "_id");
  }

  // A one-sided set of paths is rejected exactly when one is a segment-prefix of another.
  lemma RejectsOverlapsExactly(paths: seq<string>, on: bool)
    requires Distinct(paths) && "_id" !in paths && Supported(Settings(paths, on))
    ensures Compile(Settings(paths, on)).Refused?
            <==> exists a, b :: a in paths && b in paths && a != b && Split(a) <= Split(b)
    ensures paths != [] && Compile(Settings(paths, on)).Compiled? ==> Compile(Settings(paths, on)).including == on
  {
    hide Effective, Split, Grow, Supported;
    var effective := Effective(Settings(paths, on));
    EffectiveSettings(paths, on);
    CompileExactly(Settings(paths, on));
    assert paths != [] ==> Including(effective) == on;
    ClashExactly(effective);
    assert forall a :: a in paths <==> a in Keys(effective);
  }

  lemma ClashExactly(effective: seq<Field<Setting>>)
    requires Distinct(Keys(effective))
    ensures Clash(effective)
            <==> exists a, b :: a in Keys(effective) && b in Keys(effective) && a != b && Split(a) <= Split(b)
  {
    hide Split;
    var keys := Keys(effective);
    if Clash(effective) {
      var i, j :| 0 <= i < j < |effective| && Comparable(Split(effective[i].key), Split(effective[j].key));
      assert keys[i] != keys[j] && keys[i] in keys && keys[j] in keys;
    }
    if a, b :| a in keys && b in keys && a != b && Split(a) <= Split(b) {
      PrefixClashes(effective, a, b);
    }
  }

  lemma PrefixClashes(effective: seq<Field<Setting>>, a: string, b: string)
    requires a in Keys(effective) && b in Keys(effective) && a != b && Split(a) <= Split(b)
    ensures Clash(effective)
  {
    hide Split, Clash;
    var keys := Keys(effective);
    var i :| 0 <= i < |effective| && keys[i] == a;
    var j :| 0 <= j < |effective| && keys[j] == b;
    if i < j {
      ClashAt(effective, i, j);
    } else {
      ClashAt(effective, j, i);
    }
  }
}
