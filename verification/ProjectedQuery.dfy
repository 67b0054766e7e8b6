// A cursor's projection as the output of a live query.
module ProjectedQuery {
  import opened Results
  import opened Fields
  import opened ValueOrder
  import opened DocumentStore
  import opened Projection
  import opened ProjectionApply
  import opened LiveQuery
  import opened LocalCollection

  lemma {:induction false} ApplyTidy(value: Value, children: Children, including: bool)
    requires Tidy(value) && Bushy(children)
    ensures Tidy(Apply(value, children, including))
    decreases children, value, 1
  {
    match value
    case Arr(items) =>
      var projected := Apply(value, children, including).items;
      forall i | 0 <= i < |items|
        ensures Tidy(projected[i])
      {
        ApplyTidy(items[i], children, including);
      }
    case Obj(fields) => RuledTidy(fields, children, including);
    case Null =>
    case Undefined =>
    case _ => ScalarRuled(value, children, including);
  }

  lemma {:induction false} ScalarRuled(value: Value, children: Children, including: bool)
    requires !value.Obj?
    ensures Ruled(value, children, including) == []
    decreases |children|
  {
    if children != [] {
      ScalarRuled(value, children[..|children| - 1], including);
    }
  }

  lemma {:induction false} RuledTidy(fields: seq<Field<Value>>, children: Children, including: bool)
    requires Tidy(Obj(fields)) && Bushy(children)
    ensures Tidy(Obj(Ruled(Obj(fields), children, including)))
    decreases children, Obj(fields), 0
  {
    hide Ruled, Apply;
    var result := Ruled(Obj(fields), children, including);
    RuledLooks(fields, children, including, "");
    forall i | 0 <= i < |result|
      ensures Tidy(result[i].value)
    {
      var k := result[i].key;
      LookupAt(result, i);
      RuledLooks(fields, children, including, k);
      var j := LookupFinds(fields, k);
      if Lookup(children, k).Some? && Lookup(children, k).value.Node? {
        var m := LookupFinds(children, k);
        ApplyTidy(fields[j].value, children[m].value.children, including);
      }
    }
  }

  function Output(c: Compiled, d: Value): Value
    requires c.Compiled?
  {
    if d.Obj? then Obj(Project(c, d.fields)) else d
  }

  // A projection that leaves `_id` on keeps every document's identity; one that switches it off
  // makes all identities the same.
  lemma ProjectionKeepsIdentity(projection: seq<Field<Setting>>, d: Value)
    requires Tidy(d) && Compile(projection).Compiled?
    ensures Tidy(Output(Compile(projection), d))
    ensures IdOf(Output(Compile(projection), d)) == if KeepId(projection) then IdOf(d) else "undefined"
  {
    hide Ruled, Effective, Grow;
    if d.Obj? {
      var c := Compile(projection);
      ProjectId(projection, d.fields);
      GrowExactly(Effective(projection), Including(Effective(projection)));
      RuledTidy(d.fields, c.children, c.including);
      var result := Ruled(d, c.children, c.including);
      DropTidy(result, "_id");
      if Lookup(d.fields, "_id").Some? {
        var i := LookupFinds(d.fields, "_id");
        PutTidy(result, "_id", d.fields[i].value);
      }
    }
  }

  lemma DropTidy(fields: seq<Field<Value>>, key: string)
    requires Tidy(Obj(fields))
    ensures Tidy(Obj(Drop(fields, key)))
  {
    DropKeys(fields, key);
    DropKeyMembers(Keys(fields), key);
    var rest := Drop(fields, key);
    forall i | 0 <= i < |rest|
      ensures Tidy(rest[i].value)
    {
      DropMember(fields, key, i);
    }
  }

  lemma {:induction false} DropMember<T(!new)>(fields: seq<Field<T>>, key: string, i: nat)
    requires i < |Drop(fields, key)|
    ensures Drop(fields, key)[i] in fields
  {
    if fields[0].key != key && i > 0 {
      DropMember(fields[1..], key, i - 1);
    }
  }

  lemma SomeDocument() returns (d: Value)
    ensures Tidy(d) && IdOf(d) == "a"
  {
    d := Obj([Field("_id", Str("a"))]);
    assert Tidy(Str("a"));
  }

  // So a projected query stays inside what live queries assume, exactly when it keeps `_id`.
  lemma ProjectedQueryIsProper(q: Query, projection: seq<Field<Setting>>)
    requires Compile(projection).Compiled?
    requires forall docs :: multiset(SortedBy(q, docs)) == multiset(docs)
    requires forall d :: q.output(d) == Some(Output(Compile(projection), d))
    ensures Proper(q) <==> KeepId(projection)
  {
    hide Compile, KeepId, Output, Tidy, IdOf, SortedBy;
    forall d | Tidy(d)
      ensures Tidy(Shown(q, d)) && IdOf(Shown(q, d)) == if KeepId(projection) then IdOf(d) else "undefined"
    {
      ProjectionKeepsIdentity(projection, d);
    }
    var d := SomeDocument();
    assert IdOf(Shown(q, d)) == if KeepId(projection) then IdOf(d) else "undefined";
  }
}
