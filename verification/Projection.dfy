// Field projections (typeferry-ts/src/minimongo/projection.ts).
module Projection {
  import opened Results
  import opened Fields
  import opened ValueOrder
  import opened DocumentStore

  // A rule tree: every leaf stands for the one rule all paths of a projection share.
  datatype Tree = Leaf | Node(children: seq<Field<Tree>>)

  type Children = seq<Field<Tree>>

  datatype Setting = Flag(on: bool) | Unsupported

  datatype Reason = BadSetting | Mixed | Overlap

  datatype Grown = Tall(children: Children) | Stunted(reason: Reason)

  datatype Compiled = Compiled(including: bool, children: Children, keepId: bool) | Refused(reason: Reason)

  // path.split('.')
  function Split(path: string): (parts: seq<string>)
    ensures parts != []
  {
    if path == "" then [""]
    else
      var rest := Split(path[1..]);
      if path[0] == '.' then [""] + rest else [[path[0]] + rest[0]] + rest[1..]
  }

  /* ---------- Building the tree ---------- */

  // Adds one path below a node; None when it meets a leaf, or ends where something is.
  function Insert(children: Children, parts: seq<string>): Option<Children>
    requires parts != []
    decreases |parts|
  {
    var part, rest := parts[0], parts[1..];
    var existing := Lookup(children, part);
    if existing.Some? then
      if rest == [] || existing.value.Leaf? then None
      else
        match Insert(existing.value.children, rest)
        case None => None
        case Some(grown) => Some(Put(children, part, Node(grown)))
    else if rest == [] then Some(Put(children, part, Leaf))
    else
      match Insert([], rest)
      case None => None
      case Some(grown) => Some(Put(children, part, Node(grown)))
  }

  function Grow(paths: seq<Field<Setting>>, including: bool): Grown {
    if paths == [] then Tall([])
    else
      match Grow(paths[..|paths| - 1], including)
      case Stunted(reason) => Stunted(reason)
      case Tall(children) =>
        var last := paths[|paths| - 1];
        if last.value != Flag(including) then Stunted(Mixed)
        else
          match Insert(children, Split(last.key))
          case None => Stunted(Overlap)
          case Some(grown) => Tall(grown)
  }

  // The paths that count: `_id` only alone, or when it is included.
  function Effective(projection: seq<Field<Setting>>): seq<Field<Setting>> {
    var paths := Sort(projection);
    if (|paths| == 1 && paths[0].key == "_id") || Lookup(projection, "_id") == Some(Flag(true)) then paths
    else Drop(paths, "_id")
  }

  predicate KeepId(projection: seq<Field<Setting>>) {
    Lookup(projection, "_id") == None || Lookup(projection, "_id") == Some(Flag(true))
  }

  predicate Supported(projection: seq<Field<Setting>>) {
    forall i :: 0 <= i < |projection| ==> projection[i].value.Flag? && "$" !in Split(projection[i].key)
  }

  predicate Including(paths: seq<Field<Setting>>) { paths != [] && paths[0].value == Flag(true) }

  function Compile(projection: seq<Field<Setting>>): Compiled {
    if !Supported(projection) then Refused(BadSetting)
    else
      var paths := Effective(projection);
      match Grow(paths, Including(paths))
      case Stunted(reason) => Refused(reason)
      case Tall(children) => Compiled(Including(paths), children, KeepId(projection))
  }

  // projectionDetails and the validation before it, as written.
  method CompileProjection(projection: seq<Field<Setting>>) returns (compiled: Compiled)
    requires Distinct(Keys(projection))
    ensures compiled == Compile(projection)
  {
    for i := 0 to |projection|
      invariant forall j :: 0 <= j < i ==> projection[j].value.Flag? && "$" !in Split(projection[j].key)
    {
      if "$" in Split(projection[i].key) || projection[i].value == Unsupported {
        return Refused(BadSetting);
      }
    }
    hide Split, Grow, Effective, KeepId;
    var paths := Effective(projection);
    var including := paths != [] && paths[0].value == Flag(true);
    var details := GrowTree(paths, including);
    return if details.Tall? then Compiled(including, details.children, KeepId(projection)) else Refused(details.reason);
  }

  // The loop over the paths.
  method GrowTree(paths: seq<Field<Setting>>, including: bool) returns (grown: Grown)
    ensures grown == Grow(paths, including)
  {
    hide Insert, Split;
    var tree: Children := [];
    for i := 0 to |paths|
      invariant Grow(paths[..i], including) == Tall(tree)
    {
      assert paths[..i + 1][..i] == paths[..i];
      if paths[i].value != Flag(including) {
        GrowStops(paths, including, i + 1);
        return Stunted(Mixed);
      }
      var more := Insert(tree, Split(paths[i].key));
      if more == None {
        GrowStops(paths, including, i + 1);
        return Stunted(Overlap);
      }
      tree := more.value;
    }
    assert paths[..|paths|] == paths;
    return Tall(tree);
  }

  lemma {:induction false} GrowStops(paths: seq<Field<Setting>>, including: bool, n: nat)
    requires n <= |paths| && Grow(paths[..n], including).Stunted?
    ensures Grow(paths, including) == Grow(paths[..n], including)
    decreases |paths|
  {
    if n == |paths| {
      assert paths[..n] == paths;
    } else {
      var front := paths[..|paths| - 1];
      assert front[..n] == paths[..n];
      GrowStops(front, including, n);
    }
  }

  /* ---------- Which paths a tree holds ---------- */

  predicate HasLeaf(children: Children, path: seq<string>)
    decreases |path|
  {
    path != [] &&
    var found := Lookup(children, path[0]);
    found.Some? && if found.value.Leaf? then |path| == 1 else HasLeaf(found.value.children, path[1..])
  }

  // Keys are distinct and no inner node is bare.
  ghost predicate Bushy(children: Children) {
    && Distinct(Keys(children))
    && forall i :: 0 <= i < |children| && children[i].value.Node? ==>
         children[i].value.children != [] && Bushy(children[i].value.children)
  }

  ghost predicate Comparable(a: seq<string>, b: seq<string>) { a <= b || b <= a }

  // A path of the tree that stands in the way of another.
  ghost predicate Blocks(children: Children, q: seq<string>, parts: seq<string>) {
    HasLeaf(children, q) && Comparable(q, parts)
  }

  ghost predicate Blocked(children: Children, parts: seq<string>) {
    exists q :: Blocks(children, q, parts)
  }

  lemma {:induction false} SomeLeaf(children: Children) returns (path: seq<string>)
    requires Bushy(children) && children != []
    ensures HasLeaf(children, path)
  {
    var f := children[0];
    LookupAt(children, 0);
    if f.value.Leaf? {
      path := [f.key];
    } else {
      var below := SomeLeaf(f.value.children);
      path := [f.key] + below;
      assert path[1..] == below;
    }
  }

  lemma BushyChild(children: Children, part: string)
    requires Bushy(children) && Lookup(children, part).Some? && Lookup(children, part).value.Node?
    ensures Bushy(Lookup(children, part).value.children) && Lookup(children, part).value.children != []
  {
    var i := LookupFinds(children, part);
  }

  lemma {:induction false} DropLooks<T(!new)>(fields: seq<Field<T>>, key: string, k: string)
    requires Distinct(Keys(fields))
    ensures Lookup(Drop(fields, key), k) == if k == key then None else Lookup(fields, k)
  {
    if fields != [] {
      assert Keys(fields) == [fields[0].key] + Keys(fields[1..]);
      assert Keys(fields)[1..] == Keys(fields[1..]);
      DropLooks(fields[1..], key, k);
      if fields[0].key == key {
        assert forall j :: 1 <= j < |fields| ==> Keys(fields)[0] != Keys(fields)[j];
        NotFound(fields[1..], key);
      }
    }
  }

  // A path is refused exactly when the tree holds a path it begins or that begins it.
  lemma {:induction false} InsertRefusesExactly(children: Children, parts: seq<string>)
    requires Bushy(children) && parts != []
    ensures Insert(children, parts) == None <==> Blocked(children, parts)
    decreases |parts|
  {
    hide Bushy;
    var part, rest := parts[0], parts[1..];
    var existing := Lookup(children, part);
    forall q | Blocks(children, q, parts)
      ensures q[0] == part && existing.Some?
    {
      HeadsAgree(q, parts);
    }
    if existing == None {
      NothingBelow();
      if rest != [] {
        EmptyIsBushy();
        InsertRefusesExactly([], rest);
      }
    } else if existing.value.Leaf? {
      assert Blocks(children, [part], parts);
    } else {
      var below := existing.value.children;
      BushyChild(children, part);
      if rest == [] {
        var q := SomeLeaf(below);
        LeafBelow(children, part, q);
        assert Blocks(children, [part] + q, parts);
      } else {
        InsertRefusesExactly(below, rest);
        if Insert(below, rest) == None {
          var q :| Blocks(below, q, rest);
          LeafBelow(children, part, q);
          ComparableBelow(part, q, rest, parts);
          assert Blocks(children, [part] + q, parts);
        }
        forall q | Blocks(children, q, parts)
          ensures Blocks(below, q[1..], rest)
        {
          HeadsAgree(q, parts);
        }
      }
    }
  }

  lemma HeadsAgree(q: seq<string>, parts: seq<string>)
    requires q != [] && parts != [] && Comparable(q, parts)
    ensures q[0] == parts[0] && Comparable(q[1..], parts[1..])
  {
  }

  lemma ComparableBelow(part: string, q: seq<string>, rest: seq<string>, parts: seq<string>)
    requires parts == [part] + rest && Comparable(q, rest)
    ensures Comparable([part] + q, parts)
  {
  }

  lemma LeafBelow(children: Children, part: string, q: seq<string>)
    requires Lookup(children, part).Some? && Lookup(children, part).value.Node?
             && HasLeaf(Lookup(children, part).value.children, q)
    ensures HasLeaf(children, [part] + q)
  {
    assert ([part] + q)[1..] == q;
  }

  lemma NothingBelow()
    ensures forall q :: !HasLeaf([], q)
  {
  }

  lemma EmptyIsBushy()
    ensures Bushy([])
  {
  }

  lemma BushyPut(children: Children, part: string, t: Tree)
    requires Bushy(children) && (t.Node? ==> t.children != [] && Bushy(t.children))
    ensures Bushy(Put(children, part, t)) && Put(children, part, t) != []
  {
    PutDistinct(children, part, t);
    PutKeys(children, part, t);
    var put := Put(children, part, t);
    forall i | 0 <= i < |put| && put[i].value.Node?
      ensures put[i].value.children != [] && Bushy(put[i].value.children)
    {
      LookupAt(put, i);
      PutLooks(children, part, t, put[i].key);
      if put[i].key != part {
        var j := LookupFinds(children, put[i].key);
      }
    }
  }

  // What an accepted path adds is itself.
  lemma {:induction false} InsertAdds(children: Children, parts: seq<string>)
    requires Bushy(children) && parts != [] && Insert(children, parts).Some?
    ensures var grown := Insert(children, parts).value;
            Bushy(grown) && grown != [] && forall q :: HasLeaf(grown, q) <==> HasLeaf(children, q) || q == parts
    decreases |parts|
  {
    hide Bushy;
    var part, rest := parts[0], parts[1..];
    var existing := Lookup(children, part);
    var grown := Insert(children, parts).value;
    assert parts == [part] + rest;
    var t := Leaf;
    if rest == [] {
      BushyPut(children, part, Leaf);
    } else {
      EmptyIsBushy();
      if existing.Some? {
        BushyChild(children, part);
      }
      var below := if existing.Some? then existing.value.children else [];
      InsertAdds(below, rest);
      t := Node(Insert(below, rest).value);
      BushyPut(children, part, t);
    }
    forall q
      ensures HasLeaf(grown, q) <==> HasLeaf(children, q) || q == parts
    {
      if q != [] {
        PutLooks(children, part, t, q[0]);
        assert q == [q[0]] + q[1..];
        assert |q| == 1 ==> q[1..] == [];
        NothingBelow();
      }
    }
  }

  ghost predicate Clash(paths: seq<Field<Setting>>) {
    exists i, j :: 0 <= i < j < |paths| && Comparable(Split(paths[i].key), Split(paths[j].key))
  }

  ghost predicate OneSided(paths: seq<Field<Setting>>, including: bool) {
    forall i :: 0 <= i < |paths| ==> paths[i].value == Flag(including)
  }

  ghost predicate Holds(children: Children, paths: seq<Field<Setting>>) {
    forall q :: HasLeaf(children, q) <==> exists i :: 0 <= i < |paths| && Split(paths[i].key) == q
  }

  // The tree can be grown exactly when the paths agree on their rule and none begins another,
  // and then it holds those paths and no other.
  lemma {:induction false} GrowExactly(paths: seq<Field<Setting>>, including: bool)
    ensures Grow(paths, including).Tall? <==> OneSided(paths, including) && !Clash(paths)
    ensures Grow(paths, including).Tall?
            ==> Bushy(Grow(paths, including).children) && Holds(Grow(paths, including).children, paths)
  {
    hide Insert, Split, HasLeaf, Bushy, Holds, Clash, Blocked;
    if paths == [] {
      EmptyIsBushy();
      EmptyHolds();
    } else {
      var front, last := paths[..|paths| - 1], paths[|paths| - 1];
      assert paths == front + [last];
      GrowExactly(front, including);
      if Grow(front, including).Tall? && last.value == Flag(including) {
        var children := Grow(front, including).children;
        var parts := Split(last.key);
        InsertRefusesExactly(children, parts);
        LastClashes(front, last, children);
        if Insert(children, parts).Some? {
          InsertAdds(children, parts);
          HoldsMore(children, Insert(children, parts).value, front, last);
        }
      } else if Clash(front) {
        ClashMore(front, last);
      }
    }
  }

  lemma EmptyHolds()
    ensures Holds([], []) && !Clash([])
  {
    NothingBelow();
  }

  lemma ClashMore(front: seq<Field<Setting>>, last: Field<Setting>)
    requires Clash(front)
    ensures Clash(front + [last])
  {
    var i, j :| 0 <= i < j < |front| && Comparable(Split(front[i].key), Split(front[j].key));
    assert (front + [last])[i] == front[i] && (front + [last])[j] == front[j];
  }

  lemma LastClashes(front: seq<Field<Setting>>, last: Field<Setting>, children: Children)
    requires Holds(children, front) && !Clash(front)
    ensures Clash(front + [last]) <==> Blocked(children, Split(last.key))
  {
    hide Split, HasLeaf, Comparable, Clash;
    var all := front + [last];
    if Clash(all) {
      var i, j := ClashWhere(all);
      if j < |front| {
        ClashAt(front, i, j);
      }
      var q := Split(front[i].key);
      assert all[i] == front[i] && all[j] == last;
      assert Blocks(children, q, Split(last.key));
    }
    if q :| Blocks(children, q, Split(last.key)) {
      var i :| 0 <= i < |front| && Split(front[i].key) == q;
      assert all[i] == front[i] && all[|front|] == last;
      ClashAt(all, i, |front|);
    }
  }

  lemma ClashWhere(paths: seq<Field<Setting>>) returns (i: nat, j: nat)
    requires Clash(paths)
    ensures i < j < |paths| && Comparable(Split(paths[i].key), Split(paths[j].key))
  {
    hide Split, Comparable;
    i, j :| 0 <= i < j < |paths| && Comparable(Split(paths[i].key), Split(paths[j].key));
  }

  lemma ClashAt(paths: seq<Field<Setting>>, i: nat, j: nat)
    requires i < j < |paths| && Comparable(Split(paths[i].key), Split(paths[j].key))
    ensures Clash(paths)
  {
  }

  lemma HoldsMore(children: Children, grown: Children, front: seq<Field<Setting>>, last: Field<Setting>)
    requires Holds(children, front)
    requires forall q :: HasLeaf(grown, q) <==> HasLeaf(children, q) || q == Split(last.key)
    ensures Holds(grown, front + [last])
  {
    hide Split, HasLeaf;
    var all := front + [last];
    forall q
      ensures HasLeaf(grown, q) <==> exists i :: 0 <= i < |all| && Split(all[i].key) == q
    {
      if HasLeaf(children, q) {
        var i :| 0 <= i < |front| && Split(front[i].key) == q;
        assert all[i] == front[i];
      }
      assert all[|front|] == last;
    }
  }

  // Compiling succeeds exactly when every setting is supported, the paths that count agree on
  // including or excluding, and none of them is a segment-prefix of another.
  lemma CompileExactly(projection: seq<Field<Setting>>)
    ensures var paths := Effective(projection);
            Compile(projection).Compiled? <==>
              Supported(projection) && OneSided(paths, Including(paths)) && !Clash(paths)
    ensures Compile(projection).Compiled? ==> Holds(Compile(projection).children, Effective(projection))
  {
    var paths := Effective(projection);
    GrowExactly(paths, Including(paths));
  }
}
