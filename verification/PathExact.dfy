// Which values a path finds: going where an index list says (typeferry-ts/src/minimongo/path.ts).
module PathExact {
  import opened Results
  import opened Fields
  import opened ValueOrder
  import opened Path

  datatype Spot = Spot(value: Value, dontIterate: bool)

  // The list goes on with an element of an array, not with a position named by a path part.
  predicate ByElement(at: seq<Step>) {
    at != [] && at[0].Index? && (|at| == 1 || at[1] != X)
  }

  predicate ByPart(at: seq<Step>, part: string, length: nat) {
    |at| >= 2 && at[0].Index? && at[1] == X && NumericKey(part) && ToNumber(part) == at[0].n && at[0].n < length
  }

  // What stands at the end of the parts when arrays are crossed as the index list says: at
  // [n, x] a numeric part picks element n; at [n] alone element n is searched for the remaining
  // parts, if it is an object and sorting does not take the next part for a position.
  function Follow(v: Value, parts: seq<string>, at: seq<Step>, forSort: bool): Option<Spot>
    decreases |parts|
  {
    if parts == [] then (if at == [] then Some(Spot(v, false)) else None)
    else if !Container(v) then (if at == [] then Some(Spot(Undefined, false)) else None)
    else
      var rest := parts[1..];
      match v
      case Arr(items) =>
        if !ByPart(at, parts[0], |items|) then None
        else if rest == [] then
          (if |at| == 2 then Some(Spot(items[at[0].n], items[at[0].n].Arr?)) else None)
        else Follow(items[at[0].n], rest, at[2..], forSort)
      case Obj(fields) =>
        var field := Lookup(fields, parts[0]);
        var value := if field == None then Undefined else field.value;
        if rest != [] && value.Arr? && ByElement(at) then
          if at[0].n < |value.items| && value.items[at[0].n].Obj? && !(forSort && NumericKey(rest[0]))
          then Follow(value.items[at[0].n], rest, at[1..], forSort) else None
        else Follow(value, rest, at, forSort)
      case _ => None
  }

  lemma {:induction false} FollowStart(v: Value, parts: seq<string>, at: seq<Step>, forSort: bool)
    requires Follow(v, parts, at, forSort).Some?
    ensures at == [] || at[0].Index?
    decreases |parts|
  {
    if parts != [] && v.Obj? {
      var value, rest := FieldOf(v.fields, parts[0]), parts[1..];
      if !(rest != [] && value.Arr? && ByElement(at)) {
        FollowStart(value, rest, at, forSort);
      }
    }
  }

  function Onward(indices: Option<seq<Step>>, at: seq<Step>): Option<seq<Step>> {
    if at == [] then indices else Some(Within(indices) + at)
  }

  lemma OnwardJoins(indices: Option<seq<Step>>, step: seq<Step>, more: seq<Step>)
    requires step != []
    ensures Onward(Some(Within(indices) + step), more) == Onward(indices, step + more)
  {
    if more == [] {
      assert step + more == step;
    } else {
      assert Within(indices) + step + more == Within(indices) + (step + more);
    }
  }

  // The branch of a lookup that an index list leads to.
  predicate Leads(v: Value, parts: seq<string>, indices: Option<seq<Step>>, forSort: bool, at: seq<Step>, b: Branch) {
    Follow(v, parts, at, forSort) == Some(Spot(b.value, b.dontIterate)) && b.indices == Onward(indices, at)
  }

  /* ---------- Every branch is where its index list leads ---------- */

  lemma {:induction false} ElementLed(items: seq<Value>, from: nat, rest: seq<string>, indices: Option<seq<Step>>,
                                      forSort: bool, b: Branch) returns (i: nat, at: seq<Step>)
    requires from <= |items| && b in ElementBranches(items, from, rest, indices, forSort)
    ensures i < |items| && items[i].Obj?
    ensures Leads(items[i], rest, Some(Within(indices) + [Index(i)]), forSort, at, b)
    decreases |rest|, 1 + |items| - from
  {
    hide BranchAt, Follow;
    var own := Some(Within(indices) + [Index(from)]);
    if items[from].Obj? && b in BranchAt(items[from], rest, own, forSort) {
      i := from;
      at := BranchLed(items[from], rest, own, forSort, b);
    } else {
      i, at := ElementLed(items, from + 1, rest, indices, forSort, b);
    }
  }

  lemma {:induction false} BranchLed(v: Value, parts: seq<string>, indices: Option<seq<Step>>, forSort: bool, b: Branch)
    returns (at: seq<Step>)
    requires b in BranchAt(v, parts, indices, forSort)
    ensures Leads(v, parts, indices, forSort, at, b)
    decreases |parts|, 0
  {
    at := [];
    if parts != [] && Container(v) {
      var part, rest := parts[0], parts[1..];
      if v.Arr? {
        var n := ToNumber(part);
        var step := [Index(n), X];
        if rest == [] {
          at := step;
        } else {
          var more := BranchLed(v.items[n], rest, Some(Within(indices) + step), forSort, b);
          at := step + more;
          assert at[2..] == more;
          OnwardJoins(indices, step, more);
        }
      } else {
        var value := FieldOf(v.fields, part);
        if rest != [] && Container(value) {
          if b in BranchAt(value, rest, indices, forSort) {
            at := BranchLed(value, rest, indices, forSort, b);
            DirectStep(value, rest, at, forSort);
          } else {
            var i, more := ElementLed(value.items, 0, rest, indices, forSort, b);
            FollowStart(value.items[i], rest, more, forSort);
            at := [Index(i)] + more;
            assert at[1..] == more;
            OnwardJoins(indices, [Index(i)], more);
          }
        }
      }
    }
  }

  // A list that leads somewhere inside an array by a path part is not a list of an element.
  lemma DirectStep(value: Value, rest: seq<string>, at: seq<Step>, forSort: bool)
    requires rest != [] && Follow(value, rest, at, forSort).Some?
    ensures !(value.Arr? && ByElement(at))
  {
  }

  /* ---------- Every index list that leads somewhere is found ---------- */

  lemma {:induction false} ElementFound(items: seq<Value>, from: nat, i: nat, rest: seq<string>,
                                        indices: Option<seq<Step>>, forSort: bool, b: Branch)
    requires from <= i < |items| && items[i].Obj?
    requires b in BranchAt(items[i], rest, Some(Within(indices) + [Index(i)]), forSort)
    ensures b in ElementBranches(items, from, rest, indices, forSort)
    decreases i - from
  {
    hide BranchAt;
    if from < i {
      ElementFound(items, from + 1, i, rest, indices, forSort, b);
    }
  }

  lemma {:induction false} BranchFound(v: Value, parts: seq<string>, indices: Option<seq<Step>>, forSort: bool,
                                       at: seq<Step>, b: Branch)
    requires Leads(v, parts, indices, forSort, at, b)
    ensures b in BranchAt(v, parts, indices, forSort)
    decreases |parts|
  {
    if parts != [] && Container(v) {
      var part, rest := parts[0], parts[1..];
      if v.Arr? {
        var step := [Index(at[0].n), X];
        assert at == step + at[2..];
        OnwardJoins(indices, step, at[2..]);
        if rest != [] {
          BranchFound(v.items[at[0].n], rest, Some(Within(indices) + step), forSort, at[2..], b);
        }
      } else {
        var value := FieldOf(v.fields, part);
        if rest != [] && value.Arr? && ByElement(at) {
          var own := Some(Within(indices) + [Index(at[0].n)]);
          assert at == [at[0]] + at[1..];
          OnwardJoins(indices, [at[0]], at[1..]);
          BranchFound(value.items[at[0].n], rest, own, forSort, at[1..], b);
          ElementFound(value.items, 0, at[0].n, rest, indices, forSort, b);
        } else if rest != [] && Container(value) {
          BranchFound(value, rest, indices, forSort, at, b);
        } else {
          assert Follow(v, parts, at, forSort) == Follow(value, rest, at, forSort);
          assert at == [];
        }
      }
    }
  }

  // A lookup finds exactly the values that index lists lead to, each under its list.
  lemma LookupExactly(doc: Value, parts: seq<string>, forSort: bool, b: Branch)
    ensures b in BranchAt(doc, parts, None, forSort)
       <==> Leads(doc, parts, None, forSort, Within(b.indices), b)
  {
    hide BranchAt, Follow;
    if b in BranchAt(doc, parts, None, forSort) {
      var at := BranchLed(doc, parts, None, forSort, b);
      assert [] + at == at;
    }
    if Leads(doc, parts, None, forSort, Within(b.indices), b) {
      BranchFound(doc, parts, None, forSort, Within(b.indices), b);
    }
  }

  /* ---------- Expanding arrays ---------- */

  // An element of an array that may be iterated.
  predicate ElementOf(b: Branch, c: Branch, i: nat) {
    && c.value.Arr? && !c.dontIterate && i < |c.value.items|
    && b == Branch(c.value.items[i], false, Some(Within(c.indices) + [Index(i)]))
  }

  ghost predicate ExpandsTo(c: Branch, b: Branch, skipArrays: bool) {
    || (b == c && !(skipArrays && c.value.Arr? && !c.dontIterate))
    || exists i: nat :: ElementOf(b, c, i)
  }

  lemma ExpandedExactly(c: Branch, b: Branch, skipArrays: bool)
    ensures b in Expanded(c, skipArrays) <==> ExpandsTo(c, b, skipArrays)
  {
    if c.value.Arr? && !c.dontIterate {
      if b in Elements(c) {
        var i :| 0 <= i < |Elements(c)| && Elements(c)[i] == b;
        assert ElementOf(b, c, i);
      }
      if i: nat :| ElementOf(b, c, i) {
        assert Elements(c)[i] == b;
      }
    }
  }

  // Expanding keeps a branch, unless it is an array to be skipped, and adds the elements of an
  // array that may be iterated.
  lemma {:induction false} ExpandExactly(bs: seq<Branch>, b: Branch, skipArrays: bool)
    ensures b in Expand(bs, skipArrays) <==> exists c :: c in bs && ExpandsTo(c, b, skipArrays)
  {
    hide Expanded, ExpandsTo;
    if bs != [] {
      var front, last := bs[..|bs| - 1], bs[|bs| - 1];
      ExpandExactly(front, b, skipArrays);
      ExpandedExactly(last, b, skipArrays);
      assert bs == front + [last];
    }
  }
}
