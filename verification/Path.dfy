// Looking up a dotted path in a document (typeferry-ts/src/minimongo/path.ts).
module Path {
  import opened Results
  import opened Text
  import opened Fields
  import opened ValueOrder

  // An entry of `arrayIndices`: a position, or the mark left by an explicit numeric part.
  datatype Step = Index(n: nat) | X

  datatype Branch = Branch(value: Value, dontIterate: bool, indices: Option<seq<Step>>)

  predicate NumericKey(part: string) {
    part != "" && forall i :: 0 <= i < |part| ==> '0' <= part[i] <= '9'
  }

  function Within(indices: Option<seq<Step>>): seq<Step> {
    if indices.Some? then indices.value else []
  }

  function FieldOf(fields: seq<Field<Value>>, key: string): Value {
    var found := Lookup(fields, key);
    if found.Some? then found.value else Undefined
  }

  predicate Container(v: Value) { v.Obj? || v.Arr? }

  function ToNumber(part: string): nat
    requires NumericKey(part)
  {
    ParsesNumeric(part);
    ParseNat(part).value
  }

  lemma {:induction false} ParsesNumeric(part: string)
    requires NumericKey(part)
    ensures ParseNat(part).Some?
  {
    if |part| > 1 {
      ParsesNumeric(part[..|part| - 1]);
    }
  }

  /* ---------- branchAt ---------- */

  function BranchAt(current: Value, parts: seq<string>, indices: Option<seq<Step>>, forSort: bool): seq<Branch>
    decreases |parts|, 0
  {
    if parts == [] then [Branch(current, false, indices)]
    else if !Container(current) then [Branch(Undefined, false, indices)]
    else
      var part, rest := parts[0], parts[1..];
      match current
      case Arr(items) =>
        if !NumericKey(part) || ToNumber(part) >= |items| then []
        else
          var index := ToNumber(part);
          var next := Some(Within(indices) + [Index(index), X]);
          if rest == [] then [Branch(items[index], items[index].Arr?, next)]
          else BranchAt(items[index], rest, next, forSort)
      case Obj(fields) =>
        var value := FieldOf(fields, part);
        if rest == [] then [Branch(value, false, indices)]
        else if !Container(value) then [Branch(Undefined, false, indices)]
        else
          BranchAt(value, rest, indices, forSort)
          + if value.Arr? && !(forSort && NumericKey(rest[0]))
            then ElementBranches(value.items, 0, rest, indices, forSort) else []
      case _ => []
  }

  function ElementBranches(items: seq<Value>, from: nat, rest: seq<string>, indices: Option<seq<Step>>,
                           forSort: bool): seq<Branch>
    requires from <= |items|
    decreases |rest|, 1 + |items| - from
  {
    if from == |items| then []
    else
      (if items[from].Obj? then BranchAt(items[from], rest, Some(Within(indices) + [Index(from)]), forSort) else [])
      + ElementBranches(items, from + 1, rest, indices, forSort)
  }

  // branchAt as written, pushing the branches of the elements one element at a time.
  method CollectBranches(current: Value, parts: seq<string>, indices: Option<seq<Step>>, forSort: bool)
    returns (results: seq<Branch>)
    ensures results == BranchAt(current, parts, indices, forSort)
    decreases |parts|, 0
  {
    if parts == [] {
      return [Branch(current, false, indices)];
    }
    if !Container(current) {
      return [Branch(Undefined, false, indices)];
    }
    var part, rest := parts[0], parts[1..];
    if current.Arr? {
      if !NumericKey(part) || ToNumber(part) >= |current.items| {
        return [];
      }
      var value := current.items[ToNumber(part)];
      var next := Some(Within(indices) + [Index(ToNumber(part)), X]);
      if rest == [] {
        return [Branch(value, value.Arr?, next)];
      }
      results := CollectBranches(value, rest, next, forSort);
      return;
    }
    var value := FieldOf(current.fields, part);
    if rest == [] {
      return [Branch(value, false, indices)];
    }
    if !Container(value) {
      return [Branch(Undefined, false, indices)];
    }
    results := CollectBranches(value, rest, indices, forSort);
    if value.Arr? && !(forSort && NumericKey(rest[0])) {
      results := PushElements(results, value.items, rest, indices, forSort);
    }
  }

  method PushElements(before: seq<Branch>, items: seq<Value>, rest: seq<string>, indices: Option<seq<Step>>,
                      forSort: bool)
    returns (results: seq<Branch>)
    ensures results == before + ElementBranches(items, 0, rest, indices, forSort)
    decreases |rest|, 1
  {
    hide BranchAt;
    results := before;
    for index := 0 to |items|
      invariant results + ElementBranches(items, index, rest, indices, forSort)
                == before + ElementBranches(items, 0, rest, indices, forSort)
    {
      if items[index].Obj? {
        var more := CollectBranches(items[index], rest, Some(Within(indices) + [Index(index)]), forSort);
        results := results + more;
      }
    }
  }

  /* ---------- expandArrays ---------- */

  function Elements(b: Branch): seq<Branch>
    requires b.value.Arr?
  {
    seq(|b.value.items|, i requires 0 <= i < |b.value.items| =>
      Branch(b.value.items[i], false, Some(Within(b.indices) + [Index(i)])))
  }

  function Expanded(b: Branch, skipArrays: bool): seq<Branch> {
    if b.value.Arr? && !b.dontIterate then (if skipArrays then [] else [b]) + Elements(b) else [b]
  }

  function Expand(branches: seq<Branch>, skipArrays: bool): seq<Branch> {
    if branches == [] then []
    else Expand(branches[..|branches| - 1], skipArrays) + Expanded(branches[|branches| - 1], skipArrays)
  }

  method ExpandArrays(branches: seq<Branch>, skipArrays: bool) returns (result: seq<Branch>)
    ensures result == Expand(branches, skipArrays)
  {
    hide Expanded;
    result := [];
    for i := 0 to |branches|
      invariant result == Expand(branches[..i], skipArrays)
    {
      assert branches[..i + 1][..i] == branches[..i];
      result := PushExpanded(result, branches[i], skipArrays);
    }
    assert branches[..|branches|] == branches;
  }

  method PushExpanded(before: seq<Branch>, branch: Branch, skipArrays: bool) returns (result: seq<Branch>)
    ensures result == before + Expanded(branch, skipArrays)
  {
    result := before;
    var iterate := branch.value.Arr? && !branch.dontIterate;
    if !(skipArrays && iterate) {
      result := result + [branch];
    }
    if iterate {
      ghost var start := result;
      for index := 0 to |branch.value.items|
        invariant result == start + Elements(branch)[..index]
      {
        result := result + [Branch(branch.value.items[index], false, Some(Within(branch.indices) + [Index(index)]))];
      }
      assert Elements(branch)[..|branch.value.items|] == Elements(branch);
    }
  }

  /* ---------- The index lists of a sort lookup never run into each other ---------- */

  // Two lists that differ somewhere before either ends.
  ghost predicate Apart(a: seq<Step>, b: seq<Step>) {
    exists k :: 0 <= k < |a| && k < |b| && a[k] != b[k]
  }

  ghost predicate Under(b: Branch, base: seq<Step>) {
    b.indices.Some? && b.indices.value != [] && base <= b.indices.value
  }

  ghost predicate Spread(bs: seq<Branch>, base: seq<Step>) {
    && (forall i :: 0 <= i < |bs| ==> Under(bs[i], base))
    && (forall i, j :: 0 <= i < j < |bs| ==> Apart(bs[i].indices.value, bs[j].indices.value))
  }

  ghost predicate Separated(bs: seq<Branch>) {
    || (|bs| == 1 && bs[0].indices == None && !bs[0].dontIterate)
    || Spread(bs, [])
  }

  lemma ApartFrom(a: seq<Step>, b: seq<Step>, base: seq<Step>, i: Step, j: Step)
    requires base + [i] <= a && base + [j] <= b && i != j
    ensures Apart(a, b)
  {
    assert a[|base|] == (base + [i])[|base|] && b[|base|] == (base + [j])[|base|];
  }

  lemma ApartExtended(a: seq<Step>, b: seq<Step>, c: seq<Step>, d: seq<Step>)
    requires Apart(a, b) && a <= c && b <= d
    ensures Apart(c, d)
  {
    var k :| 0 <= k < |a| && k < |b| && a[k] != b[k];
    assert c[k] == a[k] && d[k] == b[k];
  }

  lemma SpreadJoins(a: seq<Branch>, b: seq<Branch>, base: seq<Step>)
    requires Spread(a, base) && Spread(b, base)
    requires forall x, y :: x in a && y in b ==> Apart(x.indices.value, y.indices.value)
    ensures Spread(a + b, base)
  {
    forall i, j | 0 <= i < j < |a + b|
      ensures Apart((a + b)[i].indices.value, (a + b)[j].indices.value)
    {
      if i < |a| <= j {
        assert a[i] in a && b[j - |a|] in b;
      }
    }
  }

  ghost predicate AtElement(b: Branch, base: seq<Step>, from: nat, to: nat) {
    exists i :: from <= i < to && Under(b, base + [Index(i)])
  }

  lemma ElementsApart(own: seq<Branch>, others: seq<Branch>, base: seq<Step>, from: nat, to: nat)
    requires Spread(own, base + [Index(from)]) && Spread(others, base) && from < to
    requires forall b :: b in others ==> AtElement(b, base, from + 1, to)
    ensures Spread(own + others, base)
    ensures forall b :: b in own + others ==> AtElement(b, base, from, to)
  {
    forall b | b in own
      ensures Under(b, base + [Index(from)]) && AtElement(b, base, from, to)
    {
      assert base <= base + [Index(from)];
    }
    forall b | b in own + others
      ensures AtElement(b, base, from, to)
    {
      if b !in own {
        assert AtElement(b, base, from + 1, to);
      }
    }
    forall x, y | x in own && y in others
      ensures Apart(x.indices.value, y.indices.value)
    {
      var i :| from + 1 <= i < to && Under(y, base + [Index(i)]);
      ApartFrom(x.indices.value, y.indices.value, base, Index(from), Index(i));
    }
    assert Spread(own, base);
    SpreadJoins(own, others, base);
  }

  lemma {:induction false} ElementsSpread(items: seq<Value>, from: nat, rest: seq<string>, indices: Option<seq<Step>>)
    requires from <= |items|
    ensures Spread(ElementBranches(items, from, rest, indices, true), Within(indices))
    ensures forall b :: b in ElementBranches(items, from, rest, indices, true)
                        ==> AtElement(b, Within(indices), from, |items|)
    decreases |rest|, 1 + |items| - from
  {
    hide AtElement, BranchAt;
    if from < |items| {
      var base := Within(indices) + [Index(from)];
      ElementsSpread(items, from + 1, rest, indices);
      if items[from].Obj? {
        BranchesSpread(items[from], rest, base);
      }
      var own := if items[from].Obj? then BranchAt(items[from], rest, Some(base), true) else [];
      assert Spread(own, base);
      hide Spread;
      ElementsApart(own, ElementBranches(items, from + 1, rest, indices, true), Within(indices), from, |items|);
    }
  }

  lemma {:induction false} BranchesSpread(current: Value, parts: seq<string>, base: seq<Step>)
    requires base != []
    ensures Spread(BranchAt(current, parts, Some(base), true), base)
    decreases |parts|, 0
  {
    if parts != [] && Container(current) {
      var part, rest := parts[0], parts[1..];
      if current.Arr? {
        if NumericKey(part) && ToNumber(part) < |current.items| && rest != [] {
          var next := base + [Index(ToNumber(part)), X];
          BranchesSpread(current.items[ToNumber(part)], rest, next);
        }
      } else {
        var value := FieldOf(current.fields, part);
        if rest != [] && Container(value) {
          BranchesSpread(value, rest, base);
          if value.Arr? && !NumericKey(rest[0]) {
            ElementsSpread(value.items, 0, rest, Some(base));
          }
        }
      }
    }
  }

  // A sort lookup finds one value outside any array, or values at index lists none of which
  // begins another.
  lemma {:induction false} LookupSeparates(current: Value, parts: seq<string>)
    ensures Separated(BranchAt(current, parts, None, true))
    decreases |parts|
  {
    if parts != [] && Container(current) {
      var part, rest := parts[0], parts[1..];
      if current.Arr? {
        if NumericKey(part) && ToNumber(part) < |current.items| && rest != [] {
          var next := [Index(ToNumber(part)), X];
          assert Within(None) + [Index(ToNumber(part)), X] == next;
          BranchesSpread(current.items[ToNumber(part)], rest, next);
        }
      } else {
        var value := FieldOf(current.fields, part);
        if rest != [] && Container(value) {
          LookupSeparates(value, rest);
          if value.Arr? && !NumericKey(rest[0]) {
            ElementsSpread(value.items, 0, rest, None);
          }
        }
      }
    }
  }

  lemma ExpandedSpread(b: Branch)
    ensures b.indices.Some? && b.indices.value != [] ==> Spread(Expanded(b, true), b.indices.value)
    ensures b.indices == None && !b.dontIterate ==> Separated(Expanded(b, true))
  {
    if b.value.Arr? && !b.dontIterate {
      var base := Within(b.indices);
      var es := Elements(b);
      forall i, j | 0 <= i < j < |es|
        ensures Apart(es[i].indices.value, es[j].indices.value)
      {
        ApartFrom(es[i].indices.value, es[j].indices.value, base, Index(i), Index(j));
      }
    }
  }

  // Expanding arrays keeps the lists apart.
  lemma {:induction false} ExpandSpread(bs: seq<Branch>)
    requires Spread(bs, [])
    ensures Spread(Expand(bs, true), [])
    ensures forall x :: x in Expand(bs, true) ==> exists b :: b in bs && b.indices.Some? && Under(x, b.indices.value)
  {
    if bs != [] {
      var front, last := bs[..|bs| - 1], bs[|bs| - 1];
      ExpandSpread(front);
      ExpandedSpread(last);
      assert Under(last, []);
      var own := Expanded(last, true);
      forall x, y | x in Expand(front, true) && y in own
        ensures Apart(x.indices.value, y.indices.value)
      {
        var b :| b in front && b.indices.Some? && Under(x, b.indices.value);
        var i :| 0 <= i < |front| && front[i] == b;
        assert Apart(bs[i].indices.value, bs[|bs| - 1].indices.value);
        assert Under(y, last.indices.value);
        ApartExtended(b.indices.value, last.indices.value, x.indices.value, y.indices.value);
      }
      assert Spread(own, []);
      SpreadJoins(Expand(front, true), own, []);
      forall x | x in Expand(bs, true)
        ensures exists b :: b in bs && b.indices.Some? && Under(x, b.indices.value)
      {
        if x in own {
          assert Under(x, last.indices.value) && last in bs;
        } else {
          var b :| b in front && b.indices.Some? && Under(x, b.indices.value);
          assert b in bs;
        }
      }
    }
  }

  lemma ExpandSeparates(bs: seq<Branch>)
    requires Separated(bs)
    ensures Separated(Expand(bs, true))
  {
    if Spread(bs, []) {
      ExpandSpread(bs);
    } else {
      ExpandedSpread(bs[0]);
      assert bs[..0] == [];
      assert Expand(bs, true) == Expanded(bs[0], true);
    }
  }

  /* ---------- The text form of an index list names it uniquely ---------- */

  function StepText(s: Step): string {
    match s
    case Index(n) => FormatNat(n)
    case X => "x"
  }

  // arrayIndices.join(',') followed by a comma.
  function PathText(indices: seq<Step>): string {
    if indices == [] then "" else StepText(indices[0]) + "," + PathText(indices[1..])
  }

  lemma CommaSplits(a: string, b: string, restA: string, restB: string)
    requires ',' !in a && ',' !in b && a + "," + restA == b + "," + restB
    ensures a == b && restA == restB
  {
    var whole := a + "," + restA;
    assert whole[|a|] == ',' && whole[|b|] == ',';
    if |a| == |b| {
      assert a == whole[..|a|] && b == whole[..|b|];
      assert restA == whole[|a| + 1..] && restB == whole[|b| + 1..];
    }
  }

  lemma StepTextInjective(a: Step, b: Step)
    ensures ',' !in StepText(a)
    ensures StepText(a) == StepText(b) ==> a == b
  {
    if a.Index? {
      ParseFormatNat(a.n);
    }
    if b.Index? {
      ParseFormatNat(b.n);
    }
    assert a.Index? ==> '0' <= StepText(a)[0] <= '9';
    assert b.Index? ==> '0' <= StepText(b)[0] <= '9';
  }

  lemma {:induction false} PathTextInjective(a: seq<Step>, b: seq<Step>)
    requires PathText(a) == PathText(b)
    ensures a == b
  {
    if a != [] && b != [] {
      StepTextInjective(a[0], b[0]);
      StepTextInjective(b[0], a[0]);
      CommaSplits(StepText(a[0]), StepText(b[0]), PathText(a[1..]), PathText(b[1..]));
      PathTextInjective(a[1..], b[1..]);
      assert a == [a[0]] + a[1..] && b == [b[0]] + b[1..];
    }
  }

  /* ---------- Values found are parts of the document ---------- */

  ghost predicate Sane(v: Value) { Tidy(v) && NaNFree(v) }

  ghost predicate AllSane(bs: seq<Branch>) {
    forall i :: 0 <= i < |bs| ==> Sane(bs[i].value)
  }

  lemma FieldSane(fields: seq<Field<Value>>, key: string)
    requires Sane(Obj(fields))
    ensures Sane(FieldOf(fields, key))
  {
    if Lookup(fields, key).Some? {
      var i := LookupFinds(fields, key);
    }
  }

  lemma {:induction false} ElementsSane(items: seq<Value>, from: nat, rest: seq<string>, indices: Option<seq<Step>>,
                                        forSort: bool)
    requires from <= |items| && forall i :: 0 <= i < |items| ==> Sane(items[i])
    ensures AllSane(ElementBranches(items, from, rest, indices, forSort))
    decreases |rest|, 1 + |items| - from
  {
    if from < |items| {
      if items[from].Obj? {
        BranchesSane(items[from], rest, Some(Within(indices) + [Index(from)]), forSort);
      }
      ElementsSane(items, from + 1, rest, indices, forSort);
    }
  }

  lemma {:induction false} BranchesSane(current: Value, parts: seq<string>, indices: Option<seq<Step>>, forSort: bool)
    requires Sane(current)
    ensures AllSane(BranchAt(current, parts, indices, forSort))
    decreases |parts|, 0
  {
    if parts != [] && Container(current) {
      var part, rest := parts[0], parts[1..];
      if current.Arr? {
        if NumericKey(part) && ToNumber(part) < |current.items| && rest != [] {
          var found := Some(Within(indices) + [Index(ToNumber(part)), X]);
          BranchesSane(current.items[ToNumber(part)], rest, found, forSort);
        }
      } else {
        FieldSane(current.fields, part);
        var value := FieldOf(current.fields, part);
        if rest != [] && Container(value) {
          BranchesSane(value, rest, indices, forSort);
          if value.Arr? {
            ElementsSane(value.items, 0, rest, indices, forSort);
          }
        }
      }
    }
  }

  lemma {:induction false} ExpandSane(bs: seq<Branch>, skipArrays: bool)
    requires AllSane(bs)
    ensures AllSane(Expand(bs, skipArrays))
  {
    if bs != [] {
      ExpandSane(bs[..|bs| - 1], skipArrays);
    }
  }

  /* ---------- Without arrays a lookup is getPath ---------- */

  ghost predicate ArrayFree(v: Value) {
    match v
    case Arr(_) => false
    case Obj(fields) => forall i :: 0 <= i < |fields| ==> ArrayFree(fields[i].value)
    case _ => true
  }

  // Following the parts field by field.
  function At(v: Value, parts: seq<string>): Value
    decreases |parts|
  {
    if parts == [] then v
    else if v.Obj? && Lookup(v.fields, parts[0]).Some? then At(Lookup(v.fields, parts[0]).value, parts[1..])
    else Undefined
  }

  lemma {:induction false} PlainLookup(v: Value, parts: seq<string>)
    requires ArrayFree(v)
    ensures BranchAt(v, parts, None, true) == [Branch(At(v, parts), false, None)]
    ensures Expand(BranchAt(v, parts, None, true), true) == [Branch(At(v, parts), false, None)]
    decreases |parts|
  {
    if parts != [] && v.Obj? {
      var value := FieldOf(v.fields, parts[0]);
      if Lookup(v.fields, parts[0]).Some? {
        var i := LookupFinds(v.fields, parts[0]);
      }
      assert ArrayFree(value);
      PlainLookup(value, parts[1..]);
    }
    AtArrayFree(v, parts);
    var bs := [Branch(At(v, parts), false, None)];
    assert bs[..0] == [] && Expand(bs, true) == Expanded(bs[0], true);
  }

  lemma {:induction false} AtArrayFree(v: Value, parts: seq<string>)
    requires ArrayFree(v)
    ensures ArrayFree(At(v, parts))
    decreases |parts|
  {
    if parts != [] && v.Obj? {
      if Lookup(v.fields, parts[0]).Some? {
        var i := LookupFinds(v.fields, parts[0]);
      }
      AtArrayFree(FieldOf(v.fields, parts[0]), parts[1..]);
    }
  }
}
