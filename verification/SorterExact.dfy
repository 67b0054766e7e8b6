// The sort key of a document in terms of the values its paths find
// (typeferry-ts/src/minimongo/sorter.ts).
module SorterExact {
  import opened Results
  import opened Fields
  import opened ValueOrder
  import opened Path
  import opened Sorter
  import P = PathExact

  /* ---------- What one sort part finds ---------- */

  ghost predicate Offers(doc: Value, path: seq<string>, at: Option<seq<Step>>, v: Value) {
    exists b :: b in Found(doc, path) && b.value == v && b.indices == at
  }

  // The part runs into an array at this position.
  ghost predicate Meets(doc: Value, path: seq<string>, at: seq<Step>) {
    exists b :: b in Found(doc, path) && b.indices == Some(at)
  }

  // The part runs into no array.
  ghost predicate MeetsNone(doc: Value, path: seq<string>) {
    forall b :: b in Found(doc, path) ==> b.indices == None
  }

  // A value found at the end of the path, or an element of an array found there.
  ghost predicate FoundBy(doc: Value, path: seq<string>, b: Branch) {
    exists c: Branch :: P.Leads(doc, path, None, true, Within(c.indices), c) && P.ExpandsTo(c, b, true)
  }

  // What a part finds are the values its path leads to, arrays replaced by their elements, or
  // undefined if there are none.
  lemma FoundExactly(doc: Value, path: seq<string>, b: Branch)
    ensures b in Found(doc, path)
       <==> FoundBy(doc, path, b)
            || (b == Branch(Undefined, false, None) && forall c :: !FoundBy(doc, path, c))
  {
    hide BranchAt, P.Leads, P.ExpandsTo;
    var branches := BranchAt(doc, path, None, true);
    var expanded := Expand(branches, true);
    forall x
      ensures x in expanded <==> FoundBy(doc, path, x)
    {
      P.ExpandExactly(branches, x, true);
      forall c: Branch
        ensures c in branches <==> P.Leads(doc, path, None, true, Within(c.indices), c)
      {
        P.LookupExactly(doc, path, true, c);
      }
    }
    if expanded != [] {
      assert FoundBy(doc, path, expanded[0]);
    }
  }

  lemma BranchOf(doc: Value, path: seq<string>, key: string) returns (b: Branch)
    requires Lookup(Table(doc, path), key).Some?
    ensures b in Found(doc, path) && KeyOf(b) == key && b.value == Lookup(Table(doc, path), key).value
  {
    var i := LookupFinds(Table(doc, path), key);
    b := Found(doc, path)[i];
  }

  lemma KeyInTable(doc: Value, path: seq<string>, b: Branch)
    requires b in Found(doc, path)
    ensures KeyOf(b) in Keys(Table(doc, path)) && Lookup(Table(doc, path), KeyOf(b)) == Some(b.value)
  {
    FoundSeparates(doc, path);
    SeparatedEntries(Found(doc, path));
    var i :| 0 <= i < |Found(doc, path)| && Found(doc, path)[i] == b;
    LookupAt(Table(doc, path), i);
    assert Keys(Table(doc, path))[i] == KeyOf(b);
  }

  lemma PlainExactly(doc: Value, path: seq<string>)
    ensures Plain(Table(doc, path)) <==> MeetsNone(doc, path)
    ensures Plain(Table(doc, path)) || forall b :: b in Found(doc, path) ==> b.indices.Some? && b.indices.value != []
  {
    FoundSeparates(doc, path);
    var bs := Found(doc, path);
    SeparatedEntries(bs);
    if Plain(Table(doc, path)) {
      assert bs == [bs[0]];
    } else {
      forall b | b in bs
        ensures b.indices.Some? && b.indices.value != []
      {
        var i :| 0 <= i < |bs| && bs[i] == b;
        assert Under(bs[i], []);
      }
      assert bs[0] in bs;
    }
  }

  lemma PlainPick(doc: Value, path: seq<string>, text: string, v: Value)
    requires Plain(Table(doc, path))
    ensures Pick(Table(doc, path), text) == v <==> Offers(doc, path, None, v)
  {
    PlainExactly(doc, path);
    FoundSeparates(doc, path);
    SeparatedEntries(Found(doc, path));
    var b := Found(doc, path)[0];
    KeyInTable(doc, path, b);
    forall c | c in Found(doc, path)
      ensures c == b
    {
    }
  }

  lemma ArrayPick(doc: Value, path: seq<string>, at: seq<Step>, v: Value)
    requires !Plain(Table(doc, path))
    ensures PathText(at) in Keys(Table(doc, path)) <==> Meets(doc, path, at)
    ensures Meets(doc, path, at) ==>
              (Pick(Table(doc, path), PathText(at)) == v <==> Offers(doc, path, Some(at), v))
    ensures Offers(doc, path, Some(at), v) ==> Meets(doc, path, at)
  {
    hide Found, Plain;
    PlainExactly(doc, path);
    var table := Table(doc, path);
    forall b | b in Found(doc, path) && b.indices == Some(at)
      ensures KeyOf(b) == PathText(at) && KeyOf(b) in Keys(table) && FieldOf(table, PathText(at)) == b.value
    {
      KeyInTable(doc, path, b);
    }
    if PathText(at) in Keys(table) {
      var i :| 0 <= i < |table| && Keys(table)[i] == PathText(at);
      var b := Found(doc, path)[i];
      assert b in Found(doc, path) && KeyOf(b) == PathText(at);
      PathTextInjective(b.indices.value, at);
      assert b.indices == Some(at);
    }
  }

  /* ---------- Parallel arrays ---------- */

  // All sort parts that run into arrays run into them at the same positions.
  ghost predicate SamePositions(parts: seq<Part>, doc: Value) {
    forall i, j, at :: 0 <= i < |parts| && 0 <= j < |parts| && Meets(doc, parts[i].path, at)
                       && !MeetsNone(doc, parts[j].path)
                       ==> Meets(doc, parts[j].path, at)
  }

  lemma ParallelExactly(parts: seq<Part>, doc: Value)
    ensures Parallel(Tables(parts, doc)) <==> SamePositions(parts, doc)
  {
    hide Meets, MeetsNone, Plain, Table;
    var tables := Tables(parts, doc);
    forall i | 0 <= i < |parts|
      ensures Plain(tables[i]) <==> MeetsNone(doc, parts[i].path)
    {
      PlainExactly(doc, parts[i].path);
    }
    if Parallel(tables) {
      forall i, j, at | 0 <= i < |parts| && 0 <= j < |parts| && Meets(doc, parts[i].path, at)
                        && !MeetsNone(doc, parts[j].path)
        ensures Meets(doc, parts[j].path, at)
      {
        MetIsNotPlain(doc, parts[i].path, at);
        ArrayPick(doc, parts[i].path, at, Undefined);
        ArrayPick(doc, parts[j].path, at, Undefined);
        assert PathText(at) in Keys(tables[i]);
      }
    }
    if SamePositions(parts, doc) {
      forall i, j, k | 0 <= i < |tables| && 0 <= j < |tables| && !Plain(tables[i]) && !Plain(tables[j])
                       && k in Keys(tables[i])
        ensures k in Keys(tables[j])
      {
        var at := KeyIsPosition(doc, parts[i].path, k);
        ArrayPick(doc, parts[j].path, at, Undefined);
      }
    }
  }

  lemma MetIsNotPlain(doc: Value, path: seq<string>, at: seq<Step>)
    requires Meets(doc, path, at)
    ensures !MeetsNone(doc, path)
  {
  }

  lemma KeyIsPosition(doc: Value, path: seq<string>, key: string) returns (at: seq<Step>)
    requires !Plain(Table(doc, path)) && key in Keys(Table(doc, path))
    ensures Meets(doc, path, at) && key == PathText(at)
  {
    hide Plain;
    PlainExactly(doc, path);
    var table := Table(doc, path);
    var i :| 0 <= i < |table| && Keys(table)[i] == key;
    var b := Found(doc, path)[i];
    assert b in Found(doc, path);
    at := b.indices.value;
  }

  /* ---------- The candidates ---------- */

  // One position for all parts: one that some part runs into, or any if none does.
  ghost predicate Spans(parts: seq<Part>, doc: Value, at: seq<Step>) {
    || (exists i :: 0 <= i < |parts| && Meets(doc, parts[i].path, at))
    || (forall i :: 0 <= i < |parts| ==> MeetsNone(doc, parts[i].path))
  }

  ghost predicate OffersAll(parts: seq<Part>, doc: Value, at: seq<Step>, k: seq<Value>)
    requires |k| == |parts|
  {
    forall i :: 0 <= i < |parts| ==>
      Offers(doc, parts[i].path, if MeetsNone(doc, parts[i].path) then None else Some(at), k[i])
  }

  // The values of the parts at one position, where a part without arrays counts everywhere.
  ghost predicate IsCandidate(parts: seq<Part>, doc: Value, k: seq<Value>) {
    |k| == |parts| && exists at :: Spans(parts, doc, at) && OffersAll(parts, doc, at, k)
  }

  lemma PickedExactly(parts: seq<Part>, doc: Value, at: seq<Step>, k: seq<Value>)
    requires |k| == |parts| && SamePositions(parts, doc) && Spans(parts, doc, at)
    ensures Candidate(Tables(parts, doc), PathText(at)) == k <==> OffersAll(parts, doc, at, k)
  {
    hide Meets, MeetsNone, Offers, Plain, Table, Pick;
    var tables, text := Tables(parts, doc), PathText(at);
    forall i | 0 <= i < |parts|
      ensures Pick(tables[i], text) == k[i]
         <==> Offers(doc, parts[i].path, if MeetsNone(doc, parts[i].path) then None else Some(at), k[i])
    {
      PlainExactly(doc, parts[i].path);
      if MeetsNone(doc, parts[i].path) {
        PlainPick(doc, parts[i].path, text, k[i]);
      } else {
        ArrayPick(doc, parts[i].path, at, k[i]);
      }
    }
    assert forall i :: 0 <= i < |parts| ==> Candidate(tables, text)[i] == Pick(tables[i], text);
  }

  lemma CandidatesExactly(parts: seq<Part>, doc: Value, k: seq<Value>)
    requires SamePositions(parts, doc)
    ensures k in Candidates(Tables(parts, doc)) <==> IsCandidate(parts, doc, k)
  {
    hide SamePositions, Candidate, OffersAll;
    if k in Candidates(Tables(parts, doc)) {
      var at := CandidatePosition(parts, doc, k);
      PickedExactly(parts, doc, at, k);
    }
    if IsCandidate(parts, doc, k) {
      var at :| Spans(parts, doc, at) && OffersAll(parts, doc, at, k);
      PickedExactly(parts, doc, at, k);
      PositionIsCandidate(parts, doc, at);
    }
  }

  lemma NoText()
    ensures PathText([]) == ""
  {
  }

  lemma CandidatePosition(parts: seq<Part>, doc: Value, k: seq<Value>) returns (at: seq<Step>)
    requires k in Candidates(Tables(parts, doc))
    ensures Spans(parts, doc, at) && k == Candidate(Tables(parts, doc), PathText(at)) && |k| == |parts|
  {
    hide Meets, MeetsNone, Plain, Table, Candidate, PathText;
    var tables := Tables(parts, doc);
    if Known(tables).None? {
      KnownNone(tables);
      at := [];
      NoText();
      forall i | 0 <= i < |parts|
        ensures MeetsNone(doc, parts[i].path)
      {
        assert Plain(tables[i]) && tables[i] == Table(doc, parts[i].path);
        PlainExactly(doc, parts[i].path);
      }
    } else {
      var i := KnownSome(tables);
      var known := Known(tables).value;
      var j :| 0 <= j < |known| && k == Candidate(tables, known[j]);
      assert known[j] in Keys(tables[i]);
      at := KeyIsPosition(doc, parts[i].path, known[j]);
    }
  }

  lemma PositionIsCandidate(parts: seq<Part>, doc: Value, at: seq<Step>)
    requires SamePositions(parts, doc) && Spans(parts, doc, at)
    ensures Candidate(Tables(parts, doc), PathText(at)) in Candidates(Tables(parts, doc))
  {
    hide Meets, MeetsNone, Plain, Table, Candidate, PathText;
    var tables := Tables(parts, doc);
    if Known(tables).None? {
      KnownNone(tables);
      AllPlainAlike(parts, doc, at);
    } else {
      var i := KnownSome(tables);
      PlainExactly(doc, parts[i].path);
      var n :| 0 <= n < |parts| && Meets(doc, parts[n].path, at);
      assert Meets(doc, parts[i].path, at);
      ArrayPick(doc, parts[i].path, at, Undefined);
      var known := Known(tables).value;
      var j :| 0 <= j < |known| && known[j] == PathText(at);
      assert Candidates(tables)[j] == Candidate(tables, PathText(at));
    }
  }

  // Without arrays every position gives the same key.
  lemma AllPlainAlike(parts: seq<Part>, doc: Value, at: seq<Step>)
    requires forall i :: 0 <= i < |parts| ==> Plain(Tables(parts, doc)[i])
    ensures Candidate(Tables(parts, doc), PathText(at)) == Candidate(Tables(parts, doc), "")
  {
    hide Plain, Table, PathText;
    var tables := Tables(parts, doc);
    assert forall i :: 0 <= i < |tables| ==> Pick(tables[i], PathText(at)) == Pick(tables[i], "");
  }

  /* ---------- The key ---------- */

  // Two keys turn at the first part in which they differ, by value and direction.
  ghost predicate KeysTurn(parts: seq<Part>, l: seq<Value>, r: seq<Value>, i: nat)
    requires |l| == |r| == |parts|
  {
    && i < |parts| && (forall j :: 0 <= j < i ==> l[j] == r[j])
    && (if parts[i].ascending then Compare(l[i], r[i]) < 0 else Compare(l[i], r[i]) > 0)
  }

  lemma {:induction false} CompareKeysExactly(parts: seq<Part>, l: seq<Value>, r: seq<Value>)
    requires |l| == |r| == |parts| && SaneKey(l) && SaneKey(r)
    ensures CompareKeys(parts, l, r) < 0 <==> exists i: nat :: KeysTurn(parts, l, r, i)
    decreases |parts|
  {
    hide Compare;
    if parts != [] {
      ZeroIsEqual(l[0], r[0]);
      if l[0] != r[0] {
        assert CompareKeys(parts, l, r) < 0 ==> KeysTurn(parts, l, r, 0);
        forall i: nat | KeysTurn(parts, l, r, i)
          ensures i == 0
        {
        }
      } else {
        var p, x, y := parts[1..], l[1..], r[1..];
        CompareKeysExactly(p, x, y);
        if i: nat :| KeysTurn(parts, l, r, i) {
          assert KeysTurn(p, x, y, i - 1);
        }
        if i: nat :| KeysTurn(p, x, y, i) {
          assert forall j :: 0 < j <= i ==> l[j] == x[j - 1] && r[j] == y[j - 1];
          assert KeysTurn(parts, l, r, i + 1);
        }
      }
    }
  }

  // A document has a sort key exactly if its arrays are parallel; the key is then the one
  // candidate that no other candidate comes before.
  lemma KeyExactly(parts: seq<Part>, doc: Value, k: seq<Value>)
    requires Sane(doc)
    ensures SortKey(parts, doc).Some? <==> SamePositions(parts, doc)
    ensures SortKey(parts, doc) == Some(k) <==>
              && SamePositions(parts, doc) && IsCandidate(parts, doc, k)
              && forall other :: IsCandidate(parts, doc, other) ==> CompareKeys(parts, k, other) <= 0
  {
    hide CompareKeys, Parallel, SamePositions, IsCandidate, Tables, Candidates;
    ParallelExactly(parts, doc);
    if SamePositions(parts, doc) {
      SortKeyExactly(parts, doc, k);
      forall other
        ensures other in Candidates(Tables(parts, doc)) <==> IsCandidate(parts, doc, other)
      {
        CandidatesExactly(parts, doc, other);
      }
      var candidates := Candidates(Tables(parts, doc));
      assert forall i :: 0 <= i < |candidates| ==> IsCandidate(parts, doc, candidates[i]);
    }
  }
}
