// What each call does to each document of a collection, told from its arguments
// (typeferry-ts/src/minimongo/local-collection.ts).
module CollectionExact {
  import opened Results
  import opened Fields
  import opened ValueOrder
  import opened DocumentStore
  import opened LiveQuery
  import opened LocalCollection
  import E = EjsonValue

  /* ---------- Insert ---------- */

  // The identity a document is inserted under: its own, or a random one if it has none.
  function GivenId(fields: seq<Field<Value>>, random: string): Value {
    var id := Lookup(fields, "_id");
    if id == None || id.value == Undefined || id.value == Null then Str(random) else id.value
  }

  // 24 lowercase hexadecimal digits.
  ghost predicate Hexadecimal(v: Value) {
    v.Str? && |v.s| == 24 && forall i :: 0 <= i < 24 ==> v.s[i] in "0123456789abcdef"
  }

  lemma HexadecimalExactly(v: Value)
    ensures LocalId(v) <==> Hexadecimal(v)
  {
    if v.Str? && |v.s| == 24 {
      forall i | 0 <= i < 24
        ensures v.s[i] in "0123456789abcdef" <==> '0' <= v.s[i] <= '9' || 'a' <= v.s[i] <= 'f'
      {
        HexDigit(v.s[i]);
      }
    }
  }

  lemma HexDigit(x: char)
    ensures x in "0123456789abcdef" <==> '0' <= x <= '9' || 'a' <= x <= 'f'
  {
    var digits := "0123456789abcdef";
    if '0' <= x <= '9' {
      assert digits[x as int - '0' as int] == x;
    } else if 'a' <= x <= 'f' {
      assert digits[x as int - 'a' as int + 10] == x;
    }
  }

  // An insert throws exactly for bad names, a bad identity or one that is taken, and then changes
  // nothing; otherwise the document is filed last, with its identity and nothing else changed,
  // and the observers are notified.
  lemma InsertExactly(store: Store, fields: seq<Field<Value>>, random: string, names: Value -> bool)
    requires Distinct(Keys(fields))
    ensures var e, id := Perform(store, Op.Insert(fields, random, names)), GivenId(fields, random);
            && (e.threw <==> !names(Obj(fields)) || !Hexadecimal(id) || id.s in Keys(store))
            && (e.threw ==> e.store == store && !e.notified)
            && (!e.threw ==>
                  && e.notified && |e.store| == |store| + 1 && e.store[..|store|] == store
                  && e.store[|store|].key == id.s && e.store[|store|].value.Obj?
                  && forall k :: Lookup(e.store[|store|].value.fields, k)
                                 == if k == "_id" then Some(id) else Lookup(fields, k))
  {
    hide LocalId, Hexadecimal, Put;
    var id := GivenId(fields, random);
    HexadecimalExactly(id);
    var whole := WithId(fields, random);
    forall k
      ensures Lookup(whole, k) == if k == "_id" then Some(id) else Lookup(fields, k)
    {
      PutLooks(fields, "_id", Str(random), k);
    }
    if LocalId(id) {
      LocalIsText(id);
      PutKeys(store, id.s, Obj(whole));
    }
  }

  lemma LocalIsText(v: Value)
    requires LocalId(v)
    ensures v.Str?
  {
  }

  /* ---------- Remove ---------- */

  // Filtering documents and filtering the store are done document by document, in order.
  lemma {:induction false} MatchingJoins(a: seq<Value>, b: seq<Value>, selector: Selector, d: Value)
    ensures Matching(a + b, selector) == Matching(a, selector) + Matching(b, selector)
    ensures Matching([d], selector) == if selector(d) then [d] else []
  {
    assert [d][1..] == [];
    if a == [] {
      assert a + b == b;
    } else {
      assert (a + b)[1..] == a[1..] + b;
      MatchingJoins(a[1..], b, selector, d);
    }
  }

  lemma {:induction false} WithoutJoins(a: Store, b: Store, selector: Selector, f: Field<Value>)
    ensures Without(a + b, selector) == Without(a, selector) + Without(b, selector)
    ensures Without([f], selector) == if selector(f.value) then [] else [f]
  {
    assert [f][1..] == [];
    if a == [] {
      assert a + b == b;
    } else {
      assert (a + b)[1..] == a[1..] + b;
      WithoutJoins(a[1..], b, selector, f);
    }
  }

  lemma RemoveExactly(a: Store, b: Store, f: Field<Value>, selector: Selector)
    ensures var whole := Perform(a + [f] + b, Op.Remove(selector));
            && whole.notified && !whole.threw
            && whole.store == Perform(a, Op.Remove(selector)).store + (if selector(f.value) then [] else [f])
                              + Perform(b, Op.Remove(selector)).store
  {
    WithoutJoins(a + [f], b, selector, f);
    WithoutJoins(a, [f], selector, f);
  }

  /* ---------- Update ---------- */

  ghost predicate Hit(store: Store, selector: Selector, i: nat) {
    i < |store| && selector(store[i].value)
  }

  ghost predicate Fails(store: Store, selector: Selector, modifier: Modifier, i: nat) {
    Hit(store, selector, i) && modifier(store[i].value) == None
  }

  // The loop gets to document i: no match before it failed, and unless multi there was none.
  ghost predicate GetsTo(store: Store, selector: Selector, modifier: Modifier, multi: bool, i: nat) {
    forall j: nat :: j < i && Hit(store, selector, j) ==> multi && !Fails(store, selector, modifier, j)
  }

  ghost predicate IsRewritten(store: Store, selector: Selector, modifier: Modifier, multi: bool, i: nat) {
    Hit(store, selector, i) && modifier(store[i].value).Some? && GetsTo(store, selector, modifier, multi, i)
  }

  ghost function AfterAt(store: Store, selector: Selector, modifier: Modifier, multi: bool, i: nat): Field<Value>
    requires i < |store|
  {
    if IsRewritten(store, selector, modifier, multi, i) then Field(store[i].key, modifier(store[i].value).value)
    else store[i]
  }

  ghost function Tally(store: Store, selector: Selector, modifier: Modifier, multi: bool, n: nat): nat
    decreases n
  {
    if n == 0 then 0
    else Tally(store, selector, modifier, multi, n - 1)
         + if IsRewritten(store, selector, modifier, multi, n - 1) then 1 else 0
  }

  // The rest of the store once its first document is passed.
  lemma ShiftHits(store: Store, selector: Selector, modifier: Modifier, multi: bool, i: nat)
    requires store != [] && (selector(store[0].value) ==> multi && modifier(store[0].value).Some?)
    ensures Hit(store, selector, i + 1) <==> Hit(store[1..], selector, i)
    ensures Fails(store, selector, modifier, i + 1) <==> Fails(store[1..], selector, modifier, i)
    ensures GetsTo(store, selector, modifier, multi, i + 1) <==> GetsTo(store[1..], selector, modifier, multi, i)
    ensures IsRewritten(store, selector, modifier, multi, i + 1)
       <==> IsRewritten(store[1..], selector, modifier, multi, i)
  {
    var rest := store[1..];
    if GetsTo(rest, selector, modifier, multi, i) {
      forall j: nat | j < i + 1 && Hit(store, selector, j)
        ensures multi && !Fails(store, selector, modifier, j)
      {
        if j > 0 {
          assert Hit(rest, selector, j - 1) && rest[j - 1] == store[j];
        }
      }
    }
    if GetsTo(store, selector, modifier, multi, i + 1) {
      forall j: nat | j < i && Hit(rest, selector, j)
        ensures multi && !Fails(rest, selector, modifier, j)
      {
        assert Hit(store, selector, j + 1) && rest[j] == store[j + 1];
      }
    }
  }

  lemma {:induction false} ShiftTally(store: Store, selector: Selector, modifier: Modifier, multi: bool, n: nat)
    requires store != [] && (selector(store[0].value) ==> multi && modifier(store[0].value).Some?)
    ensures Tally(store, selector, modifier, multi, n + 1)
         == Tally(store[1..], selector, modifier, multi, n) + if selector(store[0].value) then 1 else 0
    decreases n
  {
    hide IsRewritten;
    if n == 0 {
      assert IsRewritten(store, selector, modifier, multi, 0) <==> selector(store[0].value) by {
        FirstRewritten(store, selector, modifier, multi);
      }
      assert Tally(store, selector, modifier, multi, 0) == 0;
    } else {
      ShiftTally(store, selector, modifier, multi, n - 1);
      ShiftHits(store, selector, modifier, multi, n - 1);
    }
  }

  lemma FirstRewritten(store: Store, selector: Selector, modifier: Modifier, multi: bool)
    requires store != []
    ensures IsRewritten(store, selector, modifier, multi, 0)
       <==> selector(store[0].value) && modifier(store[0].value).Some?
  {
  }

  // Where the loop stops at the first document, nothing after it is rewritten.
  lemma StopsAtFirst(store: Store, selector: Selector, modifier: Modifier, multi: bool, n: nat)
    requires store != [] && selector(store[0].value) && !(multi && modifier(store[0].value).Some?)
    ensures forall i: nat :: i > 0 ==> !GetsTo(store, selector, modifier, multi, i)
    ensures n > 0 ==>
              Tally(store, selector, modifier, multi, n) == if modifier(store[0].value).Some? then 1 else 0
    decreases n
  {
    assert Hit(store, selector, 0);
    if n > 1 {
      StopsAtFirst(store, selector, modifier, multi, n - 1);
    }
  }

  // An update rewrites exactly the matches it gets to, in place, counts them, and throws exactly
  // if it gets to one on which the modifier fails.
  lemma {:induction false} RewrittenExactly(store: Store, selector: Selector, modifier: Modifier, multi: bool)
    ensures var c := Rewritten(store, selector, modifier, multi);
            && |c.store| == |store|
            && (forall i: nat :: i < |store| ==> c.store[i] == AfterAt(store, selector, modifier, multi, i))
            && c.affected == Tally(store, selector, modifier, multi, |store|)
            && (c.threw <==> exists i: nat :: Fails(store, selector, modifier, i)
                                              && GetsTo(store, selector, modifier, multi, i))
  {
    hide IsRewritten, GetsTo, Fails, AfterAt, Tally;
    if store == [] {
      NoFailures(selector, modifier);
      assert Tally(store, selector, modifier, multi, 0) == 0 by { NoTally(store, selector, modifier, multi); }
    } else if selector(store[0].value) && !(multi && modifier(store[0].value).Some?) {
      FirstFails(store, selector, modifier, multi);
      StopsAtFirst(store, selector, modifier, multi, |store|);
      forall i: nat | i < |store|
        ensures Rewritten(store, selector, modifier, multi).store[i] == AfterAt(store, selector, modifier, multi, i)
      {
        StoppedAt(store, selector, modifier, multi, i);
      }
    } else {
      var rest := store[1..];
      RewrittenExactly(rest, selector, modifier, multi);
      ShiftTally(store, selector, modifier, multi, |rest|);
      ThrowsLater(store, selector, modifier, multi);
      forall i: nat | i < |store|
        ensures Rewritten(store, selector, modifier, multi).store[i] == AfterAt(store, selector, modifier, multi, i)
      {
        PassedAt(store, selector, modifier, multi, i);
      }
    }
  }

  lemma NoTally(store: Store, selector: Selector, modifier: Modifier, multi: bool)
    ensures Tally(store, selector, modifier, multi, 0) == 0
  {
  }

  lemma StoppedAt(store: Store, selector: Selector, modifier: Modifier, multi: bool, i: nat)
    requires i < |store| && selector(store[0].value) && !(multi && modifier(store[0].value).Some?)
    ensures Rewritten(store, selector, modifier, multi).store[i] == AfterAt(store, selector, modifier, multi, i)
  {
    hide IsRewritten, GetsTo;
    FirstRewritten(store, selector, modifier, multi);
    if i > 0 {
      StopsAtFirst(store, selector, modifier, multi, |store|);
      NotReached(store, selector, modifier, multi, i);
    }
  }

  lemma PassedAt(store: Store, selector: Selector, modifier: Modifier, multi: bool, i: nat)
    requires i < |store| && (selector(store[0].value) ==> multi && modifier(store[0].value).Some?)
    requires var rest, d := store[1..], Rewritten(store[1..], selector, modifier, multi);
             forall j: nat :: j < |rest| ==> d.store[j] == AfterAt(rest, selector, modifier, multi, j)
    ensures Rewritten(store, selector, modifier, multi).store[i] == AfterAt(store, selector, modifier, multi, i)
  {
    hide IsRewritten, GetsTo, Fails;
    if i == 0 {
      FirstRewritten(store, selector, modifier, multi);
    } else {
      ShiftHits(store, selector, modifier, multi, i - 1);
      assert Rewritten(store[1..], selector, modifier, multi).store[i - 1]
          == AfterAt(store[1..], selector, modifier, multi, i - 1);
    }
  }

  lemma NoFailures(selector: Selector, modifier: Modifier)
    ensures forall i: nat :: !Fails([], selector, modifier, i)
  {
  }

  lemma FirstFails(store: Store, selector: Selector, modifier: Modifier, multi: bool)
    requires store != []
    ensures Fails(store, selector, modifier, 0) <==> selector(store[0].value) && modifier(store[0].value) == None
    ensures GetsTo(store, selector, modifier, multi, 0)
  {
  }

  lemma NotReached(store: Store, selector: Selector, modifier: Modifier, multi: bool, i: nat)
    requires !GetsTo(store, selector, modifier, multi, i)
    ensures !IsRewritten(store, selector, modifier, multi, i)
  {
  }

  lemma ThrowsLater(store: Store, selector: Selector, modifier: Modifier, multi: bool)
    requires store != [] && (selector(store[0].value) ==> multi && modifier(store[0].value).Some?)
    ensures (exists i: nat :: Fails(store, selector, modifier, i) && GetsTo(store, selector, modifier, multi, i))
       <==> exists i: nat :: Fails(store[1..], selector, modifier, i)
                             && GetsTo(store[1..], selector, modifier, multi, i)
  {
    hide GetsTo;
    var rest := store[1..];
    FirstFails(store, selector, modifier, multi);
    if i: nat :| Fails(store, selector, modifier, i) && GetsTo(store, selector, modifier, multi, i) {
      ShiftHits(store, selector, modifier, multi, i - 1);
      assert Fails(rest, selector, modifier, i - 1);
    }
    if i: nat :| Fails(rest, selector, modifier, i) && GetsTo(rest, selector, modifier, multi, i) {
      ShiftHits(store, selector, modifier, multi, i);
      assert Fails(store, selector, modifier, i + 1);
    }
  }

  // Observers hear of an update exactly if it rewrote something and did not throw.
  lemma UpdateExactly(store: Store, selector: Selector, modifier: Modifier, multi: bool)
    ensures var e := Perform(store, Op.Update(selector, modifier, multi));
            var c := Rewritten(store, selector, modifier, multi);
            e.store == c.store && e.threw == c.threw && (e.notified <==> !c.threw && c.affected > 0)
  {
    hide Rewritten;
  }

  /* ---------- Upsert ---------- */

  // What JavaScript counts as false, of the values a document holds.
  ghost predicate CountsAsFalse(v: Option<Value>) {
    v == None || v.value in {Undefined, Null, Bool(false), Str(""), Num(E.Finite(0.0)), Num(E.NaN)}
  }

  // An upsert that finds a match is the update; one that finds none fails without a document to
  // create, and otherwise inserts that document, under the given identity if it has none.
  lemma UpsertExactly(store: Store, selector: Selector, modifier: Modifier, multi: bool,
                      created: Option<seq<Field<Value>>>, insertedId: Option<Value>, random: string,
                      names: Value -> bool)
    ensures var e := Perform(store, Op.Upsert(selector, modifier, multi, created, insertedId, random, names));
            && ((exists i: nat :: Hit(store, selector, i)) ==>
                  e == Perform(store, Op.Update(selector, modifier, multi)))
            && ((forall i: nat :: !Hit(store, selector, i)) ==>
                  && (created == None ==> e == Effect(store, false, true))
                  && (created.Some? ==>
                        exists fields ::
                          && e == Perform(store, Op.Insert(fields, random, names))
                          && forall k :: Lookup(fields, k)
                                         == if k == "_id" && CountsAsFalse(Lookup(created.value, k)) && insertedId.Some?
                                            then insertedId else Lookup(created.value, k)))
  {
    hide Rewritten, InsertEffect, Put;
    AnyHit(store, selector, modifier, multi);
    if created.Some? {
      var fields := UpsertDocument(created.value, insertedId);
      forall k
        ensures Lookup(fields, k) == if k == "_id" && CountsAsFalse(Lookup(created.value, k)) && insertedId.Some?
                                     then insertedId else Lookup(created.value, k)
      {
        if insertedId.Some? {
          PutLooks(created.value, "_id", insertedId.value, k);
        }
      }
      assert InsertEffect(store, fields, random, names) == Perform(store, Op.Insert(fields, random, names));
    }
  }

  lemma {:induction false} AnyHit(store: Store, selector: Selector, modifier: Modifier, multi: bool)
    ensures var c := Rewritten(store, selector, modifier, multi);
            c.threw || c.affected > 0 <==> exists i: nat :: Hit(store, selector, i)
  {
    if store != [] {
      var rest := store[1..];
      AnyHit(rest, selector, modifier, multi);
      if i: nat :| Hit(store, selector, i) && i > 0 {
        assert Hit(rest, selector, i - 1);
      }
      if i: nat :| Hit(rest, selector, i) {
        assert Hit(store, selector, i + 1);
      }
      assert selector(store[0].value) ==> Hit(store, selector, 0);
    }
  }

  /* ---------- Running a query ---------- */

  // The i-th row is what the query shows of the document i places after the skipped ones, among
  // those that match, in sorted order; there are as many rows as are left, up to the limit.
  lemma ResultExactly(q: Query, store: Store, i: nat)
    requires Proper(q)
    ensures var sorted := SortedBy(q, Matching(Values(store), Hits(q)));
            var left := if q.skip < |sorted| then |sorted| - q.skip else 0;
            && |Result(q, store)| == (if q.limit.Some? && q.limit.value < left then q.limit.value else left)
            && (i < |Result(q, store)| ==> Result(q, store)[i] == Shown(q, sorted[q.skip + i]))
            && multiset(sorted) == multiset(Matching(Values(store), Hits(q)))
  {
    hide Matching, SortedBy, Shown;
  }
}
