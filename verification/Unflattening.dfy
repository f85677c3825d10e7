/** The inverse of flattening, and flattening what is flat already. */
module Unflattening {
  import opened Payloads
  import opened Flattening

  /** A payload without the values that flattening drops and without objects that become empty. */
  ghost function Prune(fields: Fields): Fields
    decreases fields
  {
    if fields == [] then [] else Prune(fields[..|fields| - 1]) + PruneField(fields[|fields| - 1])
  }

  ghost function PruneField(f: Field): Fields
    decreases f
  {
    match f.value
    case Object(inner) => if Prune(inner) == [] then [] else [Field(f.key, Object(Prune(inner)))]
    case v => if Kept(v) then [f] else []
  }

  /** A value inside fresh objects along a path. */
  function Nest(path: seq<string>, v: Value): Value
    decreases |path|
  {
    if path == [] then v else Object([Field(path[0], Nest(path[1..], v))])
  }

  /** Sets the value at a path, making objects as needed. */
  function Insert(fields: Fields, path: seq<string>, v: Value): Fields
    requires path != []
    decreases |path|, |fields|
  {
    if fields == [] then [Field(path[0], Nest(path[1..], v))]
    else if fields[0].key != path[0] then [fields[0]] + Insert(fields[1..], path, v)
    else if |path| > 1 && fields[0].value.Object?
    then [Field(path[0], Object(Insert(fields[0].value.fields, path[1..], v)))] + fields[1..]
    else [Field(path[0], Nest(path[1..], v))] + fields[1..]
  }

  /** Builds an object from flattened fields, splitting their keys at the dots. */
  function Unflatten(flat: Fields): Fields
  {
    if flat == [] then []
    else
      var last := flat[|flat| - 1];
      Insert(Unflatten(flat[..|flat| - 1]), Split(last.key), last.value)
  }

  ghost function Build(fields: Fields, leaves: seq<Leaf>): Fields
    requires forall l :: l in leaves ==> l.path != []
  {
    if leaves == [] then fields
    else
      var last := leaves[|leaves| - 1];
      Insert(Build(fields, leaves[..|leaves| - 1]), last.path, last.value)
  }

  lemma {:induction false} BuildConcat(fields: Fields, a: seq<Leaf>, b: seq<Leaf>)
    requires forall l :: l in a + b ==> l.path != []
    requires forall l :: l in a ==> l.path != []
    requires forall l :: l in b ==> l.path != []
    ensures Build(fields, a + b) == Build(Build(fields, a), b)
    decreases |b|
  {
    if b == [] {
      assert a + b == a;
    } else {
      var init := b[..|b| - 1];
      assert (a + b)[..|a + b| - 1] == a + init;
      BuildConcat(fields, a, init);
    }
  }

  lemma {:induction false} InsertAfter(fields: Fields, more: Fields, path: seq<string>, v: Value)
    requires path != [] && !Has(fields, path[0])
    ensures Insert(fields + more, path, v) == fields + Insert(more, path, v)
    decreases |fields|
  {
    if fields == [] {
      assert fields + more == more;
    } else {
      assert fields == [fields[0]] + fields[1..];
      HasSplits([fields[0]], fields[1..], path[0]);
      assert (fields + more)[1..] == fields[1..] + more;
      InsertAfter(fields[1..], more, path, v);
    }
  }

  /** The leaves below a new key build one object there. */
  lemma {:induction false} BuildPrefixed(fields: Fields, key: string, leaves: seq<Leaf>)
    requires !Has(fields, key) && leaves != []
    requires forall l :: l in leaves ==> l.path != []
    requires forall l :: l in Prefixed(key, leaves) ==> l.path != []
    ensures Build(fields, Prefixed(key, leaves)) == fields + [Field(key, Object(Build([], leaves)))]
    decreases |leaves|
  {
    var init, last := leaves[..|leaves| - 1], leaves[|leaves| - 1];
    assert Prefixed(key, leaves)[..|leaves| - 1] == Prefixed(key, init);
    assert Prefixed(key, leaves)[|leaves| - 1] == Under(key, last);
    var path := [key] + last.path;
    assert path[1..] == last.path;
    if init == [] {
      assert Build(fields, Prefixed(key, init)) == fields && fields + [] == fields;
      InsertAfter(fields, [], path, last.value);
      assert Nest(last.path, last.value) == Object(Insert([], last.path, last.value));
    } else {
      BuildPrefixed(fields, key, init);
      InsertAfter(fields, [Field(key, Object(Build([], init)))], path, last.value);
    }
  }

  lemma {:induction false} PruneKeys(fields: Fields, key: string)
    requires Has(Prune(fields), key)
    ensures Has(fields, key)
    decreases |fields|
  {
    if fields != [] {
      var init, last := fields[..|fields| - 1], fields[|fields| - 1];
      assert fields == init + [last] && [last][0] == last;
      HasSplits(init, [last], key);
      HasSplits(Prune(init), PruneField(last), key);
      if Has(Prune(init), key) {
        PruneKeys(init, key);
      }
    }
  }

  /** Building a payload's leaves from scratch prunes the payload. */
  lemma {:induction false} BuildIsPrune(fields: Fields)
    requires WellKeyed(fields)
    requires forall l :: l in Leaves(fields) ==> l.path != []
    ensures Build([], Leaves(fields)) == Prune(fields)
    ensures Leaves(fields) == [] <==> Prune(fields) == []
    decreases fields
  {
    if fields != [] {
      var init, last := fields[..|fields| - 1], fields[|fields| - 1];
      assert fields == init + [last];
      assert WellKeyedField(last);
      DistinctAppend(init, last);
      BuildIsPrune(init);
      BuildConcat([], Leaves(init), LeavesOf(last));
      if Has(Prune(init), last.key) {
        PruneKeys(init, last.key);
      }
      if last.value.Object? {
        forall l | l in Leaves(last.value.fields) ensures l.path != [] {
          LeafPathsGood(last.value.fields, l);
        }
        BuildIsPrune(last.value.fields);
      }
      BuildField(Prune(init), last);
    }
  }

  lemma BuildField(before: Fields, f: Field)
    requires !Has(before, f.key)
    requires forall l :: l in LeavesOf(f) ==> l.path != []
    requires f.value.Object? ==>
               && (forall l :: l in Leaves(f.value.fields) ==> l.path != [])
               && Build([], Leaves(f.value.fields)) == Prune(f.value.fields)
               && (Leaves(f.value.fields) == [] <==> Prune(f.value.fields) == [])
    ensures Build(before, LeavesOf(f)) == before + PruneField(f)
    ensures LeavesOf(f) == [] <==> PruneField(f) == []
  {
    if f.value.Object? && Leaves(f.value.fields) != [] {
      BuildPrefixed(before, f.key, Leaves(f.value.fields));
    } else if Kept(f.value) {
      InsertAfter(before, [], [f.key], f.value);
      assert before + [] == before;
      assert Build(before, [Leaf([f.key], f.value)]) == Insert(Build(before, []), [f.key], f.value);
    } else {
      assert before + [] == before;
    }
  }

  lemma {:induction false} UnflattenBuilds(flat: Fields, leaves: seq<Leaf>)
    requires |flat| == |leaves| && forall l :: l in leaves ==> l.path != []
    requires forall i :: 0 <= i < |flat| ==> Leaf(Split(flat[i].key), flat[i].value) == leaves[i]
    ensures Unflatten(flat) == Build([], leaves)
    decreases |flat|
  {
    if flat != [] {
      UnflattenBuilds(flat[..|flat| - 1], leaves[..|leaves| - 1]);
    }
  }

  /** Flattening and unflattening a payload whose keys are non-empty and dot-free gives the payload without its
      dropped values and the objects they leave empty. */
  lemma RoundTrip(fields: Fields)
    requires WellKeyed(fields)
    ensures Unflatten(FlattenRequestPayload(fields, "")) == Prune(fields)
  {
    forall l | l in Leaves(fields) ensures l.path != [] {
      LeafPathsGood(fields, l);
    }
    FlattenedKeysAreLeafPaths(fields);
    UnflattenBuilds(FlattenRequestPayload(fields, ""), Leaves(fields));
    BuildIsPrune(fields);
  }

  // ----- flat payloads

  ghost predicate Flat(fields: Fields)
  {
    DistinctKeys(fields) && forall f :: f in fields ==> Kept(f.value)
  }

  lemma {:induction false} SpreadFlat(more: Fields)
    requires forall f :: f in more ==> Kept(f.value)
    ensures Flat(Spread([], more))
    decreases |more|
  {
    if more != [] {
      var init, last := more[..|more| - 1], more[|more| - 1];
      SpreadFlat(init);
      var i := PutAt(Spread([], init), last);
      PutKeys(Spread([], init), last);
    }
  }

  lemma {:induction false} LeavesKept(fields: Fields, l: Leaf)
    requires l in Leaves(fields)
    ensures Kept(l.value)
    decreases fields
  {
    var init, last := fields[..|fields| - 1], fields[|fields| - 1];
    if l in Leaves(init) {
      LeavesKept(init, l);
    } else if last.value.Object? {
      var inner := Leaves(last.value.fields);
      var i :| 0 <= i < |inner| && l == Under(last.key, inner[i]);
      LeavesKept(last.value.fields, inner[i]);
    }
  }

  lemma FlattenIsFlat(fields: Fields, path: string)
    ensures Flat(FlattenRequestPayload(fields, path))
  {
    FlattenNamesLeaves(fields, path);
    var leaves := Leaves(fields);
    forall f | f in Named(path, leaves) ensures Kept(f.value) {
      var i :| 0 <= i < |leaves| && f == Field(Name(path, leaves[i].path), leaves[i].value);
      LeavesKept(fields, leaves[i]);
    }
    SpreadFlat(Named(path, leaves));
  }

  lemma {:induction false} FlatStays(fields: Fields)
    requires Flat(fields)
    ensures FlattenRequestPayload(fields, "") == fields
    decreases |fields|
  {
    if fields != [] {
      var init, last := fields[..|fields| - 1], fields[|fields| - 1];
      assert fields == init + [last] && last in fields;
      DistinctAppend(init, last);
      FlatStays(init);
      assert [last][..0] == [] && Spread(init, []) == init;
      PutKeys(init, last);
      assert Spread(init, [last]) == Put(init, last);
    }
  }

  /** A payload is unchanged by flattening exactly if it is flat, and every flattened payload is: flattening twice
      is flattening once. */
  lemma FlattenIsIdempotent(fields: Fields)
    ensures FlattenRequestPayload(fields, "") == fields <==> Flat(fields)
    ensures FlattenRequestPayload(FlattenRequestPayload(fields, ""), "") == FlattenRequestPayload(fields, "")
  {
    FlattenIsFlat(fields, "");
    FlatStays(FlattenRequestPayload(fields, ""));
    if Flat(fields) {
      FlatStays(fields);
    }
  }

  // ----- keys with dots, and empty keys

  function One(key: string, n: real): Field
  {
    Field(key, Single(Number(n)))
  }

  lemma TwoFields(a: Field, b: Field)
    ensures Leaves([a, b]) == LeavesOf(a) + LeavesOf(b)
    ensures Leaves([a]) == LeavesOf(a)
  {
    assert [a, b][..1] == [a] && [a][..0] == [];
    assert Leaves([]) == [];
  }

  /** A dotted key and a nested one get the same name, and so do a key below an empty key and the same key outside:
      in both cases one of two leaves is lost. */
  lemma DottedAndEmptyKeysCollide(n: real, m: real)
    requires n != 0.0 && m != 0.0
    ensures |FlattenRequestPayload([One("a.b", n), Field("a", Object([One("b", m)]))], "")| == 1
    ensures |FlattenRequestPayload([One("b", n), Field("", Object([One("b", m)]))], "")| == 1
  {
    Collide(One("a.b", n), "a", One("b", m));
    Collide(One("b", n), "", One("b", m));
  }

  lemma Collide(f: Field, outer: string, inner: Field)
    requires !f.value.Object? && !inner.value.Object? && Kept(f.value) && Kept(inner.value)
    requires f.key == Extend(Extend("", outer), inner.key)
    ensures |FlattenRequestPayload([f, Field(outer, Object([inner]))], "")| == 1
  {
    var fields := [f, Field(outer, Object([inner]))];
    TwoFields(f, Field(outer, Object([inner])));
    TwoFields(inner, inner);
    FlattenNamesLeaves(fields, "");
    var leaves := [Leaf([f.key], f.value), Leaf([outer, inner.key], inner.value)];
    assert LeavesOf(inner) == [Leaf([inner.key], inner.value)];
    assert Under(outer, Leaf([inner.key], inner.value)) == leaves[1];
    assert LeavesOf(Field(outer, Object([inner]))) == [leaves[1]];
    assert Leaves(fields) == leaves;
    var named := [Field(f.key, f.value), Field(f.key, inner.value)];
    assert Name("", [f.key]) == Name(f.key, []);
    assert Name("", [outer, inner.key]) == Name(Extend("", outer), [inner.key]) == Name(f.key, []);
    assert Named("", leaves) == named;
    assert named[..1] == [named[0]] && named[..1][..0] == [];
    assert Spread([], named[..1]) == [named[0]];
  }
}
