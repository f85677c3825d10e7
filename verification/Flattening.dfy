/** What flattening a payload keeps and loses, and how to undo it. */
module Flattening {
  import opened Payloads
  import Telemetry

  // ----- flattening names the leaves

  lemma NamedConcat(path: string, a: seq<Leaf>, b: seq<Leaf>)
    ensures Named(path, a + b) == Named(path, a) + Named(path, b)
  {
    hide Name;
  }

  lemma NamedPrefixed(path: string, key: string, leaves: seq<Leaf>)
    ensures Named(path, Prefixed(key, leaves)) == Named(Extend(path, key), leaves)
  {
    forall i | 0 <= i < |leaves| ensures Name(path, [key] + leaves[i].path) == Name(Extend(path, key), leaves[i].path) {
      assert ([key] + leaves[i].path)[1..] == leaves[i].path;
    }
    hide Name, Extend;
  }

  lemma NamedSingle(path: string, key: string, v: Value)
    ensures Named(path, [Leaf([key], v)]) == [Field(Extend(path, key), v)]
  {
    assert Name(path, [key]) == Name(Extend(path, key), [key][1..]);
  }

  /** The flattened form of any payload is its kept leaves, spread one by one under their names: the last leaf of a
      name wins. */
  lemma {:induction false} FlattenNamesLeaves(fields: Fields, path: string)
    ensures FlattenRequestPayload(fields, path) == Spread([], Named(path, Leaves(fields)))
    decreases fields
  {
    if fields == [] {
      assert Named(path, []) == [];
    } else {
      var init, last := fields[..|fields| - 1], fields[|fields| - 1];
      FlattenNamesLeaves(init, path);
      var flat, named := Spread([], Named(path, Leaves(init))), Named(path, LeavesOf(last));
      NamedConcat(path, Leaves(init), LeavesOf(last));
      SpreadConcat([], Named(path, Leaves(init)), named);
      if last.value.Object? {
        FlattenNamesLeaves(last.value.fields, Extend(path, last.key));
        NamedPrefixed(path, last.key, Leaves(last.value.fields));
        SpreadSpread(flat, named);
      } else {
        NamedSingle(path, last.key, last.value);
      }
    }
  }

  // ----- nothing is lost exactly if the names differ

  lemma {:induction false} SpreadLength(more: Fields)
    ensures |Spread([], more)| <= |more|
    ensures |Spread([], more)| == |more| <==> DistinctKeys(more)
    decreases |more|
  {
    if more != [] {
      var init, last := more[..|more| - 1], more[|more| - 1];
      assert more == init + [last];
      SpreadLength(init);
      SpreadKeys([], init);
      PutKeys(Spread([], init), last);
      DistinctAppend(init, last);
      hide Put, Spread, DistinctKeys, Has;
    }
  }

  lemma DistinctAppend(init: Fields, last: Field)
    ensures DistinctKeys(init + [last]) <==> DistinctKeys(init) && !Has(init, last.key)
  {
    var all := init + [last];
    assert forall i :: 0 <= i < |init| ==> all[i] == init[i];
    assert all[|init|] == last;
    if DistinctKeys(init) && !Has(init, last.key) {
      assert DistinctKeys(all);
    }
    if DistinctKeys(all) {
      assert !Has(init, last.key);
      assert DistinctKeys(init);
    }
  }

  /** For every payload: flattening keeps every kept leaf, each under its name, exactly if no two leaves get the
      same name. */
  lemma NothingLostIffNamesDiffer(fields: Fields)
    ensures var (flat, named) := (FlattenRequestPayload(fields, ""), Named("", Leaves(fields)));
            && |flat| <= |Leaves(fields)|
            && (flat == named <==> DistinctKeys(named))
            && (|flat| == |Leaves(fields)| <==> DistinctKeys(named))
  {
    var named := Named("", Leaves(fields));
    FlattenNamesLeaves(fields, "");
    SpreadLength(named);
    if DistinctKeys(named) {
      assert [] + named == named;
      SpreadNew([], named);
    }
  }

  // ----- the last leaf of a name wins

  /** The value of the last field with a key. */
  ghost function LastValue(fields: Fields, key: string): Telemetry.Option<Value>
  {
    if fields == [] then Telemetry.None
    else if fields[|fields| - 1].key == key then Telemetry.Some(fields[|fields| - 1].value)
    else LastValue(fields[..|fields| - 1], key)
  }

  lemma {:induction false} LastValueOfKey(fields: Fields, i: nat)
    requires DistinctKeys(fields) && i < |fields|
    ensures LastValue(fields, fields[i].key) == Telemetry.Some(fields[i].value)
    decreases |fields|
  {
    if i < |fields| - 1 {
      LastValueOfKey(fields[..|fields| - 1], i);
    }
  }

  lemma {:induction false} LastValueOfNoKey(fields: Fields, key: string)
    ensures LastValue(fields, key).None? <==> !Has(fields, key)
    decreases |fields|
  {
    if fields != [] {
      var init, last := fields[..|fields| - 1], fields[|fields| - 1];
      assert fields == init + [last] && [last][0] == last;
      LastValueOfNoKey(init, key);
      HasSplits(init, [last], key);
    }
  }

  lemma LastValueOfPut(fields: Fields, f: Field, key: string)
    requires DistinctKeys(fields)
    ensures LastValue(Put(fields, f), key) == if key == f.key then Telemetry.Some(f.value) else LastValue(fields, key)
  {
    hide Put, LastValue, DistinctKeys;
    var i := PutAt(fields, f);
    PutKeys(fields, f);
    LastValueOfNoKey(Put(fields, f), key);
    LastValueOfNoKey(fields, key);
    if Has(Put(fields, f), key) {
      var j :| 0 <= j < |Put(fields, f)| && Put(fields, f)[j].key == key;
      LastValueOfKey(Put(fields, f), j);
      if key == f.key {
        LastValueOfKey(Put(fields, f), i);
      } else {
        LastValueOfKey(fields, j);
      }
    }
  }

  lemma {:induction false} LastValueOfSpread(more: Fields, key: string)
    ensures LastValue(Spread([], more), key) == LastValue(more, key)
    decreases |more|
  {
    if more != [] {
      var init, last := more[..|more| - 1], more[|more| - 1];
      LastValueOfSpread(init, key);
      SpreadKeys([], init);
      LastValueOfPut(Spread([], init), last, key);
    }
  }

  /** For every payload: under every key, flattening has the value of the last kept leaf of that name. */
  lemma LastLeafWins(fields: Fields, key: string)
    ensures DistinctKeys(FlattenRequestPayload(fields, ""))
    ensures LastValue(FlattenRequestPayload(fields, ""), key) == LastValue(Named("", Leaves(fields)), key)
  {
    FlattenNamesLeaves(fields, "");
    SpreadKeys([], Named("", Leaves(fields)));
    LastValueOfSpread(Named("", Leaves(fields)), key);
  }

  // ----- dot-free keys

  predicate GoodKey(key: string)
  {
    key != "" && '.' !in key
  }

  /** An object without repeated keys, in which no key at any depth is empty or contains a dot. */
  ghost predicate WellKeyed(fields: Fields)
    decreases fields
  {
    && DistinctKeys(fields)
    && forall i :: 0 <= i < |fields| ==> WellKeyedField(fields[i])
  }

  ghost predicate WellKeyedField(f: Field)
    decreases f
  {
    GoodKey(f.key) && (f.value.Object? ==> WellKeyed(f.value.fields))
  }

  ghost function Dotted(keys: seq<string>): string
  {
    if keys == [] then "" else "." + keys[0] + Dotted(keys[1..])
  }

  function Split(name: string): (r: seq<string>)
    ensures r != []
    decreases |name|
  {
    if name == "" then [""]
    else
      var rest := Split(name[1..]);
      if name[0] == '.' then [""] + rest else [[name[0]] + rest[0]] + rest[1..]
  }

  lemma {:induction false} NameIsDotted(path: string, keys: seq<string>)
    requires path != ""
    ensures Name(path, keys) == path + Dotted(keys)
    decreases |keys|
  {
    if keys == [] {
      assert path + "" == path;
    } else {
      NameIsDotted(path + "." + keys[0], keys[1..]);
      assert path + "." + keys[0] + Dotted(keys[1..]) == path + ("." + keys[0] + Dotted(keys[1..]));
    }
  }

  ghost predicate GoodPath(keys: seq<string>)
  {
    keys != [] && forall k :: k in keys ==> GoodKey(k)
  }

  lemma {:induction false} SplitDotted(key: string, rest: seq<string>)
    requires '.' !in key && forall k :: k in rest ==> '.' !in k
    ensures Split(key + Dotted(rest)) == [key] + rest
    decreases |rest|, |key|
  {
    var s := key + Dotted(rest);
    if key == "" {
      if rest != [] {
        assert s == "." + (rest[0] + Dotted(rest[1..]));
        assert s[1..] == rest[0] + Dotted(rest[1..]);
        SplitDotted(rest[0], rest[1..]);
        assert [rest[0]] + rest[1..] == rest;
      }
    } else {
      assert s[1..] == key[1..] + Dotted(rest);
      SplitDotted(key[1..], rest);
      assert [key[0]] + key[1..] == key;
    }
  }

  /** Splitting a leaf's name at the dots gives its path back. */
  lemma SplitName(keys: seq<string>)
    requires GoodPath(keys)
    ensures Split(Name("", keys)) == keys
  {
    assert keys[0] in keys;
    NameIsDotted(keys[0], keys[1..]);
    assert forall k :: k in keys[1..] ==> k in keys;
    SplitDotted(keys[0], keys[1..]);
    assert [keys[0]] + keys[1..] == keys;
  }

  lemma {:induction false} LeafPathsGood(fields: Fields, l: Leaf)
    requires WellKeyed(fields) && l in Leaves(fields)
    ensures GoodPath(l.path) && Has(fields, l.path[0])
    decreases fields
  {
    var init, last := fields[..|fields| - 1], fields[|fields| - 1];
    assert fields == init + [last] && [last][0] == last;
    assert WellKeyedField(last);
    if l in Leaves(init) {
      LeafPathsGood(init, l);
    } else if last.value.Object? {
      var inner := Leaves(last.value.fields);
      var i :| 0 <= i < |inner| && l == Under(last.key, inner[i]);
      LeafPathsGood(last.value.fields, inner[i]);
      assert l.path[0] == last.key;
    } else {
      assert l == Leaf([last.key], last.value);
    }
    HasSplits(init, [last], l.path[0]);
  }

  ghost predicate DistinctPaths(leaves: seq<Leaf>)
  {
    forall i, j :: 0 <= i < j < |leaves| ==> leaves[i].path != leaves[j].path
  }

  lemma {:induction false} LeafPathsDiffer(fields: Fields)
    requires WellKeyed(fields)
    ensures DistinctPaths(Leaves(fields))
    decreases fields
  {
    if fields != [] {
      var init, last := fields[..|fields| - 1], fields[|fields| - 1];
      assert fields == init + [last];
      assert WellKeyedField(last);
      LeafPathsDiffer(init);
      DistinctAppend(init, last);
      if last.value.Object? {
        LeafPathsDiffer(last.value.fields);
      }
      forall i | 0 <= i < |Leaves(init)| ensures Leaves(init)[i].path != [] && Leaves(init)[i].path[0] != last.key {
        LeafPathsGood(init, Leaves(init)[i]);
      }
      NewPathsDiffer(init, last);
    }
  }

  lemma NewPathsDiffer(init: Fields, last: Field)
    requires DistinctPaths(Leaves(init))
    requires forall i :: 0 <= i < |Leaves(init)| ==> Leaves(init)[i].path != [] && Leaves(init)[i].path[0] != last.key
    requires last.value.Object? ==> DistinctPaths(Leaves(last.value.fields))
    ensures DistinctPaths(Leaves(init) + LeavesOf(last))
  {
    hide Leaves;
    var a, b := Leaves(init), LeavesOf(last);
    forall i | 0 <= i < |b| ensures b[i].path != [] && b[i].path[0] == last.key {
    }
    forall i, j | 0 <= i < j < |b| ensures b[i].path != b[j].path {
      assert b[i].path[1..] == Leaves(last.value.fields)[i].path;
      assert b[j].path[1..] == Leaves(last.value.fields)[j].path;
    }
  }

  /** Flattened keys and leaf paths correspond one to one. */
  lemma FlattenedKeysAreLeafPaths(fields: Fields)
    requires WellKeyed(fields)
    ensures var flat := FlattenRequestPayload(fields, "");
            && DistinctKeys(flat)
            && |flat| == |Leaves(fields)|
            && forall i :: 0 <= i < |flat| ==> Leaf(Split(flat[i].key), flat[i].value) == Leaves(fields)[i]
  {
    hide WellKeyed, FlattenRequestPayload, Split, Name;
    var leaves := Leaves(fields);
    var named := Named("", leaves);
    LeafPathsDiffer(fields);
    forall i | 0 <= i < |leaves| ensures Split(Name("", leaves[i].path)) == leaves[i].path {
      LeafPathsGood(fields, leaves[i]);
      SplitName(leaves[i].path);
    }
    assert DistinctKeys(named);
    NothingLostIffNamesDiffer(fields);
  }
}
