/** Request payloads of the TypeScript client, and how they are flattened into dotted keys for a URL query. Objects
    are lists of fields, in the order in which their keys are enumerated. */
module Payloads {
  import Seqs

  datatype Primitive = Text(text: string) | Number(number: real) | Truth(truth: bool)

  /** `Other` stands for values that are neither primitives, arrays nor plain objects. */
  datatype Value = Single(primitive: Primitive) | Array(items: seq<Value>) | Object(fields: seq<Field>) | Other

  datatype Field = Field(key: string, value: Value)

  type Fields = seq<Field>

  predicate IsZeroValuePrimitive(p: Primitive)
  {
    match p
    case Text(s) => s == ""
    case Number(n) => n == 0.0
    case Truth(b) => !b
  }

  /** The values that end up in a query: non-zero primitives and non-empty arrays of primitives. */
  predicate Kept(v: Value)
  {
    match v
    case Single(p) => !IsZeroValuePrimitive(p)
    case Array(items) => items != [] && forall i :: 0 <= i < |items| ==> items[i].Single?
    case _ => false
  }

  // ----- objects

  predicate Has(fields: Fields, key: string)
  {
    exists i :: 0 <= i < |fields| && fields[i].key == key
  }

  ghost predicate DistinctKeys(fields: Fields)
  {
    forall i, j :: 0 <= i < j < |fields| ==> fields[i].key != fields[j].key
  }

  /** Sets a field: an existing key keeps its place, a new one comes last. */
  function Put(fields: Fields, f: Field): Fields
  {
    if fields == [] then [f]
    else if fields[0].key == f.key then [f] + fields[1..]
    else [fields[0]] + Put(fields[1..], f)
  }

  /** `{...fields, ...more}`. */
  function Spread(fields: Fields, more: Fields): Fields
  {
    if more == [] then fields else Put(Spread(fields, more[..|more| - 1]), more[|more| - 1])
  }

  /** The key of a nested field. */
  function Extend(path: string, key: string): string
  {
    if path != "" then path + "." + key else key
  }

  function FlattenRequestPayload(fields: Fields, path: string): Fields
    decreases fields
  {
    if fields == [] then []
    else
      var last := fields[|fields| - 1];
      var newPath := Extend(path, last.key);
      var objectToMerge := match last.value
        case Object(inner) => FlattenRequestPayload(inner, newPath)
        case v => if Kept(v) then [Field(newPath, v)] else [];
      Spread(FlattenRequestPayload(fields[..|fields| - 1], path), objectToMerge)
  }

  // ----- leaves

  datatype Leaf = Leaf(path: seq<string>, value: Value)

  ghost function Under(key: string, l: Leaf): Leaf
  {
    Leaf([key] + l.path, l.value)
  }

  ghost function Prefixed(key: string, leaves: seq<Leaf>): (r: seq<Leaf>)
  {
    Seqs.Map(l => Under(key, l), leaves)
  }

  /** The kept leaves of a payload with their key paths, in order. */
  ghost function Leaves(fields: Fields): seq<Leaf>
    decreases fields
  {
    if fields == [] then [] else Leaves(fields[..|fields| - 1]) + LeavesOf(fields[|fields| - 1])
  }

  ghost function LeavesOf(f: Field): seq<Leaf>
    decreases f
  {
    match f.value
    case Object(inner) => Prefixed(f.key, Leaves(inner))
    case v => if Kept(v) then [Leaf([f.key], v)] else []
  }

  /** The name that flattening gives to a path below `path`. */
  ghost function Name(path: string, keys: seq<string>): string
    decreases |keys|
  {
    if keys == [] then path else Name(Extend(path, keys[0]), keys[1..])
  }

  ghost function Named(path: string, leaves: seq<Leaf>): Fields
  {
    Seqs.Map((l: Leaf) => Field(Name(path, l.path), l.value), leaves)
  }

  // ----- what spreading does

  /** The position at which a field is put. */
  lemma {:induction false} PutAt(fields: Fields, f: Field) returns (i: nat)
    ensures i <= |fields| && (i < |fields| ==> fields[i].key == f.key)
    ensures forall j :: 0 <= j < i ==> fields[j].key != f.key
    ensures Put(fields, f) == if i < |fields| then fields[i := f] else fields + [f]
    decreases |fields|
  {
    i := 0;
    if fields != [] && fields[0].key != f.key {
      var k := PutAt(fields[1..], f);
      i := k + 1;
      assert fields == [fields[0]] + fields[1..];
      hide Put;
      UpdateTail(fields[0], fields[1..], f, k);
      assert forall j :: 1 <= j < i ==> fields[j] == fields[1..][j - 1];
    }
  }

  lemma UpdateTail(first: Field, rest: Fields, f: Field, k: nat)
    requires k <= |rest|
    ensures k < |rest| ==> ([first] + rest)[k + 1 := f] == [first] + rest[k := f]
    ensures [first] + rest + [f] == [first] + (rest + [f])
  {
  }

  lemma PutKeys(fields: Fields, f: Field)
    ensures forall key :: Has(Put(fields, f), key) <==> Has(fields, key) || key == f.key
    ensures DistinctKeys(fields) ==> DistinctKeys(Put(fields, f))
    ensures !Has(fields, f.key) ==> Put(fields, f) == fields + [f]
    ensures Has(fields, f.key) ==> |Put(fields, f)| == |fields|
  {
    hide Put, Has, DistinctKeys;
    var i := PutAt(fields, f);
    UpdateDistinct(fields, i, f);
    forall key ensures Has(Put(fields, f), key) <==> Has(fields, key) || key == f.key {
      UpdateHas(fields, i, f, key);
    }
  }

  lemma UpdateDistinct(fields: Fields, i: nat, f: Field)
    requires i <= |fields| && (i < |fields| ==> fields[i].key == f.key)
    requires forall j :: 0 <= j < i ==> fields[j].key != f.key
    ensures Has(fields, f.key) <==> i < |fields|
    ensures DistinctKeys(fields) ==> DistinctKeys(if i < |fields| then fields[i := f] else fields + [f])
  {
  }

  lemma UpdateHas(fields: Fields, i: nat, f: Field, key: string)
    requires i <= |fields| && (i < |fields| ==> fields[i].key == f.key)
    ensures Has(if i < |fields| then fields[i := f] else fields + [f], key) <==> Has(fields, key) || key == f.key
  {
    if i < |fields| {
      assert forall j :: 0 <= j < |fields| ==> fields[i := f][j].key == fields[j].key;
    } else {
      HasSplits(fields, [f], key);
      assert [f][0] == f;
    }
  }

  lemma HasSplits(a: Fields, b: Fields, key: string)
    ensures Has(a + b, key) <==> Has(a, key) || Has(b, key)
  {
    if Has(b, key) {
      var i :| 0 <= i < |b| && b[i].key == key;
      assert (a + b)[|a| + i].key == key;
    }
    if Has(a, key) {
      var i :| 0 <= i < |a| && a[i].key == key;
      assert (a + b)[i].key == key;
    }
  }

  lemma SpreadAppend(fields: Fields, more: Fields, f: Field)
    ensures Spread(fields, more + [f]) == Put(Spread(fields, more), f)
  {
    assert (more + [f])[..|more|] == more;
  }

  lemma {:induction false} SpreadConcat(fields: Fields, a: Fields, b: Fields)
    ensures Spread(fields, a + b) == Spread(Spread(fields, a), b)
    decreases |b|
  {
    if b == [] {
      assert a + b == a;
    } else {
      var init, last := b[..|b| - 1], b[|b| - 1];
      assert a + b == (a + init) + [last] && b == init + [last];
      SpreadConcat(fields, a, init);
      SpreadAppend(fields, a + init, last);
    }
  }

  lemma {:induction false} SpreadKeys(fields: Fields, more: Fields)
    ensures forall key :: Has(Spread(fields, more), key) <==> Has(fields, key) || Has(more, key)
    ensures DistinctKeys(fields) ==> DistinctKeys(Spread(fields, more))
    decreases |more|
  {
    if more != [] {
      var init, last := more[..|more| - 1], more[|more| - 1];
      SpreadKeys(fields, init);
      PutKeys(Spread(fields, init), last);
      forall key ensures Has(more, key) <==> Has(init, key) || key == last.key {
        HasSplits(init, [last], key);
        assert more == init + [last] && [last][0] == last;
      }
      hide Put, DistinctKeys, Has;
    }
  }

  /** Spreading new keys appends them. */
  lemma {:induction false} SpreadNew(fields: Fields, more: Fields)
    requires DistinctKeys(fields + more)
    ensures Spread(fields, more) == fields + more
    decreases |more|
  {
    if more == [] {
      assert fields + more == fields;
    } else {
      var init, last := more[..|more| - 1], more[|more| - 1];
      var all := fields + more;
      assert all == (fields + init) + [last];
      assert forall i :: 0 <= i < |fields + init| ==> (fields + init)[i] == all[i];
      SpreadNew(fields, init);
      assert all[|all| - 1] == last;
      PutKeys(fields + init, last);
    }
  }

  lemma {:induction false} PutTwice(fields: Fields, f: Field, g: Field)
    ensures f.key == g.key ==> Put(Put(fields, f), g) == Put(fields, g)
    ensures f.key != g.key && Has(fields, g.key) ==> Put(Put(fields, f), g) == Put(Put(fields, g), f)
    decreases |fields|
  {
    if fields != [] {
      PutTwice(fields[1..], f, g);
      assert fields == [fields[0]] + fields[1..];
      HasSplits([fields[0]], fields[1..], g.key);
    }
  }

  /** An existing key can be set before or after spreading other keys. */
  lemma {:induction false} PutThenSpread(fields: Fields, f: Field, more: Fields)
    requires Has(fields, f.key) && !Has(more, f.key)
    ensures Spread(Put(fields, f), more) == Put(Spread(fields, more), f)
    decreases |more|
  {
    if more != [] {
      var init, last := more[..|more| - 1], more[|more| - 1];
      assert more == init + [last] && [last][0] == last;
      HasSplits(init, [last], f.key);
      PutThenSpread(fields, f, init);
      SpreadKeys(fields, init);
      PutTwice(Spread(fields, init), last, f);
    }
  }

  /** Spreading a spread is spreading its fields one by one. */
  lemma {:induction false} SpreadSpread(fields: Fields, more: Fields)
    ensures Spread(fields, Spread([], more)) == Spread(fields, more)
    decreases |more|
  {
    if more != [] {
      var init, last := more[..|more| - 1], more[|more| - 1];
      var s := Spread([], init);
      SpreadSpread(fields, init);
      SpreadKeys([], init);
      SpreadPut(fields, s, last);
    }
  }

  lemma LaterKeysDiffer(fields: Fields, i: nat)
    requires DistinctKeys(fields) && i < |fields|
    ensures !Has(fields[i + 1..], fields[i].key)
  {
  }

  lemma SpreadPut(fields: Fields, s: Fields, f: Field)
    requires DistinctKeys(s)
    ensures Spread(fields, Put(s, f)) == Put(Spread(fields, s), f)
  {
    var i := PutAt(s, f);
    if i == |s| {
      assert Put(s, f) == s + [f];
      SpreadAppend(fields, s, f);
    } else {
      var (a, b) := (s[..i], s[i + 1..]);
      hide Put, Spread, Has;
      assert Put(s, f) == (a + [f]) + b && s == (a + [s[i]]) + b;
      SpreadConcat(fields, a + [f], b);
      SpreadConcat(fields, a + [s[i]], b);
      SpreadAppend(fields, a, f);
      SpreadAppend(fields, a, s[i]);
      PutTwice(Spread(fields, a), s[i], f);
      PutKeys(Spread(fields, a), s[i]);
      assert !Has(b, f.key) by {
        LaterKeysDiffer(s, i);
      }
      PutThenSpread(Put(Spread(fields, a), s[i]), f, b);
    }
  }

  /** The zero values are the empty text, the number zero and `false`. */
  lemma ZeroValues(p: Primitive)
    ensures IsZeroValuePrimitive(p) <==> p == Text("") || p == Number(0.0) || p == Truth(false)
  {
  }

  /** What is kept: every other primitive, and every non-empty array of primitives, zero values included. */
  lemma KeptValues(v: Value)
    ensures Kept(v)
            <==> || (v.Single? && v !in {Single(Text("")), Single(Number(0.0)), Single(Truth(false))})
                 || (v.Array? && |v.items| > 0 && forall item :: item in v.items ==> item.Single?)
  {
    if v.Array? && forall item :: item in v.items ==> item.Single? {
      assert forall i :: 0 <= i < |v.items| ==> v.items[i] in v.items;
    }
  }
}
