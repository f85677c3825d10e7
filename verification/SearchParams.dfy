/** The URL query of a request: flattened payload fields that the path does not already carry. */
module SearchParams {
  import opened Grouping
  import opened Payloads
  import Flattening

  /** Whether a field is left to the URL path. The empty key never is, since `find` then yields a falsy value. */
  predicate InPath(key: string, urlPathParams: seq<string>)
  {
    key in urlPathParams && key != ""
  }

  /** The texts of a flattened value; `show` stands for `toString` of primitives. */
  function Texts(v: Value, show: Primitive -> string): seq<string>
  {
    match v
    case Single(p) => [show(p)]
    case Array(items) =>
      seq(|items|, i requires 0 <= i < |items| => if items[i].Single? then show(items[i].primitive) else "")
    case _ => []
  }

  function Pairs(key: string, texts: seq<string>): seq<(string, string)>
  {
    seq(|texts|, i requires 0 <= i < |texts| => (key, texts[i]))
  }

  function PairsOf(flat: Fields, urlPathParams: seq<string>, show: Primitive -> string): seq<(string, string)>
  {
    if flat == [] then []
    else
      var (acc, f) := (PairsOf(flat[..|flat| - 1], urlPathParams, show), flat[|flat| - 1]);
      if InPath(f.key, urlPathParams) then acc else acc + Pairs(f.key, Texts(f.value, show))
  }

  /** The parameters of the query, before they are encoded. */
  function RenderURLSearchParams(payload: Fields, urlPathParams: seq<string>, show: Primitive -> string)
    : seq<(string, string)>
  {
    PairsOf(FlattenRequestPayload(payload, ""), urlPathParams, show)
  }

  lemma PairsNext(acc: seq<(string, string)>, key: string, texts: seq<string>)
    ensures texts == [] ==> acc + Pairs(key, texts) == acc
    ensures texts != [] ==>
              acc + Pairs(key, texts) == (acc + Pairs(key, texts[..|texts| - 1])) + [(key, texts[|texts| - 1])]
  {
  }

  lemma {:induction false} OfPairs(acc: seq<(string, string)>, key: string, texts: seq<string>, k: string)
    ensures Of(acc + Pairs(key, texts), k) == if k == key then Of(acc, k) + texts else Of(acc, k)
    decreases |texts|
  {
    hide Of, Pairs;
    PairsNext(acc, key, texts);
    if texts != [] {
      var init, last := texts[..|texts| - 1], texts[|texts| - 1];
      OfPairs(acc, key, init, k);
      AddEntry(acc + Pairs(key, init), (key, last), k);
      assert init + [last] == texts;
      assert Of(acc, k) + init + [last] == Of(acc, k) + texts;
    }
  }

  lemma {:induction false} NoPairs(flat: Fields, urlPathParams: seq<string>, show: Primitive -> string, k: string)
    requires !Has(flat, k) || InPath(k, urlPathParams)
    ensures Of(PairsOf(flat, urlPathParams, show), k) == []
    decreases |flat|
  {
    if flat != [] {
      var init, last := flat[..|flat| - 1], flat[|flat| - 1];
      assert flat == init + [last] && [last][0] == last;
      HasSplits(init, [last], k);
      NoPairs(init, urlPathParams, show, k);
      OfPairs(PairsOf(init, urlPathParams, show), last.key, Texts(last.value, show), k);
      hide Texts, Pairs, Of, InPath;
    }
  }

  lemma {:induction false} PairsAreLastValue(flat: Fields, urlPathParams: seq<string>, show: Primitive -> string,
                                             k: string)
    requires DistinctKeys(flat) && !InPath(k, urlPathParams)
    ensures Of(PairsOf(flat, urlPathParams, show), k)
            == match Flattening.LastValue(flat, k) case None => [] case Some(v) => Texts(v, show)
    decreases |flat|
  {
    if flat != [] {
      var init, last := flat[..|flat| - 1], flat[|flat| - 1];
      assert flat == init + [last];
      Flattening.DistinctAppend(init, last);
      OfPairs(PairsOf(init, urlPathParams, show), last.key, Texts(last.value, show), k);
      if k == last.key {
        NoPairs(init, urlPathParams, show, k);
      } else {
        PairsAreLastValue(init, urlPathParams, show, k);
      }
      hide Texts, Pairs, Of, InPath, DistinctKeys, Has;
    }
  }

  /** The query of any payload carries, under every name that the path does not carry, the texts of the last kept
      leaf of that name, in order, and nothing under any other name. */
  lemma QueryIsLastLeaves(payload: Fields, urlPathParams: seq<string>, show: Primitive -> string, k: string)
    ensures Of(RenderURLSearchParams(payload, urlPathParams, show), k)
            == if InPath(k, urlPathParams) then []
               else
                 match Flattening.LastValue(Named("", Leaves(payload)), k)
                 case None => []
                 case Some(v) => Texts(v, show)
  {
    hide FlattenRequestPayload, Texts, InPath, PairsOf, Of, Leaves, Flattening.LastValue, Named;
    Flattening.LastLeafWins(payload, k);
    if InPath(k, urlPathParams) {
      NoPairs(FlattenRequestPayload(payload, ""), urlPathParams, show, k);
    } else {
      PairsAreLastValue(FlattenRequestPayload(payload, ""), urlPathParams, show, k);
    }
  }

  /** If no two leaves get the same name, as with non-empty dot-free keys, the query carries every kept leaf that the
      path does not carry. */
  lemma QueryIsLeaves(payload: Fields, urlPathParams: seq<string>, show: Primitive -> string, l: Leaf)
    requires DistinctKeys(Named("", Leaves(payload)))
    requires l in Leaves(payload) && !InPath(Name("", l.path), urlPathParams)
    ensures Of(RenderURLSearchParams(payload, urlPathParams, show), Name("", l.path)) == Texts(l.value, show)
  {
    var named := Named("", Leaves(payload));
    var i :| 0 <= i < |Leaves(payload)| && Leaves(payload)[i] == l;
    assert named[i] == Field(Name("", l.path), l.value);
    hide *;
    Flattening.LastValueOfKey(named, i);
    QueryIsLastLeaves(payload, urlPathParams, show, Name("", l.path));
  }

  /** The query of any payload in terms of the last kept leaf of each name: one text for a primitive, one for every
      item of an array, in order, and none for a name that is a non-empty path parameter. */
  lemma QueryTexts(payload: Fields, urlPathParams: seq<string>, show: Primitive -> string, k: string)
    ensures var texts := Of(RenderURLSearchParams(payload, urlPathParams, show), k);
            var last := Flattening.LastValue(Named("", Leaves(payload)), k);
            && (k != "" && k in urlPathParams ==> texts == [])
            && (k == "" || k !in urlPathParams ==>
                  && (last.None? ==> texts == [])
                  && (last.Some? && last.value.Single? ==> texts == [show(last.value.primitive)])
                  && (last.Some? && last.value.Array? ==>
                        && |texts| == |last.value.items|
                        && forall i :: 0 <= i < |texts| && last.value.items[i].Single? ==>
                             texts[i] == show(last.value.items[i].primitive)))
  {
    QueryIsLastLeaves(payload, urlPathParams, show, k);
    hide RenderURLSearchParams, Of, Leaves, Named, Flattening.LastValue;
  }
}
