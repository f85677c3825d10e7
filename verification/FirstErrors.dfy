/** Loops that stop at the first bad element. */
module FirstErrors {
  import opened Telemetry

  /** The error of the first element that has one. */
  ghost function FirstOf<T>(err: T -> Option<Error>, hs: seq<T>): Option<Error>
  {
    if hs == [] then None
    else
      var e := FirstOf(err, hs[..|hs| - 1]);
      if e.Some? then e else err(hs[|hs| - 1])
  }

  lemma {:induction false} FirstOfPrefix<T>(err: T -> Option<Error>, hs: seq<T>, n: nat)
    requires n <= |hs| && FirstOf(err, hs[..n]).Some?
    ensures FirstOf(err, hs) == FirstOf(err, hs[..n])
    decreases |hs|
  {
    if n == |hs| {
      assert hs[..n] == hs;
    } else {
      assert hs[..|hs| - 1][..n] == hs[..n];
      FirstOfPrefix(err, hs[..|hs| - 1], n);
    }
  }

  lemma FirstOfNext<T>(err: T -> Option<Error>, hs: seq<T>, i: nat)
    requires i < |hs| && FirstOf(err, hs[..i]).None?
    ensures FirstOf(err, hs[..i + 1]) == err(hs[i])
  {
    assert hs[..i + 1][..i] == hs[..i];
  }

  /** There is no first error exactly if no element has one; otherwise some element has it. */
  lemma {:induction false} FirstOfMeaning<T(!new)>(err: T -> Option<Error>, hs: seq<T>)
    ensures match FirstOf(err, hs)
            case None => forall h :: h in hs ==> err(h).None?
            case Some(e) => exists h :: h in hs && err(h) == Some(e)
    decreases |hs|
  {
    if hs != [] {
      var init, last := hs[..|hs| - 1], hs[|hs| - 1];
      FirstOfMeaning(err, init);
      assert hs == init + [last];
      assert last in hs;
    }
  }

  /** Which errors a list can give does not depend on its order. */
  lemma ErrorsUpToOrder<T(!new)>(err: T -> Option<Error>, hs: seq<T>, all: seq<T>)
    requires multiset(hs) == multiset(all)
    ensures match FirstOf(err, hs)
            case None => forall h :: h in all ==> err(h).None?
            case Some(e) => exists h :: h in all && err(h) == Some(e)
  {
    FirstOfMeaning(err, hs);
    forall h ensures h in hs <==> h in all {
      assert h in hs <==> h in multiset(hs);
    }
  }
}
