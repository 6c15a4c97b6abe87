/**
 * The query string of the search page's URL as a list of name-value pairs,
 * with the `get`, `set` and `delete` operations of the URL Standard's
 * `URLSearchParams` interface, and the page's rule for the `q` parameter.
 */
module UrlParams {
  import opened Wrappers

  type Params = seq<(string, string)>

  /** `params.get(name)`: the value of the first pair with that name. */
  function Get(ps: Params, name: string): (r: Option<string>)
    ensures r.None? <==> forall k :: 0 <= k < |ps| ==> ps[k].0 != name
  {
    if |ps| == 0 then None
    else if ps[0].0 == name then Some(ps[0].1)
    else Get(ps[1..], name)
  }

  /** When a name is present, `get` answers the value of its first pair. */
  lemma {:induction false} GetIsFirstPair(ps: Params, name: string, k: nat)
    requires k < |ps| && ps[k].0 == name
    requires forall j :: 0 <= j < k ==> ps[j].0 != name
    ensures Get(ps, name) == Some(ps[k].1)
  {
    if k > 0 {
      GetIsFirstPair(ps[1..], name, k - 1);
    }
  }

  /** How many pairs carry `name`. */
  function Count(ps: Params, name: string): nat
  {
    if |ps| == 0 then 0
    else (if ps[0].0 == name then 1 else 0) + Count(ps[1..], name)
  }

  /** `params.delete(name)`: remove every pair with that name. */
  function Delete(ps: Params, name: string): (r: Params)
    ensures forall k :: 0 <= k < |r| ==> r[k].0 != name && r[k] in ps
    ensures Count(r, name) == 0
  {
    if |ps| == 0 then []
    else if ps[0].0 == name then Delete(ps[1..], name)
    else [ps[0]] + Delete(ps[1..], name)
  }

  /** Give the first pair named `name` the new value and drop the later ones. */
  function SetFirst(ps: Params, name: string, value: string): Params
  {
    if |ps| == 0 then []
    else if ps[0].0 == name then [(name, value)] + Delete(ps[1..], name)
    else [ps[0]] + SetFirst(ps[1..], name, value)
  }

  /**
   * `params.set(name, value)`: overwrite the first pair with that name and
   * remove the others, or append a new pair when there is none.
   */
  function Set(ps: Params, name: string, value: string): (r: Params)
  {
    if Get(ps, name).Some? then SetFirst(ps, name, value) else ps + [(name, value)]
  }

  lemma {:induction false} DeleteIdempotent(ps: Params, name: string)
    ensures Delete(Delete(ps, name), name) == Delete(ps, name)
  {
    if |ps| > 0 {
      DeleteIdempotent(ps[1..], name);
    }
  }

  lemma {:induction false} DeleteAppend(ps: Params, qs: Params, name: string)
    ensures Delete(ps + qs, name) == Delete(ps, name) + Delete(qs, name)
  {
    if |ps| == 0 {
      assert ps + qs == qs;
    } else {
      assert (ps + qs)[1..] == ps[1..] + qs;
      DeleteAppend(ps[1..], qs, name);
    }
  }

  /** Deleting a name does not change what `get` answers for another. */
  lemma {:induction false} GetPastDelete(ps: Params, name: string, other: string)
    requires other != name
    ensures Get(Delete(ps, name), other) == Get(ps, other)
  {
    if |ps| > 0 {
      GetPastDelete(ps[1..], name, other);
    }
  }

  /** After `set`, `get` answers the new value. */
  lemma {:induction false} GetAfterSet(ps: Params, name: string, value: string)
    ensures Get(Set(ps, name, value), name) == Some(value)
  {
    if Get(ps, name).Some? {
      GetAfterSetFirst(ps, name, value);
    } else {
      GetOfAppend(ps, name, value);
    }
  }

  lemma {:induction false} GetAfterSetFirst(ps: Params, name: string, value: string)
    requires Get(ps, name).Some?
    ensures Get(SetFirst(ps, name, value), name) == Some(value)
  {
    if ps[0].0 != name {
      GetAfterSetFirst(ps[1..], name, value);
    }
  }

  lemma {:induction false} GetOfAppend(ps: Params, name: string, value: string)
    requires Get(ps, name).None?
    ensures Get(ps + [(name, value)], name) == Some(value)
  {
    if |ps| > 0 {
      assert (ps + [(name, value)])[1..] == ps[1..] + [(name, value)];
      GetOfAppend(ps[1..], name, value);
    }
  }

  /** `set` leaves exactly one pair with the name. */
  lemma {:induction false} SetLeavesOnePair(ps: Params, name: string, value: string)
    ensures Count(Set(ps, name, value), name) == 1
  {
    if Get(ps, name).Some? {
      SetFirstLeavesOnePair(ps, name, value);
    } else {
      CountAppend(ps, [(name, value)], name);
      NoneMeansZero(ps, name);
    }
  }

  lemma {:induction false} SetFirstLeavesOnePair(ps: Params, name: string, value: string)
    requires Get(ps, name).Some?
    ensures Count(SetFirst(ps, name, value), name) == 1
  {
    if ps[0].0 == name {
      var rest := Delete(ps[1..], name);
      assert ([(name, value)] + rest)[1..] == rest;
    } else {
      SetFirstLeavesOnePair(ps[1..], name, value);
      assert ([ps[0]] + SetFirst(ps[1..], name, value))[1..] == SetFirst(ps[1..], name, value);
    }
  }

  lemma {:induction false} CountAppend(ps: Params, qs: Params, name: string)
    ensures Count(ps + qs, name) == Count(ps, name) + Count(qs, name)
  {
    if |ps| == 0 {
      assert ps + qs == qs;
    } else {
      assert (ps + qs)[1..] == ps[1..] + qs;
      CountAppend(ps[1..], qs, name);
    }
  }

  lemma {:induction false} NoneMeansZero(ps: Params, name: string)
    requires Get(ps, name).None?
    ensures Count(ps, name) == 0
  {
    if |ps| > 0 {
      NoneMeansZero(ps[1..], name);
    }
  }

  /** Apart from the pairs named `name`, `set` leaves the list as it was. */
  lemma {:induction false} DeleteAfterSet(ps: Params, name: string, value: string)
    ensures Delete(Set(ps, name, value), name) == Delete(ps, name)
  {
    if Get(ps, name).Some? {
      DeleteAfterSetFirst(ps, name, value);
    } else {
      DeleteAppend(ps, [(name, value)], name);
      assert Delete([(name, value)], name) == [];
    }
  }

  lemma {:induction false} DeleteAfterSetFirst(ps: Params, name: string, value: string)
    ensures Delete(SetFirst(ps, name, value), name) == Delete(ps, name)
  {
    if |ps| > 0 {
      if ps[0].0 == name {
        var rest := Delete(ps[1..], name);
        assert ([(name, value)] + rest)[1..] == rest;
        DeleteIdempotent(ps[1..], name);
      } else {
        DeleteAfterSetFirst(ps[1..], name, value);
        assert ([ps[0]] + SetFirst(ps[1..], name, value))[1..] == SetFirst(ps[1..], name, value);
      }
    }
  }

  /** What `set` and `delete` of one name do to every other name. */
  lemma OtherNamesUnchanged(ps: Params, name: string, value: string)
    ensures forall other :: other != name ==> Get(Set(ps, name, value), other) == Get(ps, other)
    ensures forall other :: other != name ==> Get(Delete(ps, name), other) == Get(ps, other)
  {
    forall other | other != name
      ensures Get(Set(ps, name, value), other) == Get(ps, other)
      ensures Get(Delete(ps, name), other) == Get(ps, other)
    {
      DeleteAfterSet(ps, name, value);
      GetPastDelete(Set(ps, name, value), name, other);
      GetPastDelete(ps, name, other);
    }
  }

  /**
   * `handleQueryChange`'s URL update: `q` carries the typed value when it is
   * non-empty and is removed when it is empty; every other parameter stays.
   */
  function QueryParamUpdate(ps: Params, value: string): (r: Params)
    ensures Get(r, "q") == (if value != "" then Some(value) else None)
    ensures Count(r, "q") == (if value != "" then 1 else 0)
    ensures Delete(r, "q") == Delete(ps, "q")
    ensures forall name :: name != "q" ==> Get(r, name) == Get(ps, name)
  {
    GetAfterSet(ps, "q", value);
    SetLeavesOnePair(ps, "q", value);
    DeleteAfterSet(ps, "q", value);
    DeleteIdempotent(ps, "q");
    OtherNamesUnchanged(ps, "q", value);
    if value != "" then Set(ps, "q", value) else Delete(ps, "q")
  }
}
