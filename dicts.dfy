/**
 * Python dicts from strings to strings as the scraper uses them: insertion
 * ordered, `d[k] = v` appending a new key and overwriting an old one in
 * place, `list(d.keys())` giving the keys in insertion order.
 */
module Dicts {

  datatype Dict = Dict(keys: seq<string>, values: map<string, string>)

  const Empty: Dict := Dict([], map[])

  /** The keys are listed once each, and they are exactly the keys of the mapping. */
  ghost predicate Wf(d: Dict) {
    && (forall i, j :: 0 <= i < j < |d.keys| ==> d.keys[i] != d.keys[j])
    && (forall k :: k in d.values <==> k in d.keys)
  }

  /** `d[k] = v`. */
  function Insert(d: Dict, k: string, v: string): (r: Dict)
    ensures Wf(d) ==> Wf(r)
    ensures k in r.values && r.values[k] == v
  {
    Dict(if k in d.values then d.keys else d.keys + [k], d.values[k := v])
  }

  /** `d[k] = v` leaves the other keys and their values alone, and moves no key. */
  lemma InsertLeavesOthers(d: Dict, k: string, v: string)
    ensures forall j :: j != k ==> (j in Insert(d, k, v).values <==> j in d.values)
    ensures forall j :: j != k && j in d.values ==> Insert(d, k, v).values[j] == d.values[j]
    ensures |d.keys| <= |Insert(d, k, v).keys| <= |d.keys| + 1 && Insert(d, k, v).keys[..|d.keys|] == d.keys
    ensures Wf(d) && k in d.values ==> Insert(d, k, v).keys == d.keys
  {
  }

  /** Each pair assigned in turn, as a loop of `d[k] = v` does. */
  function FromPairs(d: Dict, ps: seq<(string, string)>): Dict {
    if ps == [] then d
    else
      var last := ps[|ps| - 1];
      Insert(FromPairs(d, ps[..|ps| - 1]), last.0, last.1)
  }

  /** One more assignment at the end is one more `Insert`. */
  lemma FromPairsStep(d: Dict, ps: seq<(string, string)>, k: string, v: string)
    ensures FromPairs(d, ps + [(k, v)]) == Insert(FromPairs(d, ps), k, v)
  {
    assert (ps + [(k, v)])[..|ps|] == ps;
  }

  /** Assignments keep a dict well formed. */
  lemma {:induction false} FromPairsWf(d: Dict, ps: seq<(string, string)>)
    requires Wf(d)
    ensures Wf(FromPairs(d, ps))
  {
    if ps != [] {
      FromPairsWf(d, ps[..|ps| - 1]);
    }
  }

  /** After the assignments, the keys are the old ones and those of the pairs. */
  lemma {:induction false} FromPairsKeys(d: Dict, ps: seq<(string, string)>, k: string)
    ensures k in FromPairs(d, ps).values <==> k in d.values || exists i :: 0 <= i < |ps| && ps[i].0 == k
  {
    if ps != [] {
      var init := ps[..|ps| - 1];
      FromPairsKeys(d, init, k);
      InsertLeavesOthers(FromPairs(d, init), ps[|ps| - 1].0, ps[|ps| - 1].1);
      if exists i :: 0 <= i < |init| && init[i].0 == k {
        var i :| 0 <= i < |init| && init[i].0 == k;
        assert ps[i].0 == k;
      }
      if exists i :: 0 <= i < |ps| && ps[i].0 == k {
        var i :| 0 <= i < |ps| && ps[i].0 == k;
        if i < |init| {
          assert init[i].0 == k;
        }
      }
    }
  }

  /** The last assignment to a key wins. */
  lemma {:induction false} FromPairsLastWins(d: Dict, ps: seq<(string, string)>, i: nat)
    requires i < |ps| && forall j :: i < j < |ps| ==> ps[j].0 != ps[i].0
    ensures ps[i].0 in FromPairs(d, ps).values && FromPairs(d, ps).values[ps[i].0] == ps[i].1
  {
    if i < |ps| - 1 {
      var init := ps[..|ps| - 1];
      assert forall j :: i < j < |init| ==> init[j] == ps[j];
      FromPairsLastWins(d, init, i);
      InsertLeavesOthers(FromPairs(d, init), ps[|ps| - 1].0, ps[|ps| - 1].1);
    }
  }

  /** The keys already present keep their places; new keys follow them. */
  lemma {:induction false} FromPairsKeepsOrder(d: Dict, ps: seq<(string, string)>)
    ensures |d.keys| <= |FromPairs(d, ps).keys| && FromPairs(d, ps).keys[..|d.keys|] == d.keys
  {
    if ps != [] {
      var init := ps[..|ps| - 1];
      FromPairsKeepsOrder(d, init);
      var mid := FromPairs(d, init);
      InsertLeavesOthers(mid, ps[|ps| - 1].0, ps[|ps| - 1].1);
      assert FromPairs(d, ps).keys[..|mid.keys|] == mid.keys;
      assert FromPairs(d, ps).keys[..|d.keys|] == mid.keys[..|d.keys|];
    }
  }
}
