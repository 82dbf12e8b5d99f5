/**
 * `table[key] = value` applied line after line: both readers of the tool fill a std::map
 * this way, and a later assignment to a key replaces the earlier one.
 */
module LastWins {
  import opened Base

  /** One line's effect on a table: no assignment, or one `table[k] = v`. */
  function Put<K, V>(m: map<K, V>, u: Option<(K, V)>): (r: map<K, V>)
  {
    match u
    case None => m
    case Some((k, v)) => m[k := v]
  }

  /** The table after the assignments of `us`, in order, starting from `m`. */
  function ApplyAll<K, V>(m: map<K, V>, us: seq<Option<(K, V)>>): (r: map<K, V>)
  {
    if us == [] then m else Put(ApplyAll(m, us[..|us| - 1]), us[|us| - 1])
  }

  predicate Assigns<K(==), V>(u: Option<(K, V)>, k: K)
  {
    u.Some? && u.value.0 == k
  }

  /** Applying one more line's assignment to the table of a prefix gives the table of the longer prefix. */
  lemma ApplyAllStep<K, V>(m: map<K, V>, us: seq<Option<(K, V)>>, n: nat)
    requires n < |us|
    ensures ApplyAll(m, us[..n + 1]) == Put(ApplyAll(m, us[..n]), us[n])
  {
    assert us[..n + 1][..n] == us[..n];
  }

  /** One more line at the end applies its assignment to the table of the lines before it. */
  lemma ApplyAllSnoc<K, V>(m: map<K, V>, us: seq<Option<(K, V)>>, u: Option<(K, V)>)
    ensures ApplyAll(m, us + [u]) == Put(ApplyAll(m, us), u)
  {
    assert (us + [u])[..|us|] == us;
  }

  /** A key is in the table when it was there to begin with or some line assigns it. */
  lemma {:induction false} ApplyAllKeys<K, V>(m: map<K, V>, us: seq<Option<(K, V)>>, k: K)
    ensures k in ApplyAll(m, us) <==> k in m || exists i :: 0 <= i < |us| && Assigns(us[i], k)
  {
    if us != [] {
      var init := us[..|us| - 1];
      ApplyAllKeys(m, init, k);
      assert forall i :: 0 <= i < |init| ==> init[i] == us[i];
      if exists i :: 0 <= i < |us| && Assigns(us[i], k) {
        var i :| 0 <= i < |us| && Assigns(us[i], k);
        if i < |init| {
          assert Assigns(init[i], k);
        }
      }
    }
  }

  /** The last assignment to a key decides its value, whatever came before. */
  lemma {:induction false} LastAssignmentWins<K, V>(m: map<K, V>, us: seq<Option<(K, V)>>, j: nat)
    requires j < |us| && us[j].Some?
    requires forall i :: j < i < |us| ==> !Assigns(us[i], us[j].value.0)
    ensures us[j].value.0 in ApplyAll(m, us)
    ensures ApplyAll(m, us)[us[j].value.0] == us[j].value.1
  {
    if j < |us| - 1 {
      var init := us[..|us| - 1];
      assert init[j] == us[j];
      LastAssignmentWins(m, init, j);
    }
  }

  /** A key that no line assigns keeps whatever it had, or stays absent. */
  lemma {:induction false} UnassignedUnchanged<K, V>(m: map<K, V>, us: seq<Option<(K, V)>>, k: K)
    requires forall i :: 0 <= i < |us| ==> !Assigns(us[i], k)
    ensures k in ApplyAll(m, us) <==> k in m
    ensures k in m ==> ApplyAll(m, us)[k] == m[k]
  {
    if us != [] {
      UnassignedUnchanged(m, us[..|us| - 1], k);
    }
  }

  /** A line that assigns nothing leaves the whole table as it was. */
  lemma NoAssignmentKeepsTable<K, V>(m: map<K, V>, us: seq<Option<(K, V)>>)
    ensures ApplyAll(m, us + [None]) == ApplyAll(m, us)
  {
    assert (us + [None])[..|us|] == us;
  }
}
