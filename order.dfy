/**
 * The order in which std::map<string, ...> keeps its keys: std::string's operator<,
 * which compares character codes from the left and puts a proper prefix first.
 */
module StringOrder {

  predicate Below(a: string, b: string)
  {
    if a == [] then b != []
    else if b == [] then false
    else if a[0] != b[0] then a[0] < b[0]
    else Below(a[1..], b[1..])
  }

  lemma {:induction false} BelowIrreflexive(a: string)
    ensures !Below(a, a)
  {
    if a != [] {
      BelowIrreflexive(a[1..]);
    }
  }

  lemma {:induction false} BelowTransitive(a: string, b: string, c: string)
    requires Below(a, b) && Below(b, c)
    ensures Below(a, c)
  {
    if a != [] && b != [] && c != [] && a[0] == b[0] && b[0] == c[0] {
      BelowTransitive(a[1..], b[1..], c[1..]);
    }
  }

  lemma {:induction false} BelowTotal(a: string, b: string)
    ensures a == b || Below(a, b) || Below(b, a)
  {
    if a != [] && b != [] && a[0] == b[0] {
      BelowTotal(a[1..], b[1..]);
      assert a == [a[0]] + a[1..] && b == [b[0]] + b[1..];
    }
  }

  /** Strictly ascending: the order in which a std::map hands out its keys. */
  predicate Ascending(ks: seq<string>)
  {
    forall i, j :: 0 <= i < j < |ks| ==> Below(ks[i], ks[j])
  }

  /** An ascending sequence stays ascending when a key above all of it is appended. */
  lemma AscendingSnoc(ks: seq<string>, k: string)
    requires Ascending(ks)
    requires forall j :: j in ks ==> Below(j, k)
    ensures Ascending(ks + [k])
  {
    forall i, j | 0 <= i < j < |ks + [k]|
      ensures Below((ks + [k])[i], (ks + [k])[j])
    {
      assert (ks + [k])[i] == ks[i];
      if j == |ks| {
        assert ks[i] in ks;
      }
    }
  }

  predicate IsLeast(k: string, s: set<string>)
  {
    k in s && forall j :: j in s && j != k ==> Below(k, j)
  }

  lemma {:induction false} LeastExists(s: set<string>)
    requires s != {}
    ensures exists k :: IsLeast(k, s)
    decreases |s|
  {
    var x :| x in s;
    if s != {x} {
      var rest := s - {x};
      LeastExists(rest);
      var k :| IsLeast(k, rest);
      BelowTotal(k, x);
      if Below(x, k) {
        forall j | j in s && j != x
          ensures Below(x, j)
        {
          if j != k {
            BelowTransitive(x, k, j);
          }
        }
        assert IsLeast(x, s);
      } else {
        assert IsLeast(k, s);
      }
    } else {
      assert IsLeast(x, s);
    }
  }

  lemma LeastUnique(k: string, k': string, s: set<string>)
    requires IsLeast(k, s) && IsLeast(k', s)
    ensures k == k'
  {
    if k != k' {
      BelowTransitive(k, k', k);
      BelowIrreflexive(k);
    }
  }

  /** The keys of a set in the order std::map visits them. */
  ghost function SortedKeys(s: set<string>): (ks: seq<string>)
    ensures Ascending(ks)
    ensures |ks| == |s|
    ensures forall k :: k in ks <==> k in s
    decreases |s|
  {
    if s == {} then []
    else
      LeastExists(s);
      var k :| IsLeast(k, s);
      var rest := SortedKeys(s - {k});
      assert forall i :: 0 <= i < |rest| ==> rest[i] in rest && rest[i] in s - {k};
      [k] + rest
  }

  /** Picking the least key first and then the rest in order is what SortedKeys does. */
  lemma SortedKeysFirst(k: string, s: set<string>)
    requires IsLeast(k, s)
    ensures SortedKeys(s) == [k] + SortedKeys(s - {k})
  {
    var k' :| IsLeast(k', s) && SortedKeys(s) == [k'] + SortedKeys(s - {k'});
    LeastUnique(k, k', s);
  }

  /** Having visited `visited`, visiting the least remaining key next keeps to SortedKeys' order. */
  lemma VisitLeast(visited: seq<string>, k: string, remaining: set<string>)
    requires IsLeast(k, remaining)
    ensures visited + SortedKeys(remaining) == (visited + [k]) + SortedKeys(remaining - {k})
  {
    SortedKeysFirst(k, remaining);
    var rest := SortedKeys(remaining - {k});
    assert visited + ([k] + rest) == (visited + [k]) + rest;
  }

  /** Two ascending sequences with the same elements are equal. */
  lemma {:induction false} AscendingUnique(a: seq<string>, b: seq<string>)
    requires Ascending(a) && Ascending(b)
    requires forall k :: k in a <==> k in b
    ensures a == b
  {
    assert a != [] ==> a[0] in a;
    assert b != [] ==> b[0] in b;
    if a != [] && b != [] {
      if a[0] != b[0] {
        assert b[0] in a;
        assert a[0] in b;
        var i :| 0 < i < |a| && a[i] == b[0];
        var j :| 0 < j < |b| && b[j] == a[0];
        assert Below(a[0], b[0]) && Below(b[0], a[0]);
        BelowTransitive(a[0], b[0], a[0]);
        BelowIrreflexive(a[0]);
      }
      forall k
        ensures k in a[1..] <==> k in b[1..]
      {
        if k in a[1..] {
          var i :| 1 <= i < |a| && a[i] == k;
          assert Below(a[0], k);
          if k == a[0] {
            BelowIrreflexive(k);
          }
          assert k in b;
        }
        if k in b[1..] {
          var i :| 1 <= i < |b| && b[i] == k;
          assert Below(b[0], k);
          if k == b[0] {
            BelowIrreflexive(k);
          }
          assert k in a;
        }
      }
      AscendingUnique(a[1..], b[1..]);
      assert a == [a[0]] + a[1..] && b == [b[0]] + b[1..];
    }
  }
}
