/** The order in which a sorted map of wide strings is walked: lexicographic by code unit. */
module KeyOrder {
  import opened WideText

  predicate Before(a: Text, b: Text) {
    if a == [] then b != []
    else if b == [] then false
    else a[0] < b[0] || (a[0] == b[0] && Before(a[1..], b[1..]))
  }

  lemma {:induction false} BeforeIsTotal(a: Text, b: Text)
    ensures a == b || Before(a, b) || Before(b, a)
    ensures !(Before(a, b) && Before(b, a)) && !Before(a, a)
  {
    if a != [] && b != [] && a[0] == b[0] {
      BeforeIsTotal(a[1..], b[1..]);
      if a[1..] == b[1..] {
        assert a == [a[0]] + a[1..];
        assert b == [b[0]] + b[1..];
      }
    }
    if a != [] {
      BeforeIsTotal(a[1..], a[1..]);
    }
  }

  lemma {:induction false} BeforeIsTransitive(a: Text, b: Text, c: Text)
    requires Before(a, b) && Before(b, c)
    ensures Before(a, c)
  {
    if a != [] && a[0] == b[0] == c[0] {
      BeforeIsTransitive(a[1..], b[1..], c[1..]);
    }
  }

  predicate IsLeast(k: Text, keys: set<Text>) {
    k in keys && forall j :: j in keys ==> j == k || Before(k, j)
  }

  lemma {:induction false} LeastExists(keys: set<Text>)
    requires keys != {}
    ensures exists k :: IsLeast(k, keys)
  {
    var some :| some in keys;
    var others := keys - {some};
    assert keys == others + {some};
    if others == {} {
      assert IsLeast(some, keys);
    } else {
      LeastExists(others);
      var least :| IsLeast(least, others);
      BeforeIsTotal(least, some);
      if Before(some, least) {
        forall j | j in keys ensures j == some || Before(some, j) {
          if j != some && j != least {
            BeforeIsTransitive(some, least, j);
          }
        }
        assert IsLeast(some, keys);
      } else {
        assert IsLeast(least, keys);
      }
    }
  }

  lemma LeastIsUnique(a: Text, b: Text, keys: set<Text>)
    requires IsLeast(a, keys) && IsLeast(b, keys)
    ensures a == b
  {
    BeforeIsTotal(a, b);
  }

  ghost function Least(keys: set<Text>): (k: Text)
    requires keys != {}
    ensures IsLeast(k, keys)
  {
    LeastExists(keys);
    var k :| IsLeast(k, keys);
    k
  }

  /** The keys in ascending order. */
  ghost function SortedKeys(keys: set<Text>): (s: seq<Text>)
    ensures forall k :: k in s <==> k in keys
    decreases |keys|
  {
    if keys == {} then [] else [Least(keys)] + SortedKeys(keys - {Least(keys)})
  }

  /** The walk is strictly ascending, so it meets every key once. */
  lemma {:induction false} SortedKeysAscend(keys: set<Text>)
    ensures forall i, j :: 0 <= i < j < |SortedKeys(keys)| ==> Before(SortedKeys(keys)[i], SortedKeys(keys)[j])
    decreases |keys|
  {
    if keys != {} {
      var least, rest := Least(keys), keys - {Least(keys)};
      SortedKeysAscend(rest);
      forall j | 0 <= j < |SortedKeys(rest)| ensures Before(least, SortedKeys(rest)[j]) {
        assert SortedKeys(rest)[j] in rest;
      }
    }
  }
}
