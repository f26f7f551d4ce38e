/** `std::map<std::string, std::string>`: iteration runs in ascending byte order of
    the keys, and `insert` leaves a key that is already present alone. */
module OrderedMap {

  type Headers = map<string, string>

  /** `std::less<std::string>` */
  predicate Less(a: string, b: string) {
    if b == [] then false
    else if a == [] then true
    else a[0] < b[0] || (a[0] == b[0] && Less(a[1..], b[1..]))
  }

  /** `a` is a proper prefix of `b`, or has the smaller byte at the first position `i` at
      which they differ. */
  predicate Precedes(a: string, b: string, i: nat) {
    i <= |a| && i < |b| && a[..i] == b[..i] && (i == |a| || a[i] < b[i])
  }

  lemma {:induction false} LessIsLexicographic(a: string, b: string)
    ensures Less(a, b) <==> exists i: nat :: Precedes(a, b, i)
  {
    if b == [] {
    } else if a == [] {
      assert Precedes(a, b, 0);
    } else if a[0] != b[0] {
      assert a[0] < b[0] ==> Precedes(a, b, 0);
      assert forall i: nat :: Precedes(a, b, i) && i > 0 ==> a[..i][0] == b[..i][0];
    } else {
      LessIsLexicographic(a[1..], b[1..]);
      forall i: nat ensures Precedes(a[1..], b[1..], i) <==> Precedes(a, b, i + 1) {
        PrecedesCons(a, b, i);
      }
      if Less(a, b) {
        var i: nat :| Precedes(a[1..], b[1..], i);
        assert Precedes(a, b, i + 1);
      }
      if i: nat :| Precedes(a, b, i) {
        assert i > 0;
        assert Precedes(a[1..], b[1..], i - 1);
      }
    }
  }

  lemma PrecedesCons(a: string, b: string, i: nat)
    requires a != [] && b != [] && a[0] == b[0]
    ensures Precedes(a[1..], b[1..], i) <==> Precedes(a, b, i + 1)
  {
    if i < |a| && i + 1 < |b| {
      assert a[..i + 1] == [a[0]] + a[1..][..i];
      assert b[..i + 1] == [b[0]] + b[1..][..i];
      if a[..i + 1] == b[..i + 1] {
        assert a[..i + 1][1..] == a[1..][..i] && b[..i + 1][1..] == b[1..][..i];
      }
    }
  }

  lemma {:induction false} LessTotal(a: string, b: string)
    ensures Less(a, b) || a == b || Less(b, a)
    ensures !(Less(a, b) && Less(b, a))
    ensures !Less(a, a)
  {
    if a != [] {
      LessTotal(a[1..], a[1..]);
      if b != [] {
        LessTotal(a[1..], b[1..]);
        if a[0] == b[0] && a[1..] == b[1..] {
          assert a == [a[0]] + a[1..] == [b[0]] + b[1..] == b;
        }
      }
    }
  }

  lemma {:induction false} LessTransitive(a: string, b: string, c: string)
    requires Less(a, b) && Less(b, c)
    ensures Less(a, c)
  {
    if a != [] && a[0] == b[0] && b[0] == c[0] {
      LessTransitive(a[1..], b[1..], c[1..]);
    }
  }

  predicate Least(k: string, keys: set<string>) {
    k in keys && forall x :: x in keys && x != k ==> Less(k, x)
  }

  lemma {:induction false} LeastExists(keys: set<string>) returns (k: string)
    requires keys != {}
    ensures Least(k, keys)
    decreases |keys|
  {
    var x :| x in keys;
    if keys == {x} {
      k := x;
    } else {
      var rest := keys - {x};
      assert |rest| < |keys|;
      k := LeastExists(rest);
      LessTotal(k, x);
      if Less(x, k) {
        forall y | y in keys && y != x ensures Less(x, y) {
          if y != k {
            LessTransitive(x, k, y);
          }
        }
        k := x;
      }
    }
  }

  lemma LeastUnique(keys: set<string>)
    ensures forall a, b :: Least(a, keys) && Least(b, keys) ==> a == b
  {
    forall a, b | Least(a, keys) && Least(b, keys) ensures a == b {
      LessTotal(a, b);
    }
  }

  predicate Ascending(ks: seq<string>) {
    forall i, j :: 0 <= i < j < |ks| ==> Less(ks[i], ks[j])
  }

  lemma LeastFirst(k: string, keys: set<string>, rest: seq<string>)
    requires Least(k, keys) && Ascending(rest) && forall x :: x in rest <==> x in keys - {k}
    ensures Ascending([k] + rest) && forall x :: x in [k] + rest <==> x in keys
  {
    var all := [k] + rest;
    forall i, j | 0 <= i < j < |all| ensures Less(all[i], all[j]) {
      assert all[j] == rest[j - 1] && rest[j - 1] in rest;
      if i > 0 {
        assert all[i] == rest[i - 1];
      }
    }
  }

  /** The keys in the order in which an iterator visits them. */
  function InOrder(keys: set<string>): (ks: seq<string>)
    ensures forall k :: k in ks <==> k in keys
    ensures Ascending(ks)
    decreases |keys|
  {
    if keys == {} then []
    else
      assert exists k :: Least(k, keys) by { var k := LeastExists(keys); }
      assert forall a, b :: Least(a, keys) && Least(b, keys) ==> a == b by { LeastUnique(keys); }
      var k :| Least(k, keys);
      assert |keys - {k}| < |keys|;
      var rest := InOrder(keys - {k});
      LeastFirst(k, keys, rest);
      [k] + rest
  }

  /** `insert`: the value that is already there wins. */
  function Insert(m: Headers, key: string, value: string): Headers {
    if key in m then m else m[key := value]
  }

  function InsertAll(m: Headers, lines: seq<(string, string)>): Headers
    decreases |lines|
  {
    if lines == [] then m
    else InsertAll(Insert(m, lines[0].0, lines[0].1), lines[1..])
  }

  /** The position of the first line with the given key, or |lines|. */
  function FirstLine(lines: seq<(string, string)>, key: string): (i: nat)
    ensures i <= |lines|
    ensures i < |lines| ==> lines[i].0 == key
    ensures forall j :: 0 <= j < i ==> lines[j].0 != key
  {
    if lines == [] || lines[0].0 == key then 0 else 1 + FirstLine(lines[1..], key)
  }

  /** Each key with the value of the first line that has it. */
  function FirstValues(lines: seq<(string, string)>): Headers {
    map i | 0 <= i < |lines| && FirstLine(lines, lines[i].0) == i :: lines[i].0 := lines[i].1
  }

  lemma FirstValuesKeys(lines: seq<(string, string)>, k: string)
    ensures k in FirstValues(lines) <==> FirstLine(lines, k) < |lines|
    ensures k in FirstValues(lines) ==> FirstValues(lines)[k] == lines[FirstLine(lines, k)].1
  {
  }

  lemma FirstValuesCons(lines: seq<(string, string)>)
    requires lines != []
    ensures FirstValues(lines) == FirstValues(lines[1..])[lines[0].0 := lines[0].1]
  {
    var all, rest := FirstValues(lines), FirstValues(lines[1..])[lines[0].0 := lines[0].1];
    forall k
      ensures k in all <==> k in rest
      ensures k in all ==> all[k] == rest[k]
    {
      FirstValuesKeys(lines, k);
      FirstValuesKeys(lines[1..], k);
    }
  }

  lemma InsertUnder(rest: Headers, m: Headers, key: string, value: string)
    ensures rest + Insert(m, key, value) == rest[key := value] + m
  {
  }

  lemma PlusEmpty(m: Headers)
    ensures m + map[] == m && map[] + m == m
  {
  }

  /** Repeated insertion keeps what was there before, and otherwise the first value. */
  lemma {:induction false} InsertAllIsLeftBiased(m: Headers, lines: seq<(string, string)>)
    ensures InsertAll(m, lines) == FirstValues(lines) + m
    decreases |lines|
  {
    if lines == [] {
      assert FirstValues(lines) == map[];
      assert map[] + m == m;
    } else {
      var (key, value) := lines[0];
      InsertAllIsLeftBiased(Insert(m, key, value), lines[1..]);
      FirstValuesCons(lines);
      InsertUnder(FirstValues(lines[1..]), m, key, value);
    }
  }

  ghost predicate DistinctKeys(lines: seq<(string, string)>) {
    forall i, j :: 0 <= i < j < |lines| ==> lines[i].0 != lines[j].0
  }

  /** The header lines of a map, in the order in which an iterator visits them. */
  function Lines(m: Headers): (lines: seq<(string, string)>)
    ensures DistinctKeys(lines)
    ensures |lines| == |InOrder(m.Keys)|
  {
    var ks := InOrder(m.Keys);
    assert forall i, j :: 0 <= i < j < |ks| ==> ks[i] != ks[j] by {
      forall i, j | 0 <= i < j < |ks| ensures ks[i] != ks[j] {
        LessTotal(ks[i], ks[j]);
      }
    }
    seq(|ks|, i requires 0 <= i < |ks| => (ks[i], m[ks[i]]))
  }

  lemma LinesDetermineMap(m: Headers)
    ensures FirstValues(Lines(m)) == m
  {
    var lines := Lines(m);
    var ks := InOrder(m.Keys);
    forall k
      ensures k in FirstValues(lines) <==> k in m
      ensures k in m ==> FirstValues(lines)[k] == m[k]
    {
      FirstValuesKeys(lines, k);
      if k in m {
        var i :| 0 <= i < |ks| && ks[i] == k;
        assert lines[i].0 == k;
      }
    }
  }

  lemma OneLine(key: string, value: string)
    ensures Lines(map[key := value]) == [(key, value)]
  {
    var m := map[key := value];
    var ks := InOrder(m.Keys);
    assert key in ks;
    if |ks| > 1 {
      assert ks[0] in ks && ks[1] in ks;
      LessTotal(key, key);
    }
  }

  // ---------- iterating ----------

  /** The entries that an iterator has passed after `n` steps. */
  ghost function Visited(m: Headers, n: nat): Headers
    requires n <= |InOrder(m.Keys)|
  {
    map k | k in m && k in InOrder(m.Keys)[..n] :: m[k]
  }

  lemma NotYetVisited(m: Headers, i: nat, n: nat)
    requires i < |InOrder(m.Keys)| && n <= |InOrder(m.Keys)|
    ensures InOrder(m.Keys)[i] in InOrder(m.Keys)[..n] <==> i < n
  {
    var ks := InOrder(m.Keys);
    if i >= n {
      forall j | 0 <= j < n ensures ks[..n][j] != ks[i] {
        LessTotal(ks[j], ks[i]);
      }
    } else {
      assert ks[..n][i] == ks[i];
    }
  }

  lemma PrefixGrows(ks: seq<string>, n: nat)
    requires n < |ks|
    ensures forall x :: x in ks[..n + 1] <==> x in ks[..n] || x == ks[n]
  {
    assert ks[..n + 1] == ks[..n] + [ks[n]];
  }

  lemma VisitedGrows(m: Headers, n: nat)
    requires n < |InOrder(m.Keys)|
    ensures var k := InOrder(m.Keys)[n];
      k in m && k !in Visited(m, n) && Visited(m, n + 1) == Visited(m, n)[k := m[k]]
  {
    NotYetVisited(m, n, n);
    assert InOrder(m.Keys)[n] in InOrder(m.Keys);
    PrefixGrows(InOrder(m.Keys), n);
  }

  lemma InsertNew(m: Headers, before: Headers, key: string, value: string)
    requires key !in m
    ensures Insert(m + before, key, value) == m[key := value] + before
  {
  }

  lemma VisitNext(m: Headers, before: Headers, n: nat)
    requires n < |InOrder(m.Keys)|
    ensures var k := InOrder(m.Keys)[n];
      k in m && Insert(Visited(m, n) + before, k, m[k]) == Visited(m, n + 1) + before
  {
    var k := InOrder(m.Keys)[n];
    VisitedGrows(m, n);
    InsertNew(Visited(m, n), before, k, m[k]);
  }

  lemma VisitedUpTo(m: Headers, n: nat)
    requires n < |InOrder(m.Keys)|
    ensures var k := InOrder(m.Keys)[n]; Visited(m, n + 1) == map x | x in m && !Less(k, x) :: m[x]
  {
    var ks := InOrder(m.Keys);
    forall x | x in m ensures x in ks[..n + 1] <==> !Less(ks[n], x) {
      assert x in ks;
      var i :| 0 <= i < |ks| && ks[i] == x;
      LessTotal(ks[n], ks[i]);
      NotYetVisited(m, i, n + 1);
    }
  }

  lemma VisitedAll(m: Headers)
    ensures Visited(m, |InOrder(m.Keys)|) == m
    ensures Visited(m, 0) == map[]
  {
    var ks := InOrder(m.Keys);
    assert ks[..|ks|] == ks;
  }

  /** The position at which an iterator meets `key`. */
  lemma VisitedKey(m: Headers, n: nat, key: string)
    requires n < |InOrder(m.Keys)|
    ensures key in InOrder(m.Keys)[..n + 1] <==> key in InOrder(m.Keys)[..n] || key == InOrder(m.Keys)[n]
  {
    var ks := InOrder(m.Keys);
    assert ks[..n + 1] == ks[..n] + [ks[n]];
  }
}
