/**
 * The key/value lists of the API and the maps they stand for. A string is its bytes, one per
 * char, and strings are compared byte by byte. A nil list or map is an empty one.
 */
module KeyValues {

  /** A KVPair with T = char, a KVSet with T = string. */
  datatype KV<T> = KV(key: string, value: seq<T>)

  type KVPair = KV<char>
  type KVSet = KV<string>

  /* ---- The order of keys ---- */

  predicate Less(a: string, b: string) {
    b != [] && (a == [] || a[0] < b[0] || (a[0] == b[0] && Less(a[1..], b[1..])))
  }

  /** The first byte that differs decides; a string that ends first is smaller. */
  lemma {:induction false} LessBytewise(a: string, b: string)
    ensures Less(a, b) <==> exists i: nat | i <= |a| && i < |b| :: a[..i] == b[..i] && (i == |a| || a[i] < b[i])
  {
    if Less(a, b) {
      var i := FirstDifference(a, b);
    }
    if i: nat :| i <= |a| && i < |b| && a[..i] == b[..i] && (i == |a| || a[i] < b[i]) {
      LessAt(a, b, i);
    }
  }

  lemma {:induction false} FirstDifference(a: string, b: string) returns (i: nat)
    requires Less(a, b)
    ensures i <= |a| && i < |b| && a[..i] == b[..i] && (i == |a| || a[i] < b[i])
  {
    if a == [] || a[0] < b[0] {
      i := 0;
    } else {
      i := FirstDifference(a[1..], b[1..]);
      assert a[..i + 1] == [a[0]] + a[1..][..i] && b[..i + 1] == [b[0]] + b[1..][..i];
      i := i + 1;
    }
  }

  lemma {:induction false} LessAt(a: string, b: string, i: nat)
    requires i <= |a| && i < |b| && a[..i] == b[..i] && (i == |a| || a[i] < b[i])
    ensures Less(a, b)
  {
    if i > 0 {
      assert a[0] == a[..i][0] == b[..i][0] == b[0];
      assert a[1..][..i - 1] == a[..i][1..] && b[1..][..i - 1] == b[..i][1..];
      LessAt(a[1..], b[1..], i - 1);
    }
  }

  lemma {:induction false} LessTrichotomy(a: string, b: string)
    ensures Less(a, b) || a == b || Less(b, a)
    ensures !(Less(a, b) && Less(b, a)) && !(Less(a, b) && a == b)
  {
    if a != [] && b != [] && a[0] == b[0] {
      LessTrichotomy(a[1..], b[1..]);
      assert a == [a[0]] + a[1..] && b == [b[0]] + b[1..];
    }
  }

  lemma {:induction false} LessTransitive(a: string, b: string, c: string)
    requires Less(a, b) && Less(b, c)
    ensures Less(a, c)
  {
    if a != [] && a[0] == b[0] == c[0] {
      LessTransitive(a[1..], b[1..], c[1..]);
    }
  }

  /** No pair has a smaller key than the one before it: what a sort by key gives. */
  predicate Sorted<T>(l: seq<KV<T>>) {
    forall i, j | 0 <= i < j < |l| :: !Less(l[j].key, l[i].key)
  }

  predicate StrictlySorted<T>(l: seq<KV<T>>) {
    forall i, j | 0 <= i < j < |l| :: Less(l[i].key, l[j].key)
  }

  /* ---- The canonical list of a map ---- */

  /** The list is in key order and has exactly the entries of the map with a value. */
  ghost predicate IsFlat<T(!new)>(m: map<string, seq<T>>, l: seq<KV<T>>) {
    StrictlySorted(l) && forall kv: KV<T> :: kv in l <==> kv.key in m && m[kv.key] == kv.value && kv.value != []
  }

  /** There is only one such list, so no choice of the range or of the sort can show. */
  lemma {:induction false} FlatUnique<T(!new)>(m: map<string, seq<T>>, a: seq<KV<T>>, b: seq<KV<T>>)
    requires IsFlat(m, a) && IsFlat(m, b)
    ensures a == b
  {
    SameMembersSame(a, b);
  }

  lemma {:induction false} SameMembersSame<T>(a: seq<KV<T>>, b: seq<KV<T>>)
    requires StrictlySorted(a) && StrictlySorted(b) && forall kv :: kv in a <==> kv in b
    ensures a == b
  {
    assert b != [] ==> b[0] in a;
    if a != [] {
      assert a[0] in b;
      SameFirst(a, b);
      TailMembers(a);
      TailMembers(b);
      SameMembersSame(a[1..], b[1..]);
      assert a == [a[0]] + a[1..] && b == [b[0]] + b[1..];
    }
  }

  lemma SameFirst<T>(a: seq<KV<T>>, b: seq<KV<T>>)
    requires StrictlySorted(a) && StrictlySorted(b) && a != [] && b != [] && a[0] in b && b[0] in a
    ensures a[0] == b[0]
  {
    var i :| 0 <= i < |b| && b[i] == a[0];
    var j :| 0 <= j < |a| && a[j] == b[0];
    LessTrichotomy(a[0].key, b[0].key);
  }

  lemma TailMembers<T>(a: seq<KV<T>>)
    requires StrictlySorted(a) && a != []
    ensures StrictlySorted(a[1..]) && forall kv :: kv in a[1..] <==> kv in a && kv != a[0]
  {
    assert a == [a[0]] + a[1..];
    if a[0] in a[1..] {
      var i :| 0 < i < |a| && a[i] == a[0];
      LessTrichotomy(a[0].key, a[i].key);
    }
  }

  /* ---- Sorting ---- */

  /** sort.Slice by key: some order of the pairs in which no key is smaller than the one before. */
  method SortByKey<T>(l: seq<KV<T>>) returns (r: seq<KV<T>>)
    ensures Sorted(r) && multiset(r) == multiset(l)
  {
    r := [];
    for i := 0 to |l|
      invariant Sorted(r) && multiset(r) == multiset(l[..i])
    {
      r := Insert(l[i], r);
      assert l[..i + 1] == l[..i] + [l[i]];
    }
    assert l[..|l|] == l;
  }

  method Insert<T>(kv: KV<T>, l: seq<KV<T>>) returns (r: seq<KV<T>>)
    requires Sorted(l)
    ensures Sorted(r) && multiset(r) == multiset(l) + multiset{kv}
  {
    var i := 0;
    while i < |l| && !Less(kv.key, l[i].key)
      invariant 0 <= i <= |l|
      invariant forall j | 0 <= j < i :: !Less(kv.key, l[j].key)
    {
      i := i + 1;
    }
    r := l[..i] + [kv] + l[i..];
    assert multiset(r) == multiset(l) + multiset{kv} by {
      assert l == l[..i] + l[i..];
    }
    InsertSorted(kv, l, i);
  }

  lemma InsertSorted<T>(kv: KV<T>, l: seq<KV<T>>, i: nat)
    requires Sorted(l) && i <= |l|
    requires forall j | 0 <= j < i :: !Less(kv.key, l[j].key)
    requires i < |l| ==> Less(kv.key, l[i].key)
    ensures Sorted(l[..i] + [kv] + l[i..])
  {
    forall j | i <= j < |l| ensures !Less(l[j].key, kv.key) {
      LessTrichotomy(kv.key, l[i].key);
      if Less(l[j].key, kv.key) {
        LessTransitive(l[j].key, kv.key, l[i].key);
      }
    }
  }

  /* ---- FlatMap and FlatKVSet ---- */

  /** The pairs of the map that have a value, in the order of the range, then sorted. */
  method Flatten<T(!new)>(m: map<string, seq<T>>) returns (l: seq<KV<T>>)
    ensures IsFlat(m, l)
  {
    l := [];
    var todo := m.Keys;
    while todo != {}
      invariant todo <= m.Keys
      invariant forall i, j | 0 <= i < j < |l| :: l[i].key != l[j].key
      invariant forall kv: KV<T> ::
                  kv in l <==> kv.key in m && kv.key !in todo && m[kv.key] == kv.value && kv.value != []
    {
      var k :| k in todo;
      todo := todo - {k};
      if m[k] != [] {
        l := l + [KV(k, m[k])];
      }
    }
    ghost var unsorted := l;
    l := SortByKey(l);
    SortedDistinct(unsorted, l);
  }

  /** Without a key twice, a sorted list is strictly sorted. */
  lemma SortedDistinct<T>(a: seq<KV<T>>, b: seq<KV<T>>)
    requires Sorted(b) && multiset(a) == multiset(b)
    requires forall i, j | 0 <= i < j < |a| :: a[i].key != a[j].key
    ensures StrictlySorted(b) && forall kv :: kv in a <==> kv in b
  {
    forall kv ensures kv in a <==> kv in b {
      assert kv in multiset(a) <==> kv in multiset(b);
    }
    forall i, j | 0 <= i < j < |b| ensures Less(b[i].key, b[j].key) {
      DistinctKeys(a, b, i, j);
      LessTrichotomy(b[i].key, b[j].key);
    }
  }

  lemma DistinctKeys<T>(a: seq<KV<T>>, b: seq<KV<T>>, i: nat, j: nat)
    requires multiset(a) == multiset(b) && i < j < |b|
    requires forall i, j | 0 <= i < j < |a| :: a[i].key != a[j].key
    ensures b[i].key != b[j].key
  {
    assert b[i] in multiset(a) && b[j] in multiset(a);
    CountOnce(a, b[i]);
    if b[i] == b[j] {
      CountTwice(b, i, j);
    }
  }

  lemma CountTwice<T>(b: seq<T>, i: nat, j: nat)
    requires i < j < |b| && b[i] == b[j]
    ensures multiset(b)[b[i]] >= 2
  {
    var before, after := b[..j], b[j + 1..];
    assert b == before + [b[j]] + after;
    assert before[i] in multiset(before);
  }

  lemma {:induction false} CountOnce<T>(a: seq<KV<T>>, kv: KV<T>)
    requires forall i, j | 0 <= i < j < |a| :: a[i].key != a[j].key
    ensures multiset(a)[kv] <= 1
  {
    if a != [] {
      CountOnce(a[1..], kv);
      assert a == [a[0]] + a[1..];
      assert a[0] !in a[1..];
    }
  }

  method FlatMap(meta: map<string, string>) returns (res: seq<KVPair>)
    ensures IsFlat(meta, res)
  {
    if |meta| == 0 {
      return [];
    }
    res := Flatten(meta);
  }

  method FlatKVSet(meta: map<string, seq<string>>) returns (res: seq<KVSet>)
    ensures IsFlat(meta, res)
  {
    if |meta| == 0 {
      return [];
    }
    res := Flatten(meta);
  }

  /* ---- Lookups ---- */

  /** The value of the first pair with the key. */
  function Find(l: seq<KVPair>, k: string): string {
    if l == [] then "" else if l[0].key == k then l[0].value else Find(l[1..], k)
  }

  method FindKVPair(list: seq<KVPair>, key: string) returns (value: string)
    ensures value == Find(list, key)
    ensures (value == "" && forall i | 0 <= i < |list| :: list[i].key != key) ||
            (exists i | 0 <= i < |list| ::
               list[i] == KV(key, value) && forall j | 0 <= j < i :: list[j].key != key)
  {
    for i := 0 to |list|
      invariant Find(list, key) == Find(list[i..], key)
      invariant forall j | 0 <= j < i :: list[j].key != key
    {
      if list[i].key == key {
        return list[i].value;
      }
    }
    return "";
  }

  /** The last value of the key that is not empty. */
  function Last(l: seq<KVPair>, k: string): string {
    if l == [] then ""
    else
      var kv := l[|l| - 1];
      if kv.key == k && kv.value != "" then kv.value else Last(l[..|l| - 1], k)
  }

  ghost predicate IsMapFrom(l: seq<KVPair>, m: map<string, string>) {
    forall k :: (k in m <==> k != "" && Last(l, k) != "") && (k in m ==> m[k] == Last(l, k))
  }

  method MapFromKVPair(list: seq<KVPair>) returns (res: map<string, string>)
    ensures IsMapFrom(list, res)
  {
    res := map[];
    for i := 0 to |list|
      invariant IsMapFrom(list[..i], res)
    {
      var kv := list[i];
      assert list[..i + 1][..i] == list[..i];
      if kv.key != "" && kv.value != "" {
        res := res[kv.key := kv.value];
      }
    }
    assert list[..|list|] == list;
  }

  /** The value of the last pair with the key and a value, and none without such a pair. */
  lemma {:induction false} LastExact(l: seq<KVPair>, k: string)
    ensures (Last(l, k) == "" && forall i | 0 <= i < |l| :: l[i].key != k || l[i].value == "") ||
            (Last(l, k) != "" &&
             exists i | 0 <= i < |l| ::
               l[i] == KV(k, Last(l, k)) && forall j | i < j < |l| :: l[j].key != k || l[j].value == "")
  {
    if l != [] {
      var n := |l| - 1;
      if l[n].key == k && l[n].value != "" {
        assert l[n] == KV(k, Last(l, k));
      } else {
        LastExact(l[..n], k);
        assert Last(l, k) == Last(l[..n], k);
        if Last(l, k) != "" {
          var i :| 0 <= i < n && l[..n][i] == KV(k, Last(l, k)) &&
                   forall j | i < j < n :: l[..n][j].key != k || l[..n][j].value == "";
          assert l[i] == KV(k, Last(l, k));
          forall j | i < j < |l| ensures l[j].key != k || l[j].value == "" {
            assert j < n ==> l[..n][j] == l[j];
          }
        } else {
          forall i | 0 <= i < |l| ensures l[i].key != k || l[i].value == "" {
            assert i < n ==> l[..n][i] == l[i];
          }
        }
      }
    }
  }

  function Lookup(m: map<string, string>, k: string): string {
    if k in m then m[k] else ""
  }

  /* ---- The two directions ---- */

  lemma {:induction false} FindFirst(l: seq<KVPair>, k: string)
    ensures Find(l, k) != "" ==> KV(k, Find(l, k)) in l
    ensures (forall kv | kv in l :: kv.key != k) ==> Find(l, k) == ""
  {
    if l != [] && l[0].key != k {
      FindFirst(l[1..], k);
    }
  }

  lemma {:induction false} FindOnly(l: seq<KVPair>, k: string, i: nat)
    requires i < |l| && l[i].key == k && forall j | 0 <= j < i :: l[j].key != k
    ensures Find(l, k) == l[i].value
  {
    if i > 0 {
      FindOnly(l[1..], k, i - 1);
    }
  }

  lemma {:induction false} LastOnly(l: seq<KVPair>, k: string, i: nat)
    requires i < |l| && l[i].key == k && forall j | 0 <= j < |l| && j != i :: l[j].key != k
    ensures Last(l, k) == l[i].value
    decreases |l|
  {
    if i < |l| - 1 {
      LastOnly(l[..|l| - 1], k, i);
    } else {
      LastNone(l[..i], k);
    }
  }

  lemma {:induction false} LastNone(l: seq<KVPair>, k: string)
    requires forall j | 0 <= j < |l| :: l[j].key != k
    ensures Last(l, k) == ""
  {
    if l != [] {
      LastNone(l[..|l| - 1], k);
    }
  }

  lemma KeyOnce(l: seq<KVPair>, i: nat, j: nat)
    requires StrictlySorted(l) && i < |l| && j < |l| && i != j
    ensures l[i].key != l[j].key
  {
    if i < j {
      LessTrichotomy(l[i].key, l[j].key);
    } else {
      LessTrichotomy(l[j].key, l[i].key);
    }
  }

  /** In the canonical list of a map, both lookups find the value of the map, the empty key included. */
  lemma FlatLookups(m: map<string, string>, l: seq<KVPair>, k: string)
    requires IsFlat(m, l)
    ensures Find(l, k) == Lookup(m, k) && Last(l, k) == Lookup(m, k)
  {
    if k in m && m[k] != "" {
      assert KV(k, m[k]) in l;
      var i :| 0 <= i < |l| && l[i] == KV(k, m[k]);
      forall j | 0 <= j < |l| && j != i ensures l[j].key != k {
        KeyOnce(l, i, j);
      }
      FindOnly(l, k, i);
      LastOnly(l, k, i);
    } else {
      forall j | 0 <= j < |l| ensures l[j].key != k {
        assert l[j] in l;
      }
      FindFirst(l, k);
      LastNone(l, k);
    }
  }

  /** The map of the canonical list of a map is that map without empty values and without the empty key. */
  lemma MapOfFlat(m: map<string, string>, l: seq<KVPair>, m': map<string, string>)
    requires IsFlat(m, l) && IsMapFrom(l, m')
    ensures m' == map k | k in m && k != "" && m[k] != "" :: m[k]
  {
    forall k ensures (k in m' <==> k in m && k != "" && m[k] != "") && (k in m' ==> m'[k] == m[k]) {
      FlatLookups(m, l, k);
    }
  }

  /** The list n is the canonical list of the map of l. */
  ghost predicate Normal(l: seq<KVPair>, n: seq<KVPair>) {
    exists m :: IsMapFrom(l, m) && IsFlat(m, n)
  }

  /** A canonical list is its own normal form. */
  lemma NormalIdempotent(l: seq<KVPair>, n: seq<KVPair>, n': seq<KVPair>)
    requires Normal(l, n) && Normal(n, n')
    ensures n == n'
  {
    var m :| IsMapFrom(l, m) && IsFlat(m, n);
    var m' :| IsMapFrom(n, m') && IsFlat(m', n');
    MapOfFlat(m, n, m');
    assert m == m';
    FlatUnique(m, n, n');
  }

  /** Every key has the same last value in both lists. */
  ghost predicate SameLast(a: seq<KVPair>, b: seq<KVPair>) {
    forall k | k != "" :: Last(a, k) == Last(b, k)
  }

  /** Two lists have one normal form exactly when every key has the same last value in both. */
  lemma NormalSame(a: seq<KVPair>, b: seq<KVPair>, n: seq<KVPair>, n': seq<KVPair>)
    requires Normal(a, n) && Normal(b, n')
    ensures n == n' <==> SameLast(a, b)
  {
    var m :| IsMapFrom(a, m) && IsFlat(m, n);
    var m' :| IsMapFrom(b, m') && IsFlat(m', n');
    if SameLast(a, b) {
      assert forall k :: k in m <==> k in m';
      FlatUnique(m, n, n');
    } else if n == n' {
      var k :| k != "" && Last(a, k) != Last(b, k);
      FlatLookups(m, n, k);
      FlatLookups(m', n, k);
      assert false;
    }
  }

  /* ---- First and last ---- */

  /** The pairs that have a value, last first. */
  function Backwards(l: seq<KVPair>): seq<KVPair> {
    if l == [] then []
    else (if l[|l| - 1].value != "" then [l[|l| - 1]] else []) + Backwards(l[..|l| - 1])
  }

  /** The map takes the last pair of a key, the search the first. */
  lemma {:induction false} LastIsFirstBackwards(l: seq<KVPair>, k: string)
    ensures Last(l, k) == Find(Backwards(l), k)
  {
    if l != [] {
      LastIsFirstBackwards(l[..|l| - 1], k);
      if l[|l| - 1].value != "" {
        assert Backwards(l)[1..] == Backwards(l[..|l| - 1]);
      } else {
        assert Backwards(l) == Backwards(l[..|l| - 1]);
      }
    }
  }

  /** The lookups agree on a list without a key twice. */
  lemma DistinctLookups(l: seq<KVPair>, m: map<string, string>, k: string)
    requires IsMapFrom(l, m) && k != ""
    requires forall i, j | 0 <= i < j < |l| :: l[i].key != l[j].key
    ensures Lookup(m, k) == Find(l, k)
  {
    if i :| 0 <= i < |l| && l[i].key == k {
      FindOnly(l, k, i);
      LastOnly(l, k, i);
    } else {
      FindFirst(l, k);
      LastNone(l, k);
    }
  }
}
