/** Filtering and stable sorting of sequences by a two-part rank. */
module StableSort {

  /** Compared group first, then priority. */
  datatype Rank = Rank(group: int, priority: int)

  predicate AtMost(a: Rank, b: Rank) {
    a.group < b.group || (a.group == b.group && a.priority <= b.priority)
  }

  // ----- filtering

  function Where<T>(s: seq<T>, p: T -> bool): (r: seq<T>)
    ensures forall x | x in r :: x in s && p(x)
  {
    if s == [] then [] else
      var (before, last) := (s[..|s| - 1], s[|s| - 1]);
      Where(before, p) + if p(last) then [last] else []
  }

  lemma WherePush<T>(s: seq<T>, x: T, p: T -> bool)
    ensures Where(s + [x], p) == Where(s, p) + if p(x) then [x] else []
  {
    assert (s + [x])[..|s|] == s;
  }

  lemma Associates<T>(a: seq<T>, b: seq<T>, c: seq<T>)
    ensures (a + b) + c == a + (b + c)
  {}

  lemma {:induction false} WhereConcat<T>(a: seq<T>, b: seq<T>, p: T -> bool)
    ensures Where(a + b, p) == Where(a, p) + Where(b, p)
  {
    if b == [] {
      assert a + b == a;
    } else {
      var (before, last) := (b[..|b| - 1], b[|b| - 1]);
      assert b == before + [last] && a + b == (a + before) + [last];
      WherePush(a + before, last, p);
      WherePush(before, last, p);
      WhereConcat(a, before, p);
      hide Where;
      Associates(Where(a, p), Where(before, p), if p(last) then [last] else []);
    }
  }

  lemma {:induction false} WhereKeepsMembers<T>(s: seq<T>, p: T -> bool, x: T)
    requires x in s && p(x)
    ensures x in Where(s, p)
  {
    var (before, last) := (s[..|s| - 1], s[|s| - 1]);
    assert s == before + [last];
    if x != last {
      WhereKeepsMembers(before, p, x);
    }
  }

  /** Two filters in a row are one. */
  lemma {:induction false} WhereWhere<T>(s: seq<T>, p: T -> bool, q: T -> bool, both: T -> bool)
    requires forall x | x in s :: both(x) <==> p(x) && q(x)
    ensures Where(Where(s, p), q) == Where(s, both)
  {
    if s != [] {
      var (before, last) := (s[..|s| - 1], s[|s| - 1]);
      assert last in s && forall x | x in before :: x in s;
      WhereWhere(before, p, q, both);
      WhereConcat(Where(before, p), if p(last) then [last] else [], q);
      WhereOne(last, q);
    }
  }

  lemma WhereOne<T>(x: T, p: T -> bool)
    ensures Where([x], p) == if p(x) then [x] else []
  {
    var s := [x];
    assert s[..0] == [];
  }

  /** Replacing one element changes the count by that element alone. */
  lemma {:induction false} WhereUpdate<T>(s: seq<T>, i: nat, x: T, p: T -> bool)
    requires i < |s|
    ensures |Where(s[i := x], p)| + (if p(s[i]) then 1 else 0) == |Where(s, p)| + if p(x) then 1 else 0
  {
    var n := |s| - 1;
    if i < n {
      assert s[i := x][..n] == s[..n][i := x];
      WhereUpdate(s[..n], i, x, p);
    } else {
      assert s[i := x][..n] == s[..n];
    }
  }

  lemma {:induction false} WhereNone<T>(s: seq<T>, p: T -> bool)
    requires forall x | x in s :: !p(x)
    ensures Where(s, p) == []
  {
    if s != [] {
      assert s[|s| - 1] in s && forall x | x in s[..|s| - 1] :: x in s;
      WhereNone(s[..|s| - 1], p);
    }
  }

  // ----- sorting

  predicate Sorted<T>(s: seq<T>, key: T -> Rank) {
    forall i, j | 0 <= i < j < |s| :: AtMost(key(s[i]), key(s[j]))
  }

  function Tied<T>(key: T -> Rank, k: Rank): T -> bool {
    x => key(x) == k
  }

  /** The elements of one rank, in order. */
  function Ties<T>(s: seq<T>, key: T -> Rank, k: Rank): seq<T> {
    Where(s, Tied(key, k))
  }

  /** `r` is `s` in the order of its ranks, with ties left in the order of `s`. */
  ghost predicate IsStableSort<T(!new)>(r: seq<T>, s: seq<T>, key: T -> Rank) {
    Sorted(r, key) && forall k :: Ties(r, key, k) == Ties(s, key, k)
  }

  /** Puts `x` behind everything of its rank or lower. */
  function Insert<T>(x: T, s: seq<T>, key: T -> Rank): (r: seq<T>)
    ensures multiset(r) == multiset(s) + multiset{x}
  {
    if s == [] || AtMost(key(s[|s| - 1]), key(x)) then s + [x]
    else
      assert s == s[..|s| - 1] + [s[|s| - 1]];
      Insert(x, s[..|s| - 1], key) + [s[|s| - 1]]
  }

  function SortBy<T>(s: seq<T>, key: T -> Rank): (r: seq<T>)
    ensures multiset(r) == multiset(s)
  {
    if s == [] then []
    else
      assert s == s[..|s| - 1] + [s[|s| - 1]];
      Insert(s[|s| - 1], SortBy(s[..|s| - 1], key), key)
  }

  function TieIf<T>(x: T, key: T -> Rank, k: Rank): seq<T> {
    if key(x) == k then [x] else []
  }

  lemma TiesPush<T>(s: seq<T>, x: T, key: T -> Rank, k: Rank)
    ensures Ties(s + [x], key, k) == Ties(s, key, k) + TieIf(x, key, k)
  {
    WherePush(s, x, Tied(key, k));
  }

  lemma {:induction false} InsertIsStable<T>(x: T, s: seq<T>, key: T -> Rank, k: Rank)
    ensures Ties(Insert(x, s, key), key, k) == Ties(s, key, k) + TieIf(x, key, k)
    decreases |s|
  {
    hide Ties;
    if s == [] || AtMost(key(s[|s| - 1]), key(x)) {
      TiesPush(s, x, key, k);
    } else {
      var (before, last) := (s[..|s| - 1], s[|s| - 1]);
      assert s == before + [last];
      TiesPush(before, last, key, k);
      InsertIsStable(x, before, key, k);
      TiesPush(Insert(x, before, key), last, key, k);
      hide Insert;
      assert TieIf(x, key, k) == [] || TieIf(last, key, k) == [];
    }
  }

  lemma {:induction false} InsertSorts<T>(x: T, s: seq<T>, key: T -> Rank)
    requires Sorted(s, key)
    ensures Sorted(Insert(x, s, key), key)
  {
    if s != [] && !AtMost(key(s[|s| - 1]), key(x)) {
      var (before, last) := (s[..|s| - 1], s[|s| - 1]);
      InsertSorts(x, before, key);
      var r := Insert(x, before, key);
      forall y | y in r ensures AtMost(key(y), key(last)) {
        assert y in multiset(r);
        if y != x {
          assert y in multiset(before);
        }
      }
      assert forall i | 0 <= i < |r| :: r[i] in r;
    }
  }

  lemma {:induction false} SortSorts<T>(s: seq<T>, key: T -> Rank)
    ensures Sorted(SortBy(s, key), key)
  {
    if s != [] {
      SortSorts(s[..|s| - 1], key);
      InsertSorts(s[|s| - 1], SortBy(s[..|s| - 1], key), key);
    }
  }

  lemma {:induction false} SortKeepsTies<T>(s: seq<T>, key: T -> Rank, k: Rank)
    ensures Ties(SortBy(s, key), key, k) == Ties(s, key, k)
  {
    if s != [] {
      var (before, last) := (s[..|s| - 1], s[|s| - 1]);
      assert s == before + [last];
      SortKeepsTies(before, key, k);
      InsertIsStable(last, SortBy(before, key), key, k);
      TiesPush(before, last, key, k);
    }
  }

  lemma SortIsStable<T(!new)>(s: seq<T>, key: T -> Rank)
    ensures IsStableSort(SortBy(s, key), s, key)
  {
    SortSorts(s, key);
    forall k: Rank ensures Ties(SortBy(s, key), key, k) == Ties(s, key, k) {
      SortKeepsTies(s, key, k);
    }
  }

  lemma LastTie<T>(s: seq<T>, key: T -> Rank)
    requires s != []
    ensures Ties(s, key, key(s[|s| - 1])) == Ties(s[..|s| - 1], key, key(s[|s| - 1])) + [s[|s| - 1]]
  {}

  /** The last element of each is at most the last element of the other. */
  lemma LastAtMost<T(!new)>(a: seq<T>, b: seq<T>, key: T -> Rank)
    requires Sorted(a, key) && b != []
    requires forall k :: Ties(a, key, k) == Ties(b, key, k)
    ensures a != [] && AtMost(key(b[|b| - 1]), key(a[|a| - 1]))
  {
    var y := b[|b| - 1];
    LastTie(b, key);
    assert y in Ties(b, key, key(y));
    assert y in Ties(a, key, key(y));
    assert y in a;
  }

  lemma LastsAgree<T(!new)>(a: seq<T>, b: seq<T>, key: T -> Rank)
    requires Sorted(a, key) && Sorted(b, key) && a != [] && b != []
    requires forall k :: Ties(a, key, k) == Ties(b, key, k)
    ensures a[|a| - 1] == b[|b| - 1]
  {
    var (x, y) := (a[|a| - 1], b[|b| - 1]);
    LastAtMost(a, b, key);
    LastAtMost(b, a, key);
    LastTie(a, key);
    LastTie(b, key);
    hide Ties, Sorted;
    assert key(x) == key(y);
    assert Ties(a, key, key(x)) == Ties(b, key, key(x));
    var (s, t) := (Ties(a, key, key(x)), Ties(b, key, key(x)));
    assert s[|s| - 1] == x && t[|t| - 1] == y;
  }

  lemma SameFront<T>(s: seq<T>, t: seq<T>, end: seq<T>)
    requires s + end == t + end
    ensures s == t
  {
    assert s == (s + end)[..|s|] && t == (t + end)[..|t|];
  }

  /** Order and ties determine the sequence: there is only one stable sort. */
  lemma {:induction false} StableSortIsUnique<T(!new)>(a: seq<T>, b: seq<T>, key: T -> Rank)
    requires Sorted(a, key) && Sorted(b, key)
    requires forall k :: Ties(a, key, k) == Ties(b, key, k)
    ensures a == b
  {
    if a != [] {
      LastAtMost(b, a, key);
    }
    if b != [] {
      LastAtMost(a, b, key);
      LastsAgree(a, b, key);
      var (a', b', x) := (a[..|a| - 1], b[..|b| - 1], a[|a| - 1]);
      hide Ties;
      assert a == a' + [x] && b == b' + [x];
      forall k: Rank ensures Ties(a', key, k) == Ties(b', key, k) {
        assert Ties(a, key, k) == Ties(b, key, k);
        TiesPush(a', x, key, k);
        TiesPush(b', x, key, k);
        SameFront(Ties(a', key, k), Ties(b', key, k), TieIf(x, key, k));
      }
      StableSortIsUnique(a', b', key);
    }
  }
}
