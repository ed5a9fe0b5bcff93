/** The order in which terminal turns are pruned, and what keeping the greatest
    `n` of a growing set of keys one step at a time amounts to. */
module TopKeys {
  import opened Text
  import opened Windows

  /** (completed, submitted, turn id), compared in that order. */
  datatype Key = Key(completedAt: nat, submittedAt: nat, id: string)

  predicate KeyLess(a: Key, b: Key)
  {
    a.completedAt < b.completedAt || (a.completedAt == b.completedAt &&
      (a.submittedAt < b.submittedAt || (a.submittedAt == b.submittedAt && Less(a.id, b.id))))
  }

  lemma KeyLessTotal(a: Key, b: Key)
    ensures KeyLess(a, b) || KeyLess(b, a) || a == b
    ensures !(KeyLess(a, b) && KeyLess(b, a)) && !KeyLess(a, a)
  {
    LessTotal(a.id, b.id);
    LessTotal(a.id, a.id);
  }

  lemma KeyLessTransitive(a: Key, b: Key, c: Key)
    requires KeyLess(a, b) && KeyLess(b, c)
    ensures KeyLess(a, c)
  {
    if a.completedAt == c.completedAt && a.submittedAt == c.submittedAt {
      LessTransitive(a.id, b.id, c.id);
    }
  }

  /** `top` is the `n` greatest of `all` (all of it when there are no more than `n`). */
  ghost predicate IsTop(top: set<Key>, all: set<Key>, n: nat)
  {
    && top <= all
    && |top| == Min(n, |all|)
    && forall r, c :: r in top && c in all - top ==> KeyLess(c, r)
  }

  lemma SubsetSize<T>(a: set<T>, b: set<T>)
    requires a <= b
    ensures |a| <= |b|
    ensures |a| == |b| ==> a == b
  {
    assert b == a + (b - a) && |b| == |a| + |b - a|;
  }

  lemma TopUnique(r1: set<Key>, r2: set<Key>, all: set<Key>, n: nat)
    requires IsTop(r1, all, n) && IsTop(r2, all, n)
    ensures r1 == r2
  {
    if r1 != r2 {
      assert !(r1 <= r2) by {
        if r1 <= r2 {
          SubsetSize(r1, r2);
        }
      }
      assert !(r2 <= r1) by {
        if r2 <= r1 {
          SubsetSize(r2, r1);
        }
      }
      var a :| a in r1 && a !in r2;
      var b :| b in r2 && b !in r1;
      KeyLessTotal(a, b);
    }
  }

  /** Pruning after every insertion keeps what pruning the whole history once would keep. */
  lemma TopInsert(top: set<Key>, all: set<Key>, k: Key, top': set<Key>, n: nat)
    requires IsTop(top, all, n) && k !in all
    requires IsTop(top', top + {k}, n)
    ensures IsTop(top', all + {k}, n)
  {
    SubsetSize(top, all);
    if |all| >= n && k in top' {
      assert top' != top + {k};
      SubsetSize(top', top + {k});
      var m :| m in top + {k} && m !in top';
      forall c | c in all - top ensures KeyLess(c, k) {
        assert KeyLess(c, m) && KeyLess(m, k);
        KeyLessTransitive(c, m, k);
      }
    }
    forall r, c | r in top' && c in (all + {k}) - top' ensures KeyLess(c, r) {
      if c !in top + {k} {
        assert c in all - top;
      }
    }
  }

  // ------------------------------------------------- sort and keep the last n

  function Insert(k: Key, s: seq<Key>): seq<Key>
  {
    if s == [] || KeyLess(k, s[0]) then [k] + s else [s[0]] + Insert(k, s[1..])
  }

  function SortKeys(s: seq<Key>): seq<Key>
  {
    if s == [] then [] else Insert(s[0], SortKeys(s[1..]))
  }

  ghost predicate Ascending(s: seq<Key>)
  {
    forall i, j :: 0 <= i < j < |s| ==> KeyLess(s[i], s[j])
  }

  ghost predicate Distinct(s: seq<Key>)
  {
    forall i, j :: 0 <= i < j < |s| ==> s[i] != s[j]
  }

  function Elements(s: seq<Key>): set<Key>
  {
    set k | k in s
  }

  lemma {:induction false} InsertAscending(k: Key, s: seq<Key>)
    requires Ascending(s) && k !in s
    ensures Ascending(Insert(k, s)) && Elements(Insert(k, s)) == Elements(s) + {k} && |Insert(k, s)| == |s| + 1
  {
    if s == [] || KeyLess(k, s[0]) {
      forall j | 0 <= j < |s| ensures KeyLess(k, s[j]) {
        if j > 0 {
          KeyLessTransitive(k, s[0], s[j]);
        }
      }
    } else {
      InsertAscending(k, s[1..]);
      KeyLessTotal(k, s[0]);
      var t := Insert(k, s[1..]);
      forall j | 0 <= j < |t| ensures KeyLess(s[0], t[j]) {
        assert t[j] in Elements(t);
      }
      assert s == [s[0]] + s[1..];
    }
  }

  lemma {:induction false} SortAscending(s: seq<Key>)
    requires Distinct(s)
    ensures Ascending(SortKeys(s)) && Elements(SortKeys(s)) == Elements(s) && |SortKeys(s)| == |s|
  {
    if s != [] {
      SortAscending(s[1..]);
      assert s == [s[0]] + s[1..];
      assert s[0] !in s[1..];
      assert s[0] !in Elements(SortKeys(s[1..]));
      InsertAscending(s[0], SortKeys(s[1..]));
    }
  }

  lemma {:induction false} AscendingSize(s: seq<Key>)
    requires Ascending(s)
    ensures |Elements(s)| == |s|
  {
    if s != [] {
      var n := |s| - 1;
      AscendingSize(s[..n]);
      assert s == s[..n] + [s[n]];
      forall i | 0 <= i < n ensures s[i] != s[n] {
        KeyLessTotal(s[i], s[n]);
      }
      assert Elements(s) == Elements(s[..n]) + {s[n]};
    }
  }

  /** The last `n` of an ascending sequence are its `n` greatest. */
  lemma LastIsTop(s: seq<Key>, n: nat)
    requires Ascending(s)
    ensures IsTop(Elements(Last(s, n)), Elements(s), n)
  {
    hide KeyLess;
    var t := Last(s, n);
    AscendingSize(s);
    AscendingSize(t);
    var cut := |s| - |t|;
    assert forall q :: cut <= q < |s| ==> s[q] == t[q - cut];
    forall r, c | r in Elements(t) && c in Elements(s) - Elements(t) ensures KeyLess(c, r) {
      var i :| 0 <= i < |t| && t[i] == r;
      var j :| 0 <= j < |s| && s[j] == c;
      assert s[cut + i] == r;
      assert j < cut;
    }
  }
}
