/**
 Ownership as bookkeeping: three lists and a set of loans hold every element exactly once.
 The lemmas are the movements between them.
 */
module Ledger {
  import opened Sequences

  /** In how many places an element is. */
  ghost function Places<T>(x: T, pool: seq<T>, buffer: seq<T>, inter: seq<T>, loaned: set<T>): nat {
    (multiset(pool) + multiset(buffer) + multiset(inter) + multiset(loaned))[x]
  }

  /** Every element is in exactly one place, and nothing else is in any. Naming the trigger
      keeps the count folded where only the balance matters. */
  ghost predicate Books<T>(pool: seq<T>, buffer: seq<T>, inter: seq<T>, loaned: set<T>, all: set<T>) {
    && (forall x {:trigger Places(x, pool, buffer, inter, loaned)} ::
          x in all ==> Places(x, pool, buffer, inter, loaned) == 1)
    && (forall i :: 0 <= i < |pool| ==> pool[i] in all)
    && (forall i :: 0 <= i < |buffer| ==> buffer[i] in all)
    && (forall i :: 0 <= i < |inter| ==> inter[i] in all)
    && loaned <= all
  }

  /** The same as one equation. */
  lemma BooksBalance<T>(pool: seq<T>, buffer: seq<T>, inter: seq<T>, loaned: set<T>, all: set<T>)
    ensures Books(pool, buffer, inter, loaned, all)
       <==> multiset(pool) + multiset(buffer) + multiset(inter) + multiset(loaned) == multiset(all)
  {
    var m := multiset(pool) + multiset(buffer) + multiset(inter) + multiset(loaned);
    if Books(pool, buffer, inter, loaned, all) {
      forall x | x in all || x in m ensures m[x] == multiset(all)[x] {
        assert x in all ==> Places(x, pool, buffer, inter, loaned) == 1;
        assert x in m ==> x in pool || x in buffer || x in inter || x in loaned;
      }
      assert m == multiset(all);
    }
    if m == multiset(all) {
      forall i | 0 <= i < |pool| ensures pool[i] in all { assert pool[i] in m; }
      forall i | 0 <= i < |buffer| ensures buffer[i] in all { assert buffer[i] in m; }
      forall i | 0 <= i < |inter| ensures inter[i] in all { assert inter[i] in m; }
      forall x | x in loaned ensures x in all { assert x in m; }
    }
  }

  lemma DistinctIfSingle<T>(s: seq<T>)
    requires forall x :: multiset(s)[x] <= 1
    ensures Distinct(s)
  {
    forall i, j | 0 <= i < j < |s| ensures s[i] != s[j] {
      assert s == s[..j] + s[j..];
      assert s[i] in s[..j] && s[j] in s[j..];
      assert multiset(s)[s[i]] == multiset(s[..j])[s[i]] + multiset(s[j..])[s[i]];
    }
  }

  /** Balanced books are a partition: no list repeats an element, no two places share one,
      and together they are as many as were ever allocated. */
  lemma Partition<T>(pool: seq<T>, buffer: seq<T>, inter: seq<T>, loaned: set<T>, all: set<T>)
    requires Books(pool, buffer, inter, loaned, all)
    ensures Distinct(pool) && Distinct(buffer) && Distinct(inter)
    ensures forall x :: x in pool ==> x !in buffer && x !in inter && x !in loaned
    ensures forall x :: x in buffer ==> x !in inter && x !in loaned
    ensures forall x :: x in inter ==> x !in loaned
    ensures |pool| + |buffer| + |inter| + |loaned| == |all|
    ensures forall x :: x in all <==> x in pool || x in buffer || x in inter || x in loaned
  {
    BooksBalance(pool, buffer, inter, loaned, all);
    var p, b, i, l, a := multiset(pool), multiset(buffer), multiset(inter), multiset(loaned), multiset(all);
    forall x ensures p[x] + b[x] + i[x] + l[x] == a[x] <= 1 {
      assert (p + b + i + l)[x] == a[x];
    }
    DistinctIfSingle(pool);
    DistinctIfSingle(buffer);
    DistinctIfSingle(inter);
    forall x | x in pool ensures x !in buffer && x !in inter && x !in loaned {
      assert p[x] > 0;
    }
    forall x | x in buffer ensures x !in inter && x !in loaned {
      assert b[x] > 0;
    }
    forall x | x in inter ensures x !in loaned {
      assert i[x] > 0;
    }
    forall x ensures x in all <==> x in pool || x in buffer || x in inter || x in loaned {
      assert x in all <==> a[x] > 0;
      assert x in pool <==> p[x] > 0;
    }
    assert |p + b + i + l| == |a|;
  }

  lemma NotQueued<T>(pool: seq<T>, buffer: seq<T>, inter: seq<T>, loaned: set<T>, all: set<T>, x: T)
    requires Books(pool, buffer, inter, loaned, all) && x in loaned
    ensures x !in buffer && x in all
  {
    Partition(pool, buffer, inter, loaned, all);
  }

  lemma Lend<T>(pool: seq<T>, buffer: seq<T>, inter: seq<T>, loaned: set<T>, all: set<T>,
                x: T, pool': seq<T>, buffer': seq<T>, inter': seq<T>)
    requires Books(pool, buffer, inter, loaned, all)
    requires multiset(pool) + multiset(buffer) + multiset(inter)
          == multiset(pool') + multiset(buffer') + multiset(inter') + multiset{x}
    ensures x !in loaned && Books(pool', buffer', inter', loaned + {x}, all)
  {
    BooksBalance(pool, buffer, inter, loaned, all);
    assert multiset(all)[x] <= 1;
    assert multiset(loaned + {x}) == multiset(loaned) + multiset{x};
    BooksBalance(pool', buffer', inter', loaned + {x}, all);
  }

  /** The last element of the queue is lent. */
  lemma LendBack<T>(pool: seq<T>, buffer: seq<T>, inter: seq<T>, loaned: set<T>, all: set<T>, x: T)
    requires Books(pool, buffer + [x], inter, loaned, all)
    ensures x !in loaned && Books(pool, buffer, inter, loaned + {x}, all)
  {
    assert multiset(buffer + [x]) == multiset(buffer) + multiset{x};
    Lend(pool, buffer + [x], inter, loaned, all, x, pool, buffer, inter);
  }

  lemma TakeBack<T>(pool: seq<T>, buffer: seq<T>, inter: seq<T>, loaned: set<T>, all: set<T>,
                    x: T, pool': seq<T>, buffer': seq<T>, inter': seq<T>)
    requires Books(pool, buffer, inter, loaned, all) && x in loaned
    requires multiset(pool) + multiset(buffer) + multiset(inter) + multiset{x}
          == multiset(pool') + multiset(buffer') + multiset(inter')
    ensures Books(pool', buffer', inter', loaned - {x}, all)
  {
    BooksBalance(pool, buffer, inter, loaned, all);
    assert multiset(loaned) == multiset(loaned - {x}) + multiset{x};
    BooksBalance(pool', buffer', inter', loaned - {x}, all);
  }

  /** Elements move between the lists. */
  lemma Transfer<T>(pool: seq<T>, buffer: seq<T>, inter: seq<T>, loaned: set<T>, all: set<T>,
                    pool': seq<T>, buffer': seq<T>, inter': seq<T>)
    requires Books(pool, buffer, inter, loaned, all)
    requires multiset(pool) + multiset(buffer) + multiset(inter)
          == multiset(pool') + multiset(buffer') + multiset(inter')
    ensures Books(pool', buffer', inter', loaned, all)
  {
    BooksBalance(pool, buffer, inter, loaned, all);
    BooksBalance(pool', buffer', inter', loaned, all);
  }

  lemma {:induction false} SetOf<T>(s: seq<T>)
    requires Distinct(s)
    ensures multiset(s) == multiset(set x | x in s)
    ensures |set x | x in s| == |s|
  {
    var xs := set x | x in s;
    if s == [] {
      assert xs == {};
    } else {
      var n := |s| - 1;
      SetOf(s[..n]);
      var ys := set x | x in s[..n];
      assert s == s[..n] + [s[n]];
      assert xs == ys + {s[n]} && s[n] !in ys;
    }
  }

  lemma Allocate<T>(pool: seq<T>, buffer: seq<T>, inter: seq<T>, loaned: set<T>, all: set<T>, news: seq<T>)
    requires Books(pool, buffer, inter, loaned, all)
    requires Distinct(news) && forall i :: 0 <= i < |news| ==> news[i] !in all
    ensures var all' := all + set x | x in news;
            Books(pool + news, buffer, inter, loaned, all') && |all'| == |all| + |news|
  {
    SetOf(news);
    var new' := set x | x in news;
    BooksBalance(pool, buffer, inter, loaned, all);
    assert multiset(all + new') == multiset(all) + multiset(new');
    BooksBalance(pool + news, buffer, inter, loaned, all + new');
  }
}
