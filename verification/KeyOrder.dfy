/** Sorting by string keys, as sort.Slice does it for tags and fields. */
module KeyOrder {
  /** Strings in byte order. */
  predicate Less(a: string, b: string) {
    b != "" && (a == "" || a[0] < b[0] || (a[0] == b[0] && Less(a[1..], b[1..])))
  }

  /** Up to some place they agree; there the one ends or has the lower character. */
  lemma {:induction false} LessExactly(a: string, b: string)
    ensures Less(a, b) <==>
            exists i :: 0 <= i <= |a| && i < |b| && a[..i] == b[..i] && (i == |a| || a[i] < b[i])
  {
    if a != "" && b != "" {
      LessExactly(a[1..], b[1..]);
      if Less(a, b) {
        var i := LessAt(a, b);
        assert a[..i] == b[..i];
      }
      if i :| 0 <= i <= |a| && i < |b| && a[..i] == b[..i] && (i == |a| || a[i] < b[i]) {
        LessFrom(a, b, i);
      }
    } else if Less(a, b) {
      assert a[..0] == b[..0];
    }
  }

  lemma {:induction false} LessAt(a: string, b: string) returns (i: nat)
    requires Less(a, b)
    ensures i <= |a| && i < |b| && a[..i] == b[..i] && (i == |a| || a[i] < b[i])
  {
    if a == "" || a[0] < b[0] {
      i := 0;
    } else {
      var j := LessAt(a[1..], b[1..]);
      i := j + 1;
      assert a == [a[0]] + a[1..] && b == [b[0]] + b[1..];
      assert a[..i] == [a[0]] + a[1..][..j] && b[..i] == [b[0]] + b[1..][..j];
    }
  }

  lemma {:induction false} LessFrom(a: string, b: string, i: nat)
    requires i <= |a| && i < |b| && a[..i] == b[..i] && (i == |a| || a[i] < b[i])
    ensures Less(a, b)
    decreases i
  {
    if i > 0 {
      assert a[0] == a[..i][0] && b[0] == b[..i][0];
      assert a[1..][..i - 1] == a[..i][1..] && b[1..][..i - 1] == b[..i][1..];
      LessFrom(a[1..], b[1..], i - 1);
    }
  }

  lemma {:induction false} LessTotal(a: string, b: string)
    ensures Less(a, b) || Less(b, a) || a == b
  {
    if a != "" && b != "" {
      LessTotal(a[1..], b[1..]);
      assert a == [a[0]] + a[1..] && b == [b[0]] + b[1..];
    }
  }

  lemma {:induction false} LessTransitive(a: string, b: string, c: string)
    requires Less(a, b) && Less(b, c)
    ensures Less(a, c)
  {
    if a != "" && a[0] == b[0] == c[0] {
      LessTransitive(a[1..], b[1..], c[1..]);
    }
  }

  lemma {:induction false} LessAsymmetric(a: string, b: string)
    requires Less(a, b)
    ensures !Less(b, a) && a != b
  {
    if a != "" && a[0] == b[0] {
      LessAsymmetric(a[1..], b[1..]);
    }
  }

  function Insert<T>(x: T, items: seq<T>, key: T -> string): (r: seq<T>)
    ensures |r| == |items| + 1
  {
    if items == [] || !Less(key(items[0]), key(x)) then [x] + items else [items[0]] + Insert(x, items[1..], key)
  }

  function Sorted<T>(items: seq<T>, key: T -> string): (r: seq<T>)
    ensures |r| == |items|
  {
    if items == [] then [] else Insert(items[0], Sorted(items[1..], key), key)
  }

  predicate Ordered<T>(items: seq<T>, key: T -> string) {
    forall i, j :: 0 <= i < j < |items| ==> !Less(key(items[j]), key(items[i]))
  }

  predicate DistinctKeys<T>(items: seq<T>, key: T -> string) {
    forall i, j :: 0 <= i < j < |items| ==> key(items[i]) != key(items[j])
  }

  lemma {:induction false} InsertKeeps<T>(x: T, items: seq<T>, key: T -> string)
    requires Ordered(items, key)
    ensures multiset(Insert(x, items, key)) == multiset{x} + multiset(items)
    ensures Ordered(Insert(x, items, key), key)
  {
    var r := Insert(x, items, key);
    if items == [] {
    } else if !Less(key(items[0]), key(x)) {
      forall j | 0 <= j < |items| ensures !Less(key(items[j]), key(x)) {
        if j > 0 && Less(key(items[j]), key(x)) {
          LessTotal(key(items[0]), key(items[j]));
          if Less(key(items[0]), key(items[j])) {
            LessTransitive(key(items[0]), key(items[j]), key(x));
          }
        }
      }
    } else {
      var head, rest := items[0], Insert(x, items[1..], key);
      assert items == [head] + items[1..];
      InsertKeeps(x, items[1..], key);
      LessAsymmetric(key(head), key(x));
      forall j | 0 <= j < |rest| ensures !Less(key(rest[j]), key(head)) {
        assert rest[j] in multiset(rest);
        assert rest[j] == x || rest[j] in items[1..];
      }
    }
  }

  /** Sorting rearranges the items into key order. */
  lemma {:induction false} SortedIsSort<T>(items: seq<T>, key: T -> string)
    ensures multiset(Sorted(items, key)) == multiset(items) && Ordered(Sorted(items, key), key)
  {
    if items != [] {
      SortedIsSort(items[1..], key);
      InsertKeeps(items[0], Sorted(items[1..], key), key);
      assert items == [items[0]] + items[1..];
    }
  }

  lemma {:induction false} TailMultiset<T>(a: seq<T>)
    requires a != []
    ensures multiset(a[1..]) == multiset(a) - multiset{a[0]}
  {
    assert a == [a[0]] + a[1..];
  }

  lemma {:induction false} FirstIsLeast<T>(x: T, items: seq<T>, key: T -> string)
    requires x in items && Ordered(items, key)
    ensures !Less(key(x), key(items[0]))
  {
    var k :| 0 <= k < |items| && items[k] == x;
    if k == 0 && Less(key(x), key(x)) {
      LessAsymmetric(key(x), key(x));
    }
  }

  lemma {:induction false} SameFirst<T>(a: seq<T>, b: seq<T>, key: T -> string)
    requires a != [] && b != []
    requires multiset(a) == multiset(b) && Ordered(a, key) && Ordered(b, key) && DistinctKeys(b, key)
    ensures a[0] == b[0]
  {
    hide Less;
    assert a[0] in multiset(b) && b[0] in multiset(a);
    FirstIsLeast(a[0], b, key);
    FirstIsLeast(b[0], a, key);
    LessTotal(key(a[0]), key(b[0]));
    var k :| 0 <= k < |b| && b[k] == a[0];
  }

  /** With distinct keys there is only one sorted arrangement, so it does not
      matter that sort.Slice is not stable. */
  lemma {:induction false} SortIsUnique<T>(a: seq<T>, b: seq<T>, key: T -> string)
    requires multiset(a) == multiset(b) && Ordered(a, key) && Ordered(b, key) && DistinctKeys(b, key)
    ensures a == b
  {
    hide Less;
    assert |multiset(a)| == |a| && |multiset(b)| == |b|;
    if a != [] {
      SameFirst(a, b, key);
      TailMultiset(a);
      TailMultiset(b);
      SortIsUnique(a[1..], b[1..], key);
    }
  }

  /** Sorting leaves what is sorted as it is. */
  lemma {:induction false} SortedStays<T>(items: seq<T>, key: T -> string)
    requires Ordered(items, key)
    ensures Sorted(items, key) == items
  {
    hide Less;
    if items != [] {
      SortedStays(items[1..], key);
      assert items == [items[0]] + items[1..];
      assert |items| > 1 ==> !Less(key(items[1]), key(items[0]));
    }
  }

  lemma {:induction false} DistinctCount<T>(items: seq<T>, key: T -> string)
    requires DistinctKeys(items, key)
    ensures forall x, y :: x in items && y in items && key(x) == key(y) ==> x == y
    ensures forall x :: multiset(items)[x] <= 1
  {
    if items != [] {
      DistinctCount(items[1..], key);
      assert items == [items[0]] + items[1..];
      assert multiset(items) == multiset{items[0]} + multiset(items[1..]);
      assert forall i :: 0 <= i < |items[1..]| ==> key(items[1..][i]) != key(items[0]);
    }
  }

  /** Keys stay distinct in any arrangement. */
  lemma {:induction false} StillDistinct<T>(items: seq<T>, a: seq<T>, key: T -> string)
    requires multiset(a) == multiset(items) && DistinctKeys(items, key)
    ensures DistinctKeys(a, key)
  {
    DistinctCount(items, key);
    forall i, j | 0 <= i < j < |a| ensures key(a[i]) != key(a[j]) {
      assert a[i] in multiset(items) && a[j] in multiset(items);
      if a[i] == a[j] {
        TwiceCounts(a, i, j);
      }
    }
  }

  lemma {:induction false} TwiceCounts<T>(a: seq<T>, i: nat, j: nat)
    requires i < j < |a| && a[i] == a[j]
    ensures multiset(a)[a[i]] >= 2
  {
    assert a == a[..j] + [a[j]] + a[j + 1..];
    assert a[..j][i] == a[i];
    assert a[i] in multiset(a[..j]);
    assert multiset(a) == multiset(a[..j]) + multiset{a[j]} + multiset(a[j + 1..]);
  }
}
