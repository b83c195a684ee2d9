/** Searching and sorting lists by a string key: `Array.prototype.findIndex`
    on an id, and a stable sort as `Array.prototype.sort` performs it with a
    comparator that compares keys in code-point order. */
module Sorting {
  import opened Text

  /** The position of the first element whose key is `id`, or `|s|` when
      there is none. */
  function FindIndex<T>(s: seq<T>, key: T -> string, id: string): (k: nat)
    ensures k <= |s|
    ensures k < |s| ==> key(s[k]) == id
    ensures forall j :: 0 <= j < k ==> key(s[j]) != id
  {
    if |s| == 0 then 0
    else if key(s[0]) == id then 0
    else 1 + FindIndex(s[1..], key, id)
  }

  ghost predicate SortedBy<T>(s: seq<T>, key: T -> string) {
    forall i, j :: 0 <= i < j < |s| ==> LexLe(key(s[i]), key(s[j]))
  }

  /** Insert `x` into `s` after every element whose key is no later than
      `x`'s: the place a stable sort gives an element that came last. */
  function Insert<T>(s: seq<T>, x: T, key: T -> string): (r: seq<T>)
    ensures |r| == |s| + 1
  {
    if |s| == 0 then [x]
    else if LexLe(key(s[|s| - 1]), key(x)) then s + [x]
    else Insert(s[..|s| - 1], x, key) + [s[|s| - 1]]
  }

  /** The stable sort itself: elements are inserted in their original order. */
  function Sort<T>(s: seq<T>, key: T -> string): (r: seq<T>)
    ensures |r| == |s|
  {
    if |s| == 0 then []
    else Insert(Sort(s[..|s| - 1], key), s[|s| - 1], key)
  }

  /** Inserting adds `x` and keeps every element of `s`. */
  lemma {:induction false} InsertPermutes<T>(s: seq<T>, x: T, key: T -> string)
    ensures multiset(Insert(s, x, key)) == multiset(s) + multiset{x}
    decreases |s|
  {
    if |s| > 0 && !LexLe(key(s[|s| - 1]), key(x)) {
      InsertPermutes(s[..|s| - 1], x, key);
      assert s == s[..|s| - 1] + [s[|s| - 1]];
    }
  }

  /** Sorting rearranges and neither adds nor drops. */
  lemma {:induction false} SortPermutes<T>(s: seq<T>, key: T -> string)
    ensures multiset(Sort(s, key)) == multiset(s)
    decreases |s|
  {
    if |s| > 0 {
      SortPermutes(s[..|s| - 1], key);
      InsertPermutes(Sort(s[..|s| - 1], key), s[|s| - 1], key);
      assert s == s[..|s| - 1] + [s[|s| - 1]];
    }
  }

  lemma {:induction false} InsertSorted<T>(s: seq<T>, x: T, key: T -> string)
    requires SortedBy(s, key)
    ensures SortedBy(Insert(s, x, key), key)
    decreases |s|
  {
    if |s| == 0 {
    } else if LexLe(key(s[|s| - 1]), key(x)) {
      var r := s + [x];
      forall i, j | 0 <= i < j < |r|
        ensures LexLe(key(r[i]), key(r[j]))
      {
        if j == |s| && i < |s| - 1 {
          LexLeTransitive(key(s[i]), key(s[|s| - 1]), key(x));
        }
      }
    } else {
      var init := s[..|s| - 1];
      var last := s[|s| - 1];
      InsertSorted(init, x, key);
      var rest := Insert(init, x, key);
      InsertPermutes(init, x, key);
      LexLeTotal(key(last), key(x));
      var r := rest + [last];
      forall i, j | 0 <= i < j < |r|
        ensures LexLe(key(r[i]), key(r[j]))
      {
        if j == |rest| {
          var y := rest[i];
          assert y in multiset(rest);
          if y == x {
          } else {
            assert y in multiset(init);
            var k :| 0 <= k < |init| && init[k] == y;
            assert s[k] == y;
          }
        }
      }
    }
  }

  lemma {:induction false} SortSorted<T>(s: seq<T>, key: T -> string)
    ensures SortedBy(Sort(s, key), key)
    decreases |s|
  {
    if |s| > 0 {
      SortSorted(s[..|s| - 1], key);
      InsertSorted(Sort(s[..|s| - 1], key), s[|s| - 1], key);
    }
  }

  lemma SortedPrefix<T>(s: seq<T>, key: T -> string, n: nat)
    requires SortedBy(s, key) && n <= |s|
    ensures SortedBy(s[..n], key)
  {
    forall i, j | 0 <= i < j < n
      ensures LexLe(key(s[..n][i]), key(s[..n][j]))
    {
      assert s[..n][i] == s[i] && s[..n][j] == s[j];
    }
  }

  /** An element whose key sorts no earlier than the last one's goes at
      the end. */
  lemma InsertAtEnd<T>(s: seq<T>, x: T, key: T -> string)
    requires |s| == 0 || LexLe(key(s[|s| - 1]), key(x))
    ensures Insert(s, x, key) == s + [x]
  {
  }

  /** Sorting a list that is already in order changes nothing. */
  lemma {:induction false} SortOfSorted<T>(s: seq<T>, key: T -> string)
    requires SortedBy(s, key)
    ensures Sort(s, key) == s
    decreases |s|
  {
    if |s| > 0 {
      var init := s[..|s| - 1];
      var last := s[|s| - 1];
      assert SortedBy(init, key) by {
        SortedPrefix(s, key, |s| - 1);
      }
      assert |init| == 0 || LexLe(key(init[|init| - 1]), key(last)) by {
        if |init| > 0 {
          assert init[|init| - 1] == s[|s| - 2];
        }
      }
      SortOfSorted(init, key);
      InsertAtEnd(init, last, key);
      assert init + [last] == s;
    }
  }

  /** Where `Insert` puts `x`: after the last element whose key sorts no
      later than `x`'s, scanning from the back. */
  function InsertIndex<T>(s: seq<T>, x: T, key: T -> string): (p: nat)
    ensures p <= |s|
    ensures forall i :: p <= i < |s| ==> !LexLe(key(s[i]), key(x))
  {
    if |s| == 0 then 0
    else if LexLe(key(s[|s| - 1]), key(x)) then |s|
    else InsertIndex(s[..|s| - 1], x, key)
  }

  /** Inserting splices `x` in at `InsertIndex` and keeps every other
      element in its relative order. */
  lemma {:induction false} InsertSplices<T>(s: seq<T>, x: T, key: T -> string)
    ensures Insert(s, x, key) == s[..InsertIndex(s, x, key)] + [x] + s[InsertIndex(s, x, key)..]
    decreases |s|
  {
    if |s| > 0 && !LexLe(key(s[|s| - 1]), key(x)) {
      var init := s[..|s| - 1];
      InsertSplices(init, x, key);
      var p := InsertIndex(init, x, key);
      assert s[..p] == init[..p];
      assert s[p..] == init[p..] + [s[|s| - 1]];
    }
  }

  /** In a sorted list, everything before the insertion point sorts no
      later than the inserted element. */
  lemma InsertIndexAfterSmaller<T>(s: seq<T>, x: T, key: T -> string)
    requires SortedBy(s, key)
    ensures forall i :: 0 <= i < InsertIndex(s, x, key) ==> LexLe(key(s[i]), key(x))
    decreases |s|
  {
    if |s| > 0 {
      if LexLe(key(s[|s| - 1]), key(x)) {
        forall i | 0 <= i < |s| - 1
          ensures LexLe(key(s[i]), key(x))
        {
          LexLeTransitive(key(s[i]), key(s[|s| - 1]), key(x));
        }
      } else {
        InsertIndexAfterSmaller(s[..|s| - 1], x, key);
      }
    }
  }
}
