/** The order-preserving de-duplicators of the product page: `uniqueBy(items, getKey)`
    keeps an item when its key is non-empty and not yet seen, recording seen keys
    in a `Set`. `Unique` is the specification, `UniqueBy` the loop over a `seen` set. */
module Dedupe {
  import Seqs

  /** The non-empty keys that occur in `s`. */
  function SeenKeys<T>(s: seq<T>, key: T -> string): set<string>
    decreases |s|
  {
    if s == [] then {}
    else SeenKeys(s[..|s| - 1], key) + (if key(s[|s| - 1]) != "" then {key(s[|s| - 1])} else {})
  }

  /** The items kept by `uniqueBy`. */
  function Unique<T>(s: seq<T>, key: T -> string): seq<T>
    decreases |s|
  {
    if s == [] then []
    else
      var prefix, last := s[..|s| - 1], s[|s| - 1];
      if key(last) == "" || key(last) in SeenKeys(prefix, key) then Unique(prefix, key)
      else Unique(prefix, key) + [last]
  }

  /** `k` is a non-empty key of `s`. */
  lemma {:induction false} SeenKeysMeaning<T>(s: seq<T>, key: T -> string, k: string)
    ensures k in SeenKeys(s, key) <==> k != "" && exists i :: 0 <= i < |s| && key(s[i]) == k
    decreases |s|
  {
    if s != [] {
      var prefix := s[..|s| - 1];
      SeenKeysMeaning(prefix, key, k);
      if k != "" && (exists i :: 0 <= i < |s| && key(s[i]) == k) {
        var i :| 0 <= i < |s| && key(s[i]) == k;
        if i < |prefix| {
          assert key(prefix[i]) == k;
        }
      }
    }
  }

  /** The keys kept are exactly the non-empty keys of the input. */
  lemma {:induction false} UniqueKeys<T>(s: seq<T>, key: T -> string)
    ensures forall i :: 0 <= i < |Unique(s, key)| ==> key(Unique(s, key)[i]) in SeenKeys(s, key)
    ensures forall k :: k in SeenKeys(s, key) ==>
              exists i :: 0 <= i < |Unique(s, key)| && key(Unique(s, key)[i]) == k
    decreases |s|
  {
    if s != [] {
      var prefix := s[..|s| - 1];
      UniqueKeys(prefix, key);
      var u := Unique(prefix, key);
      forall k | k in SeenKeys(s, key)
        ensures exists i :: 0 <= i < |Unique(s, key)| && key(Unique(s, key)[i]) == k
      {
        if k in SeenKeys(prefix, key) {
          var i :| 0 <= i < |u| && key(u[i]) == k;
          assert Unique(s, key)[i] == u[i];
        } else {
          assert Unique(s, key) == u + [s[|s| - 1]];
          assert key(Unique(s, key)[|u|]) == k;
        }
      }
    }
  }

  /** Some element of `s` has key `k`. */
  ghost predicate HasKey<T>(s: seq<T>, key: T -> string, k: string) {
    exists j :: 0 <= j < |s| && key(s[j]) == k
  }

  /** Every item with a non-empty key has its key represented in the output. */
  lemma UniqueCovers<T>(s: seq<T>, key: T -> string)
    ensures forall x :: x in s && key(x) != "" ==> HasKey(Unique(s, key), key, key(x))
  {
    UniqueKeys(s, key);
    forall x | x in s && key(x) != "" ensures HasKey(Unique(s, key), key, key(x)) {
      var i :| 0 <= i < |s| && s[i] == x;
      SeenKeysMeaning(s, key, key(x));
    }
  }

  /** The output of `uniqueBy` is a subsequence of its input. */
  lemma {:induction false} UniqueIsSubseq<T>(s: seq<T>, key: T -> string)
    ensures Seqs.Subseq(Unique(s, key), s)
    decreases |s|
  {
    if s != [] {
      var prefix := s[..|s| - 1];
      UniqueIsSubseq(prefix, key);
      var u := Unique(s, key);
      if u != Unique(prefix, key) {
        assert u[..|u| - 1] == Unique(prefix, key);
      }
    }
  }

  /** The output has pairwise-distinct, non-empty keys. */
  lemma {:induction false} UniqueDistinctKeys<T>(s: seq<T>, key: T -> string)
    ensures forall i :: 0 <= i < |Unique(s, key)| ==> key(Unique(s, key)[i]) != ""
    ensures forall i, j :: 0 <= i < j < |Unique(s, key)| ==> key(Unique(s, key)[i]) != key(Unique(s, key)[j])
    decreases |s|
  {
    if s != [] {
      var prefix := s[..|s| - 1];
      UniqueDistinctKeys(prefix, key);
      UniqueKeys(prefix, key);
    }
  }

  /** `s[i]` is the first item of `s` with its (non-empty) key. */
  ghost predicate FirstWithKey<T>(s: seq<T>, key: T -> string, i: int) {
    0 <= i < |s| && key(s[i]) != "" && forall j :: 0 <= j < i ==> key(s[j]) != key(s[i])
  }

  /** Every key is represented by its first occurrence, and only first occurrences are kept. */
  lemma {:induction false} UniqueKeepsFirst<T>(s: seq<T>, key: T -> string)
    ensures forall i :: FirstWithKey(s, key, i) ==> s[i] in Unique(s, key)
    decreases |s|
  {
    if s != [] {
      var prefix := s[..|s| - 1];
      UniqueKeepsFirst(prefix, key);
      forall i | FirstWithKey(s, key, i) ensures s[i] in Unique(s, key) {
        if i < |prefix| {
          assert FirstWithKey(prefix, key, i);
        } else {
          forall j | 0 <= j < |prefix| ensures key(prefix[j]) != key(s[i]) {
            assert prefix[j] == s[j];
          }
          SeenKeysMeaning(prefix, key, key(s[i]));
        }
      }
    }
  }

  /** Where the kept items come from: `idx` lists, in increasing order, exactly
      the positions of first occurrences, and the output takes its items from
      those positions. So `uniqueBy` keeps first occurrences in input order. */
  lemma {:induction false} UniquePositions<T>(s: seq<T>, key: T -> string) returns (idx: seq<nat>)
    ensures |idx| == |Unique(s, key)|
    ensures forall k :: 0 <= k < |idx| ==> FirstWithKey(s, key, idx[k]) && Unique(s, key)[k] == s[idx[k]]
    ensures forall k1, k2 :: 0 <= k1 < k2 < |idx| ==> idx[k1] < idx[k2]
    ensures forall i :: FirstWithKey(s, key, i) ==> i in idx
    decreases |s|
  {
    if s == [] {
      return [];
    }
    var prefix, last := s[..|s| - 1], s[|s| - 1];
    var before := UniquePositions(prefix, key);
    FirstWithKeyPrefix(s, key);
    LastIsFirst(s, key);
    if key(last) == "" || key(last) in SeenKeys(prefix, key) {
      assert Unique(s, key) == Unique(prefix, key);
      idx := before;
    } else {
      assert Unique(s, key) == Unique(prefix, key) + [last];
      idx := before + [|prefix|];
    }
  }

  /** `r` is, in input order, exactly the items of `s` at the first occurrences
      of its non-empty keys: `idx` enumerates those positions increasingly. */
  ghost predicate FirstOccurrences<T>(r: seq<T>, s: seq<T>, key: T -> string) {
    exists idx: seq<nat> ::
      && |idx| == |r|
      && (forall k :: 0 <= k < |idx| ==> FirstWithKey(s, key, idx[k]) && r[k] == s[idx[k]])
      && (forall k1, k2 :: 0 <= k1 < k2 < |idx| ==> idx[k1] < idx[k2])
      && (forall i :: FirstWithKey(s, key, i) ==> i in idx)
  }

  /** `uniqueBy` keeps first occurrences, in input order. */
  lemma UniqueFirstOccurrences<T>(s: seq<T>, key: T -> string)
    ensures FirstOccurrences(Unique(s, key), s, key)
  {
    var idx := UniquePositions(s, key);
  }

  /** `uniqueBy` over `s.filter(p)`: a subsequence of `s`, of items passing `p`,
      with distinct non-empty keys covering every key of a passing item. */
  lemma UniqueOfFilterBasics<T>(s: seq<T>, p: T -> bool, key: T -> string)
    ensures var r := Unique(Seqs.Filter(s, p), key);
            && (forall i :: 0 <= i < |r| ==> r[i] in s && p(r[i]))
            && (forall i, j :: 0 <= i < j < |r| ==> key(r[i]) != key(r[j]))
            && (forall i :: 0 <= i < |r| ==> key(r[i]) != "")
            && Seqs.Subseq(r, s)
            && (forall x :: x in s && p(x) && key(x) != "" ==> HasKey(r, key, key(x)))
  {
    var f := Seqs.Filter(s, p);
    var r := Unique(f, key);
    UniqueIsSubseq(f, key);
    Seqs.SubseqMembers(r, f);
    UniqueDistinctKeys(f, key);
    Seqs.SubseqTrans(r, f, s);
    UniqueCovers(f, key);
    assert forall i :: 0 <= i < |r| ==> r[i] in r;
  }

  /** The same, together with the order: exactly the first occurrences in the
      filtered list, in that list's order. */
  lemma UniqueOfFilter<T>(s: seq<T>, p: T -> bool, key: T -> string)
    ensures var r := Unique(Seqs.Filter(s, p), key);
            && (forall i :: 0 <= i < |r| ==> r[i] in s && p(r[i]))
            && (forall i, j :: 0 <= i < j < |r| ==> key(r[i]) != key(r[j]))
            && (forall i :: 0 <= i < |r| ==> key(r[i]) != "")
            && Seqs.Subseq(r, s)
            && (forall x :: x in s && p(x) && key(x) != "" ==> HasKey(r, key, key(x)))
            && FirstOccurrences(r, Seqs.Filter(s, p), key)
  {
    UniqueOfFilterBasics(s, p, key);
    UniqueFirstOccurrences(Seqs.Filter(s, p), key);
  }

  /** Before the last position, first occurrences in `s` and in its prefix agree. */
  lemma FirstWithKeyPrefix<T>(s: seq<T>, key: T -> string)
    requires s != []
    ensures forall i :: 0 <= i < |s| - 1 ==> (FirstWithKey(s, key, i) <==> FirstWithKey(s[..|s| - 1], key, i))
    ensures forall i :: 0 <= i < |s| - 1 ==> s[i] == s[..|s| - 1][i]
  {
  }

  /** The last item is a first occurrence exactly when `uniqueBy` keeps it. */
  lemma LastIsFirst<T>(s: seq<T>, key: T -> string)
    requires s != []
    ensures FirstWithKey(s, key, |s| - 1) <==>
              key(s[|s| - 1]) != "" && key(s[|s| - 1]) !in SeenKeys(s[..|s| - 1], key)
  {
    var prefix := s[..|s| - 1];
    SeenKeysMeaning(prefix, key, key(s[|s| - 1]));
    assert forall j :: 0 <= j < |prefix| ==> s[j] == prefix[j];
  }

  /** An item with a non-empty key at the front of the input is kept at the front. */
  lemma {:induction false} UniqueHead<T>(s: seq<T>, key: T -> string)
    requires s != [] && key(s[0]) != ""
    ensures Unique(s, key) != [] && Unique(s, key)[0] == s[0]
    decreases |s|
  {
    if |s| > 1 {
      var prefix := s[..|s| - 1];
      UniqueHead(prefix, key);
    }
  }

  /** `uniqueBy(items, getKey)`: the filter over a growing `seen` set. */
  method UniqueBy<T>(items: seq<T>, key: T -> string) returns (r: seq<T>)
    ensures r == Unique(items, key)
  {
    var seen: set<string> := {};
    r := [];
    var i := 0;
    while i < |items|
      invariant 0 <= i <= |items|
      invariant r == Unique(items[..i], key)
      invariant seen == SeenKeys(items[..i], key)
    {
      var item := items[i];
      var k := key(item);
      assert items[..i + 1][..i] == items[..i];
      if k == "" || k in seen {
      } else {
        seen := seen + {k};
        r := r + [item];
      }
      i := i + 1;
    }
    assert items[..|items|] == items;
  }
}
