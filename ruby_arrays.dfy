/**
 * The Ruby Array methods the layer code chains together: `compact`, `uniq`,
 * `flatten` (one level), `select` and `all?`.
 */
module RubyArrays {
  import opened Wrappers

  /** No element occurs twice. */
  predicate NoDuplicates<T(==,!new)>(s: seq<T>) {
    forall i, j :: 0 <= i < j < |s| ==> s[i] != s[j]
  }

  /** Array#compact: the non-nil entries, in their order. */
  function Compact<T(==,!new)>(s: seq<Option<T>>): (r: seq<T>)
    ensures |r| <= |s|
    ensures forall x :: x in r <==> Some(x) in s
  {
    if s == [] then []
    else
      var rest := Compact(s[1..]);
      assert forall x :: Some(x) in s <==> s[0] == Some(x) || Some(x) in s[1..];
      match s[0]
      case Some(x) => [x] + rest
      case None => rest
  }

  lemma {:induction false} CompactAppend<T(!new)>(a: seq<Option<T>>, b: seq<Option<T>>)
    ensures Compact(a + b) == Compact(a) + Compact(b)
    decreases |a|
  {
    if a == [] {
      assert a + b == b;
    } else {
      assert (a + b)[0] == a[0];
      assert (a + b)[1..] == a[1..] + b;
      CompactAppend(a[1..], b);
    }
  }

  /** Array#uniq: the first occurrence of every element, in the order of those occurrences. */
  function Uniq<T(==,!new)>(s: seq<T>): (r: seq<T>)
    ensures NoDuplicates(r)
    ensures forall x :: x in r <==> x in s
    ensures |r| <= |s|
    decreases |s|
  {
    if s == [] then []
    else
      var init, last := s[..|s| - 1], s[|s| - 1];
      assert s == init + [last];
      var u := Uniq(init);
      if last in init then u else u + [last]
  }

  /** The index of the first occurrence of `x` in `s`. */
  function FirstIndex<T(==,!new)>(s: seq<T>, x: T): (k: nat)
    requires x in s
    ensures k < |s| && s[k] == x && x !in s[..k]
  {
    if s[0] == x then 0
    else
      var k := 1 + FirstIndex(s[1..], x);
      assert s[..k] == [s[0]] + s[1..][..k - 1];
      k
  }

  lemma {:induction false} FirstIndexSnoc<T(!new)>(s: seq<T>, y: T, x: T)
    requires x in s
    ensures FirstIndex(s + [y], x) == FirstIndex(s, x)
  {
    var k := FirstIndex(s, x);
    var t := s + [y];
    assert t[k] == x && t[..k] == s[..k];
    FirstIndexUnique(t, x, k);
  }

  lemma FirstIndexUnique<T(!new)>(s: seq<T>, x: T, k: nat)
    requires k < |s| && s[k] == x && x !in s[..k]
    ensures FirstIndex(s, x) == k
  {
  }

  /** Uniq keeps elements in the order of their first occurrence in the input. */
  lemma {:induction false} UniqFirstOccurrenceOrder<T(!new)>(s: seq<T>)
    ensures forall i, j :: 0 <= i < j < |Uniq(s)| ==>
      FirstIndex(s, Uniq(s)[i]) < FirstIndex(s, Uniq(s)[j])
    decreases |s|
  {
    if s != [] {
      var init, last := s[..|s| - 1], s[|s| - 1];
      assert s == init + [last];
      UniqFirstOccurrenceOrder(init);
      var u := Uniq(init);
      forall i, j | 0 <= i < j < |Uniq(s)|
        ensures FirstIndex(s, Uniq(s)[i]) < FirstIndex(s, Uniq(s)[j])
      {
        assert Uniq(s)[i] == u[i];
        FirstIndexSnoc(init, last, u[i]);
        if j < |u| {
          assert Uniq(s)[j] == u[j];
          FirstIndexSnoc(init, last, u[j]);
        } else {
          assert last !in init && Uniq(s)[j] == last;
          assert s[..|init|] == init;
          FirstIndexUnique(s, last, |init|);
        }
      }
    }
  }

  /** A duplicate-free array is its own `uniq`. */
  lemma {:induction false} UniqOfNoDuplicates<T(!new)>(s: seq<T>)
    requires NoDuplicates(s)
    ensures Uniq(s) == s
    decreases |s|
  {
    if s != [] {
      var init, last := s[..|s| - 1], s[|s| - 1];
      assert s == init + [last];
      UniqOfNoDuplicates(init);
      assert last !in init;
    }
  }

  /** Array#flatten on an array of arrays. */
  function Flatten<T(==,!new)>(ss: seq<seq<T>>): (r: seq<T>)
    ensures forall x :: x in r <==> exists i :: 0 <= i < |ss| && x in ss[i]
  {
    if ss == [] then []
    else
      var rest := Flatten(ss[1..]);
      assert forall i :: 1 <= i < |ss| ==> ss[i] == ss[1..][i - 1];
      ss[0] + rest
  }

  /** `flatten` distributes over concatenation, so it keeps the order of the inner arrays. */
  lemma {:induction false} FlattenAppend<T(!new)>(a: seq<seq<T>>, b: seq<seq<T>>)
    ensures Flatten(a + b) == Flatten(a) + Flatten(b)
    decreases |a|
  {
    if a == [] {
      assert a + b == b;
    } else {
      assert (a + b)[0] == a[0];
      assert (a + b)[1..] == a[1..] + b;
      FlattenAppend(a[1..], b);
    }
  }

  /** `flatten` of a single inner array is that array. */
  lemma FlattenSingle<T(!new)>(x: seq<T>)
    ensures Flatten([x]) == x
  {
    assert [x][1..] == [];
  }

  /** Array#select with a total block. */
  function Select<T(==,!new)>(s: seq<T>, keep: T -> bool): (r: seq<T>)
    ensures |r| <= |s|
    ensures forall x :: x in r <==> x in s && keep(x)
  {
    if s == [] then []
    else
      var rest := Select(s[1..], keep);
      assert forall x :: x in s <==> x == s[0] || x in s[1..];
      if keep(s[0]) then [s[0]] + rest else rest
  }

  /** Array#all? with a total block. */
  predicate All<T>(s: seq<T>, p: T -> bool)
    ensures All(s, p) <==> forall x :: x in s ==> p(x)
  {
    forall i :: 0 <= i < |s| ==> p(s[i])
  }

  /** `select` preserves the relative order of the kept elements. */
  lemma {:induction false} SelectAppend<T(!new)>(a: seq<T>, b: seq<T>, keep: T -> bool)
    ensures Select(a + b, keep) == Select(a, keep) + Select(b, keep)
    decreases |a|
  {
    if a == [] {
      assert a + b == b;
    } else {
      assert (a + b)[0] == a[0];
      assert (a + b)[1..] == a[1..] + b;
      SelectAppend(a[1..], b, keep);
    }
  }

  lemma {:induction false} SelectOfAll<T(!new)>(s: seq<T>, keep: T -> bool)
    requires All(s, keep)
    ensures Select(s, keep) == s
    decreases |s|
  {
    if s != [] {
      assert keep(s[0]);
      assert All(s[1..], keep) by {
        forall i | 0 <= i < |s[1..]| ensures keep(s[1..][i]) { assert s[1..][i] == s[i + 1]; }
      }
      SelectOfAll(s[1..], keep);
    }
  }

  /** `select` drops nothing exactly when `all?` holds. */
  lemma SelectDropsNothingIffAll<T(!new)>(s: seq<T>, keep: T -> bool)
    ensures Select(s, keep) == s <==> All(s, keep)
  {
    if All(s, keep) {
      SelectOfAll(s, keep);
    } else {
      var i :| 0 <= i < |s| && !keep(s[i]);
      assert s[i] in s && s[i] !in Select(s, keep);
    }
  }

  /** On a duplicate-free array, `select` keeps the kept elements in their order in the input. */
  lemma {:induction false} SelectKeepsOrder<T(!new)>(s: seq<T>, keep: T -> bool)
    requires NoDuplicates(s)
    ensures forall i, j :: 0 <= i < j < |Select(s, keep)| ==>
      FirstIndex(s, Select(s, keep)[i]) < FirstIndex(s, Select(s, keep)[j])
    decreases |s|
  {
    if s != [] {
      var tail := s[1..];
      NoDuplicatesTail(s);
      SelectKeepsOrder(tail, keep);
      assert s[0] !in tail by {
        forall k | 0 <= k < |tail| ensures tail[k] != s[0] {
          assert tail[k] == s[k + 1];
        }
      }
      var r, rest := Select(s, keep), Select(tail, keep);
      forall i, j | 0 <= i < j < |r| ensures FirstIndex(s, r[i]) < FirstIndex(s, r[j]) {
        if keep(s[0]) {
          assert r == [s[0]] + rest;
          assert r[j] == rest[j - 1] && rest[j - 1] in tail;
          if i > 0 {
            assert r[i] == rest[i - 1] && rest[i - 1] in tail;
          }
        } else {
          assert r == rest;
          assert r[i] in tail && r[j] in tail;
        }
      }
    }
  }

  lemma NoDuplicatesTail<T(!new)>(s: seq<T>)
    requires s != [] && NoDuplicates(s)
    ensures NoDuplicates(s[1..])
  {
    forall i, j | 0 <= i < j < |s[1..]| ensures s[1..][i] != s[1..][j] {
      assert s[1..][i] == s[i + 1] && s[1..][j] == s[j + 1];
    }
  }

  /** `select` never introduces duplicates. */
  lemma {:induction false} SelectNoDuplicates<T(!new)>(s: seq<T>, keep: T -> bool)
    requires NoDuplicates(s)
    ensures NoDuplicates(Select(s, keep))
    decreases |s|
  {
    if s != [] {
      NoDuplicatesTail(s);
      SelectNoDuplicates(s[1..], keep);
    }
  }
}
