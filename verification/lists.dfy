/** Sequences used as the compositor's intrusive lists (`wl_list`): the client
    list and the output list are both ordered sequences of identities, and
    `wl_list_remove` unlinks one element without disturbing the others. */
module Lists {

  /** No identity occurs twice: a `wl_list` link can be in one list once. */
  predicate NoDup<T(==)>(xs: seq<T>)
  {
    forall i, j :: 0 <= i < j < |xs| ==> xs[i] != xs[j]
  }

  /** Index of the (first) occurrence of `x` in `xs`. */
  function IndexOf<T(==)>(xs: seq<T>, x: T): (k: nat)
    requires x in xs
    ensures k < |xs| && xs[k] == x
    ensures forall j :: 0 <= j < k ==> xs[j] != x
  {
    if xs[0] == x then 0 else 1 + IndexOf(xs[1..], x)
  }

  /** `xs` with every occurrence of `x` unlinked, the rest left in order. */
  function Without<T(==)>(xs: seq<T>, x: T): (r: seq<T>)
    ensures |r| <= |xs|
  {
    if xs == [] then []
    else (if xs[0] == x then [] else [xs[0]]) + Without(xs[1..], x)
  }

  /** `xs` read back to front. */
  function Reverse<T>(xs: seq<T>): (r: seq<T>)
    ensures |r| == |xs|
    ensures forall i :: 0 <= i < |xs| ==> r[i] == xs[|xs| - 1 - i]
  {
    if xs == [] then [] else Reverse(xs[1..]) + [xs[0]]
  }

  /** Removing an element absent from the list changes nothing. */
  lemma {:induction false} WithoutAbsent<T>(xs: seq<T>, x: T)
    requires x !in xs
    ensures Without(xs, x) == xs
  {
    if xs != [] {
      assert x !in xs[1..];
      WithoutAbsent(xs[1..], x);
      assert xs == [xs[0]] + xs[1..];
    }
  }

  /** In a list without duplicates, unlinking `xs[k]` yields exactly the
      elements before it followed by the elements after it: the removed
      element is the only one gone and the others keep their order. */
  lemma {:induction false} WithoutSplice<T>(xs: seq<T>, k: nat)
    requires NoDup(xs) && k < |xs|
    ensures Without(xs, xs[k]) == xs[..k] + xs[k + 1..]
  {
    var x := xs[k];
    if k == 0 {
      assert x !in xs[1..] by {
        forall j | 0 <= j < |xs[1..]| ensures xs[1..][j] != x {
          assert xs[1..][j] == xs[j + 1];
        }
      }
      WithoutAbsent(xs[1..], x);
    } else {
      assert xs[0] != x;
      var tail := xs[1..];
      assert NoDup(tail) by {
        forall i, j | 0 <= i < j < |tail| ensures tail[i] != tail[j] {
          assert tail[i] == xs[i + 1] && tail[j] == xs[j + 1];
        }
      }
      assert tail[k - 1] == x;
      WithoutSplice(tail, k - 1);
      assert tail[..k - 1] == xs[1..k];
      assert tail[k..] == xs[k + 1..];
      assert xs[..k] == [xs[0]] + xs[1..k];
    }
  }

  /** Unlinking an element keeps the list free of duplicates. */
  lemma {:induction false} WithoutNoDup<T>(xs: seq<T>, x: T)
    requires NoDup(xs)
    ensures NoDup(Without(xs, x))
  {
    if xs != [] {
      var tail := xs[1..];
      assert NoDup(tail) by {
        forall i, j | 0 <= i < j < |tail| ensures tail[i] != tail[j] {
          assert tail[i] == xs[i + 1] && tail[j] == xs[j + 1];
        }
      }
      WithoutNoDup(tail, x);
      WithoutMembers(tail, x);
      assert xs[0] !in tail by {
        forall j | 0 <= j < |tail| ensures tail[j] != xs[0] {
          assert tail[j] == xs[j + 1];
        }
      }
      var rest := Without(tail, x);
      var head: seq<T> := if xs[0] == x then [] else [xs[0]];
      assert Without(xs, x) == head + rest;
      forall i, j | 0 <= i < j < |head + rest|
        ensures (head + rest)[i] != (head + rest)[j]
      {
        if i < |head| {
          assert (head + rest)[j] in rest;
        }
      }
    }
  }

  /** Unlinking a listed element of a duplicate-free list: the splice at its
      index, one element shorter, still duplicate-free, without that element. */
  lemma UnlinkListed<T>(xs: seq<T>, x: T)
    requires NoDup(xs) && x in xs
    ensures var k := IndexOf(xs, x);
      var r := Without(xs, x);
      && r == xs[..k] + xs[k + 1..]
      && |r| == |xs| - 1
      && NoDup(r)
      && x !in r
  {
    var k := IndexOf(xs, x);
    WithoutSplice(xs, k);
    WithoutNoDup(xs, x);
    WithoutMembers(xs, x);
  }

  /** The elements left after unlinking `x` are those of `xs` other than `x`. */
  lemma {:induction false} WithoutMembers<T>(xs: seq<T>, x: T)
    ensures forall y :: y in Without(xs, x) <==> y in xs && y != x
  {
    if xs != [] {
      WithoutMembers(xs[1..], x);
      var head: seq<T> := if xs[0] == x then [] else [xs[0]];
      assert Without(xs, x) == head + Without(xs[1..], x);
      assert xs == [xs[0]] + xs[1..];
    }
  }

  /** Prepending an element that is not yet in the list keeps it free of
      duplicates (`wl_list_insert` at the head). */
  lemma ConsNoDup<T>(x: T, xs: seq<T>)
    requires NoDup(xs) && x !in xs
    ensures NoDup([x] + xs)
  {
    forall i, j | 0 <= i < j < |[x] + xs| ensures ([x] + xs)[i] != ([x] + xs)[j] {
      if i == 0 {
        assert ([x] + xs)[j] == xs[j - 1];
      } else {
        assert ([x] + xs)[i] == xs[i - 1] && ([x] + xs)[j] == xs[j - 1];
      }
    }
  }

  /** Unlinking commutes with reading the list back to front. */
  lemma {:induction false} WithoutReverse<T>(xs: seq<T>, x: T)
    ensures Without(Reverse(xs), x) == Reverse(Without(xs, x))
  {
    if xs != [] {
      WithoutReverse(xs[1..], x);
      WithoutAppend(Reverse(xs[1..]), [xs[0]], x);
      assert Reverse(xs) == Reverse(xs[1..]) + [xs[0]];
      var head: seq<T> := if xs[0] == x then [] else [xs[0]];
      assert Without([xs[0]], x) == head by {
        assert [xs[0]][1..] == [];
      }
      assert Without(xs, x) == head + Without(xs[1..], x);
      ReverseAppend(head, Without(xs[1..], x));
    }
  }

  /** Unlinking from a concatenation unlinks from each part. */
  lemma {:induction false} WithoutAppend<T>(a: seq<T>, b: seq<T>, x: T)
    ensures Without(a + b, x) == Without(a, x) + Without(b, x)
  {
    if a == [] {
      assert a + b == b;
    } else {
      assert (a + b)[1..] == a[1..] + b;
      WithoutAppend(a[1..], b, x);
    }
  }

  /** Reading a concatenation back to front reads the parts back to front,
      in swapped order. */
  lemma ReverseAppend<T>(a: seq<T>, b: seq<T>)
    ensures Reverse(a + b) == Reverse(b) + Reverse(a)
  {
  }
}
