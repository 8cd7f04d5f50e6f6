/*
 * Sequences of keys in insertion order.  A Python dict remembers the order
 * in which its keys were inserted; the model keeps that order as a sequence
 * without duplicates beside each map.  Deleting a key removes it from the
 * sequence, and inserting a new key appends it.
 */
module Sequences {

  /** Dictionary keys (peer ids and topic names) are strings. */
  type Key = string

  /** No element occurs twice: the head is not among the rest, and so on down the sequence. */
  predicate NoDup(s: seq<Key>) {
    s == [] || (s[0] !in s[1..] && NoDup(s[1..]))
  }

  /** `s` with every occurrence of `x` removed, the rest in its original order. */
  function Without(s: seq<Key>, x: Key): (r: seq<Key>)
    ensures forall y {:trigger y in r} :: y in r <==> y in s && y != x
    ensures x !in s ==> r == s
    ensures NoDup(s) ==> NoDup(r)
  {
    if s == [] then []
    else
      assert forall y :: y in s <==> y == s[0] || y in s[1..] by {
        assert s == [s[0]] + s[1..];
      }
      var rest := Without(s[1..], x);
      if s[0] == x then rest
      else
        assert ([s[0]] + rest)[1..] == rest;
        [s[0]] + rest
  }

  /** Removal distributes over concatenation. */
  lemma {:induction false} WithoutAppend(a: seq<Key>, b: seq<Key>, x: Key)
    ensures Without(a + b, x) == Without(a, x) + Without(b, x)
  {
    if a == [] {
      assert a + b == b;
    } else {
      assert (a + b)[0] == a[0];
      assert (a + b)[1..] == a[1..] + b;
      WithoutAppend(a[1..], b, x);
    }
  }

  /** Removing a key that occurs once, at the head of the unprocessed part, leaves the rest in order. */
  lemma {:induction false} RemoveHead(done: seq<Key>, x: Key, rest: seq<Key>)
    requires x !in done && x !in rest
    ensures Without(done + [x] + rest, x) == done + rest
  {
    assert Without(done + [x] + rest, x) == Without(done + [x], x) + Without(rest, x) by {
      WithoutAppend(done + [x], rest, x);
    }
    assert Without(done + [x], x) == done by {
      WithoutAppend(done, [x], x);
      assert Without([x], x) == [] by { assert [x][1..] == []; }
    }
  }

  /** In a concatenation without repetitions, the head of the second part does not occur in the first. */
  lemma {:induction false} NoDupSplit(a: seq<Key>, b: seq<Key>)
    requires NoDup(a + b) && b != []
    ensures b[0] !in a
  {
    if a != [] {
      assert (a + b)[0] == a[0] && (a + b)[1..] == a[1..] + b;
      assert b[0] in (a + b)[1..];
      NoDupSplit(a[1..], b);
      assert a == [a[0]] + a[1..];
    }
  }

  /** Appending a new element keeps the elements distinct. */
  lemma {:induction false} SnocNoDup(s: seq<Key>, x: Key)
    requires NoDup(s) && x !in s
    ensures NoDup(s + [x])
  {
    if s == [] {
      assert [x][1..] == [];
    } else {
      assert (s + [x])[0] == s[0] && (s + [x])[1..] == s[1..] + [x];
      assert s == [s[0]] + s[1..];
      SnocNoDup(s[1..], x);
    }
  }

  /** Dropping the last element keeps the elements distinct, and the last one is not among the rest. */
  lemma {:induction false} InitNoDup(s: seq<Key>)
    requires NoDup(s) && s != []
    ensures NoDup(s[..|s| - 1]) && s[|s| - 1] !in s[..|s| - 1]
  {
    var init := s[..|s| - 1];
    if |s| > 1 {
      assert init[0] == s[0] && init[1..] == s[1..][..|s[1..]| - 1];
      assert s[1..][|s[1..]| - 1] == s[|s| - 1];
      InitNoDup(s[1..]);
      assert forall y :: y in init[1..] ==> y in s[1..];
      assert init == [init[0]] + init[1..];
    } else {
      assert init == [];
    }
  }
}
