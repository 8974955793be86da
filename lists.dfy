/** Small vocabulary shared by the model: an optional value, and the two
    Python list operations the registry relies on (`x in s` is Dafny's own
    `in`; `list.remove` is RemoveFirst below). */
module Lists {

  datatype Option<+T> = None | Some(value: T)

  /** Python's `list.remove(x)`: drops the first occurrence of `x`, keeping
      every other element in order. Python raises ValueError when `x` is
      absent; every caller in the registry checks membership first. */
  function RemoveFirst<T(==)>(s: seq<T>, x: T): (r: seq<T>)
    requires x in s
    ensures |r| == |s| - 1
  {
    if s[0] == x then s[1..]
    else
      assert x in s[1..] by { assert s == [s[0]] + s[1..]; }
      [s[0]] + RemoveFirst(s[1..], x)
  }

  /** RemoveFirst takes away exactly one `x` and nothing else. */
  lemma {:induction false} RemoveFirstMultiset<T>(s: seq<T>, x: T)
    requires x in s
    ensures multiset(RemoveFirst(s, x)) == multiset(s) - multiset{x}
  {
    assert s == [s[0]] + s[1..];
    if s[0] != x {
      RemoveFirstMultiset(s[1..], x);
    }
  }

  /** RemoveFirst is exactly the splice of `s` around the first occurrence
      of `x`, at position `i`. */
  lemma {:induction false} RemoveFirstIsSplice<T>(s: seq<T>, x: T, i: nat)
    requires i < |s| && s[i] == x && x !in s[..i]
    ensures RemoveFirst(s, x) == s[..i] + s[i + 1..]
  {
    if i == 0 {
      assert s[0] == x;
    } else {
      assert s[0] in s[..i];
      var t := s[1..];
      assert t[..i - 1] == s[1..i];
      RemoveFirstIsSplice(t, x, i - 1);
      assert s[..i] == [s[0]] + t[..i - 1];
      assert s[i + 1..] == t[i..];
    }
  }

  /** No element occurs twice. */
  predicate NoDup<T(==)>(s: seq<T>) {
    forall i, j :: 0 <= i < j < |s| ==> s[i] != s[j]
  }

  /** Removing an element from a duplicate-free list removes it entirely,
      and what is left is still duplicate-free. */
  lemma {:induction false} RemoveFirstNoDup<T>(s: seq<T>, x: T)
    requires x in s && NoDup(s)
    ensures x !in RemoveFirst(s, x)
    ensures NoDup(RemoveFirst(s, x))
  {
    var t := s[1..];
    assert NoDup(t) by {
      forall i, j | 0 <= i < j < |t| ensures t[i] != t[j] { assert t[i] == s[i + 1] && t[j] == s[j + 1]; }
    }
    assert s[0] !in t by {
      forall j | 0 <= j < |t| ensures t[j] != s[0] { assert t[j] == s[j + 1]; }
    }
    if s[0] != x {
      assert x in t by { assert s == [s[0]] + t; }
      RemoveFirstNoDup(t, x);
      var rest := RemoveFirst(t, x);
      assert s[0] !in rest by {
        RemoveFirstMultiset(t, x);
        assert multiset(rest) <= multiset(t);
        assert s[0] !in multiset(t);
      }
      assert RemoveFirst(s, x) == [s[0]] + rest;
    }
  }
}
