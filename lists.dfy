/** The parts of `List<T>` the core uses, on sequences: `IndexOf` and `Remove`. */
module Lists {

  /** The index of the first occurrence of `x` in `s`. */
  function IndexOf<T(==)>(s: seq<T>, x: T): (i: nat)
    requires x in s
    ensures i < |s| && s[i] == x && x !in s[..i]
  {
    if s[0] == x then 0 else 1 + IndexOf(s[1..], x)
  }

  /** `List.Remove(x)`: drops the first occurrence of `x` only; a list without `x` stays as it is. */
  function RemoveFirst<T(==)>(s: seq<T>, x: T): (r: seq<T>)
    ensures x !in s ==> r == s
    ensures x in s ==> |r| == |s| - 1
  {
    if |s| == 0 then []
    else if s[0] == x then s[1..]
    else [s[0]] + RemoveFirst(s[1..], x)
  }

  /** What `RemoveFirst` drops is exactly the element at the first occurrence of `x`. */
  lemma {:induction false} RemoveFirstAt<T>(s: seq<T>, x: T)
    requires x in s
    ensures RemoveFirst(s, x) == s[..IndexOf(s, x)] + s[IndexOf(s, x) + 1..]
  {
    if s[0] == x {
      assert IndexOf(s, x) == 0;
      assert RemoveFirst(s, x) == s[1..];
      assert s[..0] == [];
    } else {
      var rest := s[1..];
      assert x in rest by {
        var k :| 0 <= k < |s| && s[k] == x;
        assert rest[k - 1] == x;
      }
      var j := IndexOf(rest, x);
      assert IndexOf(s, x) == j + 1;
      assert RemoveFirst(s, x) == [s[0]] + RemoveFirst(rest, x);
      RemoveFirstAt(rest, x);
      assert rest[..j] == s[1..j + 1] && rest[j + 1..] == s[j + 2..];
      assert [s[0]] + s[1..j + 1] == s[..j + 1];
      assert [s[0]] + (rest[..j] + rest[j + 1..]) == s[..j + 1] + s[j + 2..];
    }
  }

  /** `RemoveFirst` takes away one copy of `x` and keeps every other element. */
  lemma {:induction false} RemoveFirstMultiset<T>(s: seq<T>, x: T)
    requires x in s
    ensures multiset(RemoveFirst(s, x)) == multiset(s) - multiset{x}
  {
    var i := IndexOf(s, x);
    RemoveFirstAt(s, x);
    var before, after := s[..i], s[i + 1..];
    assert s == before + [x] + after;
    assert multiset(s) == multiset(before) + multiset{x} + multiset(after);
    assert multiset(RemoveFirst(s, x)) == multiset(before) + multiset(after);
  }

  /**
   * Removing an element that was appended after a prefix not containing it gives back that
   * prefix followed by what came after it.
   */
  lemma {:induction false} RemoveFirstAppended<T>(s: seq<T>, x: T, tail: seq<T>)
    requires x !in s
    ensures RemoveFirst(s + [x] + tail, x) == s + tail
  {
    var whole := s + [x] + tail;
    var i := IndexOf(whole, x);
    assert whole[..|s|] == s;
    assert x in whole[..|s| + 1] by {
      assert whole[..|s| + 1][|s|] == x;
    }
    assert i == |s|;
    RemoveFirstAt(whole, x);
    assert whole[..i] == s && whole[i + 1..] == tail;
  }
}
