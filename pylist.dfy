/** Python list operations used by the widgets, stated on Dafny sequences. */
module PyList {

  /** Position of the first occurrence of `x` (`s.index(x)`). */
  function IndexOf<T(==)>(s: seq<T>, x: T): (k: nat)
    requires x in s
    ensures k < |s| && s[k] == x && x !in s[..k]
  {
    if s[0] == x then 0
    else
      var k := IndexOf(s[1..], x);
      assert s[..k + 1] == [s[0]] + s[1..][..k];
      k + 1
  }

  /** `s.remove(x)` when `x` occurs in `s`: the first occurrence goes, the rest keep their order.
      When `x` does not occur, Python raises ValueError; callers test membership first and
      model that error themselves, so here the sequence is returned as it is. */
  function RemoveFirst<T(==)>(s: seq<T>, x: T): seq<T>
  {
    if s == [] then []
    else if s[0] == x then s[1..]
    else [s[0]] + RemoveFirst(s[1..], x)
  }

  /** What `RemoveFirst` does, said without recursion: the element at the first index of `x`
      is cut out, and a list without `x` is left alone. */
  lemma {:induction false} RemoveFirstSpec<T>(s: seq<T>, x: T)
    ensures x in s ==> RemoveFirst(s, x) == s[..IndexOf(s, x)] + s[IndexOf(s, x) + 1..]
    ensures x !in s ==> RemoveFirst(s, x) == s
  {
    if s != [] && s[0] != x {
      RemoveFirstSpec(s[1..], x);
      assert x in s ==> x in s[1..];
      if x in s {
        var k := IndexOf(s[1..], x);
        assert IndexOf(s, x) == k + 1;
        assert s[..k + 1] == [s[0]] + s[1..][..k];
        assert s[k + 2..] == s[1..][k + 1..];
      }
    }
  }

  /** Position by position: before the first `x` nothing moves, after it everything moves
      one place to the front. */
  lemma RemoveFirstIndices<T>(s: seq<T>, x: T)
    requires x in s
    ensures |RemoveFirst(s, x)| == |s| - 1
    ensures forall i :: 0 <= i < IndexOf(s, x) ==> RemoveFirst(s, x)[i] == s[i]
    ensures forall i :: IndexOf(s, x) <= i < |s| - 1 ==> RemoveFirst(s, x)[i] == s[i + 1]
  {
    RemoveFirstSpec(s, x);
  }

  lemma RemoveFirstLength<T>(s: seq<T>, x: T)
    ensures |RemoveFirst(s, x)| == if x in s then |s| - 1 else |s|
  {
    RemoveFirstSpec(s, x);
  }

  lemma {:induction false} RemoveFirstMultiset<T>(s: seq<T>, x: T)
    ensures multiset(RemoveFirst(s, x)) == multiset(s) - multiset{x}
  {
    RemoveFirstSpec(s, x);
    if x in s {
      var k := IndexOf(s, x);
      assert s == s[..k] + [x] + s[k + 1..];
      assert multiset(s) == multiset(s[..k]) + multiset{x} + multiset(s[k + 1..]);
    } else {
      assert multiset(s)[x] == 0;
    }
  }

  /** Removing a value that was just appended to a list not holding it gives the list back. */
  lemma RemoveFirstAppended<T>(s: seq<T>, x: T)
    requires x !in s
    ensures RemoveFirst(s + [x], x) == s
  {
    var t := s + [x];
    RemoveFirstSpec(t, x);
    var k := IndexOf(t, x);
    assert forall i :: 0 <= i < |s| ==> t[i] in s;
    assert k == |s|;
    assert t[..k] == s;
  }

  /** Removing the element at position `k` when it is the first occurrence of its value. */
  lemma RemoveFirstAt<T>(s: seq<T>, k: nat)
    requires k < |s| && s[k] !in s[..k]
    ensures RemoveFirst(s, s[k]) == s[..k] + s[k + 1..]
  {
    RemoveFirstSpec(s, s[k]);
    var j := IndexOf(s, s[k]);
    assert forall i :: 0 <= i < k ==> s[..k][i] == s[i];
    assert forall i :: 0 <= i < j ==> s[..j][i] == s[i];
  }

  /** Python's rule for the position `list.insert(index, x)` uses: a negative index counts
      from the end, and the result is clamped to the list. */
  function InsertIndex(length: nat, index: int): (k: nat)
    ensures k <= length
    ensures 0 <= index <= length ==> k == index
    ensures index < 0 && length + index >= 0 ==> k == length + index
    ensures index > length ==> k == length
    ensures length + index < 0 ==> k == 0
  {
    if index < 0 then (if length + index < 0 then 0 else length + index)
    else if index > length then length
    else index
  }

  /** `s[index]` is defined: Python accepts `-len(s) <= index < len(s)`. */
  predicate ValidIndex(length: nat, index: int)
  {
    0 <= length + index && index < length
  }

  /** The position `s[index]` reads, a negative index counting from the end. */
  function Position(length: nat, index: int): (k: nat)
    requires ValidIndex(length, index)
    ensures k < length
    ensures index >= 0 ==> k == index
    ensures index < 0 ==> k == length + index
  {
    if index >= 0 then index else length + index
  }

  /** `s.insert(index, x)`. */
  function InsertAt<T>(s: seq<T>, index: int, x: T): seq<T>
  {
    var k := InsertIndex(|s|, index);
    s[..k] + [x] + s[k..]
  }

  lemma InsertAtShape<T>(s: seq<T>, index: int, x: T)
    ensures var k := InsertIndex(|s|, index);
      var r := InsertAt(s, index, x);
      |r| == |s| + 1 && r[k] == x && RemoveAt(r, k) == s
  {
    var k := InsertIndex(|s|, index);
    var r := InsertAt(s, index, x);
    assert r[..k] == s[..k];
    assert r[k + 1..] == s[k..];
    assert s == s[..k] + s[k..];
  }

  /** The list without its element at position `k`. */
  function RemoveAt<T>(s: seq<T>, k: nat): seq<T>
    requires k < |s|
  {
    s[..k] + s[k + 1..]
  }

  /** `s[:n]`, with Python's reading of a negative bound as "all but the last -n". */
  function SlicePrefix<T>(s: seq<T>, n: int): (r: seq<T>)
  {
    if n >= 0 then (if n <= |s| then s[..n] else s)
    else if |s| + n >= 0 then s[..|s| + n]
    else []
  }

  /** The part of `s` after its last `sep`, all of `s` when there is none: `split(sep)[-1]`
      for strings, and `os.path.basename` for `sep == '/'`. */
  function AfterLast<T(==)>(s: seq<T>, sep: T): (r: seq<T>)
    ensures sep !in r
    ensures |r| <= |s| && r == s[|s| - |r|..]
    ensures |r| < |s| ==> s[|s| - |r| - 1] == sep
  {
    if s == [] then []
    else if s[|s| - 1] == sep then []
    else AfterLast(s[..|s| - 1], sep) + [s[|s| - 1]]
  }

  /** Joining with a separator the last part does not hold, the last part comes back. */
  lemma {:induction false} AfterLastJoin<T>(a: seq<T>, sep: T, b: seq<T>)
    requires sep !in b
    ensures AfterLast(a + [sep] + b, sep) == b
    decreases |b|
  {
    var r := a + [sep] + b;
    if b != [] {
      var front := b[..|b| - 1];
      assert r[..|r| - 1] == a + [sep] + front;
      assert r[|r| - 1] == b[|b| - 1];
      AfterLastJoin(a, sep, front);
      assert b == front + [b[|b| - 1]];
    }
  }

  /** A prefix of a subsequence is a subsequence. */
  lemma {:induction false} SubsequencePrefix<T>(a: seq<T>, b: seq<T>, n: nat)
    requires Subsequence(a, b) && n <= |a|
    ensures Subsequence(a[..n], b)
    decreases |b|
  {
    if n > 0 && b != [] {
      if a[0] == b[0] {
        SubsequencePrefix(a[1..], b[1..], n - 1);
        assert a[..n][1..] == a[1..][..n - 1];
      } else {
        SubsequencePrefix(a, b[1..], n);
      }
    }
  }

  /** `a` is `b` with zero or more elements deleted, the rest kept in order. */
  predicate Subsequence<T(==)>(a: seq<T>, b: seq<T>)
    decreases |b|
  {
    if a == [] then true
    else if b == [] then false
    else if a[0] == b[0] then Subsequence(a[1..], b[1..])
    else Subsequence(a, b[1..])
  }

  /** `c` is a merge of `a` and `b` that keeps the order inside each of them. */
  predicate Interleaving<T(==)>(a: seq<T>, b: seq<T>, c: seq<T>)
    decreases |c|
  {
    if c == [] then a == [] && b == []
    else
      (a != [] && a[0] == c[0] && Interleaving(a[1..], b, c[1..])) ||
      (b != [] && b[0] == c[0] && Interleaving(a, b[1..], c[1..]))
  }

  /** A merge loses and invents nothing. */
  lemma {:induction false} InterleavingContents<T>(a: seq<T>, b: seq<T>, c: seq<T>)
    requires Interleaving(a, b, c)
    ensures |a| + |b| == |c|
    ensures multiset(a) + multiset(b) == multiset(c)
    decreases |c|
  {
    if c != [] {
      if a != [] && a[0] == c[0] && Interleaving(a[1..], b, c[1..]) {
        InterleavingContents(a[1..], b, c[1..]);
        assert a == [a[0]] + a[1..];
        assert c == [c[0]] + c[1..];
        assert multiset(a) == multiset{c[0]} + multiset(a[1..]);
        assert multiset(c) == multiset{c[0]} + multiset(c[1..]);
      } else {
        InterleavingContents(a, b[1..], c[1..]);
        assert b == [b[0]] + b[1..];
        assert c == [c[0]] + c[1..];
        assert multiset(b) == multiset{c[0]} + multiset(b[1..]);
        assert multiset(c) == multiset{c[0]} + multiset(c[1..]);
      }
    }
  }

  /** Each side of a merge is a subsequence of it. */
  lemma {:induction false} InterleavingSubsequences<T>(a: seq<T>, b: seq<T>, c: seq<T>)
    requires Interleaving(a, b, c)
    ensures Subsequence(a, c) && Subsequence(b, c)
    decreases |c|
  {
    if c != [] {
      if a != [] && a[0] == c[0] && Interleaving(a[1..], b, c[1..]) {
        InterleavingSubsequences(a[1..], b, c[1..]);
        SubsequenceSkip(b, c);
      } else {
        InterleavingSubsequences(a, b[1..], c[1..]);
        SubsequenceSkip(a, c);
      }
    }
  }

  /** If `a` is a subsequence of `c[1..]` it is one of `c`. (Helper for the lemma above.) */
  lemma {:induction false} SubsequenceSkip<T>(a: seq<T>, c: seq<T>)
    requires c != [] && Subsequence(a, c[1..])
    ensures Subsequence(a, c)
    decreases 2 * |c|
  {
    if a != [] && a[0] == c[0] {
      SubsequenceTail(a, c[1..]);
    }
  }

  /** Dropping the head of `a` keeps it a subsequence. */
  lemma {:induction false} SubsequenceTail<T>(a: seq<T>, b: seq<T>)
    requires a != [] && Subsequence(a, b)
    ensures Subsequence(a[1..], b)
    decreases 2 * |b| + 1
  {
    if b != [] {
      if a[0] == b[0] {
        if a[1..] != [] {
          SubsequenceTail(a[1..], b[1..]);
          SubsequenceSkip(a[1..], b);
        }
      } else {
        SubsequenceTail(a, b[1..]);
        if a[1..] != [] {
          SubsequenceSkip(a[1..], b);
        }
      }
    }
  }

  /** `s.remove(x)` keeps the other elements in their order. */
  lemma {:induction false} RemoveFirstSubsequence<T>(s: seq<T>, x: T)
    ensures Subsequence(RemoveFirst(s, x), s)
  {
    if s != [] {
      if s[0] == x {
        SubsequenceReflexive(s[1..]);
        SubsequenceSkip(s[1..], s);
      } else {
        RemoveFirstSubsequence(s[1..], x);
        assert ([s[0]] + RemoveFirst(s[1..], x))[1..] == RemoveFirst(s[1..], x);
      }
    }
  }

  /** A subsequence of a subsequence is a subsequence. */
  lemma {:induction false} SubsequenceTransitive<T>(a: seq<T>, b: seq<T>, c: seq<T>)
    requires Subsequence(a, b) && Subsequence(b, c)
    ensures Subsequence(a, c)
    decreases |c|
  {
    if a != [] && c != [] {
      if b[0] == c[0] {
        if a[0] == b[0] {
          SubsequenceTransitive(a[1..], b[1..], c[1..]);
        } else {
          SubsequenceTransitive(a, b[1..], c[1..]);
          SubsequenceSkip(a, c);
        }
      } else {
        SubsequenceTransitive(a, b, c[1..]);
        SubsequenceSkip(a, c);
      }
    }
  }

  lemma {:induction false} SubsequenceReflexive<T>(s: seq<T>)
    ensures Subsequence(s, s)
  {
    if s != [] {
      SubsequenceReflexive(s[1..]);
    }
  }

  /** No value occurs twice. */
  predicate Distinct<T(==)>(s: seq<T>)
  {
    forall i, j :: 0 <= i < j < |s| ==> s[i] != s[j]
  }

  /** On a list without repeats `s.remove(x)` removes exactly the value `x`. */
  lemma RemoveFirstDistinct<T>(s: seq<T>, x: T)
    requires Distinct(s)
    ensures Distinct(RemoveFirst(s, x))
    ensures forall y :: y in RemoveFirst(s, x) <==> y in s && y != x
  {
    RemoveFirstSpec(s, x);
    if x in s {
      var k := IndexOf(s, x);
      var front, back := s[..k], s[k + 1..];
      assert s == front + [x] + back;
      assert x !in back by {
        assert forall j :: 0 <= j < |back| ==> back[j] == s[k + 1 + j];
      }
      RemoveFirstIndices(s, x);
      var r := RemoveFirst(s, x);
      forall i, j | 0 <= i < j < |r|
        ensures r[i] != r[j]
      {
        var i' := if i < k then i else i + 1;
        var j' := if j < k then j else j + 1;
        assert r[i] == s[i'] && r[j] == s[j'] && i' < j';
      }
    }
  }



  /** Inserting a new value into a list without repeats keeps it without repeats. */
  lemma InsertAtDistinct<T>(s: seq<T>, index: int, x: T)
    requires Distinct(s) && x !in s
    ensures Distinct(InsertAt(s, index, x))
    ensures forall y :: y in InsertAt(s, index, x) <==> y in s || y == x
  {
    var k := InsertIndex(|s|, index);
    var r := InsertAt(s, index, x);
    assert forall i :: 0 <= i < |r| ==> r[i] == if i < k then s[i] else if i == k then x else s[i - 1];
    forall y
      ensures y in r <==> y in s || y == x
    {
      if y in r {
        var i :| 0 <= i < |r| && r[i] == y;
        assert y == if i < k then s[i] else if i == k then x else s[i - 1];
      }
      if y in s {
        var j :| 0 <= j < |s| && s[j] == y;
        assert y == if j < k then r[j] else r[j + 1];
      }
      if y == x {
        assert r[k] == x;
      }
    }
  }

  /** `s.insert(s.index(before), x)`: `x` lands immediately before the first `before`, and
      the elements on either side are those of `s`. */
  lemma InsertBeforePlacement<T>(s: seq<T>, before: T, x: T)
    requires before in s
    ensures var k := IndexOf(s, before);
      var r := InsertAt(s, k, x);
      r[..k] == s[..k] && r[k] == x && r[k + 1] == before && r[k + 1..] == s[k..]
  {
    var k := IndexOf(s, before);
    var r := InsertAt(s, k, x);
    assert InsertIndex(|s|, k) == k;
    assert r[k + 1..] == s[k..];
  }
}
