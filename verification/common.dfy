/** Types shared by every protocol in the model. */
module Common {

  /** Python's `Optional`: a value, or `None` (end of stream, missing name, failed parse). */
  datatype Option<+T> = None | Some(value: T)

  /** An accepted socket. Python compares sockets by identity, so an opaque number is enough. */
  type ConnId = nat

  /** One `sendall` attempt: the addressee, the text, and whether the send went through. */
  datatype Send = Send(to: ConnId, text: string, delivered: bool)

  /** Number of occurrences of `x` in `s`. */
  function Count<T(==)>(s: seq<T>, x: T): nat
  {
    if |s| == 0 then 0
    else (if s[0] == x then 1 else 0) + Count(s[1..], x)
  }

  /** `a` is `b` with some elements left out, the rest in their original order. */
  predicate IsSubseq<T(==)>(a: seq<T>, b: seq<T>)
  {
    if |a| == 0 then true
    else if |b| == 0 then false
    else if a[0] == b[0] then IsSubseq(a[1..], b[1..])
    else IsSubseq(a, b[1..])
  }

  /** The elements of a sequence, as a set. */
  function Elems<T>(s: seq<T>): set<T>
  {
    set x | x in s
  }

  /** Python's `list.remove(x)`: drop the first element equal to `x`; a list without `x` is left alone (where Python would raise). */
  function RemoveFirst<T(==)>(s: seq<T>, x: T): seq<T>
  {
    if |s| == 0 then []
    else if s[0] == x then s[1..]
    else [s[0]] + RemoveFirst(s[1..], x)
  }

  lemma {:induction false} RemoveFirstLength<T>(s: seq<T>, x: T)
    ensures x in s ==> |RemoveFirst(s, x)| == |s| - 1
    ensures x !in s ==> RemoveFirst(s, x) == s
  {
    if |s| > 0 && s[0] != x {
      RemoveFirstLength(s[1..], x);
      assert [s[0]] + s[1..] == s;
    }
  }

  /** When `x` does not occur before position `|a|`, `remove(x)` takes out that very element. */
  lemma {:induction false} RemoveFirstAt<T>(a: seq<T>, b: seq<T>)
    requires |b| > 0 && b[0] !in a
    ensures RemoveFirst(a + b, b[0]) == a + b[1..]
  {
    if |a| > 0 {
      assert (a + b)[1..] == a[1..] + b;
      RemoveFirstAt(a[1..], b);
    } else {
      assert a + b == b;
    }
  }

  /** No element occurs twice. */
  predicate NoDup<T(==)>(s: seq<T>)
  {
    forall i, j | 0 <= i < j < |s| :: s[i] != s[j]
  }

  /** On a list without repeats, `remove(x)` takes out exactly `x` and keeps the list free of repeats. */
  lemma {:induction false} RemoveFirstNoDup<T>(s: seq<T>, x: T)
    requires NoDup(s)
    ensures NoDup(RemoveFirst(s, x))
    ensures Elems(RemoveFirst(s, x)) == Elems(s) - {x}
  {
    if |s| > 0 {
      assert NoDup(s[1..]);
      if s[0] == x {
        assert Elems(s) == {x} + Elems(s[1..]);
      } else {
        RemoveFirstNoDup(s[1..], x);
        var r := RemoveFirst(s[1..], x);
        assert s[0] !in Elems(r);
        assert Elems([s[0]] + r) == {s[0]} + Elems(r);
        assert Elems(s) == {s[0]} + Elems(s[1..]);
      }
    }
  }

  lemma CountAppend<T>(a: seq<T>, b: seq<T>, x: T)
    ensures Count(a + b, x) == Count(a, x) + Count(b, x)
  {
    if |a| > 0 {
      assert (a + b)[1..] == a[1..] + b;
      CountAppend(a[1..], b, x);
    } else {
      assert a + b == b;
    }
  }

  lemma CountZero<T>(s: seq<T>, x: T)
    ensures Count(s, x) == 0 <==> x !in s
  {
    if |s| > 0 {
      CountZero(s[1..], x);
      assert s == [s[0]] + s[1..];
    }
  }

  lemma SubseqRefl<T>(s: seq<T>)
    ensures IsSubseq(s, s)
  {
    if |s| > 0 {
      SubseqRefl(s[1..]);
    }
  }

  lemma SubseqCons<T>(a: seq<T>, b: seq<T>, x: T)
    requires IsSubseq(a, b)
    ensures IsSubseq(a, [x] + b)
    decreases |a| + |b| + 1
  {
    var xb := [x] + b;
    assert xb[1..] == b;
    if |a| > 0 && a[0] == x {
      SubseqTail(a, b);
    }
  }

  lemma SubseqTail<T>(a: seq<T>, b: seq<T>)
    requires |a| > 0 && IsSubseq(a, b)
    ensures IsSubseq(a[1..], b)
    decreases |a| + |b|
  {
    assert [b[0]] + b[1..] == b;
    if a[0] == b[0] {
      SubseqCons(a[1..], b[1..], b[0]);
    } else {
      SubseqTail(a, b[1..]);
      SubseqCons(a[1..], b[1..], b[0]);
    }
  }

  lemma SubseqMembers<T>(a: seq<T>, b: seq<T>)
    requires IsSubseq(a, b)
    ensures forall x :: x in a ==> x in b
  {
    if |a| > 0 && |b| > 0 {
      if a[0] == b[0] {
        SubseqMembers(a[1..], b[1..]);
        assert forall x :: x in a ==> x == a[0] || x in a[1..];
      } else {
        SubseqMembers(a, b[1..]);
      }
    }
  }
}
