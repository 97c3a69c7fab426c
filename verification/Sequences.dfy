/** Operations on sequences that several models share. */
module Sequences {

  predicate Distinct<T(==)>(s: seq<T>) { forall i, j :: 0 <= i < j < |s| ==> s[i] != s[j] }

  function Without<T>(s: seq<T>, k: nat): seq<T>
    requires k < |s|
  {
    s[..k] + s[k + 1..]
  }

  function Flatten<T>(parts: seq<seq<T>>): seq<T> {
    if parts == [] then [] else parts[0] + Flatten(parts[1..])
  }

  lemma {:induction false} FlattenAppend<T>(a: seq<seq<T>>, b: seq<seq<T>>)
    ensures Flatten(a + b) == Flatten(a) + Flatten(b)
  {
    if a == [] {
      assert a + b == b;
    } else {
      assert (a + b)[1..] == a[1..] + b;
      FlattenAppend(a[1..], b);
    }
  }

  lemma FlattenSnoc<T>(parts: seq<seq<T>>, part: seq<T>)
    ensures Flatten(parts + [part]) == Flatten(parts) + part
  {
    FlattenAppend(parts, [part]);
    assert Flatten([part]) == part;
  }

  lemma Regroup<T>(a: seq<T>, b: seq<T>, c: seq<T>)
    ensures (a + b) + c == a + (b + c)
  {
  }

  function Sum(terms: seq<int>): int {
    if terms == [] then 0 else Sum(terms[..|terms| - 1]) + terms[|terms| - 1]
  }

  lemma {:induction false} SumUpdate(terms: seq<int>, k: nat, term: int)
    requires k < |terms|
    ensures Sum(terms[k := term]) == Sum(terms) - terms[k] + term
  {
    var last := |terms| - 1;
    if k == last {
      assert terms[k := term][..last] == terms[..last];
    } else {
      SumUpdate(terms[..last], k, term);
      assert terms[k := term][..last] == terms[..last][k := term];
    }
  }

  // How often x occurs.
  function Count<T(==)>(s: seq<T>, x: T): nat {
    if s == [] then 0 else Count(s[..|s| - 1], x) + (if s[|s| - 1] == x then 1 else 0)
  }

  lemma {:induction false} CountAppend<T>(a: seq<T>, b: seq<T>, x: T)
    ensures Count(a + b, x) == Count(a, x) + Count(b, x)
  {
    if b == [] {
      assert a + b == a;
    } else {
      var last := |b| - 1;
      CountAppend(a, b[..last], x);
      assert (a + b)[..|a| + last] == a + b[..last];
    }
  }

  lemma CountSnoc<T>(s: seq<T>, y: T, x: T)
    ensures Count(s + [y], x) == Count(s, x) + (if y == x then 1 else 0)
  {
    assert (s + [y])[..|s|] == s;
  }

  // Taking off the head: what a queue loses when it is read.
  lemma CountHead<T>(s: seq<T>, x: T)
    requires s != []
    ensures Count(s, x) == (if s[0] == x then 1 else 0) + Count(s[1..], x)
  {
    var head := [s[0]];
    assert s == head + s[1..];
    CountAppend(head, s[1..], x);
    assert head == [] + [s[0]];
    CountSnoc([], s[0], x);
  }

  // ---------- leaving out elements ----------

  // The elements that are not doomed, in order.
  function Except<T>(s: seq<T>, doomed: T -> bool): (kept: seq<T>)
    ensures |kept| <= |s|
  {
    if s == [] then []
    else Except(s[..|s| - 1], doomed) + (if doomed(s[|s| - 1]) then [] else [s[|s| - 1]])
  }

  lemma ExceptStep<T>(s: seq<T>, doomed: T -> bool, k: nat)
    requires k < |s|
    ensures Except(s[..k + 1], doomed) == Except(s[..k], doomed) + (if doomed(s[k]) then [] else [s[k]])
  {
    assert s[..k + 1][..k] == s[..k];
  }

  lemma {:induction false} ExceptIsExact<T>(s: seq<T>, doomed: T -> bool)
    ensures var kept := Except(s, doomed);
            && (forall k :: 0 <= k < |kept| ==> kept[k] in s && !doomed(kept[k]))
            && (forall k :: 0 <= k < |s| && !doomed(s[k]) ==> s[k] in kept)
  {
    if s != [] {
      var last := |s| - 1;
      ExceptIsExact(s[..last], doomed);
      assert forall k :: 0 <= k < last ==> s[..last][k] == s[k];
    }
  }

  /** And they are left in order: at[i] is where the i-th of them was. */
  lemma {:induction false} ExceptKeepsOrder<T>(s: seq<T>, doomed: T -> bool) returns (at: seq<nat>)
    ensures IsSubsequence(Except(s, doomed), s, at)
    ensures forall k :: 0 <= k < |s| ==> (k in at <==> !doomed(s[k]))
  {
    if s == [] {
      at := [];
    } else {
      var last := |s| - 1;
      var front, x := s[..last], s[last];
      assert s == front + [x];
      at := ExceptKeepsOrder(front, doomed);
      SubsequenceSnoc(Except(front, doomed), front, at, x);
      var more := if doomed(x) then at else at + [last];
      forall k | 0 <= k < |s|
        ensures k in more <==> !doomed(s[k])
      {
        if k < last {
          assert s[k] == front[k];
        }
      }
      at := more;
    }
  }

  lemma SubsequenceSnoc<T>(sub: seq<T>, s: seq<T>, at: seq<nat>, x: T)
    requires IsSubsequence(sub, s, at)
    ensures IsSubsequence(sub, s + [x], at) && IsSubsequence(sub + [x], s + [x], at + [|s|]) && |s| !in at
    ensures forall k: nat :: k in at + [|s|] <==> k in at || k == |s|
  {
  }

  // sub is s with some elements left out, order kept; at[i] says where sub[i] comes from.
  ghost predicate IsSubsequence<T>(sub: seq<T>, s: seq<T>, at: seq<nat>) {
    && |at| == |sub|
    && (forall i :: 0 <= i < |at| ==> at[i] < |s| && sub[i] == s[at[i]])
    && (forall i, j :: 0 <= i < j < |at| ==> at[i] < at[j])
  }

  lemma {:induction false} ExceptAppend<T>(a: seq<T>, b: seq<T>, doomed: T -> bool)
    ensures Except(a + b, doomed) == Except(a, doomed) + Except(b, doomed)
  {
    if b == [] {
      assert a + b == a;
    } else {
      var last := |b| - 1;
      assert (a + b)[..|a| + last] == a + b[..last];
      ExceptAppend(a, b[..last], doomed);
    }
  }

  lemma {:induction false} ExceptNone<T>(s: seq<T>, doomed: T -> bool)
    requires forall k :: 0 <= k < |s| ==> !doomed(s[k])
    ensures Except(s, doomed) == s
  {
    if s != [] {
      ExceptNone(s[..|s| - 1], doomed);
    }
  }

  lemma {:induction false} ExceptAll<T>(s: seq<T>, doomed: T -> bool)
    requires forall k :: 0 <= k < |s| ==> doomed(s[k])
    ensures Except(s, doomed) == []
  {
    if s != [] {
      ExceptAll(s[..|s| - 1], doomed);
    }
  }

  lemma {:induction false} ExceptTwice<T>(s: seq<T>, first: T -> bool, second: T -> bool, either: T -> bool)
    requires forall x :: x in s ==> (either(x) <==> first(x) || second(x))
    ensures Except(Except(s, first), second) == Except(s, either)
  {
    if s != [] {
      var front, x := s[..|s| - 1], s[|s| - 1];
      ExceptTwice(front, first, second, either);
      if !first(x) {
        assert Except(s, first)[..|Except(front, first)|] == Except(front, first);
      } else {
        assert Except(s, first) == Except(front, first);
      }
    }
  }
}
