/** Wrapper datatypes and the few facts about sequences that several models share. */
module Common {

  datatype Option<+T> = None | Some(value: T)

  datatype Result<+T, +E> = Ok(value: T) | Err(error: E)

  lemma SliceOfSlice<T>(s: seq<T>, i: nat, j: nat, a: nat, b: nat)
    requires i <= j <= |s| && a <= b <= j - i
    ensures s[i..j][a..b] == s[i + a..i + b]
  {
    var inner, direct := s[i..j][a..b], s[i + a..i + b];
    forall k | 0 <= k < b - a ensures inner[k] == direct[k] {
      assert inner[k] == s[i..j][a + k];
    }
  }

  ghost predicate NoDup<T(!new)>(s: seq<T>) {
    forall i, j :: 0 <= i < j < |s| ==> s[i] != s[j]
  }

  /** `a` is obtained from `b` by deleting elements. */
  ghost predicate IsSubsequence<T(!new)>(a: seq<T>, b: seq<T>)
    decreases |b|
  {
    a == [] || (
      b != [] && (
        (a[|a| - 1] == b[|b| - 1] && IsSubsequence(a[..|a| - 1], b[..|b| - 1]))
        || IsSubsequence(a, b[..|b| - 1])))
  }

  lemma {:induction false} SubsequenceRefl<T(!new)>(a: seq<T>)
    ensures IsSubsequence(a, a)
  {
    if a != [] {
      SubsequenceRefl(a[..|a| - 1]);
    }
  }

  lemma SubsequenceSnoc<T(!new)>(a: seq<T>, b: seq<T>, x: T)
    requires IsSubsequence(a, b)
    ensures IsSubsequence(a + [x], b + [x])
    ensures IsSubsequence(a, b + [x])
  {
  }

  lemma {:induction false} SubsequenceTrans<T(!new)>(a: seq<T>, b: seq<T>, c: seq<T>)
    requires IsSubsequence(a, b) && IsSubsequence(b, c)
    ensures IsSubsequence(a, c)
    decreases |c|
  {
    if a != [] && b != [] {
      var c' := c[..|c| - 1];
      if b[|b| - 1] == c[|c| - 1] && IsSubsequence(b[..|b| - 1], c') {
        if a[|a| - 1] == b[|b| - 1] && IsSubsequence(a[..|a| - 1], b[..|b| - 1]) {
          SubsequenceTrans(a[..|a| - 1], b[..|b| - 1], c');
        } else {
          SubsequenceTrans(a, b[..|b| - 1], c');
        }
      } else {
        SubsequenceTrans(a, b, c');
      }
    }
  }

  lemma {:induction false} SubsequencePrepend<T(!new)>(head: seq<T>, a: seq<T>, b: seq<T>)
    requires IsSubsequence(a, b)
    ensures IsSubsequence(head + a, head + b)
    decreases |b|
  {
    if b == [] {
      SubsequenceRefl(head + b);
    } else {
      var b', last := b[..|b| - 1], b[|b| - 1];
      assert head + b == (head + b') + [last];
      if a != [] && a[|a| - 1] == last && IsSubsequence(a[..|a| - 1], b') {
        assert head + a == (head + a[..|a| - 1]) + [last];
        SubsequencePrepend(head, a[..|a| - 1], b');
        SubsequenceSnoc(head + a[..|a| - 1], head + b', last);
      } else {
        SubsequencePrepend(head, a, b');
        SubsequenceSnoc(head + a, head + b', last);
      }
    }
  }

  lemma {:induction false} SubsequenceElements<T(!new)>(a: seq<T>, b: seq<T>)
    requires IsSubsequence(a, b)
    ensures forall x :: x in a ==> x in b
    ensures NoDup(b) ==> NoDup(a)
    decreases |b|
  {
    if a != [] {
      var a', b' := a[..|a| - 1], b[..|b| - 1];
      if a[|a| - 1] == b[|b| - 1] && IsSubsequence(a', b') {
        SubsequenceElements(a', b');
        assert a == a' + [a[|a| - 1]];
        if NoDup(b) {
          forall i | 0 <= i < |a'| ensures a[i] != a[|a| - 1] {
            assert a[i] == a'[i] && a'[i] in b';
          }
        }
      } else {
        SubsequenceElements(a, b');
      }
    }
  }

  /** A subsequence keeps the order of a sequence without duplicates. */
  lemma {:induction false} SubsequenceOrder<T(!new)>(a: seq<T>, b: seq<T>, p: nat, q: nat, x: nat, y: nat)
    requires IsSubsequence(a, b) && NoDup(b)
    requires p < q < |a| && x < |b| && y < |b| && a[p] == b[x] && a[q] == b[y]
    ensures x < y
    decreases |b|
  {
    var a', b' := a[..|a| - 1], b[..|b| - 1];
    if a[|a| - 1] == b[|b| - 1] && IsSubsequence(a', b') {
      SubsequenceElements(a', b');
      assert a[p] == a'[p] && a'[p] in b';
      if y < |b'| {
        SubsequenceElements(a, b);
        assert x < |b'| && q < |a'|;
        SubsequenceOrder(a', b', p, q, x, y);
      }
    } else {
      SubsequenceElements(a, b');
      assert a[p] in b' && a[q] in b';
      SubsequenceOrder(a, b', p, q, x, y);
    }
  }
}
