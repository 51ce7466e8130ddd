/** Array operations the pages build their state from: `filter`, the include-or-remove toggle of
    a selection, and an independent definition of "a subsequence in the original order". */
module Lists {

  /** `s.filter(p)`: the elements satisfying `p`, in their original order. */
  function Keep<T>(s: seq<T>, p: T -> bool): (r: seq<T>)
    ensures |r| <= |s|
    ensures forall i :: 0 <= i < |r| ==> r[i] in s && p(r[i])
    ensures forall i :: 0 <= i < |s| && p(s[i]) ==> s[i] in r
  {
    if s == [] then []
    else
      (if p(s[0]) then [s[0]] else []) + Keep(s[1..], p)
  }

  /** `x => x !== v`. */
  function Other<T(==)>(v: T): T -> bool
  {
    x => x != v
  }

  /** The positions `idx` pick `a` out of `b`, left to right. */
  ghost predicate IsEmbedding<T>(idx: seq<nat>, a: seq<T>, b: seq<T>)
  {
    |idx| == |a| &&
    (forall i :: 0 <= i < |idx| ==> idx[i] < |b| && b[idx[i]] == a[i]) &&
    (forall i, j :: 0 <= i < j < |idx| ==> idx[i] < idx[j])
  }

  /** `a` is `b` with some elements left out and the rest in the same order. */
  ghost predicate Subsequence<T>(a: seq<T>, b: seq<T>)
  {
    exists idx: seq<nat> :: IsEmbedding(idx, a, b)
  }

  function Shifted(idx: seq<nat>): (r: seq<nat>)
    ensures |r| == |idx| && forall i :: 0 <= i < |idx| ==> r[i] == idx[i] + 1
  {
    seq(|idx|, i requires 0 <= i < |idx| => idx[i] + 1)
  }

  /** Skipping a first element of `b` keeps an embedding, one position further on. */
  lemma EmbedSkip<T>(x: T, a: seq<T>, b: seq<T>, idx: seq<nat>)
    requires IsEmbedding(idx, a, b)
    ensures IsEmbedding(Shifted(idx), a, [x] + b)
  {
    var r := Shifted(idx);
    forall i | 0 <= i < |r| ensures r[i] < |[x] + b| && ([x] + b)[r[i]] == a[i] {
      assert ([x] + b)[r[i]] == b[idx[i]];
    }
  }

  /** A common first element extends an embedding. */
  lemma EmbedTake<T>(x: T, a: seq<T>, b: seq<T>, idx: seq<nat>)
    requires IsEmbedding(idx, a, b)
    ensures IsEmbedding([0] + Shifted(idx), [x] + a, [x] + b)
  {
    EmbedSkip(x, a, b, idx);
    var r := [0] + Shifted(idx);
    forall i | 0 < i < |r| ensures r[i] < |[x] + b| && ([x] + b)[r[i]] == ([x] + a)[i] {
      assert r[i] == Shifted(idx)[i - 1];
    }
  }

  /** Filtering never reorders: the result is a subsequence of the input. */
  lemma {:induction false} KeepSubsequence<T>(s: seq<T>, p: T -> bool)
    ensures Subsequence(Keep(s, p), s)
  {
    if s == [] {
      assert IsEmbedding([], Keep(s, p), s);
    } else {
      KeepSubsequence(s[1..], p);
      var rest := Keep(s[1..], p);
      var tail: seq<nat> :| IsEmbedding(tail, rest, s[1..]);
      assert s == [s[0]] + s[1..];
      if p(s[0]) {
        EmbedTake(s[0], rest, s[1..], tail);
        assert IsEmbedding([0] + Shifted(tail), Keep(s, p), s);
      } else {
        EmbedSkip(s[0], rest, s[1..], tail);
        assert IsEmbedding(Shifted(tail), Keep(s, p), s);
      }
    }
  }

  /** Filtering a concatenation filters each part. */
  lemma {:induction false} KeepAppend<T>(a: seq<T>, b: seq<T>, p: T -> bool)
    ensures Keep(a + b, p) == Keep(a, p) + Keep(b, p)
  {
    if a != [] {
      assert (a + b)[1..] == a[1..] + b;
      KeepAppend(a[1..], b, p);
    } else {
      assert a + b == b;
    }
  }

  /** A filter every element passes changes nothing. */
  lemma {:induction false} KeepAll<T>(s: seq<T>, p: T -> bool)
    requires forall i :: 0 <= i < |s| ==> p(s[i])
    ensures Keep(s, p) == s
  {
    if s != [] {
      KeepAll(s[1..], p);
    }
  }

  /** Filtering twice with the same test is filtering once. */
  lemma KeepIdempotent<T>(s: seq<T>, p: T -> bool)
    ensures Keep(Keep(s, p), p) == Keep(s, p)
  {
    var r := Keep(s, p);
    assert forall i :: 0 <= i < |r| ==> r[i] in r;
    KeepAll(r, p);
  }

  /** What a filter keeps and what the opposite filter keeps are, counted with multiplicity, the input. */
  lemma {:induction false} KeepPartition<T>(s: seq<T>, p: T -> bool, q: T -> bool)
    requires forall i :: 0 <= i < |s| ==> q(s[i]) == !p(s[i])
    ensures multiset(Keep(s, p)) + multiset(Keep(s, q)) == multiset(s)
  {
    if s != [] {
      KeepPartition(s[1..], p, q);
      assert s == [s[0]] + s[1..];
    }
  }

  /** No value occurs twice. */
  predicate NoDuplicates<T(==)>(s: seq<T>)
  {
    forall i, j :: 0 <= i < j < |s| ==> s[i] != s[j]
  }

  lemma {:induction false} KeepNoDuplicates<T>(s: seq<T>, p: T -> bool)
    requires NoDuplicates(s)
    ensures NoDuplicates(Keep(s, p))
  {
    if s != [] {
      assert NoDuplicates(s[1..]) by {
        forall i, j | 0 <= i < j < |s| - 1 ensures s[1..][i] != s[1..][j] {
          assert s[1..][i] == s[i + 1] && s[1..][j] == s[j + 1];
        }
      }
      KeepNoDuplicates(s[1..], p);
      var rest := Keep(s[1..], p);
      if p(s[0]) {
        assert s[0] !in s[1..] by {
          forall k | 0 <= k < |s| - 1 ensures s[1..][k] != s[0] {
            assert s[1..][k] == s[k + 1];
          }
        }
        assert s[0] !in rest;
        var r := [s[0]] + rest;
        forall i, j | 0 <= i < j < |r| ensures r[i] != r[j] {
          if i == 0 {
            assert r[j] == rest[j - 1];
            assert r[j] in rest;
          } else {
            assert r[i] == rest[i - 1] && r[j] == rest[j - 1];
          }
        }
      }
    }
  }

  /* ---------------- selections ---------------- */

  /** `prev.includes(v) ? prev.filter(x => x !== v) : [...prev, v]`. */
  function Toggle<T(==)>(s: seq<T>, v: T): seq<T>
  {
    if v in s then Keep(s, Other(v)) else s + [v]
  }

  /** Toggling flips whether the value is selected. */
  lemma ToggleFlips<T>(s: seq<T>, v: T)
    ensures v in Toggle(s, v) <==> v !in s
  {
  }

  /** A value absent from the selection is appended at the end; a present one disappears entirely. */
  lemma ToggleAppendsOrRemoves<T>(s: seq<T>, v: T)
    ensures v !in s ==> Toggle(s, v) == s + [v]
    ensures v in s ==> forall i :: 0 <= i < |Toggle(s, v)| ==> Toggle(s, v)[i] != v
  {
    if v in s {
      var r := Toggle(s, v);
      assert forall i :: 0 <= i < |r| ==> r[i] in r;
    }
  }

  /** Every other value keeps its membership, its number of occurrences and its relative order. */
  lemma ToggleKeepsOthers<T>(s: seq<T>, v: T)
    ensures forall x :: x != v ==> (x in Toggle(s, v) <==> x in s)
    ensures Keep(Toggle(s, v), Other(v)) == Keep(s, Other(v))
  {
    if v in s {
      KeepIdempotent(s, Other(v));
    } else {
      KeepAppend(s, [v], Other(v));
      assert Keep([v], Other(v)) == [];
    }
  }

  /** A selection without repeats stays without repeats. */
  lemma ToggleNoDuplicates<T>(s: seq<T>, v: T)
    requires NoDuplicates(s)
    ensures NoDuplicates(Toggle(s, v))
  {
    if v in s {
      KeepNoDuplicates(s, Other(v));
    } else {
      var r := s + [v];
      forall i, j | 0 <= i < j < |r| ensures r[i] != r[j] {
        if j == |s| {
          assert r[i] == s[i];
        }
      }
    }
  }

  /** Selecting a value and then deselecting it gives the selection back. */
  lemma ToggleTwice<T>(s: seq<T>, v: T)
    requires v !in s
    ensures Toggle(Toggle(s, v), v) == s
  {
    KeepAppend(s, [v], Other(v));
    assert Keep([v], Other(v)) == [];
    KeepAll(s, Other(v));
  }
}
