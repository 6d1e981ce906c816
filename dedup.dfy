/**
  `Vec::dedup`: removes consecutive repeated elements, keeping the first of
  every run of equal neighbours. Non-adjacent repeats are kept.
*/
module VecDedup {

  /** The specification: the result of deduplicating `s`, built from its last element backwards. */
  function Dedup<T(==)>(s: seq<T>): (r: seq<T>)
    ensures |r| <= |s|
    ensures s != [] ==> r != [] && r[|r| - 1] == s[|s| - 1]
    decreases |s|
  {
    if |s| <= 1 then s
    else if s[|s| - 1] == s[|s| - 2] then Dedup(s[..|s| - 1])
    else Dedup(s[..|s| - 1]) + [s[|s| - 1]]
  }

  ghost predicate NoAdjacentDuplicates<T>(s: seq<T>) {
    forall i, j :: 0 <= i && j == i + 1 && j < |s| ==> s[i] != s[j]
  }

  /** Position `i` starts a run: it is first, or differs from its left neighbour. */
  ghost predicate RunStart<T>(s: seq<T>, i: nat)
    requires i < |s|
  {
    i == 0 || s[i - 1] != s[i]
  }

  /** `s` without every element that already occurs to its left. */
  ghost function FirstAppearances<T>(s: seq<T>): seq<T>
    decreases |s|
  {
    if s == [] then []
    else if s[|s| - 1] in s[..|s| - 1] then FirstAppearances(s[..|s| - 1])
    else FirstAppearances(s[..|s| - 1]) + [s[|s| - 1]]
  }

  /**
    Deduplication in place, as `Vec::dedup` does it: a read position scans
    the array and a write position collects the elements that differ from
    the last one kept. The new length is returned (the vector is truncated
    to it); `a[..len]` is the deduplicated vector.
  */
  method DedupInPlace<T(==)>(a: array<T>) returns (len: nat)
    modifies a
    ensures len <= a.Length
    ensures a[..len] == Dedup(old(a[..]))
  {
    ghost var s := a[..];
    if a.Length == 0 {
      return 0;
    }
    len := 1;
    var read := 1;
    while read < a.Length
      invariant 1 <= len <= read <= a.Length
      invariant a[..len] == Dedup(s[..read])
      invariant forall j :: read <= j < a.Length ==> a[j] == s[j]
      invariant a[len - 1] == s[read - 1]
    {
      assert s[..read + 1][..read] == s[..read];
      assert a[read] == s[read];
      if a[read] != a[len - 1] {
        a[len] := a[read];
        len := len + 1;
      }
      read := read + 1;
    }
    assert s[..read] == s;
  }

  /** After deduplication no two neighbours are equal. */
  lemma {:induction false} DedupHasNoAdjacentDuplicates<T>(s: seq<T>)
    ensures NoAdjacentDuplicates(Dedup(s))
  {
    if |s| > 1 {
      DedupHasNoAdjacentDuplicates(s[..|s| - 1]);
    }
  }

  /**
    `idx` lists, in increasing order, every run start of `s` and nothing
    else, and `d` holds the elements of `s` at those positions.
  */
  ghost predicate RunStartsAt<T>(s: seq<T>, d: seq<T>, idx: seq<nat>) {
    && |idx| == |d|
    && (forall k :: 0 <= k < |idx| ==> idx[k] < |s| && s[idx[k]] == d[k] && RunStart(s, idx[k]))
    && (forall k, l :: 0 <= k < l < |idx| ==> idx[k] < idx[l])
    && (forall i :: 0 <= i < |s| && RunStart(s, i) ==> i in idx)
  }

  /**
    The result keeps exactly the run starts of `s`, in order: `idx` lists
    their positions, increasing, and every run start is listed. So the result
    is a subsequence of `s` that keeps the first element of every run.
  */
  lemma {:induction false} DedupKeepsRunStarts<T>(s: seq<T>) returns (idx: seq<nat>)
    ensures RunStartsAt(s, Dedup(s), idx)
  {
    if |s| == 0 {
      idx := [];
    } else if |s| == 1 {
      idx := [0];
    } else {
      var prev := DedupKeepsRunStarts(s[..|s| - 1]);
      if s[|s| - 1] == s[|s| - 2] {
        RepeatIsNoRunStart(s, Dedup(s[..|s| - 1]), prev);
        idx := prev;
      } else {
        ChangeIsRunStart(s, Dedup(s[..|s| - 1]), prev);
        idx := prev + [|s| - 1];
      }
    }
  }

  lemma RepeatIsNoRunStart<T>(s: seq<T>, d: seq<T>, prev: seq<nat>)
    requires |s| > 1 && s[|s| - 1] == s[|s| - 2]
    requires RunStartsAt(s[..|s| - 1], d, prev)
    ensures RunStartsAt(s, d, prev)
  {
    var init := s[..|s| - 1];
    forall i | 0 <= i < |s| && RunStart(s, i)
      ensures i in prev
    {
      assert i < |s| - 1 && RunStart(init, i);
    }
  }

  lemma ChangeIsRunStart<T>(s: seq<T>, d: seq<T>, prev: seq<nat>)
    requires |s| > 1 && s[|s| - 1] != s[|s| - 2]
    requires RunStartsAt(s[..|s| - 1], d, prev)
    ensures RunStartsAt(s, d + [s[|s| - 1]], prev + [|s| - 1])
  {
    var init := s[..|s| - 1];
    var idx := prev + [|s| - 1];
    var d' := d + [s[|s| - 1]];
    forall k | 0 <= k < |idx|
      ensures idx[k] < |s| && s[idx[k]] == d'[k] && RunStart(s, idx[k])
    {
      if k < |prev| {
        var j := prev[k];
        assert idx[k] == j < |s| - 1;
        assert RunStart(init, j);
        assert init[j] == s[j] && (j > 0 ==> init[j - 1] == s[j - 1]);
      } else {
        assert idx[k] == |s| - 1;
      }
    }
    forall i | 0 <= i < |s| && RunStart(s, i)
      ensures i in idx
    {
      if i < |s| - 1 {
        assert RunStart(init, i);
      }
    }
  }

  /** Deduplication neither loses nor invents elements. */
  lemma {:induction false} DedupSameElements<T>(s: seq<T>, x: T)
    ensures x in Dedup(s) <==> x in s
  {
    if |s| > 1 {
      var init := s[..|s| - 1];
      DedupSameElements(init, x);
      assert s == init + [s[|s| - 1]];
    }
  }

  /** Deduplication keeps the order in which the distinct elements first appear. */
  lemma {:induction false} DedupKeepsFirstAppearances<T>(s: seq<T>)
    ensures FirstAppearances(Dedup(s)) == FirstAppearances(s)
  {
    if |s| > 1 {
      var init := s[..|s| - 1];
      var last := s[|s| - 1];
      DedupKeepsFirstAppearances(init);
      DedupSameElements(init, last);
      if last != s[|s| - 2] {
        var d := Dedup(init) + [last];
        assert d[..|d| - 1] == Dedup(init);
      }
    }
  }

  /** A sequence is left unchanged exactly when it has no equal neighbours: non-adjacent repeats survive. */
  lemma {:induction false} DedupFixedPoints<T>(s: seq<T>)
    ensures Dedup(s) == s <==> NoAdjacentDuplicates(s)
  {
    if NoAdjacentDuplicates(s) {
      DedupOfDuplicateFree(s);
    } else {
      DedupHasNoAdjacentDuplicates(s);
    }
  }

  lemma {:induction false} DedupOfDuplicateFree<T>(s: seq<T>)
    requires NoAdjacentDuplicates(s)
    ensures Dedup(s) == s
  {
    if |s| > 1 {
      var init := s[..|s| - 1];
      assert NoAdjacentDuplicates(init);
      DedupOfDuplicateFree(init);
      assert s[|s| - 2] != s[|s| - 1];
      assert init + [s[|s| - 1]] == s;
    }
  }

  /** Deduplicating twice changes nothing more. */
  lemma DedupIdempotent<T>(s: seq<T>)
    ensures Dedup(Dedup(s)) == Dedup(s)
  {
    DedupHasNoAdjacentDuplicates(s);
    DedupOfDuplicateFree(Dedup(s));
  }

  /** Appending one element: it is dropped when it repeats the last element, kept otherwise. */
  lemma DedupSnoc<T>(u: seq<T>, x: T)
    ensures Dedup(u + [x]) == if u != [] && u[|u| - 1] == x then Dedup(u) else Dedup(u) + [x]
  {
    var ux := u + [x];
    assert ux[..|ux| - 1] == u;
  }

  /** Two pieces whose meeting neighbours differ deduplicate independently. */
  lemma {:induction false} DedupAppend<T>(a: seq<T>, b: seq<T>)
    requires a != [] && b != [] && a[|a| - 1] != b[0]
    ensures Dedup(a + b) == Dedup(a) + Dedup(b)
    decreases |b|
  {
    if |b| == 1 {
      DedupSnoc(a, b[0]);
      assert b == [] + [b[0]];
    } else {
      DedupAppend(a, b[..|b| - 1]);
      DedupAppendStep(a, b);
    }
  }

  /** The inductive step of DedupAppend: from the pieces `a` and `b` without its last element to `a` and `b`. */
  lemma DedupAppendStep<T>(a: seq<T>, b: seq<T>)
    requires a != [] && |b| > 1
    requires Dedup(a + b[..|b| - 1]) == Dedup(a) + Dedup(b[..|b| - 1])
    ensures Dedup(a + b) == Dedup(a) + Dedup(b)
  {
    var init, last := b[..|b| - 1], b[|b| - 1];
    var ai := a + init;
    var repeat := init[|init| - 1] == last;
    assert ai[|ai| - 1] == init[|init| - 1];
    calc {
      Dedup(a + b);
    == { AppendLast(a, b); }
      Dedup(ai + [last]);
    == { DedupSnoc(ai, last); }
      if repeat then Dedup(ai) else Dedup(ai) + [last];
    ==
      if repeat then Dedup(a) + Dedup(init) else (Dedup(a) + Dedup(init)) + [last];
    ==
      Dedup(a) + (if repeat then Dedup(init) else Dedup(init) + [last]);
    == { DedupSnoc(init, last); }
      Dedup(a) + Dedup(init + [last]);
    == { AppendLast(a, b); }
      Dedup(a) + Dedup(b);
    }
  }

  lemma AppendLast<T>(a: seq<T>, b: seq<T>)
    requires b != []
    ensures b == b[..|b| - 1] + [b[|b| - 1]]
    ensures a + b == (a + b[..|b| - 1]) + [b[|b| - 1]]
  {
  }

  /** A run of one repeated element deduplicates to that element. */
  lemma {:induction false} DedupOfRun<T>(x: T, n: nat)
    requires n > 0
    ensures Dedup(seq(n, _ => x)) == [x]
  {
    if n > 1 {
      var run := seq(n, _ => x);
      assert run[..n - 1] == seq(n - 1, _ => x);
      DedupOfRun(x, n - 1);
    }
  }
}
