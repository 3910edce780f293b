/** Order-preserving subsequences. */
module Sequences {

  function Last<T>(s: seq<T>): (x: T)
    requires s != []
    ensures x in s
  {
    s[|s| - 1]
  }

  function Front<T>(s: seq<T>): (f: seq<T>)
    requires s != []
    ensures s == f + [Last(s)] && |f| == |s| - 1
  {
    s[..|s| - 1]
  }

  lemma PrefixSnoc<T>(s: seq<T>, k: nat)
    requires k < |s|
    ensures s[..k] + [s[k]] <= s
  {
    assert s[..k] + [s[k]] == s[..k + 1];
  }

  /** `a` can be obtained from `b` by deleting elements. */
  ghost predicate Subsequence<T>(a: seq<T>, b: seq<T>)
    decreases |b|
  {
    if a == [] then true
    else if b == [] then false
    else (Last(a) == Last(b) && Subsequence(Front(a), Front(b))) || Subsequence(a, Front(b))
  }

  lemma SkipLast<T>(a: seq<T>, b: seq<T>, x: T)
    requires Subsequence(a, b)
    ensures Subsequence(a, b + [x])
  {
    assert Front(b + [x]) == b;
  }

  lemma KeepLast<T>(a: seq<T>, b: seq<T>, x: T)
    requires Subsequence(a, b)
    ensures Subsequence(a + [x], b + [x])
  {
    assert Front(a + [x]) == a && Front(b + [x]) == b;
  }

  lemma {:induction false} ForgetLast<T>(a: seq<T>, b: seq<T>)
    requires a != [] && Subsequence(a, b)
    ensures Subsequence(Front(a), b)
    decreases |b|
  {
    if Last(a) == Last(b) && Subsequence(Front(a), Front(b)) {
      SkipLast(Front(a), Front(b), Last(b));
    } else {
      ForgetLast(a, Front(b));
      SkipLast(Front(a), Front(b), Last(b));
    }
  }

  lemma {:induction false} PrefixIsSubsequence<T>(a: seq<T>, b: seq<T>)
    requires a <= b
    ensures Subsequence(a, b)
    decreases |b|
  {
    if a != [] {
      if |a| == |b| {
        PrefixIsSubsequence(Front(a), Front(b));
      } else {
        PrefixIsSubsequence(a, Front(b));
      }
    }
  }

  lemma {:induction false} Transitive<T>(a: seq<T>, b: seq<T>, c: seq<T>)
    requires Subsequence(a, b) && Subsequence(b, c)
    ensures Subsequence(a, c)
    decreases |c|
  {
    if a != [] {
      if Subsequence(b, Front(c)) {
        Transitive(a, b, Front(c));
      } else if Last(a) == Last(b) && Subsequence(Front(a), Front(b)) {
        Transitive(Front(a), Front(b), Front(c));
      } else {
        Transitive(a, Front(b), Front(c));
      }
    }
  }

  lemma {:induction false} SubsequenceIsShorter<T>(a: seq<T>, b: seq<T>)
    requires Subsequence(a, b)
    ensures |a| <= |b| && (|a| == |b| ==> a == b)
    decreases |b|
  {
    if a != [] {
      if Subsequence(a, Front(b)) {
        SubsequenceIsShorter(a, Front(b));
      } else {
        SubsequenceIsShorter(Front(a), Front(b));
      }
    }
  }

  lemma {:induction false} MembersCarry<T>(a: seq<T>, b: seq<T>, x: T)
    requires Subsequence(a, b) && x in a
    ensures x in b
    decreases |b|
  {
    if Last(a) == Last(b) && Subsequence(Front(a), Front(b)) {
      if x != Last(a) { MembersCarry(Front(a), Front(b), x); }
    } else {
      MembersCarry(a, Front(b), x);
    }
  }

  /** The defining reading: strictly increasing positions that pick `a` out of `b`. */
  ghost predicate Picks<T>(positions: seq<nat>, a: seq<T>, b: seq<T>) {
    && |positions| == |a|
    && (forall i, j :: 0 <= i < j < |a| ==> positions[i] < positions[j])
    && (forall i :: 0 <= i < |a| ==> positions[i] < |b| && a[i] == b[positions[i]])
  }

  lemma PicksOn<T>(before: seq<nat>, a: seq<T>, b: seq<T>, x: T, keep: bool) returns (positions: seq<nat>)
    requires Picks(before, a, b)
    ensures Picks(positions, a + (if keep then [x] else []), b + [x])
    ensures forall i: nat :: i in positions <==> i in before || (keep && i == |b|)
  {
    if keep {
      positions := before + [|b|];
      assert forall i :: 0 <= i < |a| ==> (a + [x])[i] == a[i] && positions[i] == before[i];
    } else {
      positions := before;
      assert a + [] == a;
    }
  }

  lemma {:induction false} PositionsOf<T>(a: seq<T>, b: seq<T>) returns (positions: seq<nat>)
    requires Subsequence(a, b)
    ensures Picks(positions, a, b)
    decreases |b|
  {
    if a == [] {
      positions := [];
    } else if Subsequence(a, Front(b)) {
      positions := PositionsOf(a, Front(b));
    } else {
      var p := PositionsOf(Front(a), Front(b));
      positions := p + [|b| - 1];
      assert forall i :: 0 <= i < |a| - 1 ==> a[i] == Front(a)[i];
    }
  }

  lemma {:induction false} PicksIsSubsequence<T>(positions: seq<nat>, a: seq<T>, b: seq<T>)
    requires Picks(positions, a, b)
    ensures Subsequence(a, b)
    decreases |b|
  {
    if a != [] {
      assert positions[|a| - 1] < |b|;
      if positions[|a| - 1] == |b| - 1 {
        PicksIsSubsequence(Front(positions), Front(a), Front(b));
      } else {
        PicksIsSubsequence(positions, a, Front(b));
      }
    }
  }

  lemma SubsequenceHasPositions<T>(a: seq<T>, b: seq<T>)
    ensures Subsequence(a, b) <==> exists positions :: Picks(positions, a, b)
  {
    if Subsequence(a, b) {
      var p := PositionsOf(a, b);
    }
    if p :| Picks(p, a, b) {
      PicksIsSubsequence(p, a, b);
    }
  }
}
