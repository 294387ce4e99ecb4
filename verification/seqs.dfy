/** Generic facts about sequences: order-preserving filters, interleavings and distinctness. */
module Seqs {

  /** The elements of `s` that satisfy `p`, in their original order (a list comprehension with a guard). */
  function Filter<T>(p: T -> bool, s: seq<T>): (r: seq<T>)
    ensures |r| <= |s|
    ensures forall i :: 0 <= i < |r| ==> r[i] in s && p(r[i])
    ensures forall i :: 0 <= i < |s| && p(s[i]) ==> s[i] in r
  {
    if |s| == 0 then [] else (if p(s[0]) then [s[0]] else []) + Filter(p, s[1..])
  }

  /** `s` is a merge of `a` and `b`: every element of `s` is taken, in order, from the front of one of them. */
  ghost predicate Interleaving<T>(s: seq<T>, a: seq<T>, b: seq<T>)
    decreases |s|
  {
    if |s| == 0 then a == [] && b == []
    else
      || (|a| > 0 && a[0] == s[0] && Interleaving(s[1..], a[1..], b))
      || (|b| > 0 && b[0] == s[0] && Interleaving(s[1..], a, b[1..]))
  }

  /** No value occurs twice in `s`. */
  ghost predicate Distinct<T>(s: seq<T>) {
    forall i, j :: 0 <= i < j < |s| ==> s[i] != s[j]
  }

  /** The set of values occurring in `s`. */
  function Elements<T>(s: seq<T>): set<T> {
    set x | x in s
  }

  /** Filtering a sequence extended at the back extends the filtered sequence at the back. */
  lemma {:induction false} FilterSnoc<T>(p: T -> bool, s: seq<T>, x: T)
    ensures Filter(p, s + [x]) == Filter(p, s) + (if p(x) then [x] else [])
  {
    if |s| == 0 {
      assert s + [x] == [x];
      assert [x][1..] == [];
    } else {
      assert (s + [x])[0] == s[0];
      assert (s + [x])[1..] == s[1..] + [x];
      FilterSnoc(p, s[1..], x);
    }
  }

  /** Filtering a sequence with a known head. */
  lemma FilterCons<T>(p: T -> bool, x: T, s: seq<T>)
    ensures Filter(p, [x] + s) == (if p(x) then [x] else []) + Filter(p, s)
  {
    assert ([x] + s)[0] == x && ([x] + s)[1..] == s;
  }

  /** One more step of a loop that filters a sequence front to back. */
  lemma FilterPrefixStep<T>(p: T -> bool, s: seq<T>, i: nat)
    requires i < |s|
    ensures Filter(p, s[..i + 1]) == Filter(p, s[..i]) + (if p(s[i]) then [s[i]] else [])
  {
    assert s[..i + 1] == s[..i] + [s[i]];
    FilterSnoc(p, s[..i], s[i]);
  }

  /** Two guards that agree on every element of `s` select the same elements. */
  lemma {:induction false} FilterCongruence<T>(p: T -> bool, q: T -> bool, s: seq<T>)
    requires forall i :: 0 <= i < |s| ==> p(s[i]) == q(s[i])
    ensures Filter(p, s) == Filter(q, s)
  {
    if |s| > 0 {
      FilterCongruence(p, q, s[1..]);
    }
  }

  /** A weaker guard never selects more elements. */
  lemma {:induction false} FilterCountMonotone<T>(p: T -> bool, q: T -> bool, s: seq<T>)
    requires forall i :: 0 <= i < |s| ==> p(s[i]) ==> q(s[i])
    ensures |Filter(p, s)| <= |Filter(q, s)|
  {
    if |s| > 0 {
      FilterCountMonotone(p, q, s[1..]);
    }
  }

  /** A guard that holds of every element keeps the whole sequence. */
  lemma {:induction false} FilterKeepsAll<T>(p: T -> bool, s: seq<T>)
    requires forall i :: 0 <= i < |s| ==> p(s[i])
    ensures Filter(p, s) == s
  {
    if |s| > 0 {
      FilterKeepsAll(p, s[1..]);
    }
  }

  /** Filtering by a guard and by its complement on `s` splits `s` into an interleaving of the two results. */
  lemma {:induction false} FilterPartition<T>(p: T -> bool, q: T -> bool, s: seq<T>)
    requires forall i :: 0 <= i < |s| ==> q(s[i]) == !p(s[i])
    ensures Interleaving(s, Filter(p, s), Filter(q, s))
    ensures |Filter(p, s)| + |Filter(q, s)| == |s|
  {
    if |s| > 0 {
      FilterPartition(p, q, s[1..]);
      if p(s[0]) {
        assert !q(s[0]);
        assert Filter(q, s) == Filter(q, s[1..]);
        assert Filter(p, s) == [s[0]] + Filter(p, s[1..]);
        assert Filter(p, s)[1..] == Filter(p, s[1..]);
      } else {
        assert q(s[0]);
        assert Filter(p, s) == Filter(p, s[1..]);
        assert Filter(q, s) == [s[0]] + Filter(q, s[1..]);
        assert Filter(q, s)[1..] == Filter(q, s[1..]);
      }
    }
  }

  /** An interleaving of `s` into a part satisfying `p` and a part satisfying the complement is unique: it is the pair of filters. */
  lemma {:induction false} InterleavingIsFilter<T>(p: T -> bool, q: T -> bool, s: seq<T>, a: seq<T>, b: seq<T>)
    requires forall i :: 0 <= i < |s| ==> q(s[i]) == !p(s[i])
    requires Interleaving(s, a, b)
    requires forall i :: 0 <= i < |a| ==> p(a[i])
    requires forall i :: 0 <= i < |b| ==> q(b[i])
    ensures a == Filter(p, s) && b == Filter(q, s)
  {
    if |s| > 0 {
      if p(s[0]) {
        assert !(|b| > 0 && b[0] == s[0]);
        assert forall i :: 0 <= i < |a[1..]| ==> p(a[1..][i]) by {
          forall i | 0 <= i < |a[1..]| ensures p(a[1..][i]) { assert a[1..][i] == a[i + 1]; }
        }
        InterleavingIsFilter(p, q, s[1..], a[1..], b);
        assert a == [a[0]] + a[1..];
      } else {
        assert !(|a| > 0 && a[0] == s[0]);
        assert forall i :: 0 <= i < |b[1..]| ==> q(b[1..][i]) by {
          forall i | 0 <= i < |b[1..]| ensures q(b[1..][i]) { assert b[1..][i] == b[i + 1]; }
        }
        InterleavingIsFilter(p, q, s[1..], a, b[1..]);
        assert b == [b[0]] + b[1..];
      }
    }
  }

  /** A sequence has as many distinct values as positions exactly when no value repeats. */
  lemma {:induction false} ElementsCardinality<T>(s: seq<T>)
    ensures |Elements(s)| <= |s|
    ensures |Elements(s)| == |s| <==> Distinct(s)
  {
    if |s| > 0 {
      ElementsCardinality(s[1..]);
      assert Elements(s) == {s[0]} + Elements(s[1..]);
      if s[0] in s[1..] {
        assert Elements(s) == Elements(s[1..]);
        var k :| 0 <= k < |s[1..]| && s[1..][k] == s[0];
        assert s[0] == s[k + 1];
        assert !Distinct(s);
      } else {
        assert s[0] !in Elements(s[1..]);
        assert |Elements(s)| == 1 + |Elements(s[1..])|;
        if Distinct(s[1..]) {
          forall i, j | 0 <= i < j < |s| ensures s[i] != s[j] {
            if i > 0 {
              assert s[i] == s[1..][i - 1] && s[j] == s[1..][j - 1];
            } else {
              assert s[j] == s[1..][j - 1];
            }
          }
        } else {
          var i, j :| 0 <= i < j < |s[1..]| && s[1..][i] == s[1..][j];
          assert s[i + 1] == s[j + 1];
        }
      }
    }
  }
}
