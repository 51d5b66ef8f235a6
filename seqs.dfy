/** Order-preserving filtering and the few sequence facts the scans rely on. */
module Seqs {

  /** No element occurs twice. */
  predicate Distinct<T(==)>(s: seq<T>) {
    forall i, j :: 0 <= i < j < |s| ==> s[i] != s[j]
  }

  /** The elements of `s` that satisfy `p`, in their original order. */
  function Filter<T>(s: seq<T>, p: T -> bool): (r: seq<T>)
    ensures |r| <= |s|
  {
    if |s| == 0 then [] else (if p(s[0]) then [s[0]] else []) + Filter(s[1..], p)
  }

  /** The filtered sequence holds exactly the elements that satisfy `p`. */
  lemma {:induction false} FilterMembers<T>(s: seq<T>, p: T -> bool)
    ensures forall x :: x in Filter(s, p) <==> x in s && p(x)
  {
    if |s| > 0 {
      FilterMembers(s[1..], p);
      assert s == [s[0]] + s[1..];
    }
  }

  /** One more element at the front of a suffix that is being filtered. */
  lemma FilterFrom<T>(s: seq<T>, i: nat, p: T -> bool)
    requires i < |s|
    ensures Filter(s[i..], p) == (if p(s[i]) then [s[i]] else []) + Filter(s[i + 1..], p)
  {
    assert s[i..][1..] == s[i + 1..];
  }

  /** One step of a scan that runs from the last index down and filters as
      it goes: with the part above `i` already filtered, the element at `i`
      is still in place, and keeping it or cutting it out of the sequence
      extends the filtered part by one. */
  lemma FilterStep<T>(s: seq<T>, i: nat, p: T -> bool)
    requires i < |s|
    ensures var c := s[..i + 1] + Filter(s[i + 1..], p);
      i < |c| && c[i] == s[i] && c[..i] == s[..i]
      && (p(s[i]) ==> c == s[..i] + Filter(s[i..], p))
      && (!p(s[i]) ==> c[..i] + c[i + 1..] == s[..i] + Filter(s[i..], p))
  {
    var rest := Filter(s[i + 1..], p);
    FilterFrom(s, i, p);
    var c := s[..i + 1] + rest;
    assert c == s[..i] + [s[i]] + rest;
    assert c[..i] == s[..i];
    if !p(s[i]) {
      assert c[..i] + c[i + 1..] == s[..i] + rest;
    }
  }

  lemma {:induction false} FilterAppend<T>(a: seq<T>, b: seq<T>, p: T -> bool)
    ensures Filter(a + b, p) == Filter(a, p) + Filter(b, p)
  {
    if |a| > 0 {
      assert (a + b)[1..] == a[1..] + b;
      FilterAppend(a[1..], b, p);
    } else {
      assert a + b == b;
    }
  }

  lemma {:induction false} FilterIdempotent<T>(s: seq<T>, p: T -> bool)
    ensures Filter(Filter(s, p), p) == Filter(s, p)
  {
    if |s| > 0 {
      FilterIdempotent(s[1..], p);
      var head := if p(s[0]) then [s[0]] else [];
      FilterAppend(head, Filter(s[1..], p), p);
      assert Filter(head, p) == head by {
        if p(s[0]) { assert head[1..] == []; }
      }
    }
  }

  lemma {:induction false} FilterKeepsAll<T>(s: seq<T>, p: T -> bool)
    requires forall i :: 0 <= i < |s| ==> p(s[i])
    ensures Filter(s, p) == s
  {
    if |s| > 0 {
      FilterKeepsAll(s[1..], p);
      assert s == [s[0]] + s[1..];
    }
  }

  lemma {:induction false} FilterDistinct<T>(s: seq<T>, p: T -> bool)
    requires Distinct(s)
    ensures Distinct(Filter(s, p))
  {
    if |s| > 0 {
      assert Distinct(s[1..]) by {
        forall i, j | 0 <= i < j < |s[1..]| ensures s[1..][i] != s[1..][j] {
          assert s[1..][i] == s[i + 1] && s[1..][j] == s[j + 1];
        }
      }
      FilterDistinct(s[1..], p);
      FilterMembers(s[1..], p);
      assert s[0] !in s[1..] by {
        forall j | 0 <= j < |s[1..]| ensures s[1..][j] != s[0] {
          assert s[1..][j] == s[j + 1];
        }
      }
    }
  }

  /** The test "differs from `v`", as a value that filters can share. */
  function Other<T(==)>(v: T): T -> bool {
    x => x != v
  }

  /** Dropping the element at index `i` of a sequence without repetitions
      is filtering out its value. */
  lemma {:induction false} FilterOutAt<T>(s: seq<T>, i: nat)
    requires Distinct(s) && i < |s|
    ensures Filter(s, Other(s[i])) == s[..i] + s[i + 1..]
  {
    var p := Other(s[i]);
    var front, back := s[..i], s[i + 1..];
    assert Filter(front, p) == front by {
      forall j | 0 <= j < |front| ensures p(front[j]) {
        assert front[j] == s[j];
      }
      FilterKeepsAll(front, p);
    }
    assert Filter([s[i]] + back, p) == back by {
      forall j | 0 <= j < |back| ensures p(back[j]) {
        assert back[j] == s[i + 1 + j];
      }
      FilterKeepsAll(back, p);
      assert ([s[i]] + back)[1..] == back;
    }
    assert s == front + ([s[i]] + back);
    FilterAppend(front, [s[i]] + back, p);
  }
}
