/**
 * Python's default ordering of `str` values and `sorted(list(s))` for a set
 * `s` of strings.
 *
 * Python compares two strings code point by code point; at the first
 * difference the smaller code point decides, and a proper prefix comes first.
 * Dafny's `<` on strings means "proper prefix", so the order is written out.
 */
module StringOrder {

  /** Python's `a < b` on `str`. */
  predicate Below(a: string, b: string)
    ensures Below(a, b) ==> a != b
    ensures |a| < |b| && a == b[..|a|] ==> Below(a, b)
    ensures a != [] && b != [] && a[0] < b[0] ==> Below(a, b)
    decreases |a|
  {
    if a == [] then b != []
    else if b == [] then false
    else if a[0] == b[0] then Below(a[1..], b[1..])
    else a[0] < b[0]
  }

  /**
   * Python's order, stated without recursion: `a` and `b` agree on their
   * first `k` characters, and then either `a` ends while `b` goes on, or
   * both go on and `a`'s next character is the smaller one.
   */
  ghost predicate LexicographicallyBefore(a: string, b: string) {
    exists k :: 0 <= k <= |a| && k <= |b| && a[..k] == b[..k] && DecidesAt(a, b, k)
  }

  /** Position `k`, reached after a common prefix, puts `a` before `b`. */
  predicate DecidesAt(a: string, b: string, k: nat)
    requires k <= |a| && k <= |b|
  {
    (k == |a| && k < |b|) || (k < |a| && k < |b| && a[k] < b[k])
  }

  lemma {:induction false} BelowIsLexicographic(a: string, b: string)
    ensures Below(a, b) <==> LexicographicallyBefore(a, b)
    decreases |a|
  {
    if a == [] || b == [] {
      if Below(a, b) {
        assert a[..0] == b[..0] && DecidesAt(a, b, 0);
      }
      if LexicographicallyBefore(a, b) {
        var k :| 0 <= k <= |a| && k <= |b| && a[..k] == b[..k] && DecidesAt(a, b, k);
        assert k == 0;
      }
    } else if a[0] != b[0] {
      if Below(a, b) {
        assert a[..0] == b[..0] && DecidesAt(a, b, 0);
      }
      if LexicographicallyBefore(a, b) {
        var k :| 0 <= k <= |a| && k <= |b| && a[..k] == b[..k] && DecidesAt(a, b, k);
        assert k == 0;
      }
    } else {
      BelowIsLexicographic(a[1..], b[1..]);
      if Below(a, b) {
        var k :| 0 <= k <= |a[1..]| && k <= |b[1..]| && a[1..][..k] == b[1..][..k] && DecidesAt(a[1..], b[1..], k);
        assert a[..k + 1] == [a[0]] + a[1..][..k];
        assert b[..k + 1] == [b[0]] + b[1..][..k];
        assert DecidesAt(a, b, k + 1);
      }
      if LexicographicallyBefore(a, b) {
        var k :| 0 <= k <= |a| && k <= |b| && a[..k] == b[..k] && DecidesAt(a, b, k);
        assert k > 0;
        assert a[1..][..k - 1] == a[..k][1..];
        assert b[1..][..k - 1] == b[..k][1..];
        assert DecidesAt(a[1..], b[1..], k - 1);
      }
    }
  }

  lemma {:induction false} BelowIrreflexive(a: string)
    ensures !Below(a, a)
    decreases |a|
  {
    if a != [] {
      BelowIrreflexive(a[1..]);
    }
  }

  lemma {:induction false} BelowTransitive(a: string, b: string, c: string)
    requires Below(a, b) && Below(b, c)
    ensures Below(a, c)
    decreases |a|
  {
    if a != [] && a[0] == b[0] && b[0] == c[0] {
      BelowTransitive(a[1..], b[1..], c[1..]);
    }
  }

  lemma {:induction false} BelowAsymmetric(a: string, b: string)
    requires Below(a, b)
    ensures !Below(b, a)
    decreases |a|
  {
    if a != [] && a[0] == b[0] {
      BelowAsymmetric(a[1..], b[1..]);
    }
  }

  lemma {:induction false} BelowTotal(a: string, b: string)
    ensures a == b || Below(a, b) || Below(b, a)
    decreases |a|
  {
    if a != [] && b != [] && a[0] == b[0] {
      BelowTotal(a[1..], b[1..]);
      if a[1..] == b[1..] {
        assert a == [a[0]] + a[1..] && b == [b[0]] + b[1..];
      }
    }
  }

  /** `r` is in ascending order with no repeated element. */
  predicate StrictlySorted(r: seq<string>) {
    forall i, j :: 0 <= i < j < |r| ==> Below(r[i], r[j])
  }

  lemma StrictlySortedDistinct(r: seq<string>)
    requires StrictlySorted(r)
    ensures forall i, j :: 0 <= i < |r| && 0 <= j < |r| && i != j ==> r[i] != r[j]
  {
    forall i, j | 0 <= i < |r| && 0 <= j < |r| && i != j
      ensures r[i] != r[j]
    {
      if i < j { BelowIrreflexive(r[i]); } else { BelowIrreflexive(r[j]); }
    }
  }

  /** `m` comes before every other element of `s`. */
  predicate IsLeast(m: string, s: set<string>) {
    m in s && forall x :: x in s && x != m ==> Below(m, x)
  }

  lemma {:induction false} LeastExists(s: set<string>)
    requires s != {}
    ensures exists m :: IsLeast(m, s)
    decreases |s|
  {
    var x :| x in s;
    if s == {x} {
      assert IsLeast(x, s);
    } else {
      LeastExists(s - {x});
      var m :| IsLeast(m, s - {x});
      BelowTotal(x, m);
      if Below(x, m) {
        forall y | y in s && y != x
          ensures Below(x, y)
        {
          if y != m { BelowTransitive(x, m, y); }
        }
        assert IsLeast(x, s);
      } else {
        assert IsLeast(m, s);
      }
    }
  }

  lemma LeastUnique(m: string, n: string, s: set<string>)
    requires IsLeast(m, s) && IsLeast(n, s)
    ensures m == n
  {
    if m != n {
      BelowAsymmetric(m, n);
    }
  }

  /** The smallest element of a non-empty set, in Python's order. */
  function Least(s: set<string>): (m: string)
    requires s != {}
    ensures m in s
    ensures forall x :: x in s && x != m ==> Below(m, x)
  {
    LeastExists(s);
    assert forall m, n :: IsLeast(m, s) && IsLeast(n, s) ==> m == n by {
      forall m, n | IsLeast(m, s) && IsLeast(n, s) ensures m == n {
        LeastUnique(m, n, s);
      }
    }
    var m :| IsLeast(m, s);
    m
  }

  /**
   * `sorted(list(s))`: the elements of `s`, each once, in ascending order.
   * The iteration order of `list(s)` is left open by Python; the result does
   * not depend on it, since the strictly increasing sequence with a given set
   * of elements is unique (SortedListUnique).
   */
  function SortedList(s: set<string>): (r: seq<string>)
    ensures StrictlySorted(r)
    ensures forall x :: x in r <==> x in s
    ensures |r| == |s|
    decreases |s|
  {
    if s == {} then []
    else
      var m := Least(s);
      var rest := SortedList(s - {m});
      assert forall j :: 0 <= j < |rest| ==> Below(m, rest[j]) by {
        forall j | 0 <= j < |rest| ensures Below(m, rest[j]) {
          assert rest[j] in s - {m};
        }
      }
      [m] + rest
  }

  lemma {:induction false} SortedListUnique(r: seq<string>, s: set<string>)
    requires StrictlySorted(r)
    requires forall x :: x in r <==> x in s
    ensures r == SortedList(s)
    decreases |r|
  {
    var q := SortedList(s);
    if r == [] {
      assert forall x :: x !in s;
    } else {
      assert r[0] in s;
      var m := Least(s);
      assert m in r;
      if r[0] != m {
        var i :| 0 <= i < |r| && r[i] == m;
        assert Below(r[0], m);
        BelowAsymmetric(r[0], m);
        assert false;
      }
      StrictlySortedDistinct(r);
      var tail := r[1..];
      assert StrictlySorted(tail);
      forall x ensures x in tail <==> x in s - {m} {
        if x in tail {
          var i :| 0 <= i < |tail| && tail[i] == x;
          assert r[i + 1] == x;
        }
        if x in s - {m} {
          assert x in r;
          var i :| 0 <= i < |r| && r[i] == x;
          assert i != 0;
          assert tail[i - 1] == x;
        }
      }
      SortedListUnique(tail, s - {m});
      assert r == [r[0]] + tail;
    }
  }
}
