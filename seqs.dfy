/**
 * Sequence helpers with the semantics of the JavaScript array and lodash calls
 * the timeline uses: `Array.prototype.indexOf`, `_.pull`, `_.uniq`,
 * `Array.prototype.join`, and the clamp `Math.min(hi, Math.max(lo, x))`.
 */
module Seqs {

  /** No element occurs twice. */
  ghost predicate Distinct<T>(s: seq<T>) {
    forall i, j :: 0 <= i < j < |s| ==> s[i] != s[j]
  }

  /** `s.indexOf(x)`: the first index holding `x`, or -1 when there is none. */
  function IndexOf<T(==)>(s: seq<T>, x: T): (r: int)
    ensures r == -1 <==> x !in s
    ensures -1 <= r < |s|
    ensures 0 <= r ==> s[r] == x && x !in s[..r]
  {
    if |s| == 0 then -1
    else if s[0] == x then 0
    else
      var r := IndexOf(s[1..], x);
      assert s[1..][..if r < 0 then 0 else r] == s[1..if r < 0 then 1 else r + 1];
      if r < 0 then -1 else r + 1
  }

  /** In a duplicate-free sequence the element at index `i` is found at `i`. */
  lemma IndexOfDistinct<T>(s: seq<T>, i: int)
    requires Distinct(s) && 0 <= i < |s|
    ensures IndexOf(s, s[i]) == i
  {
  }

  /** `_.pull(s, x)`: every occurrence of `x` removed, the rest in order. */
  function Without<T(==)>(s: seq<T>, x: T): (r: seq<T>)
    ensures x !in r
    ensures |r| <= |s|
  {
    if |s| == 0 then []
    else
      if s[0] == x then Without(s[1..], x) else [s[0]] + Without(s[1..], x)
  }

  /** `_.pull` drops exactly the occurrences of `x`: nothing else is lost or added. */
  lemma {:induction false} WithoutMultiset<T>(s: seq<T>, x: T)
    ensures multiset(Without(s, x)) == multiset(s)[x := 0]
  {
    if |s| > 0 {
      assert s == [s[0]] + s[1..];
      WithoutMultiset(s[1..], x);
    }
  }

  lemma {:induction false} WithoutAbsent<T>(s: seq<T>, x: T)
    requires x !in s
    ensures Without(s, x) == s
  {
    if |s| > 0 { WithoutAbsent(s[1..], x); }
  }

  lemma {:induction false} WithoutAppend<T>(s: seq<T>, t: seq<T>, x: T)
    ensures Without(s + t, x) == Without(s, x) + Without(t, x)
  {
    if |s| == 0 {
      assert s + t == t;
    } else {
      assert (s + t)[1..] == s[1..] + t;
      WithoutAppend(s[1..], t, x);
    }
  }

  /**
   * Pulling a member out of a duplicate-free sequence is the splice of the one
   * index that holds it: the others keep their relative order.
   */
  lemma {:induction false} WithoutIsSplice<T>(s: seq<T>, x: T)
    requires Distinct(s) && x in s
    ensures var i := IndexOf(s, x); Without(s, x) == s[..i] + s[i + 1..]
    ensures |Without(s, x)| == |s| - 1
  {
    var t := s[1..];
    assert Distinct(t) by {
      forall a, b | 0 <= a < b < |t| ensures t[a] != t[b] { assert t[a] == s[a + 1] && t[b] == s[b + 1]; }
    }
    if s[0] == x {
      assert x !in t by {
        forall k | 0 <= k < |t| ensures t[k] != x { assert t[k] == s[k + 1]; }
      }
      WithoutAbsent(t, x);
    } else {
      WithoutIsSplice(t, x);
      WithoutSpliceStep(s, x, IndexOf(t, x));
    }
  }

  /** The inductive step of WithoutIsSplice, kept apart from the Distinct facts. */
  lemma WithoutSpliceStep<T>(s: seq<T>, x: T, j: int)
    requires |s| > 0 && s[0] != x
    requires 0 <= j < |s| - 1 && IndexOf(s[1..], x) == j
    requires Without(s[1..], x) == s[1..][..j] + s[1..][j + 1..]
    ensures IndexOf(s, x) == j + 1
    ensures Without(s, x) == s[..j + 1] + s[j + 2..]
  {
    var t := s[1..];
    var a, b := t[..j], t[j + 1..];
    assert Without(s, x) == [s[0]] + (a + b);
    AppendAssociative([s[0]], a, b);
    assert [s[0]] + a == s[..j + 1];
    assert b == s[j + 2..];
  }

  lemma AppendAssociative<T>(a: seq<T>, b: seq<T>, c: seq<T>)
    ensures (a + b) + c == a + (b + c)
  {
  }

  lemma WithoutDistinct<T>(s: seq<T>, x: T)
    requires Distinct(s)
    ensures Distinct(Without(s, x))
  {
    if x in s {
      WithoutIsSplice(s, x);
      var i := IndexOf(s, x);
      var r := s[..i] + s[i + 1..];
      forall a, b | 0 <= a < b < |r| ensures r[a] != r[b] {
        var a' := if a < i then a else a + 1;
        var b' := if b < i then b else b + 1;
        assert r[a] == s[a'] && r[b] == s[b'];
      }
    } else {
      WithoutAbsent(s, x);
    }
  }

  /** Appending a fresh element keeps a sequence duplicate-free. */
  lemma AppendDistinct<T>(s: seq<T>, x: T)
    requires Distinct(s) && x !in s
    ensures Distinct(s + [x])
  {
    var r := s + [x];
    forall a, b | 0 <= a < b < |r| ensures r[a] != r[b] {
      if b == |s| { assert r[a] == s[a]; }
    }
  }

  /**
   * `_.uniq(s)`: one copy of each element, in the order of first occurrence.
   */
  function Uniq<T(==)>(s: seq<T>): (r: seq<T>)
    ensures Distinct(r)
    ensures forall i :: 0 <= i < |r| ==> r[i] in s
    ensures forall i :: 0 <= i < |s| ==> s[i] in r
    ensures |r| <= |s|
  {
    if |s| == 0 then []
    else
      var u := Uniq(s[..|s| - 1]);
      var x := s[|s| - 1];
      assert s == s[..|s| - 1] + [x];
      assert forall i :: 0 <= i < |s| - 1 ==> s[i] == s[..|s| - 1][i];
      if x in u then u
      else
        AppendDistinct(u, x);
        u + [x]
  }

  lemma {:induction false} IndexOfAppend<T>(s: seq<T>, x: T, y: T)
    requires y in s
    ensures IndexOf(s + [x], y) == IndexOf(s, y)
  {
    assert (s + [x])[0] == s[0];
    if s[0] != y {
      assert (s + [x])[1..] == s[1..] + [x];
      IndexOfAppend(s[1..], x, y);
    }
  }

  /**
   * `_.uniq` keeps first-occurrence order: earlier elements of the result
   * occur earlier in the input.
   */
  lemma {:induction false} UniqFirstOccurrenceOrder<T>(s: seq<T>)
    ensures forall a, b :: 0 <= a < b < |Uniq(s)| ==> IndexOf(s, Uniq(s)[a]) < IndexOf(s, Uniq(s)[b])
  {
    if |s| > 0 {
      var p := s[..|s| - 1];
      var x := s[|s| - 1];
      var u := Uniq(p);
      assert s == p + [x];
      UniqFirstOccurrenceOrder(p);
      OrderAfterAppend(p, x, u);
      if x in u {
        assert Uniq(s) == u;
      } else {
        assert x !in p by {
          forall k | 0 <= k < |p| ensures p[k] != x { assert p[k] in u; }
        }
        OrderOfAppended(p, x, u);
        assert Uniq(s) == u + [x];
      }
    }
  }

  /** Appending to the searched sequence keeps the order of members already found. */
  lemma OrderAfterAppend<T>(p: seq<T>, x: T, u: seq<T>)
    requires forall k :: 0 <= k < |u| ==> u[k] in p
    requires forall a, b :: 0 <= a < b < |u| ==> IndexOf(p, u[a]) < IndexOf(p, u[b])
    ensures forall k :: 0 <= k < |u| ==> IndexOf(p + [x], u[k]) == IndexOf(p, u[k])
    ensures forall a, b :: 0 <= a < b < |u| ==> IndexOf(p + [x], u[a]) < IndexOf(p + [x], u[b])
  {
    forall k | 0 <= k < |u| ensures IndexOf(p + [x], u[k]) == IndexOf(p, u[k]) {
      IndexOfAppend(p, x, u[k]);
    }
  }

  /** A new last element is found after every member of `p`. */
  lemma OrderOfAppended<T>(p: seq<T>, x: T, u: seq<T>)
    requires x !in p
    requires forall k :: 0 <= k < |u| ==> u[k] in p
    requires forall a, b :: 0 <= a < b < |u| ==> IndexOf(p + [x], u[a]) < IndexOf(p + [x], u[b])
    requires forall k :: 0 <= k < |u| ==> IndexOf(p + [x], u[k]) == IndexOf(p, u[k])
    ensures forall a, b :: 0 <= a < b < |u + [x]| ==> IndexOf(p + [x], (u + [x])[a]) < IndexOf(p + [x], (u + [x])[b])
  {
    var s := p + [x];
    assert s[..|p|] == p;
    assert IndexOf(s, x) == |p|;
    forall a, b | 0 <= a < b < |u + [x]|
      ensures IndexOf(s, (u + [x])[a]) < IndexOf(s, (u + [x])[b])
    {
      assert (u + [x])[a] == u[a];
      if b < |u| { assert (u + [x])[b] == u[b]; }
    }
  }

  /** `Math.min(hi, Math.max(lo, x))`. */
  function Clamp(x: int, lo: int, hi: int): (r: int)
    requires lo <= hi
    ensures lo <= r <= hi
    ensures lo <= x <= hi ==> r == x
    ensures x < lo ==> r == lo
    ensures hi < x ==> r == hi
  {
    if x < lo then lo else if x > hi then hi else x
  }

  /** `parts.join(sep)`. */
  function Join(parts: seq<string>, sep: string): (r: string)
    decreases |parts|
  {
    if |parts| == 0 then ""
    else if |parts| == 1 then parts[0]
    else Join(parts[..|parts| - 1], sep) + sep + parts[|parts| - 1]
  }

  /** Where `parts[k]` starts in the joined string. */
  function JoinOffset(parts: seq<string>, sep: string, k: nat): nat
    requires k <= |parts|
  {
    if k == 0 then 0 else JoinOffset(parts, sep, k - 1) + |parts[k - 1]| + |sep|
  }

  lemma {:induction false} JoinOffsetPrefix(parts: seq<string>, sep: string, n: nat, k: nat)
    requires k <= n <= |parts|
    ensures JoinOffset(parts[..n], sep, k) == JoinOffset(parts, sep, k)
  {
    if k > 0 { JoinOffsetPrefix(parts, sep, n, k - 1); }
  }

  /** The joined length: every part plus one separator between neighbours. */
  lemma {:induction false} JoinLength(parts: seq<string>, sep: string)
    requires |parts| > 0
    ensures |Join(parts, sep)| == JoinOffset(parts, sep, |parts|) - |sep|
    decreases |parts|
  {
    var n := |parts|;
    if n > 1 {
      JoinLength(parts[..n - 1], sep);
      JoinOffsetPrefix(parts, sep, n - 1, n - 1);
    }
  }

  /** Each part stands, unchanged, at its offset in the joined string. */
  lemma {:induction false} JoinPartAt(parts: seq<string>, sep: string, k: nat)
    requires k < |parts|
    ensures JoinOffset(parts, sep, k) + |parts[k]| <= |Join(parts, sep)|
    ensures Join(parts, sep)[JoinOffset(parts, sep, k)..JoinOffset(parts, sep, k) + |parts[k]|] == parts[k]
    decreases |parts|
  {
    var n := |parts|;
    if n > 1 {
      var init := parts[..n - 1];
      var j := Join(init, sep);
      assert Join(parts, sep) == j + sep + parts[n - 1];
      JoinOffsetPrefix(parts, sep, n - 1, k);
      if k < n - 1 {
        JoinPartAt(init, sep, k);
        assert init[k] == parts[k];
      } else {
        JoinLength(init, sep);
      }
    }
  }

  /** Between part `k` and part `k + 1` stands exactly one separator. */
  lemma {:induction false} JoinSeparatorAt(parts: seq<string>, sep: string, k: nat)
    requires k + 1 < |parts|
    ensures JoinOffset(parts, sep, k + 1) <= |Join(parts, sep)|
    ensures Join(parts, sep)[JoinOffset(parts, sep, k) + |parts[k]|..JoinOffset(parts, sep, k + 1)] == sep
    decreases |parts|
  {
    var n := |parts|;
    var init := parts[..n - 1];
    var j := Join(init, sep);
    assert Join(parts, sep) == j + sep + parts[n - 1];
    JoinOffsetPrefix(parts, sep, n - 1, k + 1);
    JoinOffsetPrefix(parts, sep, n - 1, k);
    assert init[k] == parts[k];
    if k + 1 < n - 1 {
      JoinSeparatorAt(init, sep, k);
    } else {
      JoinLength(init, sep);
    }
  }
}
