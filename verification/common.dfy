/** Shared vocabulary of the model: optional values, calendar dates, the
    rounded-percentage rule used by every progress bar, the ASCII string
    helpers behind `trim`, `toLowerCase` and `includes`, and `Array.filter`
    with the facts every filtering reducer relies on. */
module Common {

  datatype Option<+T> = None | Some(value: T)

  /** A JavaScript `Date`, reduced to what the application looks at: the
      calendar day and the time within that day. */
  datatype Date = Date(year: int, month: int, day: int, millisOfDay: nat)

  /** The day-granularity comparison the journal's date filter performs. */
  predicate SameDay(a: Date, b: Date) {
    a.year == b.year && a.month == b.month && a.day == b.day
  }

  // ---------------------------------------------------------------------
  // Percentages
  // ---------------------------------------------------------------------

  /** `Math.round((w / n) * 100)` for n > 0: the nearest integer to 100*w/n,
      halves rounded up. */
  function RoundPercent(w: nat, n: nat): (r: nat)
    requires n > 0
    ensures 2 * n * r <= 200 * w + n < 2 * n * (r + 1)
  {
    (200 * w + n) / (2 * n)
  }

  /** The guarded form `n > 0 ? Math.round((w / n) * 100) : 0`. */
  function Percent(w: nat, n: nat): (r: nat)
    ensures n == 0 ==> r == 0
    ensures n > 0 ==> r == RoundPercent(w, n)
  {
    if n == 0 then 0 else RoundPercent(w, n)
  }

  /** One more copy of `b`: a step of an inductive proof about a product. */
  lemma MulSucc(a: nat, b: nat)
    ensures a * b + b == (a + 1) * b
  {
  }

  /** Cancelling a positive factor from a strict inequality. */
  lemma MulCancel(a: int, x: int, y: int)
    requires a > 0 && a * x < a * y
    ensures x < y
  {
  }

  lemma PercentBounds(w: nat, n: nat)
    requires w <= n
    ensures 0 <= Percent(w, n) <= 100
    ensures n > 0 && w == n ==> Percent(w, n) == 100
    ensures w == 0 ==> Percent(w, n) == 0
  {
    if n > 0 {
      var r := Percent(w, n);
      assert 2 * n * r < 2 * n * 101;
      MulCancel(2 * n, r, 101);
      if w == n {
        assert 2 * n * 100 < 2 * n * (r + 1);
        MulCancel(2 * n, 100, r + 1);
      }
      if w == 0 {
        assert 2 * n * r < 2 * n * 1;
        MulCancel(2 * n, r, 1);
      }
    }
  }

  /** More completed items never lower the percentage. */
  lemma PercentMonotone(w1: nat, w2: nat, n: nat)
    requires w1 <= w2
    ensures Percent(w1, n) <= Percent(w2, n)
  {
    if n > 0 {
      var r1, r2 := Percent(w1, n), Percent(w2, n);
      assert 2 * n * r1 < 2 * n * (r2 + 1);
      MulCancel(2 * n, r1, r2 + 1);
    }
  }

  /** One more item that is not completed never raises the percentage. */
  lemma PercentGrowingTotal(w: nat, n: nat)
    requires n > 0
    ensures Percent(w, n + 1) <= Percent(w, n)
  {
    var q, r := Percent(w, n + 1), Percent(w, n);
    if q > 0 {
      assert 2 * (n + 1) * q == 2 * n * q + 2 * q;
      assert 2 * n * q < 2 * n * (r + 1);
      MulCancel(2 * n, q, r + 1);
    }
  }

  // ---------------------------------------------------------------------
  // Strings (ASCII model of the JavaScript string methods)
  // ---------------------------------------------------------------------

  /** The ASCII members of the whitespace class used by `trim` and `\s`. */
  predicate IsSpace(c: char) {
    c == ' ' || c == '\t' || c == '\n' || c == '\r' || c == '\U{B}' || c == '\U{C}'
  }

  function LowerChar(c: char): (r: char)
    ensures 'A' <= c <= 'Z' ==> r as int == c as int + 32
    ensures !('A' <= c <= 'Z') ==> r == c
    ensures !('A' <= r <= 'Z')
    ensures IsSpace(r) <==> IsSpace(c)
  {
    if 'A' <= c <= 'Z' then (c as int + 32) as char else c
  }

  /** `toLowerCase` on ASCII text. */
  function Lower(s: string): (r: string)
    ensures |r| == |s|
    ensures forall i :: 0 <= i < |s| ==> r[i] == LowerChar(s[i])
  {
    seq(|s|, i requires 0 <= i < |s| => LowerChar(s[i]))
  }

  lemma LowerIdempotent(s: string)
    ensures Lower(Lower(s)) == Lower(s)
  {
  }

  /** Drop leading whitespace. */
  function TrimStart(s: string): (r: string)
    ensures |r| <= |s| && r == s[|s| - |r|..]
    ensures r == [] || !IsSpace(r[0])
    ensures forall i :: 0 <= i < |s| - |r| ==> IsSpace(s[i])
  {
    if s != [] && IsSpace(s[0]) then TrimStart(s[1..]) else s
  }

  /** An all-whitespace first part is trimmed away whole. */
  lemma {:induction false} TrimStartSpacePrefix(x: string, y: string)
    requires forall i :: 0 <= i < |x| ==> IsSpace(x[i])
    ensures TrimStart(x + y) == TrimStart(y)
    decreases |x|
  {
    if x == [] {
      assert x + y == y;
    } else {
      assert (x + y)[0] == x[0];
      assert (x + y)[1..] == x[1..] + y;
      TrimStartSpacePrefix(x[1..], y);
    }
  }

  /** A first part holding a non-space character (at `k`) absorbs the
      trimming: the second part is kept whole. */
  lemma {:induction false} TrimStartKeepsTail(x: string, y: string, k: nat)
    requires k < |x| && !IsSpace(x[k])
    ensures TrimStart(x + y) == TrimStart(x) + y
    decreases k
  {
    assert (x + y)[0] == x[0];
    if k > 0 && IsSpace(x[0]) {
      assert (x + y)[1..] == x[1..] + y;
      assert x[1..][k - 1] == x[k];
      TrimStartKeepsTail(x[1..], y, k - 1);
    }
  }

  /** Trimming the front of text that holds a non-space character (at
      `k`) leaves its last character in place. */
  lemma TrimStartKeepsLast(x: string, k: nat)
    requires k < |x| && !IsSpace(x[k])
    ensures TrimStart(x) != [] && TrimStart(x)[|TrimStart(x)| - 1] == x[|x| - 1]
  {
    var t := TrimStart(x);
    assert k >= |x| - |t|;
  }

  /** Drop trailing whitespace. */
  function TrimEnd(s: string): (r: string)
    ensures |r| <= |s| && r == s[..|r|]
    ensures r == [] || !IsSpace(r[|r| - 1])
    ensures forall i :: |r| <= i < |s| ==> IsSpace(s[i])
  {
    if s != [] && IsSpace(s[|s| - 1]) then TrimEnd(s[..|s| - 1]) else s
  }

  /** `String.prototype.trim`. */
  function Trim(s: string): string {
    TrimEnd(TrimStart(s))
  }

  /** A string that `trim` turns into "" (a falsy `x.trim()` in the source). */
  predicate Blank(s: string) {
    Trim(s) == ""
  }

  lemma BlankIffAllSpace(s: string)
    ensures Blank(s) <==> forall i :: 0 <= i < |s| ==> IsSpace(s[i])
  {
    var t := TrimStart(s);
    if forall i :: 0 <= i < |s| ==> IsSpace(s[i]) {
      assert t == [];
    } else {
      var k :| 0 <= k < |s| && !IsSpace(s[k]);
      assert t != [] by {
        assert k >= |s| - |t|;
      }
      TrimEndKeepsNonSpace(t);
    }
  }

  lemma TrimEndKeepsNonSpace(t: string)
    requires t != [] && !IsSpace(t[0])
    ensures TrimEnd(t) != []
  {
  }

  lemma TrimIdempotent(s: string)
    ensures Trim(Trim(s)) == Trim(s)
  {
    var t := TrimStart(s);
    var u := TrimEnd(t);
    if u != [] {
      assert u[0] == t[0];
    }
  }

  /** The index of the first occurrence of `pat` in `s` (`indexOf`). */
  function IndexOf(s: string, pat: string): (r: Option<nat>)
    ensures r.Some? ==> r.value + |pat| <= |s| && s[r.value..r.value + |pat|] == pat
    ensures r.Some? ==> forall j :: 0 <= j < r.value ==> !(pat <= s[j..])
    ensures r.None? ==> forall j :: 0 <= j <= |s| ==> !(pat <= s[j..])
    decreases |s|
  {
    if pat <= s then Some(0)
    else if s == [] then None
    else
      match IndexOf(s[1..], pat)
      case None =>
        assert forall j :: 1 <= j <= |s| ==> s[j..] == s[1..][j - 1..];
        None
      case Some(i) =>
        assert forall j :: 1 <= j <= i ==> s[j..] == s[1..][j - 1..];
        assert s[i + 1..i + 1 + |pat|] == s[1..][i..i + |pat|];
        Some(i + 1)
  }

  /** `s.includes(pat)`. */
  predicate Contains(s: string, pat: string) {
    IndexOf(s, pat).Some?
  }

  lemma ContainsEmpty(s: string)
    ensures Contains(s, "")
  {
  }

  lemma {:induction false} ContainsItself(s: string)
    ensures Contains(s, s)
  {
  }

  // ---------------------------------------------------------------------
  // Array.filter
  // ---------------------------------------------------------------------

  /** `r` can be obtained from `s` by deleting elements, keeping order. */
  predicate Subsequence<T(==)>(r: seq<T>, s: seq<T>)
    decreases |s|
  {
    if r == [] then true
    else if s == [] then false
    else if r[0] == s[0] then Subsequence(r[1..], s[1..])
    else Subsequence(r, s[1..])
  }

  /** `s.filter(p)`. */
  function Filter<T(==)>(s: seq<T>, p: T -> bool): (r: seq<T>)
    ensures |r| <= |s|
    ensures forall i :: 0 <= i < |r| ==> r[i] in s && p(r[i])
    ensures forall i :: 0 <= i < |s| && p(s[i]) ==> s[i] in r
    decreases |s|
  {
    if s == [] then []
    else if p(s[0]) then [s[0]] + Filter(s[1..], p)
    else Filter(s[1..], p)
  }

  lemma {:induction false} FilterIsSubsequence<T>(s: seq<T>, p: T -> bool)
    ensures Subsequence(Filter(s, p), s)
    decreases |s|
  {
    if s != [] {
      FilterIsSubsequence(s[1..], p);
      var rest := Filter(s[1..], p);
      if p(s[0]) {
        assert Filter(s, p)[1..] == rest;
      } else {
        SubsequenceSkip(rest, s);
      }
    }
  }

  /** A subsequence of the tail is a subsequence of the whole. */
  lemma {:induction false} SubsequenceSkip<T>(r: seq<T>, s: seq<T>)
    requires s != [] && Subsequence(r, s[1..])
    ensures Subsequence(r, s)
    decreases |s|, 0
  {
    if r != [] && r[0] == s[0] {
      SubsequenceTail(r, s[1..]);
    }
  }

  /** Dropping the head of a subsequence keeps it a subsequence. */
  lemma {:induction false} SubsequenceTail<T>(r: seq<T>, s: seq<T>)
    requires r != [] && Subsequence(r, s)
    ensures Subsequence(r[1..], s)
    decreases |s|, 1
  {
    if r[1..] != [] {
      if r[0] != s[0] {
        SubsequenceTail(r, s[1..]);
      }
      SubsequenceSkip(r[1..], s);
    }
  }

  /** Every sequence is a subsequence of itself. */
  lemma {:induction false} SubsequenceRefl<T>(s: seq<T>)
    ensures Subsequence(s, s)
    decreases |s|
  {
    if s != [] {
      SubsequenceRefl(s[1..]);
    }
  }

  /** Subsequence is transitive. */
  lemma {:induction false} SubsequenceTrans<T>(a: seq<T>, b: seq<T>, c: seq<T>)
    requires Subsequence(a, b) && Subsequence(b, c)
    ensures Subsequence(a, c)
    decreases |c|
  {
    if a != [] {
      assert b != [] && c != [];
      if b[0] == c[0] {
        if a[0] == b[0] {
          SubsequenceTrans(a[1..], b[1..], c[1..]);
        } else {
          SubsequenceTrans(a, b[1..], c[1..]);
        }
      } else {
        SubsequenceTrans(a, b, c[1..]);
        if a[0] == c[0] {
          SubsequenceTail(a, c[1..]);
        }
      }
    }
  }

  /** Filtering with a predicate that every element meets changes nothing. */
  lemma {:induction false} FilterKeepsAll<T>(s: seq<T>, p: T -> bool)
    requires forall i :: 0 <= i < |s| ==> p(s[i])
    ensures Filter(s, p) == s
    decreases |s|
  {
    if s != [] {
      FilterKeepsAll(s[1..], p);
    }
  }

  /** Filtering twice with the same predicate is filtering once. */
  lemma FilterIdempotent<T>(s: seq<T>, p: T -> bool)
    ensures Filter(Filter(s, p), p) == Filter(s, p)
  {
    FilterKeepsAll(Filter(s, p), p);
  }

  /** A predicate and its negation split the input: the two results together
      hold every element exactly as often as the input does. */
  lemma {:induction false} FilterPartition<T>(s: seq<T>, p: T -> bool, q: T -> bool)
    requires forall x :: q(x) == !p(x)
    ensures multiset(Filter(s, p)) + multiset(Filter(s, q)) == multiset(s)
    ensures |Filter(s, p)| + |Filter(s, q)| == |s|
    decreases |s|
  {
    if s != [] {
      FilterPartition(s[1..], p, q);
      assert s == [s[0]] + s[1..];
    }
  }

  /** Filtering distributes over concatenation. */
  lemma {:induction false} FilterAppend<T>(a: seq<T>, b: seq<T>, p: T -> bool)
    ensures Filter(a + b, p) == Filter(a, p) + Filter(b, p)
    decreases |a|
  {
    if a == [] {
      assert a + b == b;
    } else {
      var ab := a + b;
      assert ab[0] == a[0] && ab[1..] == a[1..] + b;
      FilterAppend(a[1..], b, p);
      var rest := Filter(a[1..], p) + Filter(b, p);
      if p(a[0]) {
        assert Filter(ab, p) == [a[0]] + rest;
        assert Filter(a, p) == [a[0]] + Filter(a[1..], p);
      } else {
        assert Filter(ab, p) == rest;
        assert Filter(a, p) == Filter(a[1..], p);
      }
    }
  }

  /** No two elements of `s` share a key. */
  predicate UniqueKeys<T, K(==)>(s: seq<T>, key: T -> K) {
    forall i, j :: 0 <= i < j < |s| ==> key(s[i]) != key(s[j])
  }

  /** Filtering never introduces a repeated key. */
  lemma {:induction false} FilterKeepsUniqueKeys<T, K>(s: seq<T>, p: T -> bool, key: T -> K)
    requires UniqueKeys(s, key)
    ensures UniqueKeys(Filter(s, p), key)
    decreases |s|
  {
    if s != [] {
      FilterKeepsUniqueKeys(s[1..], p, key);
      var rest := Filter(s[1..], p);
      if p(s[0]) {
        var r := [s[0]] + rest;
        forall i, j | 0 <= i < j < |r| ensures key(r[i]) != key(r[j]) {
          if i == 0 {
            assert r[j] in s[1..];
            var k :| 0 <= k < |s[1..]| && s[1..][k] == r[j];
            assert s[k + 1] == r[j];
          } else {
            assert r[i] == rest[i - 1] && r[j] == rest[j - 1];
          }
        }
      }
    }
  }

  /** Appending an element whose key is new keeps the keys unique. */
  lemma AppendKeepsUniqueKeys<T, K>(s: seq<T>, x: T, key: T -> K)
    requires UniqueKeys(s, key) && forall i :: 0 <= i < |s| ==> key(s[i]) != key(x)
    ensures UniqueKeys(s + [x], key)
  {
    var r := s + [x];
    forall i, j | 0 <= i < j < |r| ensures key(r[i]) != key(r[j]) {
      assert r[i] == s[i];
      if j < |s| {
        assert r[j] == s[j];
      }
    }
  }

  /** `s.filter(p).length`. */
  function Count<T(==)>(s: seq<T>, p: T -> bool): (r: nat)
    ensures r <= |s|
  {
    |Filter(s, p)|
  }

  /** Everything counted gives the length, nothing counted gives 0. */
  lemma CountAllOrNone<T>(s: seq<T>, p: T -> bool)
    ensures (forall i :: 0 <= i < |s| ==> p(s[i])) ==> Count(s, p) == |s|
    ensures (forall i :: 0 <= i < |s| ==> !p(s[i])) ==> Count(s, p) == 0
  {
    if forall i :: 0 <= i < |s| ==> p(s[i]) {
      FilterKeepsAll(s, p);
    }
    if forall i :: 0 <= i < |s| ==> !p(s[i]) {
      FilterKeepsNone(s, p);
    }
  }

  /** Filtering with a predicate that no element meets keeps nothing. */
  lemma {:induction false} FilterKeepsNone<T>(s: seq<T>, p: T -> bool)
    requires forall i :: 0 <= i < |s| ==> !p(s[i])
    ensures Filter(s, p) == []
    decreases |s|
  {
    if s != [] {
      FilterKeepsNone(s[1..], p);
    }
  }

  /** Two sequences of the same length whose elements agree on `p` position
      by position have the same count. */
  lemma {:induction false} CountSameFlags<T>(a: seq<T>, b: seq<T>, p: T -> bool)
    requires |a| == |b| && forall i :: 0 <= i < |a| ==> p(a[i]) == p(b[i])
    ensures Count(a, p) == Count(b, p)
    decreases |a|
  {
    if a != [] {
      CountSameFlags(a[1..], b[1..], p);
    }
  }

  /** Turning `p` on at one position, and nowhere else, counts one more. */
  lemma {:induction false} CountFlipOne<T>(a: seq<T>, b: seq<T>, p: T -> bool, k: nat)
    requires |a| == |b| && k < |a|
    requires forall i :: 0 <= i < |a| && i != k ==> p(a[i]) == p(b[i])
    requires !p(a[k]) && p(b[k])
    ensures Count(b, p) == Count(a, p) + 1
    decreases k
  {
    if k == 0 {
      CountSameFlags(a[1..], b[1..], p);
    } else {
      CountFlipOne(a[1..], b[1..], p, k - 1);
    }
  }

  /** Counting over a concatenation adds the counts. */
  lemma CountAppend<T>(a: seq<T>, b: seq<T>, p: T -> bool)
    ensures Count(a + b, p) == Count(a, p) + Count(b, p)
  {
    FilterAppend(a, b, p);
  }

  // ---------------------------------------------------------------------
  // Array.findIndex / Array.find
  // ---------------------------------------------------------------------

  /** No element occurs twice. */
  predicate Distinct<T(==)>(s: seq<T>) {
    forall i, j :: 0 <= i < j < |s| ==> s[i] != s[j]
  }

  /** Filtering a duplicate-free sequence leaves it duplicate-free. */
  lemma FilterKeepsDistinct<T>(s: seq<T>, p: T -> bool)
    requires Distinct(s)
    ensures Distinct(Filter(s, p))
  {
    var id := (x: T) => x;
    assert UniqueKeys(s, id);
    FilterKeepsUniqueKeys(s, p, id);
  }

  /** `s.findIndex(p)`: the first index whose element satisfies `p`, or -1. */
  function FindIndex<T>(s: seq<T>, p: T -> bool): (r: int)
    ensures -1 <= r < |s|
    ensures r >= 0 ==> p(s[r]) && forall j :: 0 <= j < r ==> !p(s[j])
    ensures r == -1 ==> forall j :: 0 <= j < |s| ==> !p(s[j])
    decreases |s|
  {
    if s == [] then -1
    else if p(s[0]) then 0
    else
      var k := FindIndex(s[1..], p);
      if k == -1 then -1 else k + 1
  }

  /** `s.find(p)`: the first element satisfying `p`, if any. */
  function Find<T>(s: seq<T>, p: T -> bool): (r: Option<T>)
    ensures r.Some? ==> r.value in s && p(r.value)
    ensures r.Some? ==> exists k :: 0 <= k < |s| && s[k] == r.value && p(s[k]) && forall j :: 0 <= j < k ==> !p(s[j])
    ensures r.None? ==> forall j :: 0 <= j < |s| ==> !p(s[j])
  {
    var k := FindIndex(s, p);
    if k == -1 then None else Some(s[k])
  }
}
