/** Sorted lists of names without duplicates: `sort.Strings` and `utils.Deduplicate`
    (api/utils/slices.go:49-63), and why the order makes them unique. */
module Names {

  /** The byte order of strings. */
  predicate Less(a: string, b: string) {
    if b == "" then false
    else if a == "" then true
    else if a[0] != b[0] then a[0] < b[0]
    else Less(a[1..], b[1..])
  }

  /** The strings agree up to `k`, where the first ends or has the smaller character. */
  predicate DiffersAt(a: string, b: string, k: nat) {
    k <= |a| && k < |b| && a[..k] == b[..k] && (k == |a| || a[k] < b[k])
  }

  lemma {:induction false} LessIsLexicographic(a: string, b: string)
    ensures Less(a, b) <==> exists k: nat :: DiffersAt(a, b, k)
  {
    if b != "" {
      if a == "" || a[0] < b[0] {
        assert DiffersAt(a, b, 0);
      } else if a[0] == b[0] {
        LessIsLexicographic(a[1..], b[1..]);
        if k: nat :| DiffersAt(a[1..], b[1..], k) {
          assert a[..k + 1] == [a[0]] + a[1..][..k] && b[..k + 1] == [b[0]] + b[1..][..k];
          assert DiffersAt(a, b, k + 1);
        }
        if k: nat :| DiffersAt(a, b, k) {
          assert k > 0;
          assert a[1..][..k - 1] == a[..k][1..] && b[1..][..k - 1] == b[..k][1..];
          assert DiffersAt(a[1..], b[1..], k - 1);
        }
      } else {
        forall k: nat ensures !DiffersAt(a, b, k) {
          assert 0 < k <= |a| && k < |b| ==> a[..k][0] == a[0] && b[..k][0] == b[0];
        }
      }
    }
  }

  lemma {:induction false} LessTotal(a: string, b: string)
    ensures a == b || Less(a, b) || Less(b, a)
  {
    if a != "" && b != "" && a[0] == b[0] {
      LessTotal(a[1..], b[1..]);
      assert a == [a[0]] + a[1..] && b == [b[0]] + b[1..];
    }
  }

  lemma {:induction false} LessAsymmetric(a: string, b: string)
    requires Less(a, b)
    ensures !Less(b, a) && a != b
  {
    if a != "" && a[0] == b[0] {
      LessAsymmetric(a[1..], b[1..]);
    }
  }

  lemma {:induction false} LessTransitive(a: string, b: string, c: string)
    requires Less(a, b) && Less(b, c)
    ensures Less(a, c)
  {
    if a != "" && a[0] == b[0] == c[0] {
      LessTransitive(a[1..], b[1..], c[1..]);
    }
  }

  predicate Ordered(xs: seq<string>) {
    forall i, j :: 0 <= i < j < |xs| ==> Less(xs[i], xs[j])
  }

  predicate Distinct(xs: seq<string>) {
    forall i, j :: 0 <= i < j < |xs| ==> xs[i] != xs[j]
  }

  predicate SameElements(a: seq<string>, b: seq<string>) {
    (forall x :: x in a ==> x in b) && (forall x :: x in b ==> x in a)
  }

  function Insert(x: string, xs: seq<string>): seq<string> {
    if xs == [] || Less(x, xs[0]) then [x] + xs else [xs[0]] + Insert(x, xs[1..])
  }

  /** The result of sorting. */
  function Sort(xs: seq<string>): seq<string> {
    if xs == [] then [] else Insert(xs[0], Sort(xs[1..]))
  }

  lemma {:induction false} InsertElements(x: string, xs: seq<string>)
    ensures SameElements(Insert(x, xs), [x] + xs)
  {
    if !(xs == [] || Less(x, xs[0])) {
      InsertElements(x, xs[1..]);
      assert xs == [xs[0]] + xs[1..];
    }
  }

  lemma {:induction false} InsertOrdered(x: string, xs: seq<string>)
    requires Ordered(xs) && x !in xs
    ensures Ordered(Insert(x, xs))
  {
    var ys := Insert(x, xs);
    if xs == [] {
    } else if Less(x, xs[0]) {
      forall i, j | 0 <= i < j < |ys| ensures Less(ys[i], ys[j]) {
        if i == 0 && j > 1 { LessTransitive(x, xs[0], xs[j - 1]); }
      }
    } else {
      var rest := Insert(x, xs[1..]);
      InsertOrdered(x, xs[1..]);
      InsertElements(x, xs[1..]);
      LessTotal(x, xs[0]);
      forall j | 0 <= j < |rest| ensures Less(xs[0], rest[j]) {
        assert rest[j] in rest;
        assert rest[j] == x || rest[j] in xs[1..];
      }
      forall i, j | 0 <= i < j < |ys| ensures Less(ys[i], ys[j]) {
        if i > 0 { assert ys[i] == rest[i - 1] && ys[j] == rest[j - 1]; }
      }
    }
  }

  lemma {:induction false} SortFacts(xs: seq<string>)
    ensures SameElements(Sort(xs), xs)
    ensures Distinct(xs) ==> Ordered(Sort(xs))
  {
    if xs != [] {
      SortFacts(xs[1..]);
      InsertElements(xs[0], Sort(xs[1..]));
      assert xs == [xs[0]] + xs[1..];
      if Distinct(xs) {
        assert xs[0] !in xs[1..];
        InsertOrdered(xs[0], Sort(xs[1..]));
      }
    }
  }

  lemma HeadIsLeast(xs: seq<string>, x: string)
    requires Ordered(xs) && x in xs
    ensures x == xs[0] || Less(xs[0], x)
  {}

  lemma HeadIsMember(xs: seq<string>)
    requires xs != []
    ensures xs[0] in xs
  {}

  /** An ordered list is determined by its elements. */
  lemma {:induction false} OrderedUnique(a: seq<string>, b: seq<string>)
    requires Ordered(a) && Ordered(b) && SameElements(a, b)
    ensures a == b
  {
    if a == [] {
      if b != [] { HeadIsMember(b); }
    } else if b == [] {
      HeadIsMember(a);
    } else {
      assert a[0] in b && b[0] in a;
      HeadIsLeast(a, b[0]);
      HeadIsLeast(b, a[0]);
      if a[0] != b[0] {
        LessAsymmetric(a[0], b[0]);
      }
      TailElements(a, b);
      OrderedUnique(a[1..], b[1..]);
      assert a == [a[0]] + a[1..] && b == [b[0]] + b[1..];
    }
  }

  lemma TailElements(a: seq<string>, b: seq<string>)
    requires a != [] && b != [] && a[0] == b[0] && Ordered(a) && Ordered(b) && SameElements(a, b)
    ensures SameElements(a[1..], b[1..])
  {
    forall x | x in a[1..] ensures x in b[1..] {
      var i :| 0 <= i < |a| - 1 && a[1..][i] == x;
      LessAsymmetric(a[0], a[i + 1]);
      assert x in b && x != b[0];
    }
    forall x | x in b[1..] ensures x in a[1..] {
      var i :| 0 <= i < |b| - 1 && b[1..][i] == x;
      LessAsymmetric(b[0], b[i + 1]);
      assert x in a && x != a[0];
    }
  }

  function Dedup(xs: seq<string>): seq<string> {
    if xs == [] then []
    else
      var init, last := Dedup(xs[..|xs| - 1]), xs[|xs| - 1];
      if last in init then init else init + [last]
  }

  lemma {:induction false} DedupFacts(xs: seq<string>)
    ensures Distinct(Dedup(xs)) && SameElements(Dedup(xs), xs)
  {
    if xs != [] {
      DedupFacts(xs[..|xs| - 1]);
      assert xs == xs[..|xs| - 1] + [xs[|xs| - 1]];
    }
  }

  /** Where a name occurs first. */
  function FirstIndex(xs: seq<string>, x: string): (i: nat)
    requires x in xs
    ensures i < |xs| && xs[i] == x && x !in xs[..i]
  {
    if xs[0] == x then 0
    else
      assert xs == [xs[0]] + xs[1..];
      var i := FirstIndex(xs[1..], x) + 1;
      assert xs[..i] == [xs[0]] + xs[1..][..i - 1];
      i
  }

  lemma FirstIndexUnique(xs: seq<string>, x: string, i: nat)
    requires i < |xs| && xs[i] == x && x !in xs[..i]
    ensures FirstIndex(xs, x) == i
  {
    var j := FirstIndex(xs, x);
    assert forall k :: 0 <= k < i ==> xs[k] == xs[..i][k];
    assert forall k :: 0 <= k < j ==> xs[k] == xs[..j][k];
  }

  /** Of a list with `last` appended, every name but a new `last` occurs first where it did. */
  lemma FirstIndexInit(xs: seq<string>, last: string)
    ensures forall x :: x in xs ==> FirstIndex(xs + [last], x) == FirstIndex(xs, x)
    ensures last !in xs ==> FirstIndex(xs + [last], last) == |xs|
  {
    forall x | x in xs ensures FirstIndex(xs + [last], x) == FirstIndex(xs, x) {
      var i := FirstIndex(xs, x);
      assert (xs + [last])[..i] == xs[..i];
      FirstIndexUnique(xs + [last], x, i);
    }
    if last !in xs {
      assert (xs + [last])[..|xs|] == xs;
      FirstIndexUnique(xs + [last], last, |xs|);
    }
  }

  /** The names come in the order of their first occurrences. */
  predicate FirstOrder(xs: seq<string>, out: seq<string>)
    requires SameElements(out, xs)
  {
    forall i, j :: 0 <= i < j < |out| ==> FirstIndex(xs, out[i]) < FirstIndex(xs, out[j])
  }

  lemma {:induction false} DedupKeepsFirst(xs: seq<string>)
    ensures SameElements(Dedup(xs), xs) && FirstOrder(xs, Dedup(xs))
  {
    DedupFacts(xs);
    if xs != [] {
      var init, last := xs[..|xs| - 1], xs[|xs| - 1];
      assert xs == init + [last];
      DedupFacts(init);
      DedupKeepsFirst(init);
      FirstIndexInit(init, last);
      var d, out := Dedup(init), Dedup(xs);
      forall i, j | 0 <= i < j < |out| ensures FirstIndex(xs, out[i]) < FirstIndex(xs, out[j]) {
        assert d[i] in init;
        if j < |d| { assert d[j] in init; }
      }
    }
  }

  /** The first occurrence of each name is kept, in its place among the others. */
  method Deduplicate(xs: seq<string>) returns (out: seq<string>)
    ensures out == Dedup(xs)
    ensures Distinct(out) && SameElements(out, xs) && FirstOrder(xs, out)
  {
    DedupFacts(xs);
    DedupKeepsFirst(xs);
    if |xs| <= 1 {
      assert xs != [] ==> xs[..0] == [] && Dedup(xs) == [xs[0]];
      return xs;
    }
    out := [];
    var seen: set<string> := {};
    for i := 0 to |xs|
      invariant out == Dedup(xs[..i]) && forall x :: x in seen <==> x in out
    {
      assert xs[..i + 1][..i] == xs[..i];
      if xs[i] !in seen {
        out := out + [xs[i]];
        seen := seen + {xs[i]};
      }
    }
    assert xs[..|xs|] == xs;
  }

  /** The normal form of a role list. */
  function Normal(xs: seq<string>): seq<string> { Sort(Dedup(xs)) }

  /** A normal form has the elements of the list, and a list is in normal form exactly when it
      is ordered. */
  lemma NormalFacts(xs: seq<string>)
    ensures Ordered(Normal(xs)) && SameElements(Normal(xs), xs)
    ensures Normal(xs) == xs <==> Ordered(xs)
  {
    DedupFacts(xs);
    SortFacts(Dedup(xs));
    if Ordered(xs) {
      OrderedUnique(Normal(xs), xs);
    }
  }
}
