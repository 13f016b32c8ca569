/**
 The order of JavaScript strings: by UTF-16 code unit, as `<` and the default
 sort compare them.
 */
module TextOrder {
  import opened JsonString

  /** JavaScript's `<` on strings, the order of `Array.prototype.sort`. */
  predicate Less(a: Text, b: Text) {
    b != [] && (a == [] || a[0] < b[0] || (a[0] == b[0] && Less(a[1..], b[1..])))
  }

  /** They agree up to `n`, where the first one ends or has the smaller unit. */
  predicate SmallerAt(a: Text, b: Text, n: nat) {
    n <= |a| && n < |b| && a[..n] == b[..n] && (n == |a| || a[n] < b[n])
  }

  lemma {:induction false} LessExactly(a: Text, b: Text)
    ensures Less(a, b) <==> exists n: nat :: SmallerAt(a, b, n)
  {
    if b == [] {
    } else if a == [] || a[0] < b[0] {
      assert SmallerAt(a, b, 0);
    } else if a[0] == b[0] {
      LessExactly(a[1..], b[1..]);
      if n: nat :| SmallerAt(a[1..], b[1..], n) {
        assert a[..n + 1] == [a[0]] + a[1..][..n] && b[..n + 1] == [b[0]] + b[1..][..n];
        assert SmallerAt(a, b, n + 1);
      }
      if n: nat :| SmallerAt(a, b, n) {
        assert n > 0 && a[1..][..n - 1] == a[..n][1..] && b[1..][..n - 1] == b[..n][1..];
        assert SmallerAt(a[1..], b[1..], n - 1);
      }
    } else {
      forall n: nat
        ensures !SmallerAt(a, b, n)
      {
        assert n > 0 && n <= |a| && n < |b| ==> a[..n][0] != b[..n][0];
      }
    }
  }

  type Order = (Text, Text) -> bool

  ghost predicate IsStrictOrder(before: Order) {
    && (forall a :: !before(a, a))
    && (forall a, b :: a != b ==> before(a, b) || before(b, a))
    && (forall a, b, c :: before(a, b) && before(b, c) ==> before(a, c))
  }

  lemma {:induction false} LessIsIrreflexive(a: Text)
    ensures !Less(a, a)
  {
    if a != [] {
      LessIsIrreflexive(a[1..]);
    }
  }

  lemma {:induction false} LessIsTotal(a: Text, b: Text)
    requires a != b
    ensures Less(a, b) || Less(b, a)
  {
    if a != [] && b != [] && a[0] == b[0] {
      assert a == [a[0]] + a[1..] && b == [b[0]] + b[1..];
      LessIsTotal(a[1..], b[1..]);
    }
  }

  lemma {:induction false} LessIsTransitive(a: Text, b: Text, c: Text)
    requires Less(a, b) && Less(b, c)
    ensures Less(a, c)
  {
    if a != [] && a[0] == b[0] && b[0] == c[0] {
      LessIsTransitive(a[1..], b[1..], c[1..]);
    }
  }

  lemma LessIsStrict()
    ensures IsStrictOrder(Less)
  {
    forall a
      ensures !Less(a, a)
    {
      LessIsIrreflexive(a);
    }
    forall a, b | a != b
      ensures Less(a, b) || Less(b, a)
    {
      LessIsTotal(a, b);
    }
    forall a, b, c | Less(a, b) && Less(b, c)
      ensures Less(a, c)
    {
      LessIsTransitive(a, b, c);
    }
  }

  // ------------------------------------------------------- sorting a text list

  function InsertText(x: Text, sorted: seq<Text>): seq<Text> {
    if sorted != [] && Less(sorted[0], x) then [sorted[0]] + InsertText(x, sorted[1..]) else [x] + sorted
  }

  function SortTexts(texts: seq<Text>): seq<Text> {
    if texts == [] then [] else InsertText(texts[0], SortTexts(texts[1..]))
  }

  ghost predicate Ordered(texts: seq<Text>) {
    texts == [] || ((forall x :: x in texts[1..] ==> !Less(x, texts[0])) && Ordered(texts[1..]))
  }

  lemma {:induction false} InsertKeeps(x: Text, sorted: seq<Text>)
    ensures multiset(InsertText(x, sorted)) == multiset(sorted) + multiset{x}
  {
    if sorted != [] && Less(sorted[0], x) {
      InsertKeeps(x, sorted[1..]);
      assert sorted == [sorted[0]] + sorted[1..];
    }
  }

  lemma {:induction false} InsertOrders(x: Text, sorted: seq<Text>)
    requires Ordered(sorted)
    ensures Ordered(InsertText(x, sorted))
  {
    LessIsStrict();
    var after := InsertText(x, sorted);
    if sorted != [] && Less(sorted[0], x) {
      InsertOrders(x, sorted[1..]);
      InsertKeeps(x, sorted[1..]);
      assert after[1..] == InsertText(x, sorted[1..]);
      forall y | y in after[1..]
        ensures !Less(y, sorted[0])
      {
        assert y in multiset(after[1..]);
      }
    } else {
      assert after[1..] == sorted;
    }
  }

  lemma {:induction false} SortIsSorted(texts: seq<Text>)
    ensures Ordered(SortTexts(texts)) && multiset(SortTexts(texts)) == multiset(texts)
  {
    if texts != [] {
      SortIsSorted(texts[1..]);
      InsertOrders(texts[0], SortTexts(texts[1..]));
      InsertKeeps(texts[0], SortTexts(texts[1..]));
      assert texts == [texts[0]] + texts[1..];
    }
  }

  lemma LeastIsFirst(a: seq<Text>, b: seq<Text>)
    requires Ordered(a) && Ordered(b) && multiset(a) == multiset(b) && a != [] && b != []
    ensures a[0] == b[0]
  {
    LessIsStrict();
    assert a == [a[0]] + a[1..] && b == [b[0]] + b[1..];
    assert a[0] in multiset(a) && b[0] in multiset(b);
    assert a[0] in b && b[0] in a;
  }

  lemma {:induction false} OrderedIsUnique(a: seq<Text>, b: seq<Text>)
    requires Ordered(a) && Ordered(b) && multiset(a) == multiset(b)
    ensures a == b
  {
    if a == [] || b == [] {
      assert |multiset(a)| == |a| && |multiset(b)| == |b|;
    } else {
      LeastIsFirst(a, b);
      assert a == [a[0]] + a[1..] && b == [b[0]] + b[1..];
      assert multiset(a[1..]) == multiset(a) - multiset{a[0]};
      assert multiset(b[1..]) == multiset(b) - multiset{b[0]};
      OrderedIsUnique(a[1..], b[1..]);
    }
  }

  /** Sorting forgets the order the list came in. */
  lemma SortForgetsOrder(a: seq<Text>, b: seq<Text>)
    requires multiset(a) == multiset(b)
    ensures SortTexts(a) == SortTexts(b)
  {
    SortIsSorted(a);
    SortIsSorted(b);
    OrderedIsUnique(SortTexts(a), SortTexts(b));
  }
}
