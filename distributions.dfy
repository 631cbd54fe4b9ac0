/** Classification of distribution events (src/Api/referrals.js, the loop
    over `res.data.distributions`): each raw record becomes an item and goes
    to the rebate list when its type is "1" and to the discount list
    otherwise. */
module Distributions {
  import opened Decimal

  const DISTRIBUTION_TYPE_REBATES: string := "1"
  const DISTRIBUTION_TYPE_DISCOUNT: string := "2"

  /** A distribution record as the indexer returns it. */
  datatype RawDistribution = RawDistribution(
    receiver: string,
    amount: DecimalText,
    typeId: string,
    token: string,
    transactionHash: string,
    timestamp: DecimalText)

  /** A distribution as the report holds it: numbers parsed, addresses in
      checksum form. */
  datatype Distribution = Distribution(
    timestamp: nat,
    transactionHash: string,
    receiver: string,
    amount: nat,
    typeId: string,
    token: string)

  /** The item built from a raw record; `getAddress` stands for
      `ethers.utils.getAddress`, the checksum normaliser. */
  function ToItem(d: RawDistribution, getAddress: string -> string): Distribution
  {
    Distribution(ParseDecimal(d.timestamp), d.transactionHash, getAddress(d.receiver),
                 ParseDecimal(d.amount), d.typeId, getAddress(d.token))
  }

  function Items(raw: seq<RawDistribution>, getAddress: string -> string): (items: seq<Distribution>)
    ensures |items| == |raw| && forall k :: 0 <= k < |raw| ==> items[k] == ToItem(raw[k], getAddress)
  {
    seq(|raw|, k requires 0 <= k < |raw| => ToItem(raw[k], getAddress))
  }

  predicate IsRebate(item: Distribution) {
    item.typeId == DISTRIBUTION_TYPE_REBATES
  }

  /** The elements of `s` that satisfy `p`, in their order in `s`. */
  function Filter<T>(p: T -> bool, s: seq<T>): (r: seq<T>)
    ensures |r| <= |s|
  {
    if s == [] then [] else (if p(s[0]) then [s[0]] else []) + Filter(p, s[1..])
  }

  function Rebates(items: seq<Distribution>): seq<Distribution> {
    Filter(IsRebate, items)
  }

  /** Every type other than "1" counts as a discount. */
  predicate IsDiscount(item: Distribution) {
    !IsRebate(item)
  }

  function Discounts(items: seq<Distribution>): seq<Distribution> {
    Filter(IsDiscount, items)
  }

  /** `sub` can be obtained from `s` by deleting elements: the order of what
      is kept is the order in `s`. */
  ghost predicate IsSubsequence<T>(sub: seq<T>, s: seq<T>)
    decreases |s|
  {
    || sub == []
    || (s != [] && ((sub[0] == s[0] && IsSubsequence(sub[1..], s[1..])) || IsSubsequence(sub, s[1..])))
  }

  lemma {:induction false} FilterAppend<T>(p: T -> bool, a: seq<T>, b: seq<T>)
    ensures Filter(p, a + b) == Filter(p, a) + Filter(p, b)
  {
    if a == [] {
      assert a + b == b;
    } else {
      var ab := a + b;
      var head := if p(a[0]) then [a[0]] else [];
      assert ab[0] == a[0] && ab[1..] == a[1..] + b;
      assert Filter(p, ab) == head + Filter(p, a[1..] + b);
      FilterAppend(p, a[1..], b);
      assert Filter(p, a) == head + Filter(p, a[1..]);
    }
  }

  lemma FilterSnoc<T>(p: T -> bool, s: seq<T>, x: T)
    ensures Filter(p, s + [x]) == Filter(p, s) + (if p(x) then [x] else [])
  {
    FilterAppend(p, s, [x]);
    assert Filter(p, [x]) == (if p(x) then [x] else []) + Filter(p, []);
  }

  /** An element is kept exactly when it is in `s` and satisfies `p`. */
  lemma {:induction false} FilterMembers<T>(p: T -> bool, s: seq<T>, x: T)
    ensures x in Filter(p, s) <==> x in s && p(x)
  {
    if s != [] {
      FilterMembers(p, s[1..], x);
      assert s == [s[0]] + s[1..];
    }
  }

  lemma {:induction false} FilterIsSubsequence<T>(p: T -> bool, s: seq<T>)
    ensures IsSubsequence(Filter(p, s), s)
  {
    if s != [] {
      FilterIsSubsequence(p, s[1..]);
      var r := Filter(p, s);
      if p(s[0]) {
        assert r[0] == s[0] && r[1..] == Filter(p, s[1..]);
      } else {
        assert r == Filter(p, s[1..]);
      }
    }
  }

  /** Filtering by a predicate and by its negation splits `s` in two: no
      element is lost and none is duplicated. */
  lemma {:induction false} FilterSplits<T>(p: T -> bool, q: T -> bool, s: seq<T>)
    requires forall x :: q(x) == !p(x)
    ensures |Filter(p, s)| + |Filter(q, s)| == |s|
    ensures multiset(Filter(p, s)) + multiset(Filter(q, s)) == multiset(s)
  {
    if s != [] {
      FilterSplits(p, q, s[1..]);
      assert s == [s[0]] + s[1..];
    }
  }

  /** The rebate and discount lists together hold every item exactly once,
      each list keeps the input order, type "1" goes to rebates and every
      other type (not only "2") to discounts. */
  lemma PartitionIsExact(items: seq<Distribution>)
    ensures |Rebates(items)| + |Discounts(items)| == |items|
    ensures multiset(Rebates(items)) + multiset(Discounts(items)) == multiset(items)
    ensures forall x :: x in Rebates(items) <==> x in items && x.typeId == DISTRIBUTION_TYPE_REBATES
    ensures forall x :: x in Discounts(items) <==> x in items && x.typeId != DISTRIBUTION_TYPE_REBATES
    ensures IsSubsequence(Rebates(items), items) && IsSubsequence(Discounts(items), items)
  {
    FilterSplits(IsRebate, IsDiscount, items);
    forall x ensures x in Rebates(items) <==> x in items && x.typeId == DISTRIBUTION_TYPE_REBATES {
      FilterMembers(IsRebate, items, x);
    }
    forall x ensures x in Discounts(items) <==> x in items && x.typeId != DISTRIBUTION_TYPE_REBATES {
      FilterMembers(IsDiscount, items, x);
    }
    FilterIsSubsequence(IsRebate, items);
    FilterIsSubsequence(IsDiscount, items);
  }

  /** The loop of the source: build each item, push it to one of two lists. */
  method PartitionDistributions(raw: seq<RawDistribution>, getAddress: string -> string)
    returns (rebateDistributions: seq<Distribution>, discountDistributions: seq<Distribution>)
    ensures rebateDistributions == Rebates(Items(raw, getAddress))
    ensures discountDistributions == Discounts(Items(raw, getAddress))
    ensures |rebateDistributions| + |discountDistributions| == |raw|
  {
    ghost var items := Items(raw, getAddress);
    rebateDistributions, discountDistributions := [], [];
    for i := 0 to |raw|
      invariant rebateDistributions == Rebates(items[..i])
      invariant discountDistributions == Discounts(items[..i])
    {
      var d := raw[i];
      var item := Distribution(ParseDecimal(d.timestamp), d.transactionHash, getAddress(d.receiver),
                               ParseDecimal(d.amount), d.typeId, getAddress(d.token));
      assert items[..i + 1] == items[..i] + [item];
      FilterSnoc(IsRebate, items[..i], item);
      FilterSnoc(IsDiscount, items[..i], item);
      if d.typeId == DISTRIBUTION_TYPE_REBATES {
        rebateDistributions := rebateDistributions + [item];
      } else {
        discountDistributions := discountDistributions + [item];
      }
    }
    assert items[..|raw|] == items;
    PartitionIsExact(items);
  }
}
