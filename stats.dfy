/** Per-period referrer statistics: `prepareStatsItem`, which types a raw
    record and decodes its referral code, and `getCumulativeStats`, which
    sums the totals of a list of them starting from all zeros. */
module Stats {
  import opened Decimal
  import opened Bytes32
  import opened ReferralCodes

  /** A referrer statistic as the indexer returns it. */
  datatype RawStat = RawStat(
    referralCode: string,
    volume: DecimalText,
    trades: DecimalText,
    tradedReferralsCount: DecimalText,
    totalRebateUsd: DecimalText,
    discountUsd: DecimalText)

  /** A statistic with exact numbers and a readable referral code. */
  datatype PeriodStat = PeriodStat(
    volume: nat,
    trades: nat,
    tradedReferralsCount: nat,
    totalRebateUsd: nat,
    discountUsd: nat,
    referralCode: string)

  /** `prepareStatsItem`. */
  function PrepareStatsItem(e: RawStat): PeriodStat
  {
    PeriodStat(ParseDecimal(e.volume), ParseDecimal(e.trades), ParseDecimal(e.tradedReferralsCount),
               ParseDecimal(e.totalRebateUsd), ParseDecimal(e.discountUsd),
               DecodedReferralCode(e.referralCode))
  }

  /** `raw.map(prepareStatsItem)`. */
  function PrepareAll(raw: seq<RawStat>): (r: seq<PeriodStat>)
    ensures |r| == |raw| && forall k :: 0 <= k < |raw| ==> r[k] == PrepareStatsItem(raw[k])
  {
    seq(|raw|, k requires 0 <= k < |raw| => PrepareStatsItem(raw[k]))
  }

  /** The raw record the indexer holds for a statistic: every number as
      canonical decimal text and the code in its 32-byte hex form. */
  function RawOf(p: PeriodStat): RawStat
    requires IsEncodableCode(p.referralCode)
  {
    RawStat(EncodeReferralCode(p.referralCode).value, ToDecimal(p.volume), ToDecimal(p.trades),
            ToDecimal(p.tradedReferralsCount), ToDecimal(p.totalRebateUsd), ToDecimal(p.discountUsd))
  }

  /** Normalising loses nothing: every number comes back exactly, however
      large, and so does every NUL-free code. */
  lemma PrepareStatsItemRoundTrip(p: PeriodStat)
    requires IsEncodableCode(p.referralCode) && '\0' !in p.referralCode
    ensures PrepareStatsItem(RawOf(p)) == p
  {
    ParseToDecimal(p.volume);
    ParseToDecimal(p.trades);
    ParseToDecimal(p.tradedReferralsCount);
    ParseToDecimal(p.totalRebateUsd);
    ParseToDecimal(p.discountUsd);
    EncodeDecodeRoundTrip(p.referralCode);
  }

  /** The result of `getCumulativeStats`. */
  datatype CumulativeStats = CumulativeStats(
    rebates: nat,
    volume: nat,
    discountUsd: nat,
    trades: nat,
    referralsCount: nat)

  /** The initial accumulator: every total zero. */
  const ZERO_STATS: CumulativeStats := CumulativeStats(0, 0, 0, 0, 0)

  /** The totals after one more statistic. */
  function Step(acc: CumulativeStats, cv: PeriodStat): CumulativeStats
  {
    CumulativeStats(acc.rebates + cv.totalRebateUsd, acc.volume + cv.volume,
                    acc.discountUsd + cv.discountUsd, acc.trades + cv.trades,
                    acc.referralsCount + cv.tradedReferralsCount)
  }

  /** The reduce of `getCumulativeStats`: a left fold of Step from zero. */
  function Aggregate(data: seq<PeriodStat>): CumulativeStats
  {
    if data == [] then ZERO_STATS else Step(Aggregate(data[..|data| - 1]), data[|data| - 1])
  }

  /** Field-wise sum of two totals. */
  function Combine(a: CumulativeStats, b: CumulativeStats): CumulativeStats
  {
    CumulativeStats(a.rebates + b.rebates, a.volume + b.volume, a.discountUsd + b.discountUsd,
                    a.trades + b.trades, a.referralsCount + b.referralsCount)
  }

  function RebateUsdOf(p: PeriodStat): nat { p.totalRebateUsd }
  function VolumeOf(p: PeriodStat): nat { p.volume }
  function DiscountUsdOf(p: PeriodStat): nat { p.discountUsd }
  function TradesOf(p: PeriodStat): nat { p.trades }
  function ReferralsCountOf(p: PeriodStat): nat { p.tradedReferralsCount }

  /** The sum of one field over a list, first element first. */
  function SumOf(data: seq<PeriodStat>, field: PeriodStat -> nat): nat
  {
    if data == [] then 0 else field(data[0]) + SumOf(data[1..], field)
  }

  lemma {:induction false} SumOfSnoc(data: seq<PeriodStat>, x: PeriodStat, field: PeriodStat -> nat)
    ensures SumOf(data + [x], field) == SumOf(data, field) + field(x)
  {
    if data == [] {
      assert data + [x] == [x];
      assert SumOf([x], field) == field(x) + SumOf([], field);
    } else {
      assert (data + [x])[0] == data[0] && (data + [x])[1..] == data[1..] + [x];
      SumOfSnoc(data[1..], x, field);
    }
  }

  /** Each total is the exact sum of its source field: rebates of
      `totalRebateUsd`, referralsCount of `tradedReferralsCount`, and the
      other three of the fields of the same name. */
  lemma {:induction false} AggregateIsFieldSums(data: seq<PeriodStat>)
    ensures Aggregate(data) == CumulativeStats(
              SumOf(data, RebateUsdOf), SumOf(data, VolumeOf), SumOf(data, DiscountUsdOf),
              SumOf(data, TradesOf), SumOf(data, ReferralsCountOf))
  {
    if data != [] {
      var init, x := data[..|data| - 1], data[|data| - 1];
      assert data == init + [x];
      AggregateIsFieldSums(init);
      SumOfSnoc(init, x, RebateUsdOf);
      SumOfSnoc(init, x, VolumeOf);
      SumOfSnoc(init, x, DiscountUsdOf);
      SumOfSnoc(init, x, TradesOf);
      SumOfSnoc(init, x, ReferralsCountOf);
    }
  }

  /** Aggregating a concatenation is combining the two aggregates, so the
      fold may be split and run in parts. */
  lemma {:induction false} AggregateAppend(a: seq<PeriodStat>, b: seq<PeriodStat>)
    ensures Aggregate(a + b) == Combine(Aggregate(a), Aggregate(b))
  {
    if b == [] {
      assert a + b == a;
    } else {
      var init, y := b[..|b| - 1], b[|b| - 1];
      var ab := a + b;
      assert ab[|ab| - 1] == y && ab[..|ab| - 1] == a + init;
      assert Aggregate(ab) == Step(Aggregate(a + init), y);
      assert Aggregate(b) == Step(Aggregate(init), y);
      AggregateAppend(a, init);
    }
  }

  /** The order of the statistics does not matter. */
  lemma {:induction false} AggregatePermutation(s: seq<PeriodStat>, t: seq<PeriodStat>)
    requires multiset(s) == multiset(t)
    ensures Aggregate(s) == Aggregate(t)
    decreases |s|
  {
    if s == [] {
      assert |t| == |multiset(t)| == 0;
    } else {
      var x := s[0];
      assert x in multiset(t);
      var k :| 0 <= k < |t| && t[k] == x;
      var front, back := t[..k], t[k + 1..];
      RemoveMatching(s, t, k);
      AggregatePermutation(s[1..], front + back);
      assert s == [x] + s[1..];
      AggregateAppend([x], s[1..]);
      assert t == front + [x] + back;
      AggregateMoveFront(front, x, back);
    }
  }

  lemma RemoveMatching(s: seq<PeriodStat>, t: seq<PeriodStat>, k: nat)
    requires multiset(s) == multiset(t) && s != [] && k < |t| && t[k] == s[0]
    ensures multiset(s[1..]) == multiset(t[..k] + t[k + 1..])
  {
    assert s == [s[0]] + s[1..];
    assert t == t[..k] + [t[k]] + t[k + 1..];
    assert multiset(s[1..]) == multiset(s) - multiset([s[0]]);
    assert multiset(t[..k] + t[k + 1..]) == multiset(t) - multiset([t[k]]);
  }

  lemma AggregateMoveFront(front: seq<PeriodStat>, x: PeriodStat, back: seq<PeriodStat>)
    ensures Aggregate(front + [x] + back) == Combine(Aggregate([x]), Aggregate(front + back))
  {
    AggregateAppend(front + [x], back);
    AggregateAppend(front, [x]);
    AggregateAppend(front, back);
  }

  /** The `acc` object of the reduce, whose fields each step updates. */
  class Accumulator {
    var rebates: nat
    var volume: nat
    var discountUsd: nat
    var trades: nat
    var referralsCount: nat

    constructor ()
      ensures Totals() == ZERO_STATS
    {
      rebates, volume, discountUsd, trades, referralsCount := 0, 0, 0, 0, 0;
    }

    function Totals(): CumulativeStats
      reads this
    {
      CumulativeStats(rebates, volume, discountUsd, trades, referralsCount)
    }

    /** The reducer's body: each field grows by its source field. */
    method Add(cv: PeriodStat)
      modifies this
      ensures rebates == old(rebates) + cv.totalRebateUsd
      ensures volume == old(volume) + cv.volume
      ensures discountUsd == old(discountUsd) + cv.discountUsd
      ensures trades == old(trades) + cv.trades
      ensures referralsCount == old(referralsCount) + cv.tradedReferralsCount
      ensures Totals() == Step(old(Totals()), cv)
    {
      rebates := rebates + cv.totalRebateUsd;
      volume := volume + cv.volume;
      discountUsd := discountUsd + cv.discountUsd;
      trades := trades + cv.trades;
      referralsCount := referralsCount + cv.tradedReferralsCount;
    }
  }

  /** `getCumulativeStats`: the reduce over `data` from a zero accumulator. */
  method GetCumulativeStats(data: seq<PeriodStat>) returns (totals: CumulativeStats)
    ensures totals == Aggregate(data)
    ensures data == [] ==> totals == ZERO_STATS
  {
    var acc := new Accumulator();
    for i := 0 to |data|
      invariant acc.Totals() == Aggregate(data[..i])
    {
      acc.Add(data[i]);
      assert data[..i + 1][..i] == data[..i];
    }
    assert data[..|data|] == data;
    totals := acc.Totals();
  }
}
