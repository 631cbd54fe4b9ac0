/** The report that `useReferralsData` (src/Api/referrals.js) builds for an
    account: the choice of indexer client by chain, the request's filter
    values, and the assembly of the query's answer into the report. The
    query itself, its transport and the React state binding are outside
    this model. */
module Referrals {
  import opened Wrappers
  import opened Decimal
  import opened ReferralCodes
  import opened Distributions
  import opened Stats

  /** Arbitrum One's chain id, the value of ARBITRUM in the application's
      Helpers module (that module is not part of this model). */
  const ARBITRUM: int := 42161

  const SECONDS_PER_DAY: nat := 86400

  /** The indexer clients; only the Arbitrum referrals client is wired up. */
  datatype GraphClient = ArbitrumReferralsGraphClient

  datatype ChainError = UnsupportedChain(chainId: int)

  /** `getGraphClient`: the Arbitrum client for Arbitrum, an "Unsupported
      chain" error for every other chain id. */
  function GetGraphClient(chainId: int): (r: Result<GraphClient, ChainError>)
    ensures r.Ok? <==> chainId == ARBITRUM
    ensures r.Ok? ==> r.value == ArbitrumReferralsGraphClient
    ensures r.Err? ==> r.error == UnsupportedChain(chainId)
  {
    if chainId == ARBITRUM then Ok(ArbitrumReferralsGraphClient) else Err(UnsupportedChain(chainId))
  }

  /** The start of the current UTC day in seconds, from the current time in
      milliseconds: the last multiple of 86400 not after the current second. */
  function StartOfDayTimestamp(nowMs: nat): (r: nat)
    ensures r % SECONDS_PER_DAY == 0
    ensures r <= nowMs / 1000 < r + SECONDS_PER_DAY
  {
    (nowMs / 1000) / SECONDS_PER_DAY * SECONDS_PER_DAY
  }

  /** Those bounds single the start of the day out: no other day boundary
      lies within the last 86400 seconds. */
  lemma StartOfDayIsUnique(nowMs: nat, m: nat)
    requires m % SECONDS_PER_DAY == 0 && m <= nowMs / 1000 < m + SECONDS_PER_DAY
    ensures m == StartOfDayTimestamp(nowMs)
  {
    var s := nowMs / 1000;
    var d := m / SECONDS_PER_DAY;
    assert m == d * SECONDS_PER_DAY;
    assert d * SECONDS_PER_DAY <= s < (d + 1) * SECONDS_PER_DAY;
    assert s / SECONDS_PER_DAY == d;
  }

  /** `toLowerCase()` on the characters an account address is made of:
      ASCII capitals become small letters, everything else is kept. */
  function LowerAscii(s: string): (r: string)
    ensures |r| == |s|
    ensures forall k :: 0 <= k < |s| ==> !('A' <= r[k] <= 'Z')
    ensures forall k :: 0 <= k < |s| ==> r[k] == s[k] || ('A' <= s[k] <= 'Z' && r[k] as int == s[k] as int + 32)
  {
    seq(|s|, k requires 0 <= k < |s| => if 'A' <= s[k] <= 'Z' then (s[k] as int + 32) as char else s[k])
  }

  /** The filter values the query is sent with, and the client it goes to. */
  datatype Request = Request(
    client: GraphClient,
    account: string,
    rebateTypeId: string,
    discountTypeId: string,
    dayTimestamp: nat)

  /** The request the effect issues: the account lower-cased (a missing
      account becomes ""), both distribution types, the start of the day.
      An unsupported chain yields the error and no request. */
  function PrepareRequest(chainId: int, nowMs: nat, account: Option<string>): (r: Result<Request, ChainError>)
    ensures r.Ok? <==> chainId == ARBITRUM
    ensures r.Err? ==> r.error == UnsupportedChain(chainId)
    ensures r.Ok? ==> && r.value.dayTimestamp % SECONDS_PER_DAY == 0
                      && r.value.dayTimestamp <= nowMs / 1000 < r.value.dayTimestamp + SECONDS_PER_DAY
                      && r.value.rebateTypeId == DISTRIBUTION_TYPE_REBATES
                      && r.value.discountTypeId == DISTRIBUTION_TYPE_DISCOUNT
                      && |r.value.account| == (if account.Some? then |account.value| else 0)
                      && forall k :: 0 <= k < |r.value.account| ==> !('A' <= r.value.account[k] <= 'Z')
    ensures r.Ok? ==> r.value.account == LowerAscii(if account.Some? then account.value else "")
  {
    var lowered := LowerAscii(if account.Some? then account.value else "");
    var dayStart := StartOfDayTimestamp(nowMs);
    match GetGraphClient(chainId)
    case Err(e) => Err(e)
    case Ok(client) => Ok(Request(client, lowered, DISTRIBUTION_TYPE_REBATES, DISTRIBUTION_TYPE_DISCOUNT, dayStart))
  }

  /** The referred-user aggregate as the indexer returns it. */
  datatype RawReferralTotal = RawReferralTotal(volume: DecimalText, discountUsd: DecimalText)

  datatype ReferralTotal = ReferralTotal(volume: nat, discountUsd: nat)

  /** `referralTotalStats` of the report: the parsed aggregate, or zeros when
      the indexer has none. */
  function ReferralTotalStats(raw: Option<RawReferralTotal>): (r: ReferralTotal)
    ensures raw.None? ==> r == ReferralTotal(0, 0)
  {
    match raw
    case None => ReferralTotal(0, 0)
    case Some(t) => ReferralTotal(ParseDecimal(t.volume), ParseDecimal(t.discountUsd))
  }

  /** A present aggregate is copied exactly: both fields come back whatever
      their size. */
  lemma ReferralTotalStatsCopies(t: ReferralTotal)
    ensures ReferralTotalStats(Some(RawReferralTotal(ToDecimal(t.volume), ToDecimal(t.discountUsd)))) == t
  {
    ParseToDecimal(t.volume);
    ParseToDecimal(t.discountUsd);
  }

  /** The query's answer. */
  datatype QueryData = QueryData(
    distributions: seq<RawDistribution>,
    referrerTotalStats: seq<RawStat>,
    referrerLastDayStats: seq<RawStat>,
    referralCodes: seq<string>,
    referralTotalStats: Option<RawReferralTotal>)

  /** The report handed to `setData`. */
  datatype Report = Report(
    rebateDistributions: seq<Distribution>,
    discountDistributions: seq<Distribution>,
    referrerTotalStats: seq<PeriodStat>,
    referrerLastDayStats: seq<PeriodStat>,
    cumulativeStats: CumulativeStats,
    codes: seq<string>,
    referralTotalStats: ReferralTotal)

  /** `referralCodes.map((e) => decodeReferralCode(e.code))`. */
  function DecodeAll(hexCodes: seq<string>): (codes: seq<string>)
    ensures |codes| == |hexCodes|
    ensures forall k :: 0 <= k < |hexCodes| ==> codes[k] == DecodedReferralCode(hexCodes[k]) && |codes[k]| <= 32
  {
    seq(|hexCodes|, k requires 0 <= k < |hexCodes| => DecodedReferralCode(hexCodes[k]))
  }

  /** The success callback of the query: partition the distributions,
      normalise both stat lists, sum the total stats, decode the codes and
      default the referred-user aggregate. */
  method AssembleReport(res: QueryData, getAddress: string -> string) returns (report: Report)
    ensures report.rebateDistributions == Rebates(Items(res.distributions, getAddress))
    ensures report.discountDistributions == Discounts(Items(res.distributions, getAddress))
    ensures |report.rebateDistributions| + |report.discountDistributions| == |res.distributions|
    ensures report.referrerTotalStats == PrepareAll(res.referrerTotalStats)
    ensures report.referrerLastDayStats == PrepareAll(res.referrerLastDayStats)
    ensures report.cumulativeStats == Aggregate(report.referrerTotalStats)
    ensures report.codes == DecodeAll(res.referralCodes)
    ensures res.referralTotalStats.None? ==> report.referralTotalStats == ReferralTotal(0, 0)
    ensures res.referralTotalStats.Some? ==>
              report.referralTotalStats == ReferralTotal(ParseDecimal(res.referralTotalStats.value.volume),
                                                         ParseDecimal(res.referralTotalStats.value.discountUsd))
  {
    var rebateDistributions, discountDistributions := PartitionDistributions(res.distributions, getAddress);
    var referrerTotalStats := PrepareAll(res.referrerTotalStats);
    var cumulativeStats := GetCumulativeStats(referrerTotalStats);
    report := Report(rebateDistributions, discountDistributions, referrerTotalStats,
                     PrepareAll(res.referrerLastDayStats), cumulativeStats,
                     DecodeAll(res.referralCodes), ReferralTotalStats(res.referralTotalStats));
  }
}
