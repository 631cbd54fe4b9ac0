# Referral reporting pipeline of the GMX interface, in Dafny

This project models the data pipeline inside `useReferralsData`
(`src/Api/referrals.js`). The hook asks the referrals indexer for one
account's data on one chain and turns the answer into a report. The model
covers:

- **Referral-code codec.** `encodeReferralCode` turns a code of at most 31
  characters into a 32-byte, zero-padded value written as hex text.
  `decodeReferralCode` turns that text back into the code with ethers'
  `parseBytes32String`. When that call throws, it falls back to reading 32
  hex pairs one character each and trimming the result. The ethers helpers
  (`hexlify`, `arrayify`, `formatBytes32String`, `parseBytes32String`) are
  given explicit definitions in `Bytes32`. The JavaScript built-ins the
  fallback uses (`substring`, `parseInt(_, 16)`, `String.fromCharCode`,
  `trim`) are defined in `JsText`.
- **Distribution partition.** The loop over `distributions` builds one item
  per record. Type `"1"` goes to the rebate list; every other type goes to
  the discount list.
- **Stat normalisation and cumulative totals.** `prepareStatsItem` parses the
  numbers exactly and decodes the code. `getCumulativeStats` adds five fields
  into an accumulator that starts at zero.
- **Small rules.** The chain lookup (`getGraphClient`), the start of the UTC
  day used as the daily filter, the request's filter values, and the zero
  default for a missing `referralTotalStats`.

Files and modules: `wrappers.dfy` (Option, Result), `jstext.dfy` (JsText),
`bytes32.dfy` (Bytes32), `referral_codes.dfy` (ReferralCodes),
`decimal.dfy` (Decimal), `distributions.dfy` (Distributions), `stats.dfy`
(Stats), `referrals.dfy` (Referrals, the report) and `scenarios.dfy`
(worked examples).

Imperative parts of the source stay imperative here:

- The fallback loop is the `for` loop of `ReferralCodes.FallbackLoop`, called through `ReferralCodes.DecodeFallback` when `parseBytes32String` fails.
- The partition loop is `Distributions.PartitionDistributions`.
- The mutated `acc` object is the class `Stats.Accumulator`, driven by
  `Stats.GetCumulativeStats`.

Each of these methods is proved equal to a specification function
(`DecodedReferralCode`, `Rebates`/`Discounts`, `Aggregate`). Lemmas then
state the properties of those functions.

Inputs that the source gets from outside become parameters:

- the current time in milliseconds (`Date.now()`);
- the address checksum function (`ethers.utils.getAddress`);
- the indexer's answer (`QueryData`).

## Model

| member | source | states |
|---|---|---|
| `Referrals.GetGraphClient` | src/Api/referrals.js:12-19 | succeeds exactly for chain id ARBITRUM (42161) and then gives the Arbitrum referrals client; any other chain id gives UnsupportedChain with that id |
| `ReferralCodes.EncodeReferralCode` | src/Api/referrals.js:37-41 | fails with CodeTooBig exactly when the code is longer than 31 characters, with no value produced; otherwise gives 66 characters of hex text whose bytes are the code's bytes followed by zero bytes up to 32 |
| `Bytes32.FormatBytes32String` | src/Api/referrals.js:41 | for an ASCII text of at most 31 characters: 66 characters of hex text that `arrayify` reads back as the text's bytes followed by zeros up to 32 bytes |
| `Bytes32.ParseBytes32String` | src/Api/referrals.js:26 | succeeds exactly for "0x" plus 64 hex digits whose last byte is 0 and whose bytes before the first 0 are ASCII; the text is those bytes, at most 31 characters, with no NUL |
| `Bytes32.ArrayifyHexlify` | src/Api/referrals.js:26 | `arrayify` reads back exactly the bytes that `hexlify` wrote |
| `ReferralCodes.EncodeDecodeRoundTrip` | src/Api/referrals.js:24-26 | for every ASCII code of at most 31 characters without NUL, decoding the encoding succeeds on the primary path and gives the code back unchanged, including spaces at either end |
| `ReferralCodes.EncodeDecodeStopsAtNul` | src/Api/referrals.js:24-26 | under this model's first-zero reading of `parseBytes32String`, a code whose first NUL is at position k decodes to its first k characters |
| `ReferralCodes.DecodedReferralCode` | src/Api/referrals.js:24-34 | decoding never fails on any input text and gives at most 32 characters |
| `ReferralCodes.DecodeReferralCode` | src/Api/referrals.js:24-34 | the method returns exactly the specified decoding: the primary text when `parseBytes32String` succeeds, the trimmed fallback otherwise |
| `ReferralCodes.DecodeFallback` | src/Api/referrals.js:27-33 | the catch branch returns the 32 fallback characters trimmed at both ends |
| `ReferralCodes.FallbackLoop` | src/Api/referrals.js:28-32 | the 32-step concatenation loop builds exactly the specified fallback characters, one per hex pair |
| `ReferralCodes.FallbackDecode` | src/Api/referrals.js:27-33 | the fallback result is its 32 pre-trim characters with whitespace cut from each end, neither end of it whitespace, and at most 32 characters long |
| `ReferralCodes.FallbackReadsBytes` | src/Api/referrals.js:29-32 | on "0x" plus 64 hex digits the fallback drops the first two characters and reads exactly 32 pairs, making character k the value of byte k |
| `ReferralCodes.DecodeBytes32` | src/Api/referrals.js:24-34 | on well-formed 32-byte hex text the result is the ASCII text before the first zero byte when the last byte is 0 and that text is ASCII, and otherwise the 32 bytes as characters, trimmed |
| `ReferralCodes.FallbackKeepsNul` | src/Api/referrals.js:33 | a NUL among the 32 fallback characters is still in the trimmed result, because `trim` does not count NUL as whitespace |
| `JsText.TrimIsTrimOf` | src/Api/referrals.js:33 | `trim()` cuts a run of whitespace from each end and nothing else, leaves neither end as whitespace, and never lengthens the text |
| `JsText.TrimIdempotent` | src/Api/referrals.js:33 | trimming twice gives the same result as trimming once |
| `JsText.TrimKeepsNul` | src/Api/referrals.js:33 | a NUL anywhere in the text is still there after trimming |
| `JsText.TrimKeepsNonWhitespace` | src/Api/referrals.js:33 | every character that is not whitespace is still there after trimming |
| `JsText.TrimStartSpec` | src/Api/referrals.js:33 | `TrimStart` removes exactly the leading whitespace: the result is a suffix of the input, does not start with whitespace, and everything removed was whitespace |
| `JsText.TrimEnd` | src/Api/referrals.js:33 | removes exactly the trailing whitespace: the result is a prefix of the input, does not end with whitespace, and everything removed was whitespace |
| `JsText.ParseIntHex` | src/Api/referrals.js:31 | `parseInt(_, 16)` of at most two characters is NaN or a number of magnitude below 256 |
| `JsText.ParseIntHexPair` | src/Api/referrals.js:31 | two hex digits of either case parse to 16 times the first digit's value plus the second's |
| `JsText.FromCharCode` | src/Api/referrals.js:31 | the character code is the number modulo 65536, and NaN gives 0 |
| `JsText.Substring` | src/Api/referrals.js:31 | `substring(start, end)` clamps both indices to the length, and its characters are those of the input from `start` on |
| `Decimal.ParseToDecimal` | src/Api/referrals.js:139-143 | parsing the decimal text of any natural number gives that number back: `bigNumberify` and `parseInt` on digit text lose nothing |
| `Distributions.PartitionDistributions` | src/Api/referrals.js:119-135 | the loop's two lists are exactly the type-"1" items and the other items, in input order, and their lengths add up to the input length |
| `Distributions.PartitionIsExact` | src/Api/referrals.js:130-134 | every item is in exactly one list (multisets add up to the input); an item is a rebate exactly when its type is "1" and a discount for every other type, not only "2"; each list is a subsequence of the input |
| `Distributions.FilterSplits` | src/Api/referrals.js:130-134 | splitting by a test and by its negation loses and duplicates nothing |
| `Distributions.FilterMembers` | src/Api/referrals.js:130-134 | an element is kept exactly when it is in the input and passes the test |
| `Distributions.FilterIsSubsequence` | src/Api/referrals.js:121-135 | the kept elements appear in the same order as in the input |
| `Distributions.Items` | src/Api/referrals.js:122-129 | one item per raw record, in the same order |
| `Stats.PrepareAll` | src/Api/referrals.js:168 | one normalised statistic per raw record, in the same order |
| `Stats.PrepareStatsItemRoundTrip` | src/Api/referrals.js:137-146 | normalising a record written from a statistic gives that statistic back: all five numbers exactly, however large, and the referral code |
| `Stats.Accumulator.constructor` | src/Api/referrals.js:158-164 | the accumulator starts with every total at zero |
| `Stats.Accumulator.Add` | src/Api/referrals.js:150-156 | one reducer step: rebates grows by totalRebateUsd, referralsCount grows by tradedReferralsCount, and volume, discountUsd and trades each grow by the field of the same name |
| `Stats.GetCumulativeStats` | src/Api/referrals.js:148-166 | the reduce equals the left fold of those steps from zero, and is all zeros on an empty list |
| `Stats.AggregateIsFieldSums` | src/Api/referrals.js:148-166 | each total is the exact sum of its source field over the list |
| `Stats.AggregateAppend` | src/Api/referrals.js:148-166 | aggregating a concatenation is the field-wise sum of aggregating each part |
| `Stats.AggregatePermutation` | src/Api/referrals.js:148-166 | two lists with the same elements in any order aggregate to the same totals |
| `Referrals.StartOfDayTimestamp` | src/Api/referrals.js:47 | with s the current second, the result is a multiple of 86400, at most s, and more than s - 86400 |
| `Referrals.StartOfDayIsUnique` | src/Api/referrals.js:47 | any multiple of 86400 within that window is the start of the day |
| `Referrals.LowerAscii` | src/Api/referrals.js:110 | the result has the same length and no capital letter; each character is unchanged or is a capital shifted down to its small letter |
| `Referrals.PrepareRequest` | src/Api/referrals.js:47-116 | a request exists exactly for ARBITRUM, and otherwise the error comes with no request; the request has the start-of-day timestamp, both type ids "1" and "2", and the account equal to `LowerAscii` of the given account, with a missing account giving "" |
| `Referrals.ReferralTotalStats` | src/Api/referrals.js:176-184 | a missing referred-user aggregate becomes volume 0 and discountUsd 0 |
| `Referrals.ReferralTotalStatsCopies` | src/Api/referrals.js:176-180 | a present aggregate is copied exactly, both fields |
| `Referrals.DecodeAll` | src/Api/referrals.js:175 | one decoded code per raw code, in the same order, each at most 32 characters |
| `Referrals.AssembleReport` | src/Api/referrals.js:168-185 | the report holds the partitioned distributions, whose lengths add up to the input length; the normalised total and last-day stats; the totals aggregated over the normalised total stats; the decoded codes; and the referred-user aggregate or its zero default |
| `Scenarios.SpacesKept` | src/Api/referrals.js:24-26 | " ref " round-trips with both spaces |
| `ReferralCodes.FullLengthCodeUsesFallback` | src/Api/referrals.js:24-34 | a 32-character ASCII code whose last character is not NUL, written out as hex, is refused by `parseBytes32String` and the fallback returns the code trimmed at both ends |
| `Scenarios.NormaliseExample` | src/Api/referrals.js:137-146 | a raw record with volume 10^18 and code "REF1" normalises to exact numbers and "REF1" |
| `Scenarios.AggregateExample` | src/Api/referrals.js:148-166 | two statistics with volumes 100 and 200 aggregate to volume 300, and likewise for the other fields |

Facts about the source that the model follows:

- The fallback's `trim()` at line 33 removes whitespace at both ends.
- The report's `codes` (line 175) is a list in the order the indexer returns the codes, not a set.
- The round trip `decode(encode(s)) == s` is proved for codes without a NUL
  character. Codes with a NUL are a consequence of how this model reads
  `parseBytes32String` (text up to the first zero byte): under that reading
  they decode to the part before their first NUL (`EncodeDecodeStopsAtNul`).

## Left out

- React state binding: `useState`, `useEffect`, `setData`, the dependency
  list and `data || null` (lines 44-46, 169, 188-190). `AssembleReport`
  returns the value that is handed to `setData`.
- The GraphQL query text, the Apollo client call, the promise chain and
  `console.warn` (lines 48-118, 187). These are network I/O. The answer is
  the `QueryData` parameter, and `PrepareRequest` gives the filter values
  that are put into the query.
- Stale-response and cancellation handling. The source has none.
- `ethers.utils.getAddress` (lines 125, 128) is the parameter `getAddress`,
  a total function. Its checksum computation and its throw on a malformed
  address are not modelled.
- ethers is not part of this model. `Bytes32` states its helpers' behaviour
  as this model takes it: decoding ends at the first zero byte. ethers v5's
  own `parseBytes32String` strips trailing zero bytes instead. The two agree
  on every text without a NUL character.
- EncodeReferralCode: requires ASCII input. UTF-8 encoding of other
  characters inside `formatBytes32String` is not modelled, so the library's
  own 31-byte check never fires. For ASCII text it is the same condition as
  the 31-character check.
- ParseBytes32String: treats any text byte of 0x80 or above as a failure of
  the primary path. ethers would decode valid multi-byte UTF-8 and fail only
  on invalid sequences.
- FromCharCode: defined only for the codes that parsing at most two
  characters can give (magnitude below 256). Lone UTF-16 surrogates cannot
  be Dafny characters.
- Substring: text with characters outside the Basic Multilingual Plane is
  indexed per character, not per UTF-16 code unit as JavaScript's
  `substring` (lines 29 and 31) does. A character above U+FFFF is one index
  here and two in JavaScript, so the fallback reads such text at other
  positions. Hex text and every other BMP text are unaffected.
- EncodeDecodeStopsAtNul: describes this model's first-zero reading of
  `parseBytes32String`, not ethers v5. ethers v5 strips only trailing zero
  bytes, so there a code with an inner NUL such as "a\0b" round-trips, and
  only a code ending in NUL loses it.
- Numeric text from the indexer has the type `DecimalText` (non-empty
  digits). `parseInt` and `bigNumberify` behaviour on other text (signs, hex,
  whitespace, trailing junk, NaN, throwing) is not modelled.
- The counts `trades` and `tradedReferralsCount`, and a distribution's
  `timestamp` (`parseInt(d.timestamp)`, line 123), are JavaScript numbers in
  the source, exact only below 2^53. The model treats them as unbounded
  naturals.
- `Date.now()` and the floating-point division before `parseInt` (line 47)
  are replaced by an integer count of milliseconds, `nowMs`.
- LowerAscii: lower-cases ASCII capitals only. `toLowerCase()` on non-ASCII
  characters is not modelled; account addresses are hex text.
- `getGraphClient` throws synchronously, outside the promise chain. In the
  model this is the `Err` result of `GetGraphClient` and `PrepareRequest`.
- The default parameter `data = []` of `getCumulativeStats` (line 148). Its
  only caller passes a list.
