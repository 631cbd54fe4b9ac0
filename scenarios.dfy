/** Worked examples of the pipeline on concrete values. */
module Scenarios {
  import opened Wrappers
  import opened JsText
  import opened Bytes32
  import opened ReferralCodes
  import opened Decimal
  import opened Stats

  /** Spaces at either end of a code survive the primary path. */
  lemma SpacesKept()
    ensures DecodedReferralCode(EncodeReferralCode(" ref ").value) == " ref "
  {
    EncodeDecodeRoundTrip(" ref ");
  }

  /** The normalisation example: exact numbers and the decoded code. */
  lemma NormaliseExample()
    ensures var raw := RawStat(EncodeReferralCode("REF1").value, ToDecimal(1000000000000000000),
                               ToDecimal(5), ToDecimal(2), ToDecimal(500), ToDecimal(0));
            PrepareStatsItem(raw) == PeriodStat(1000000000000000000, 5, 2, 500, 0, "REF1")
  {
    PrepareStatsItemRoundTrip(PeriodStat(1000000000000000000, 5, 2, 500, 0, "REF1"));
  }

  /** Two statistics sum exactly, field by field. */
  lemma AggregateExample()
    ensures Aggregate([PeriodStat(100, 1, 2, 3, 4, "A"), PeriodStat(200, 10, 20, 30, 40, "B")])
            == CumulativeStats(33, 300, 44, 11, 22)
  {
    var a, b := PeriodStat(100, 1, 2, 3, 4, "A"), PeriodStat(200, 10, 20, 30, 40, "B");
    assert [a, b][..1] == [a];
    assert [a][..0] == [];
  }
}
