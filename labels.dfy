/**
 The two static label tables of the transfer script: raw export headers to
 standard field names, and standard field names to template headers.
 */
module Labels {

  /** The label whose row is the header row, and the key column of every data row. */
  const Anchor: string := "Scheme Name"

  /** The reserved field name under which the column dated on the latest date is mapped. */
  const Aum: string := "AUM"

  /** Raw header text (after trimming) to standard field name. */
  const RawToStandard: map<string, string> := map[
    "Scheme Name" := "Scheme Name",
    "Month End" := "Month End",
    "Average Maturity Years" := "Avg Maturity",
    "Modified Duration Years" := "Mod Duration",
    "YTM (%)" := "YTM",
    "Direct Expense Ratio" := "Expense Ratio",
    "Latest Date" := "Latest Date",
    "Latest NAV(Rs)" := "NAV",
    "1 Day" := "1 Day",
    "3 Day" := "3 Day",
    "1 Week" := "1 Week",
    "2 Week" := "2 Week",
    "1 Month" := "1 Month",
    "3 Months" := "3 Months",
    "6 Months" := "6 Months",
    "9 Months" := "9 Months",
    "1 Year" := "1 Year",
    "3 Years" := "3 Years",
    "5 Years" := "5 Years",
    "10 Years" := "10 Years",
    "SINCE INCEPTION" := "Since Inception",
    "Cash & Equi" := "Cash & Equi",
    "Others" := "Others",
    "SOV" := "SOV",
    "AA" := "AA",
    "AA-" := "AA-",
    "AA+" := "AA+",
    "AAA/A1+" := "AAA/A1+",
    "D" := "D",
    "Unrated" := "Unrated",
    "Exit Load" := "Exit Load",
    "Remark" := "Remark",
    "Inception Date" := "Inception Date",
    "[Fund Manager 1]" := "Fund Manager 1"
  ]

  /** Standard field name to template header text. */
  const StandardToTemplate: map<string, string> := map[
    "Scheme Name" := "Scheme Name",
    "Month End" := "Month End",
    "Avg Maturity" := "Average Maturity Years",
    "Mod Duration" := "Modified Duration Years",
    "YTM" := "YTM (%)",
    "Expense Ratio" := "Direct Expense Ratio",
    "Latest Date" := "Latest Date",
    "NAV" := "Latest NAV(Rs)",
    "1 Day" := "1 Day",
    "3 Day" := "3 Day",
    "1 Week" := "1 Week",
    "2 Week" := "2 Week",
    "1 Month" := "1 Month",
    "3 Months" := "3 Months",
    "6 Months" := "6 Months",
    "9 Months" := "9 Months",
    "1 Year" := "1 Year",
    "3 Years" := "3 Years",
    "5 Years" := "5 Years",
    "10 Years" := "10 Years",
    "Since Inception" := "SINCE INCEPTION",
    "Cash & Equi" := "Cash & Equi",
    "Others" := "Others",
    "SOV" := "SOV",
    "AA" := "AA",
    "AA-" := "AA-",
    "AA+" := "AA+",
    "AAA/A1+" := "AAA/A1+",
    "D" := "D",
    "Unrated" := "Unrated",
    "Exit Load" := "Exit Load",
    "Remark" := "Remark",
    "Inception Date" := "Inception Date",
    "Fund Manager 1" := "[Fund Manager 1]"
  ]

  /** A raw label and a standard name that the two tables map to each other. */
  predicate Paired(raw: string, std: string)
  {
    && raw in RawToStandard && RawToStandard[raw] == std
    && std in StandardToTemplate && StandardToTemplate[std] == raw
  }

  // The entries of the two tables, checked a few at a time. The split into
  // small groups only keeps each proof cheap for the solver; EveryEntryPaired
  // and EveryStandardPaired below combine the groups.
  lemma PairedEntries1()
    ensures Paired("Scheme Name", "Scheme Name")
    ensures Paired("Month End", "Month End")
  {
  }

  lemma PairedEntries2()
    ensures Paired("Average Maturity Years", "Avg Maturity")
    ensures Paired("Modified Duration Years", "Mod Duration")
  {
  }

  lemma PairedEntries3()
    ensures Paired("YTM (%)", "YTM")
    ensures Paired("Direct Expense Ratio", "Expense Ratio")
  {
  }

  lemma PairedEntries4()
    ensures Paired("Latest Date", "Latest Date")
    ensures Paired("Latest NAV(Rs)", "NAV")
  {
  }

  lemma PairedEntries5()
    ensures Paired("1 Day", "1 Day")
    ensures Paired("3 Day", "3 Day")
    ensures Paired("1 Week", "1 Week")
  {
  }

  lemma PairedEntries6()
    ensures Paired("2 Week", "2 Week")
    ensures Paired("1 Month", "1 Month")
    ensures Paired("3 Months", "3 Months")
  {
  }

  lemma PairedEntries7()
    ensures Paired("6 Months", "6 Months")
    ensures Paired("9 Months", "9 Months")
    ensures Paired("1 Year", "1 Year")
  {
  }

  lemma PairedEntries8()
    ensures Paired("3 Years", "3 Years")
    ensures Paired("5 Years", "5 Years")
    ensures Paired("10 Years", "10 Years")
    ensures Paired("SINCE INCEPTION", "Since Inception")
  {
  }

  lemma PairedEntries9()
    ensures Paired("Cash & Equi", "Cash & Equi")
    ensures Paired("Others", "Others")
    ensures Paired("SOV", "SOV")
    ensures Paired("AA", "AA")
  {
  }

  lemma PairedEntries10()
    ensures Paired("AA-", "AA-")
    ensures Paired("AA+", "AA+")
    ensures Paired("AAA/A1+", "AAA/A1+")
    ensures Paired("D", "D")
  {
  }

  lemma PairedEntries11()
    ensures Paired("Unrated", "Unrated")
    ensures Paired("Exit Load", "Exit Load")
    ensures Paired("Remark", "Remark")
    ensures Paired("Inception Date", "Inception Date")
    ensures Paired("[Fund Manager 1]", "Fund Manager 1")
  {
  }

  /** Every raw label comes back as the template label of its standard name. */
  lemma EveryEntryPaired()
    ensures forall k :: k in RawToStandard ==> Paired(k, RawToStandard[k])
  {
    PairedEntries1();
    PairedEntries2();
    PairedEntries3();
    PairedEntries4();
    PairedEntries5();
    PairedEntries6();
    PairedEntries7();
    PairedEntries8();
    PairedEntries9();
    PairedEntries10();
    PairedEntries11();
  }

  /** Every standard name comes back as the standard name of its template label. */
  lemma EveryStandardPaired()
    ensures forall s :: s in StandardToTemplate ==> Paired(StandardToTemplate[s], s)
  {
    PairedEntries1();
    PairedEntries2();
    PairedEntries3();
    PairedEntries4();
    PairedEntries5();
    PairedEntries6();
    PairedEntries7();
    PairedEntries8();
    PairedEntries9();
    PairedEntries10();
    PairedEntries11();
  }

  /** Hence the raw labels are exactly the template labels, and both tables
      range over the same standard names. */
  lemma TablesShareLabels()
    ensures RawToStandard.Keys == StandardToTemplate.Values
    ensures RawToStandard.Values == StandardToTemplate.Keys
  {
    EveryEntryPaired();
    EveryStandardPaired();
  }

  /** The anchor label is its own raw label, standard name and template label. */
  lemma AnchorMapsToItself()
    ensures Paired(Anchor, Anchor)
  {
    PairedEntries1();
  }

  /** The reserved name "AUM" is not a standard name, so no label column can take its place. */
  lemma AumIsNoStandardName()
    ensures Aum !in RawToStandard.Values && Aum !in StandardToTemplate
  {
  }

  /** No two standard names share a template label. */
  lemma TemplateLabelsDistinct()
    ensures forall s1, s2 :: s1 in StandardToTemplate && s2 in StandardToTemplate && s1 != s2 ==>
      StandardToTemplate[s1] != StandardToTemplate[s2]
  {
    EveryStandardPaired();
  }

  /** A map that sends no two keys to one value has as many values as keys. */
  lemma {:induction false} DistinctValuesCount(m: map<string, string>)
    requires forall k1, k2 :: k1 in m && k2 in m && k1 != k2 ==> m[k1] != m[k2]
    ensures |m.Values| == |m|
    decreases |m|
  {
    if m != map[] {
      var k :| k in m;
      var rest := m - {k};
      assert rest.Keys == m.Keys - {k};
      DistinctValuesCount(rest);
      forall v | v in m.Values
        ensures v in rest.Values + {m[k]}
      {
        var k' :| k' in m && m[k'] == v;
        if k' != k {
          assert k' in rest;
        }
      }
      assert m.Values == rest.Values + {m[k]};
      assert m[k] !in rest.Values;
    }
  }

  /** The two tables have the same number of entries. */
  lemma TablesSameSize()
    ensures |RawToStandard| == |StandardToTemplate|
  {
    TablesShareLabels();
    TemplateLabelsDistinct();
    DistinctValuesCount(StandardToTemplate);
  }
}
