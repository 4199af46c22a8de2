/**
 How the script recognises header cells. It compares `str(cell.value).strip()`
 with the labels of its two tables; every such label contains a letter or a
 bracket at one of its ends, so a number or a timestamp never matches one and
 only string cells need to be looked at.
 */
module HeaderText {
  import opened Cells
  import opened Labels

  /** `k` is not "None" and starts or ends with a character no number or timestamp text has. */
  predicate IsWordLabel(k: string)
  {
    && k != "None"
    && |k| > 0
    && (!IsNumeralChar(k[0]) || !IsNumeralChar(k[|k| - 1]))
  }

  lemma RawLabelsAreWords()
    ensures forall k :: k in RawToStandard ==> IsWordLabel(k)
  {
  }

  /** A string cell whose trimmed text is `k`. */
  predicate ReadsAs(v: Value, k: string)
  {
    v.Text? && Strip(v.s) == k
  }

  /** A header cell carrying one of the raw labels. */
  predicate IsLabelCell(v: Value)
  {
    v.Text? && Strip(v.s) in RawToStandard
  }

  /** For a label of the tables, `str(v).strip() == k` holds exactly of the string cells reading `k`. */
  lemma LabelReading(v: Value, k: string)
    requires k in RawToStandard
    ensures CellText(v) == k <==> ReadsAs(v, k)
  {
    if !v.Text? {
      NonTextReading(v);
      RawLabelsAreWords();
    }
  }

  /** `str(v).strip() in RAW_HEADER_TO_STANDARD_NAME` holds exactly of the label cells,
      and then the text is the cell's string, trimmed. */
  lemma LabelCellReading(v: Value)
    ensures CellText(v) in RawToStandard <==> IsLabelCell(v)
    ensures v.Text? ==> CellText(v) == Strip(v.s)
  {
    if !v.Text? {
      NonTextReading(v);
      RawLabelsAreWords();
    }
  }
}
