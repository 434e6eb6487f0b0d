/** The reports screen (src/pages/Reports.tsx). Its figures are fixed
    sample data; the one rule it computes is how a question's text is
    shortened for the bar chart's axis. */
module Reports {

  const MaxLabelLength := 40
  const Ellipsis := "..."

  /** The axis `tickFormatter`. */
  function TruncateLabel(value: string): (r: string)
    ensures |value| <= MaxLabelLength ==> r == value
    ensures |value| > MaxLabelLength ==> r == value[..MaxLabelLength] + Ellipsis
    ensures |value| > MaxLabelLength ==> |r| == MaxLabelLength + |Ellipsis|
    ensures |r| <= MaxLabelLength + |Ellipsis|
    ensures |value| <= MaxLabelLength ==> r[..|value|] == value
    ensures |value| > MaxLabelLength ==> r[..MaxLabelLength] == value[..MaxLabelLength]
  {
    if |value| > MaxLabelLength then value[..MaxLabelLength] + Ellipsis else value
  }

  /** Formatting an already formatted label changes nothing. */
  lemma TruncateIdempotent(value: string)
    ensures TruncateLabel(TruncateLabel(value)) == TruncateLabel(value)
  {
    if |value| > MaxLabelLength {
      var r := TruncateLabel(value);
      assert r[..MaxLabelLength] == value[..MaxLabelLength];
    }
  }
}
