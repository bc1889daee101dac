/**
 * The block one span renders on the seven-column grid
 * (src/lib/OpeningTimesPickerSpan.tsx), viewed as a pure function of its
 * props: nothing for an inverted span, otherwise its grid columns, colour,
 * label and the id a click reports.
 */
module OpeningTimesPickerSpan {
  import opened Types

  /** A CSS property value: a number or a string. */
  datatype CssValue = Num(n: int) | Text(t: string)

  type Style = map<string, CssValue>

  datatype CustomColor = CustomColor(bg: string, text: string)

  /**
   * What one span renders: the outer element's style, the button's
   * background colour, the label's text colour (only with a custom colour),
   * the caption (the label text), and the record id a click reports.
   */
  datatype Block = Block(style: Style, background: string, textColor: Option<string>, caption: string, clickId: Id)

  const ClosedBackground := "#cc3535"
  const OpenBackground := "#a8ce51"
  const ClosedLabel := "Geschlossen"
  const OpenLabel := "Offen"

  /** The first grid column a block occupies and the column just past its last one. */
  function GridColumns(b: Block): (int, int)
    requires "gridColumnStart" in b.style && b.style["gridColumnStart"].Num?
    requires "gridColumnEnd" in b.style && b.style["gridColumnEnd"].Num?
  {
    (b.style["gridColumnStart"].n, b.style["gridColumnEnd"].n)
  }

  /**
   * The block for the span `fromDay`..`toDay` of `record`. An inverted span
   * renders nothing. Otherwise the block spans grid columns `fromDay` up to
   * but excluding `toDay + 1`, which override the caller's style entries of
   * the same name while every other caller entry is kept; the label says
   * whether the record is closed; the background is the custom colour when
   * there is one and red or green by status otherwise; a click reports the
   * record's id.
   */
  function SpanBlock(fromDay: Day, toDay: Day, record: BusinessDay, style: Style, customColor: Option<CustomColor>): (r: Option<Block>)
    ensures r.None? <==> fromDay > toDay
    ensures r.Some? ==>
      && r.value.style.Keys == style.Keys + {"gridColumnStart", "gridColumnEnd"}
      && r.value.style["gridColumnStart"] == Num(fromDay)
      && r.value.style["gridColumnEnd"] == Num(toDay + 1)
      && GridColumns(r.value).1 - GridColumns(r.value).0 == toDay - fromDay + 1
      && (forall key :: key in style && key != "gridColumnStart" && key != "gridColumnEnd" ==>
            r.value.style[key] == style[key])
    ensures r.Some? ==> r.value.caption == (if record.closed then ClosedLabel else OpenLabel)
    ensures r.Some? && customColor.Some? ==>
      r.value.background == customColor.value.bg && r.value.textColor == Some(customColor.value.text)
    ensures r.Some? && customColor.None? ==>
      r.value.background == (if record.closed then ClosedBackground else OpenBackground) && r.value.textColor.None?
    ensures r.Some? ==> r.value.clickId == record.id
  {
    if fromDay > toDay then None
    else
      var columns := map["gridColumnStart" := Num(fromDay), "gridColumnEnd" := Num(toDay + 1)];
      var background := match customColor
        case Some(c) => c.bg
        case None => if record.closed then ClosedBackground else OpenBackground;
      var textColor := match customColor
        case Some(c) => Some(c.text)
        case None => None;
      Some(Block(style + columns, background, textColor, if record.closed then ClosedLabel else OpenLabel, record.id))
  }
}
