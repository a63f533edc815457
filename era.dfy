/** The two eras of the Modern Digital Calendar (ModernDigitalEra.java) and the text styles
    their names are rendered in. */
module Eras {
  datatype Era = BeforeEpoch | SinceEpoch

  /** java.time.format.TextStyle. */
  datatype TextStyle = Full | FullStandalone | Short | ShortStandalone | Narrow | NarrowStandalone

  /** `getValue`: the numeric value of an era. */
  function Value(e: Era): (v: int)
    ensures v == 0 <==> e == BeforeEpoch
    ensures v == 1 <==> e == SinceEpoch
  {
    match e
    case BeforeEpoch => 0
    case SinceEpoch => 1
  }

  /** The name table: full, short and narrow name of each era. */
  function FullName(e: Era): string {
    match e
    case BeforeEpoch => "Before Epoch"
    case SinceEpoch => "Since Epoch"
  }

  function ShortName(e: Era): string {
    match e
    case BeforeEpoch => "BE"
    case SinceEpoch => "SE"
  }

  function NarrowName(e: Era): string {
    match e
    case BeforeEpoch => "-"
    case SinceEpoch => "+"
  }

  /** `getDisplayName(style)`: a standalone style gives the same name as its plain style. */
  function DisplayName(e: Era, style: TextStyle): (name: string)
    ensures style == Full || style == FullStandalone ==> name == FullName(e)
    ensures style == Short || style == ShortStandalone ==> name == ShortName(e)
    ensures style == Narrow || style == NarrowStandalone ==> name == NarrowName(e)
  {
    match style
    case Full | FullStandalone => FullName(e)
    case Short | ShortStandalone => ShortName(e)
    case Narrow | NarrowStandalone => NarrowName(e)
  }

  /** `getDisplayName(style, locale)`: the locale is ignored. */
  function DisplayNameForLocale<L>(e: Era, style: TextStyle, locale: L): (name: string)
    ensures style == Full || style == FullStandalone ==> name == FullName(e)
    ensures style == Short || style == ShortStandalone ==> name == ShortName(e)
    ensures style == Narrow || style == NarrowStandalone ==> name == NarrowName(e)
  {
    DisplayName(e, style)
  }

  /** `getDisplayName()`: the short name, two letters. */
  function DefaultDisplayName(e: Era): (name: string)
    ensures name == ShortName(e) && |name| == 2
  {
    DisplayName(e, Short)
  }

  /** In every style the two eras have different names, and a narrow name is one character. */
  lemma DisplayNamesDistinct(style: TextStyle)
    ensures DisplayName(BeforeEpoch, style) != DisplayName(SinceEpoch, style)
    ensures |DisplayName(BeforeEpoch, Narrow)| == 1 && |DisplayName(SinceEpoch, Narrow)| == 1
  {
    assert FullName(BeforeEpoch)[0] != FullName(SinceEpoch)[0];
    assert ShortName(BeforeEpoch)[0] != ShortName(SinceEpoch)[0];
    assert NarrowName(BeforeEpoch)[0] != NarrowName(SinceEpoch)[0];
  }
}
