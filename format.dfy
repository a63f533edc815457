/** The pattern formatter of ModernDigitalDate.java: a single pass over the pattern text that
    drops bracketed sections, copies quoted text, and collects every other character into a
    directive that is rendered when its closing parenthesis is read. A directive is
    `<renderer>(<field>[,<setting>...])`; Text renders a name from the tables, the other
    three render the field's number, zero-padded to a positive width. */
module Formatting {
  import opened Outcomes
  import opened Chronology
  import opened JavaText
  import Dates
  import Eras

  /** The fields a pattern can name: ChronoFields, and the quarter and the modified Julian
      day, which belong to other field classes. */
  datatype FormatField = Chrono(field: ChronoField) | QuarterOfYear | ModifiedJulianDay

  /** The table of field names. Every ChronoField it names is one the date stores, and none
      is the epoch day, which a pattern reaches only as the modified Julian day. */
  function FieldOfName(name: string): (r: Option<FormatField>)
    ensures r.Some? && r.value.Chrono? ==> Dates.IsStoredField(r.value.field) && r.value.field != EpochDay
  {
    if name == "Era" then Some(Chrono(Era))
    else if name == "Year" then Some(Chrono(Year))
    else if name == "YearOfEra" then Some(Chrono(YearOfEra))
    else if name == "DayOfYear" then Some(Chrono(DayOfYear))
    else if name == "MonthOfYear" then Some(Chrono(MonthOfYear))
    else if name == "DayOfMonth" then Some(Chrono(DayOfMonth))
    else if name == "ModifiedJulianDay" then Some(ModifiedJulianDay)
    else if name == "QuarterOfYear" then Some(QuarterOfYear)
    else if name == "WeekOfWeekBasedYear" then Some(Chrono(AlignedWeekOfYear))
    else if name == "WeekOfMonth" then Some(Chrono(AlignedWeekOfMonth))
    else if name == "AlignedWeekOfMonth" then Some(Chrono(AlignedWeekOfMonth))
    else if name == "DayOfWeek" then Some(Chrono(DayOfWeek))
    else None
  }

  /** `getFormatFieldValue`: a field the date stores, or the modified Julian day, or the
      quarter; any other field is a format error. */
  function FieldValue(d: Dates.Date, f: FormatField): (r: Result<int>)
    ensures r.Ok? <==> !f.Chrono? || Dates.IsStoredField(f.field)
    ensures r.Err? ==> r.error == InvalidFormat
    ensures f.Chrono? && Dates.IsStoredField(f.field) ==> r == Dates.GetLong(d, f.field)
  {
    match f
    case Chrono(cf) => if Dates.IsStoredField(cf) then Dates.GetLong(d, cf) else Err(InvalidFormat)
    case ModifiedJulianDay => Ok(d.epochDay + MjdEpochOffsetInDays)
    case QuarterOfYear => Ok(Dates.GetQuarter(d))
  }

  /** Every field the name table yields has a value: the formatter never asks for a field
      it cannot read. */
  lemma NamedFieldsReadable(d: Dates.Date, name: string)
    requires FieldOfName(name).Some?
    ensures FieldValue(d, FieldOfName(name).value).Ok?
  {
  }

  /** The modified Julian day counts the same days as the epoch day, from 17 November 1858. */
  lemma ModifiedJulianDayShift(a: Dates.Date, b: Dates.Date)
    ensures FieldValue(b, ModifiedJulianDay).value - FieldValue(a, ModifiedJulianDay).value
         == b.epochDay - a.epochDay
    ensures a.epochDay == 0 ==> FieldValue(a, ModifiedJulianDay) == Ok(40587)
  {
  }

  // The name tables, indexed by the field's value.
  const MonthFullNames: seq<string> := ["Leap", "Unitary", "Duotary", "Tertiary", "Quartuary",
    "Pentuary", "Hextuary", "September", "October", "November", "December", "Hendecember",
    "Dodecember", "Tredecember"]
  const MonthShortNames: seq<string> := ["Leap", "Uni", "Duo", "Ter", "Qua", "Pen", "Hex",
    "Sep", "Oct", "Nov", "Dec", "Hen", "Dod", "Tred"]
  const WeekdayNames: seq<string> := ["None", "Monday", "Tuesday", "Wednesday", "Thursday",
    "Friday", "Saturday", "Sunday"]
  const QuarterFullNames: seq<string> := ["No quarter", "1st quarter", "2nd quarter",
    "3rd quarter", "4th quarter"]
  const QuarterShortNames: seq<string> := ["Q0", "Q1", "Q2", "Q3", "Q4"]

  /** `Map.get`: the entry for a value, or none. */
  function Lookup(table: seq<string>, value: int): (r: Option<string>)
    ensures r.Some? <==> 0 <= value < |table|
    ensures r.Some? ==> r.value == table[value]
  {
    if 0 <= value < |table| then Some(table[value]) else None
  }

  /** Appending a null String to a StringBuilder appends "null". */
  function OrNull(name: Option<string>): string {
    if name.Some? then name.value else "null"
  }

  /** `substring(0, n)` of a looked-up name: a missing name or a name that is too short
      throws, which the formatter reports as a format error. */
  function Prefix(name: Option<string>, n: nat): (r: Result<string>)
    ensures r.Ok? <==> name.Some? && n <= |name.value|
    ensures r.Ok? ==> r.value == name.value[..n]
    ensures r.Err? ==> r.error == InvalidFormat
  {
    if name.Some? && n <= |name.value| then Ok(name.value[..n]) else Err(InvalidFormat)
  }

  // The three widths of a text style, each in its standalone form too.
  predicate IsFullStyle(style: Eras.TextStyle) {
    style == Eras.Full || style == Eras.FullStandalone
  }

  predicate IsShortStyle(style: Eras.TextStyle) {
    style == Eras.Short || style == Eras.ShortStandalone
  }

  predicate IsNarrowStyle(style: Eras.TextStyle) {
    style == Eras.Narrow || style == Eras.NarrowStandalone
  }

  /** `getStyledMonthName`: the full or short table entry, "null" for a value outside the
      tables; the narrow name is the first letter of the short name, which is also the first
      letter of the full name, and fails outside them. */
  function MonthName(value: int, style: Eras.TextStyle): (r: Result<string>)
    ensures IsFullStyle(style) ==> r == Ok(if 0 <= value < |MonthFullNames| then MonthFullNames[value] else "null")
    ensures IsShortStyle(style) ==> r == Ok(if 0 <= value < |MonthShortNames| then MonthShortNames[value] else "null")
    ensures IsNarrowStyle(style) ==> r.Ok? == (0 <= value < |MonthFullNames|)
    ensures IsNarrowStyle(style) && r.Ok? ==> r.value == [MonthFullNames[value][0]]
    ensures r.Err? ==> r.error == InvalidFormat
  {
    ShortMonthNamesArePrefixes();
    match style
    case Narrow | NarrowStandalone => Prefix(Lookup(MonthShortNames, value), 1)
    case Short | ShortStandalone => Ok(OrNull(Lookup(MonthShortNames, value)))
    case Full | FullStandalone => Ok(OrNull(Lookup(MonthFullNames, value)))
  }

  /** `getStyledWeekdayName`: the short and narrow names are the first three and the first
      characters of the full name. Outside the table the full name is "null" and the other
      two fail. */
  function WeekdayName(value: int, style: Eras.TextStyle): (r: Result<string>)
    ensures IsFullStyle(style) ==> r == Ok(if 0 <= value < |WeekdayNames| then WeekdayNames[value] else "null")
    ensures IsShortStyle(style) ==>
      r == if 0 <= value < |WeekdayNames| then Ok(WeekdayNames[value][..3]) else Err(InvalidFormat)
    ensures IsNarrowStyle(style) ==>
      r == if 0 <= value < |WeekdayNames| then Ok(WeekdayNames[value][..1]) else Err(InvalidFormat)
  {
    WeekdayNamesLong();
    match style
    case Full | FullStandalone => Ok(OrNull(Lookup(WeekdayNames, value)))
    case Short | ShortStandalone => Prefix(Lookup(WeekdayNames, value), 3)
    case Narrow | NarrowStandalone => Prefix(Lookup(WeekdayNames, value), 1)
  }

  /** `getStyledQuarterName`: the full or short table entry, "null" outside the tables; the
      narrow form is the number itself. */
  function QuarterName(value: int, style: Eras.TextStyle): (r: Result<string>)
    ensures IsFullStyle(style) ==> r == Ok(if 0 <= value < |QuarterFullNames| then QuarterFullNames[value] else "null")
    ensures IsShortStyle(style) ==> r == Ok(if 0 <= value < |QuarterShortNames| then QuarterShortNames[value] else "null")
    ensures IsNarrowStyle(style) ==> r == Ok(Decimal(value))
  {
    match style
    case Full | FullStandalone => Ok(OrNull(Lookup(QuarterFullNames, value)))
    case Short | ShortStandalone => Ok(OrNull(Lookup(QuarterShortNames, value)))
    case Narrow | NarrowStandalone => Ok(Decimal(value))
  }

  /** Each short month name begins the full name of its month and is at least three letters
      long. */
  lemma ShortMonthNamesArePrefixes()
    ensures |MonthShortNames| == |MonthFullNames|
    ensures forall i :: 0 <= i < |MonthShortNames| ==>
      3 <= |MonthShortNames[i]| <= |MonthFullNames[i]| && MonthShortNames[i] == MonthFullNames[i][..|MonthShortNames[i]|]
  {
    forall i | 0 <= i < |MonthShortNames|
      ensures 3 <= |MonthShortNames[i]| <= |MonthFullNames[i]|
      ensures MonthShortNames[i] == MonthFullNames[i][..|MonthShortNames[i]|]
    {
      ShortMonthNameIsPrefix(i);
    }
  }

  lemma ShortMonthNameIsPrefix(i: int)
    requires 0 <= i < |MonthShortNames|
    ensures 3 <= |MonthShortNames[i]| <= |MonthFullNames[i]|
    ensures MonthShortNames[i] == MonthFullNames[i][..|MonthShortNames[i]|]
  {
    if i < 7 {
      assert i == 0 || i == 1 || i == 2 || i == 3 || i == 4 || i == 5 || i == 6;
    } else {
      assert i == 7 || i == 8 || i == 9 || i == 10 || i == 11 || i == 12 || i == 13;
    }
  }

  /** Every weekday name is at least four letters long. */
  lemma WeekdayNamesLong()
    ensures forall i :: 0 <= i < |WeekdayNames| ==> |WeekdayNames[i]| >= 4
  {
  }

  /** Within a table, distinct values have distinct names. */
  predicate Injective(table: seq<string>) {
    forall i, j :: 0 <= i < j < |table| ==> table[i] != table[j]
  }

  /** The month, weekday and quarter names identify their value in every table and style:
      the first three characters of two entries already differ. */
  lemma NameTablesInjective()
    ensures Injective(MonthFullNames) && Injective(MonthShortNames) && Injective(WeekdayNames)
    ensures Injective(QuarterFullNames) && Injective(QuarterShortNames)
  {
    forall i, j | 0 <= i < j < |MonthFullNames|
      ensures MonthFullNames[i] != MonthFullNames[j]
    {
      FullMonthNamesDiffer(i, j);
    }
    forall i, j | 0 <= i < j < |MonthShortNames|
      ensures MonthShortNames[i] != MonthShortNames[j]
    {
      ShortMonthNamesDiffer(i, j);
    }
    forall i, j | 0 <= i < j < |WeekdayNames|
      ensures WeekdayNames[i] != WeekdayNames[j]
    {
      WeekdayNamesDiffer(i, j);
    }
    forall i, j | 0 <= i < j < |QuarterFullNames|
      ensures QuarterFullNames[i] != QuarterFullNames[j] && QuarterShortNames[i] != QuarterShortNames[j]
    {
      assert QuarterFullNames[i][0] != QuarterFullNames[j][0];
      assert QuarterShortNames[i][1] != QuarterShortNames[j][1];
    }
  }

  lemma FullMonthNamesDiffer(i: int, j: int)
    requires 0 <= i < j < |MonthFullNames|
    ensures MonthFullNames[i] != MonthFullNames[j]
  {
    assert MonthFullNames[i][0] != MonthFullNames[j][0] || MonthFullNames[i][1] != MonthFullNames[j][1]
        || MonthFullNames[i][2] != MonthFullNames[j][2];
  }

  lemma ShortMonthNamesDiffer(i: int, j: int)
    requires 0 <= i < j < |MonthShortNames|
    ensures MonthShortNames[i] != MonthShortNames[j]
  {
    assert MonthShortNames[i][0] != MonthShortNames[j][0] || MonthShortNames[i][1] != MonthShortNames[j][1]
        || MonthShortNames[i][2] != MonthShortNames[j][2];
  }

  lemma WeekdayNamesDiffer(i: int, j: int)
    requires 0 <= i < j < |WeekdayNames|
    ensures WeekdayNames[i] != WeekdayNames[j]
  {
    assert WeekdayNames[i][0] != WeekdayNames[j][0] || WeekdayNames[i][1] != WeekdayNames[j][1];
  }

  /** `TextStyle.name()`: the Java constant name of a text style. */
  function StyleName(style: Eras.TextStyle): string {
    match style
    case Full => "FULL"
    case FullStandalone => "FULL_STANDALONE"
    case Short => "SHORT"
    case ShortStandalone => "SHORT_STANDALONE"
    case Narrow => "NARROW"
    case NarrowStandalone => "NARROW_STANDALONE"
  }

  /** `TextStyle.valueOf`: the style whose constant name is given, none for any other name. */
  function StyleOfName(name: string): (r: Option<Eras.TextStyle>)
    ensures r.Some? ==> StyleName(r.value) == name
  {
    if name == "FULL" then Some(Eras.Full)
    else if name == "FULL_STANDALONE" then Some(Eras.FullStandalone)
    else if name == "SHORT" then Some(Eras.Short)
    else if name == "SHORT_STANDALONE" then Some(Eras.ShortStandalone)
    else if name == "NARROW" then Some(Eras.Narrow)
    else if name == "NARROW_STANDALONE" then Some(Eras.NarrowStandalone)
    else None
  }

  /** `valueOf` inverts `name()` on every style. */
  lemma StyleOfNameInverts(style: Eras.TextStyle)
    ensures StyleOfName(StyleName(style)) == Some(style)
  {
  }

  /** A style setting written as the style's constant name reads back as that style; a
      setting that names no style gives FULL. */
  lemma SettingStyleReadsBack(style: Eras.TextStyle, name: string, rest: seq<string>)
    ensures SettingStyle([StyleName(style)] + rest) == style
    ensures (forall t: Eras.TextStyle :: StyleName(t) != name) ==> SettingStyle([name] + rest) == Eras.Full
  {
    assert ([StyleName(style)] + rest)[0] == StyleName(style);
    assert ([name] + rest)[0] == name;
    StyleOfNameInverts(style);
  }

  /** A width setting written as an int's decimal form reads back as that int. */
  lemma SettingWidthReadsBack(width: int, rest: seq<string>)
    requires JavaInt.IntMin <= width <= JavaInt.IntMax
    ensures SettingWidth([Decimal(width)] + rest) == width
  {
    assert ([Decimal(width)] + rest)[0] == Decimal(width);
    ParseDecimal(width);
  }

  /** The style a Text directive asks for: its first setting, FULL when that is absent or not
      a style name. */
  function SettingStyle(settings: seq<string>): (style: Eras.TextStyle)
    ensures |settings| > 0 && StyleOfName(settings[0]).Some? ==> style == StyleOfName(settings[0]).value
    ensures |settings| == 0 || StyleOfName(settings[0]).None? ==> style == Eras.Full
  {
    if |settings| > 0 && StyleOfName(settings[0]).Some? then StyleOfName(settings[0]).value
    else Eras.Full
  }

  /** The width a value directive asks for: its first setting as an int, -1 when that is
      absent or not an int. */
  function SettingWidth(settings: seq<string>): (width: int)
    ensures |settings| > 0 && ParseInt(settings[0]).Some? ==> width == ParseInt(settings[0]).value
    ensures |settings| == 0 || ParseInt(settings[0]).None? ==> width == -1
  {
    if |settings| > 0 && ParseInt(settings[0]).Some? then ParseInt(settings[0]).value else -1
  }

  /** `renderFormattedText`: the era, quarter, month and weekday have names; any other field
      is a format error. The field's value is read first. */
  function FormattedText(d: Dates.Date, f: FormatField, settings: seq<string>): (r: Result<string>)
    ensures f == Chrono(Era) ==> r == Ok(Eras.DisplayName(d.era, SettingStyle(settings)))
    ensures f == QuarterOfYear ==> r == QuarterName(Dates.GetQuarter(d), SettingStyle(settings))
    ensures f == Chrono(MonthOfYear) ==> r == MonthName(d.monthOfYear, SettingStyle(settings))
    ensures f == Chrono(DayOfWeek) ==> r == WeekdayName(d.dayOfWeek, SettingStyle(settings))
    ensures f !in {Chrono(Era), QuarterOfYear, Chrono(MonthOfYear), Chrono(DayOfWeek)} ==> r == Err(InvalidFormat)
    ensures r.Err? ==> r.error == InvalidFormat
  {
    var value := FieldValue(d, f);
    if value.Err? then Err(value.error)
    else
      var style := SettingStyle(settings);
      if f == Chrono(Era) then Ok(Eras.DisplayName(d.era, style))
      else if f == QuarterOfYear then QuarterName(value.value, style)
      else if f == Chrono(MonthOfYear) then MonthName(value.value, style)
      else if f == Chrono(DayOfWeek) then WeekdayName(value.value, style)
      else Err(InvalidFormat)
  }

  /** `renderFormattedValue`: the field's number, plain for a width that is not positive and
      zero-padded to the width otherwise. */
  function FormattedValue(d: Dates.Date, f: FormatField, settings: seq<string>): (r: Result<string>)
    ensures r.Ok? <==> FieldValue(d, f).Ok?
    ensures r.Ok? && SettingWidth(settings) <= 0 ==> r.value == Decimal(FieldValue(d, f).value)
    ensures r.Ok? && SettingWidth(settings) > 0 ==>
      |r.value| >= SettingWidth(settings) && ParseInt(r.value) == ParseInt(Decimal(FieldValue(d, f).value))
    ensures r.Ok? && SettingWidth(settings) > 0 ==> r.value == ZeroPad(FieldValue(d, f).value, SettingWidth(settings))
    ensures r.Err? ==> r.error == InvalidFormat
  {
    var value := FieldValue(d, f);
    if value.Err? then Err(value.error)
    else
      var width := SettingWidth(settings);
      if width <= 0 then Ok(Decimal(value.value))
      else
        PaddedValue(value.value, width);
        Ok(ZeroPad(value.value, width))
  }

  /** The four renderers a directive can start with. */
  datatype Renderer = RenderText | RenderLocalized | RenderValue | RenderReducedValue

  function RendererName(r: Renderer): string {
    match r
    case RenderText => "Text"
    case RenderLocalized => "Localized"
    case RenderValue => "Value"
    case RenderReducedValue => "ReducedValue"
  }

  /** The renderers in the order the lookup tries them. */
  const Renderers: seq<Renderer> := [RenderText, RenderLocalized, RenderValue, RenderReducedValue]

  /** The directive that renders as nothing. */
  const IgnoredDirective: string := "ParseCaseSensitive"

  /** No directive starts with two renderer names, so the order of the lookup does not matter;
      none starts with a renderer name and the ignored name either. */
  lemma RendererNamesExclusive(arg: string, a: Renderer, b: Renderer)
    requires StartsWith(arg, RendererName(a)) && StartsWith(arg, RendererName(b))
    ensures a == b && !StartsWith(arg, IgnoredDirective)
  {
    assert arg[0] == RendererName(a)[0] == RendererName(b)[0];
  }

  /** The renderer a directive starts with, if it starts with one. */
  function MatchingRenderer(arg: string): (r: Option<Renderer>)
    ensures r.Some? ==> StartsWith(arg, RendererName(r.value))
    ensures r.None? ==> forall q: Renderer :: !StartsWith(arg, RendererName(q))
  {
    if StartsWith(arg, "Text") then Some(RenderText)
    else if StartsWith(arg, "Localized") then Some(RenderLocalized)
    else if StartsWith(arg, "Value") then Some(RenderValue)
    else if StartsWith(arg, "ReducedValue") then Some(RenderReducedValue)
    else None
  }

  /** A directive renders with the renderer it starts with. */
  lemma MatchingRendererExact(arg: string, r: Renderer)
    ensures MatchingRenderer(arg) == Some(r) <==> StartsWith(arg, RendererName(r))
  {
    if StartsWith(arg, RendererName(r)) && MatchingRenderer(arg).Some? {
      RendererNamesExclusive(arg, r, MatchingRenderer(arg).value);
    }
  }

  /** The renderer applied: Text names, the other three give numbers. */
  function Apply(d: Dates.Date, r: Renderer, f: FormatField, settings: seq<string>): Result<string> {
    if r == RenderText then FormattedText(d, f, settings) else FormattedValue(d, f, settings)
  }

  /** The settings between the renderer's name plus one character and the last character,
      split at the commas; the first names the field, the rest go to the renderer. A
      directive too short to hold them, an empty split or an unknown field name fails. */
  function RenderWith(d: Dates.Date, arg: string, r: Renderer): Result<string> {
    var name := RendererName(r);
    if |arg| - 1 < |name| + 1 then Err(InvalidFormat)
    else
      var settings := Split(arg[|name| + 1 .. |arg| - 1], ',');
      if |settings| == 0 then Err(InvalidFormat)
      else if FieldOfName(settings[0]).None? then Err(InvalidFormat)
      else Apply(d, r, FieldOfName(settings[0]).value, settings[1..])
  }

  /** `renderFormatArg`: a directive that starts with a renderer's name is rendered by it, one
      that starts with the ignored name renders as nothing, and any other fails. */
  function RenderArg(d: Dates.Date, arg: string): (r: Result<string>)
    ensures r.Err? ==> r.error == InvalidFormat
  {
    var r := MatchingRenderer(arg);
    if r.Some? then RenderWith(d, arg, r.value)
    else if StartsWith(arg, IgnoredDirective) then Ok("")
    else Err(InvalidFormat)
  }

  /** A directive that starts with no renderer's name and not with the ignored name fails;
      one that starts with the ignored name renders as nothing. */
  lemma UnknownDirectiveFails(d: Dates.Date, arg: string)
    ensures (forall r: Renderer :: !StartsWith(arg, RendererName(r))) && !StartsWith(arg, IgnoredDirective)
            ==> RenderArg(d, arg) == Err(InvalidFormat)
    ensures StartsWith(arg, IgnoredDirective) ==> RenderArg(d, arg) == Ok("")
    ensures RenderArg(d, arg).Ok? ==>
      StartsWith(arg, IgnoredDirective) || exists r: Renderer :: StartsWith(arg, RendererName(r))
  {
    if StartsWith(arg, IgnoredDirective) && MatchingRenderer(arg).Some? {
      RendererNamesExclusive(arg, MatchingRenderer(arg).value, MatchingRenderer(arg).value);
    }
  }

  /** `renderFormatArg`, looping over the renderers and returning from the first whose name
      starts the directive. */
  method RenderFormatArg(d: Dates.Date, arg: string) returns (r: Result<string>)
    ensures r == RenderArg(d, arg)
  {
    var k := 0;
    while k < |Renderers|
      invariant 0 <= k <= |Renderers|
      invariant forall j :: 0 <= j < k ==> !StartsWith(arg, RendererName(Renderers[j]))
    {
      var renderer := Renderers[k];
      var name := RendererName(renderer);
      if StartsWith(arg, name) {
        MatchingRendererExact(arg, renderer);
        if |arg| - 1 < |name| + 1 {
          return Err(InvalidFormat);
        }
        var settings := Split(arg[|name| + 1 .. |arg| - 1], ',');
        if |settings| == 0 {
          return Err(InvalidFormat);
        }
        var field := FieldOfName(settings[0]);
        if field.None? {
          return Err(InvalidFormat);
        }
        settings := settings[1..];
        return Apply(d, renderer, field.value, settings);
      }
      k := k + 1;
    }
    assert !StartsWith(arg, "Text") && !StartsWith(arg, "Localized") by {
      assert !StartsWith(arg, RendererName(Renderers[0])) && !StartsWith(arg, RendererName(Renderers[1]));
    }
    assert !StartsWith(arg, "Value") && !StartsWith(arg, "ReducedValue") by {
      assert !StartsWith(arg, RendererName(Renderers[2])) && !StartsWith(arg, RendererName(Renderers[3]));
    }
    if StartsWith(arg, IgnoredDirective) {
      return Ok("");
    }
    return Err(InvalidFormat);
  }

  /** `<renderer>(<inner>)` is taken apart into the renderer and the inner text. */
  lemma DirectiveParts(r: Renderer, inner: string)
    ensures var arg := RendererName(r) + "(" + inner + ")";
      && MatchingRenderer(arg) == Some(r) && |arg| - 1 >= |RendererName(r)| + 1
      && arg[|RendererName(r)| + 1 .. |arg| - 1] == inner
  {
    var arg := RendererName(r) + "(" + inner + ")";
    assert arg[..|RendererName(r)|] == RendererName(r);
    MatchingRendererExact(arg, r);
  }

  /** `<renderer>(<field>)`: the named field rendered with no settings, or a format error
      for an unknown name. */
  lemma DirectiveWithoutSettings(d: Dates.Date, r: Renderer, name: string)
    requires ',' !in name
    ensures RenderArg(d, RendererName(r) + "(" + name + ")")
         == if FieldOfName(name).None? then Err(InvalidFormat) else Apply(d, r, FieldOfName(name).value, [])
  {
    DirectiveParts(r, name);
  }

  /** `<renderer>(<field>,<setting>)`: the named field rendered with the one setting. */
  lemma DirectiveWithSetting(d: Dates.Date, r: Renderer, name: string, setting: string)
    requires ',' !in name && ',' !in setting && setting != ""
    ensures RenderArg(d, RendererName(r) + "(" + name + "," + setting + ")")
         == if FieldOfName(name).None? then Err(InvalidFormat)
            else Apply(d, r, FieldOfName(name).value, [setting])
  {
    var inner := name + "," + setting;
    assert RendererName(r) + "(" + name + "," + setting + ")" == RendererName(r) + "(" + inner + ")";
    DirectiveParts(r, inner);
    assert inner == name + [','] + setting;
    SplitPair(name, ',', setting);
  }

  /** The state of the scan: the output so far, the directive being collected, whether a
      quote is open and whether a bracket is open. */
  datatype ScanState = ScanState(out: string, arg: string, nonFormat: bool, ignore: bool)

  const Start := ScanState("", "", false, false)

  /** One character of the pattern. The bracket checks come first, so a bracket opens and
      closes an ignored section even between quotes. */
  function Step(d: Dates.Date, st: ScanState, c: char): Result<ScanState> {
    if c == '[' then Ok(st.(ignore := true))
    else if c == ']' then Ok(st.(ignore := false))
    else if st.ignore then Ok(st)
    else if c == '\'' then Ok(st.(nonFormat := !st.nonFormat))
    else if st.nonFormat then Ok(st.(out := st.out + [c]))
    else if c != ')' then Ok(st.(arg := st.arg + [c]))
    else
      var rendered := RenderArg(d, st.arg + [c]);
      if rendered.Err? then Err(rendered.error)
      else Ok(st.(out := st.out + rendered.value, arg := ""))
  }

  /** The scan of a piece of pattern from a given state; the first failing directive ends it. */
  function ScanFrom(d: Dates.Date, st: ScanState, s: string): Result<ScanState>
    decreases |s|
  {
    if s == [] then Ok(st)
    else
      var before := ScanFrom(d, st, s[..|s| - 1]);
      if before.Err? then before else Step(d, before.value, s[|s| - 1])
  }

  /** `formatterStringToOutput`: the output of the whole scan. A directive still being
      collected at the end contributes nothing. A formatted date holds no quote or bracket
      character, and every failure is the format error. */
  function Format(d: Dates.Date, pattern: string): (r: Result<string>)
    ensures r.Ok? ==> NoControl(r.value)
    ensures r.Err? ==> r.error == InvalidFormat
  {
    OutputHasNoControl(d, Start, pattern);
    ScanError(d, Start, pattern);
    var r := ScanFrom(d, Start, pattern);
    if r.Err? then Err(r.error) else Ok(r.value.out)
  }

  /** `formatterStringToOutput`, a loop over the characters appending to the output and the
      directive, toggling the two modes and clearing the directive once rendered. */
  method FormatterStringToOutput(d: Dates.Date, pattern: string) returns (r: Result<string>)
    ensures r == Format(d, pattern)
  {
    var out := "";
    var arg := "";
    var nonFormat := false;
    var ignore := false;
    var i := 0;
    while i < |pattern|
      invariant 0 <= i <= |pattern|
      invariant ScanFrom(d, Start, pattern[..i]) == Ok(ScanState(out, arg, nonFormat, ignore))
    {
      var c := pattern[i];
      assert pattern[..i + 1][..i] == pattern[..i];
      if c == '[' {
        ignore := true;
      } else if c == ']' {
        ignore := false;
      } else if ignore {
      } else if c == '\'' {
        nonFormat := !nonFormat;
      } else if nonFormat {
        out := out + [c];
      } else {
        arg := arg + [c];
        if c == ')' {
          var rendered := RenderFormatArg(d, arg);
          if rendered.Err? {
            FailureEndsScan(d, Start, pattern, i + 1);
            return Err(rendered.error);
          }
          arg := "";
          out := out + rendered.value;
        }
      }
      i := i + 1;
    }
    assert pattern[..|pattern|] == pattern;
    return Ok(out);
  }

  /** Scanning a concatenation scans the second part from where the first left off. */
  lemma {:induction false} ScanAppend(d: Dates.Date, st: ScanState, a: string, b: string)
    ensures var first := ScanFrom(d, st, a);
      ScanFrom(d, st, a + b) == if first.Err? then first else ScanFrom(d, first.value, b)
    decreases |b|
  {
    if b != [] {
      assert (a + b)[..|a + b| - 1] == a + b[..|b| - 1];
      assert (a + b)[|a + b| - 1] == b[|b| - 1];
      ScanAppend(d, st, a, b[..|b| - 1]);
    } else {
      assert a + b == a;
    }
  }

  /** Once a directive fails the whole scan fails with it. */
  lemma FailureEndsScan(d: Dates.Date, st: ScanState, s: string, i: nat)
    requires i <= |s| && ScanFrom(d, st, s[..i]).Err?
    ensures ScanFrom(d, st, s) == ScanFrom(d, st, s[..i])
  {
    ScanAppend(d, st, s[..i], s[i..]);
    assert s[..i] + s[i..] == s;
  }

  /** A scan that fails reports the format error. */
  lemma {:induction false} ScanError(d: Dates.Date, st: ScanState, s: string)
    ensures ScanFrom(d, st, s).Err? ==> ScanFrom(d, st, s).error == InvalidFormat
    decreases |s|
  {
    if s != [] {
      ScanError(d, st, s[..|s| - 1]);
      var before := ScanFrom(d, st, s[..|s| - 1]);
      if before.Ok? {
        StepError(d, before.value, s[|s| - 1]);
      }
    }
  }

  lemma StepError(d: Dates.Date, st: ScanState, c: char)
    ensures Step(d, st, c).Err? ==> Step(d, st, c).error == InvalidFormat
  {
  }

  /** A state outside quotes and brackets. */
  predicate Plain(st: ScanState) {
    !st.ignore && !st.nonFormat
  }

  /** The characters with a meaning to the scan. */
  predicate IsControl(c: char) {
    c == '[' || c == ']' || c == '\''
  }

  predicate NoControl(s: string) {
    forall i :: 0 <= i < |s| ==> !IsControl(s[i])
  }

  /** A bracketed section is dropped whatever it holds, quotes and parentheses included, and
      whether or not a quote was open; the quote mode and everything else are kept. */
  lemma IgnoredSection(d: Dates.Date, st: ScanState, s: string)
    requires ']' !in s
    ensures ScanFrom(d, st, "[" + s + "]") == Ok(st.(ignore := false))
  {
    IgnoredPrefix(d, st, s);
    assert ("[" + s + "]")[..|s| + 1] == "[" + s;
  }

  lemma {:induction false} IgnoredPrefix(d: Dates.Date, st: ScanState, s: string)
    requires ']' !in s
    ensures ScanFrom(d, st, "[" + s) == Ok(st.(ignore := true))
    decreases |s|
  {
    if s == [] {
      assert ("[" + s)[..0] == [];
    } else {
      var t := s[..|s| - 1];
      assert ']' !in t by {
        assert forall i :: 0 <= i < |t| ==> t[i] == s[i];
      }
      IgnoredPrefix(d, st, t);
      assert ("[" + s)[..|s|] == "[" + t;
      assert ("[" + s)[|s|] == s[|s| - 1];
    }
  }

  /** Quoted text is copied to the output verbatim, without its quotes. */
  lemma Quoted(d: Dates.Date, st: ScanState, s: string)
    requires Plain(st) && NoControl(s)
    ensures ScanFrom(d, st, "'" + s + "'") == Ok(st.(out := st.out + s))
  {
    assert "'" + s + "'" == "'" + (s + "'");
    ScanAppend(d, st, "'", s + "'");
    assert ScanFrom(d, st, "'") == Ok(st.(nonFormat := true)) by {
      assert "'"[..0] == [];
    }
    ScanAppend(d, st.(nonFormat := true), s, "'");
    CopiedVerbatim(d, st.(nonFormat := true), s);
    assert "'"[..0] == [];
  }

  lemma {:induction false} CopiedVerbatim(d: Dates.Date, st: ScanState, s: string)
    requires !st.ignore && st.nonFormat && NoControl(s)
    ensures ScanFrom(d, st, s) == Ok(st.(out := st.out + s))
    decreases |s|
  {
    if s == [] {
      assert st.out + s == st.out;
    } else {
      var t := s[..|s| - 1];
      CopiedVerbatim(d, st, t);
      assert st.out + t + [s[|s| - 1]] == st.out + s;
    }
  }

  /** Outside quotes and brackets, characters other than the closing parenthesis are
      collected into the directive, and nothing is output. */
  lemma {:induction false} Collected(d: Dates.Date, st: ScanState, s: string)
    requires Plain(st) && NoControl(s) && ')' !in s
    ensures ScanFrom(d, st, s) == Ok(st.(arg := st.arg + s))
    decreases |s|
  {
    if s == [] {
      assert st.arg + s == st.arg;
    } else {
      var t := s[..|s| - 1];
      assert ')' !in t by {
        assert forall i :: 0 <= i < |t| ==> t[i] == s[i];
      }
      Collected(d, st, t);
      assert st.arg + t + [s[|s| - 1]] == st.arg + s;
    }
  }

  /** A directive is rendered when its closing parenthesis is read: its text is appended to
      the output and the buffer is cleared, or the scan fails with it. */
  lemma Directive(d: Dates.Date, st: ScanState, body: string)
    requires Plain(st) && NoControl(body) && ')' !in body
    ensures var rendered := RenderArg(d, st.arg + body + ")");
      ScanFrom(d, st, body + ")")
        == if rendered.Err? then Err(rendered.error)
           else Ok(st.(out := st.out + rendered.value, arg := ""))
  {
    Collected(d, st, body);
    assert (body + ")")[..|body|] == body;
    assert st.arg + body + ")" == st.arg + body + [')'];
  }

  /** A pattern that ends inside a directive outputs what came before it. */
  lemma UnterminatedDirective(d: Dates.Date, pattern: string, tail: string)
    requires ScanFrom(d, Start, pattern).Ok? && Plain(ScanFrom(d, Start, pattern).value)
    requires NoControl(tail) && ')' !in tail
    ensures Format(d, pattern + tail) == Format(d, pattern)
  {
    ScanAppend(d, Start, pattern, tail);
    Collected(d, ScanFrom(d, Start, pattern).value, tail);
  }

  /** The characters a rendered directive may hold: letters, digits, spaces and signs. */
  predicate IsTextChar(c: char) {
    ('a' <= c <= 'z') || ('A' <= c <= 'Z') || ('0' <= c <= '9') || c == ' ' || c == '-' || c == '+'
  }

  predicate TextChars(s: string) {
    forall i :: 0 <= i < |s| ==> IsTextChar(s[i])
  }

  lemma NumbersAreText(v: int, width: int)
    ensures TextChars(Decimal(v)) && TextChars(ZeroPad(v, width))
  {
  }

  lemma FullMonthNameText(i: int)
    requires 0 <= i < |MonthFullNames|
    ensures TextChars(MonthFullNames[i])
  {
  }

  lemma ShortMonthNameText(i: int)
    requires 0 <= i < |MonthShortNames|
    ensures TextChars(MonthShortNames[i])
  {
  }

  lemma WeekdayNameText(i: int)
    requires 0 <= i < |WeekdayNames|
    ensures TextChars(WeekdayNames[i])
  {
  }

  lemma QuarterNameText(i: int)
    requires 0 <= i < |QuarterFullNames|
    ensures TextChars(QuarterFullNames[i]) && TextChars(QuarterShortNames[i])
  {
  }

  /** Every name the tables hold, a prefix of one, and "null", is text. */
  lemma MonthNameIsText(value: int, style: Eras.TextStyle)
    ensures MonthName(value, style).Ok? ==> TextChars(MonthName(value, style).value)
  {
    assert TextChars("null");
    if 0 <= value < |MonthFullNames| {
      FullMonthNameText(value);
      ShortMonthNameText(value);
    }
  }

  lemma WeekdayNameIsText(value: int, style: Eras.TextStyle)
    ensures WeekdayName(value, style).Ok? ==> TextChars(WeekdayName(value, style).value)
  {
    assert TextChars("null");
    if 0 <= value < |WeekdayNames| {
      WeekdayNameText(value);
    }
  }

  lemma QuarterNameIsText(value: int, style: Eras.TextStyle)
    ensures QuarterName(value, style).Ok? ==> TextChars(QuarterName(value, style).value)
  {
    assert TextChars("null");
    if 0 <= value < |QuarterFullNames| {
      QuarterNameText(value);
    }
    NumbersAreText(value, 0);
  }

  lemma EraNameIsText(e: Eras.Era, style: Eras.TextStyle)
    ensures TextChars(Eras.DisplayName(e, style))
  {
    assert TextChars(Eras.FullName(e)) && TextChars(Eras.ShortName(e)) && TextChars(Eras.NarrowName(e));
  }

  /** What a directive renders holds no quote and no bracket. */
  lemma RenderedIsText(d: Dates.Date, arg: string)
    requires RenderArg(d, arg).Ok?
    ensures TextChars(RenderArg(d, arg).value)
  {
    var r := MatchingRenderer(arg);
    if r.Some? {
      RenderWithIsText(d, arg, r.value);
    }
  }

  lemma RenderWithIsText(d: Dates.Date, arg: string, r: Renderer)
    requires RenderWith(d, arg, r).Ok?
    ensures TextChars(RenderWith(d, arg, r).value)
  {
    var name := RendererName(r);
    var settings := Split(arg[|name| + 1 .. |arg| - 1], ',');
    ApplyIsText(d, r, FieldOfName(settings[0]).value, settings[1..]);
  }

  lemma ApplyIsText(d: Dates.Date, r: Renderer, f: FormatField, settings: seq<string>)
    requires Apply(d, r, f, settings).Ok?
    ensures TextChars(Apply(d, r, f, settings).value)
  {
    if r == RenderText {
      FormattedTextIsText(d, f, settings);
    } else {
      NumbersAreText(FieldValue(d, f).value, SettingWidth(settings));
    }
  }

  lemma FormattedTextIsText(d: Dates.Date, f: FormatField, settings: seq<string>)
    requires FormattedText(d, f, settings).Ok?
    ensures TextChars(FormattedText(d, f, settings).value)
  {
    var value := FieldValue(d, f).value;
    var style := SettingStyle(settings);
    if f == Chrono(Era) {
      EraNameIsText(d.era, style);
    } else if f == QuarterOfYear {
      QuarterNameIsText(value, style);
    } else if f == Chrono(MonthOfYear) {
      MonthNameIsText(value, style);
    } else {
      WeekdayNameIsText(value, style);
    }
  }

  /** The output holds no quote and no bracket that the pattern did not quote: quote and
      bracket characters are never copied, and directives render as text. */
  lemma {:induction false} OutputHasNoControl(d: Dates.Date, st: ScanState, s: string)
    requires NoControl(st.out)
    ensures ScanFrom(d, st, s).Ok? ==> NoControl(ScanFrom(d, st, s).value.out)
    decreases |s|
  {
    if s != [] {
      OutputHasNoControl(d, st, s[..|s| - 1]);
      var before := ScanFrom(d, st, s[..|s| - 1]);
      var c := s[|s| - 1];
      if before.Ok? && !before.value.ignore && !IsControl(c) && !before.value.nonFormat && c == ')' {
        var arg := before.value.arg + [c];
        if RenderArg(d, arg).Ok? {
          RenderedIsText(d, arg);
        }
      }
    }
  }

  /** For a valid date the named fields always have a name: no table lookup misses. */
  lemma ValidDateNames(d: Dates.Date, settings: seq<string>)
    requires Dates.Valid(d)
    ensures FormattedText(d, Chrono(MonthOfYear), settings).Ok?
    ensures FormattedText(d, Chrono(DayOfWeek), settings).Ok?
    ensures FormattedText(d, QuarterOfYear, settings).Ok?
    ensures FormattedText(d, Chrono(Era), settings).Ok?
    ensures FormattedText(d, Chrono(MonthOfYear), settings).value != "null"
    ensures FormattedText(d, Chrono(DayOfWeek), settings).value != "null"
    ensures FormattedText(d, QuarterOfYear, settings).value != "null"
  {
    ValidFieldRanges(d);
    NamesInRange(d, settings);
  }

  lemma NamesInRange(d: Dates.Date, settings: seq<string>)
    requires 0 <= d.monthOfYear <= 13 && 0 <= d.dayOfWeek <= 7 && 0 <= Dates.GetQuarter(d) <= 4
    ensures FormattedText(d, Chrono(MonthOfYear), settings).Ok?
    ensures FormattedText(d, Chrono(DayOfWeek), settings).Ok?
    ensures FormattedText(d, QuarterOfYear, settings).Ok?
    ensures FormattedText(d, Chrono(Era), settings).Ok?
    ensures FormattedText(d, Chrono(MonthOfYear), settings).value != "null"
    ensures FormattedText(d, Chrono(DayOfWeek), settings).value != "null"
    ensures FormattedText(d, QuarterOfYear, settings).value != "null"
  {
    var style := SettingStyle(settings);
    MonthNamePresent(d.monthOfYear, style);
    WeekdayNamePresent(d.dayOfWeek, style);
    QuarterNamePresent(Dates.GetQuarter(d), style);
    assert FieldValue(d, Chrono(MonthOfYear)) == Ok(d.monthOfYear);
    assert FieldValue(d, Chrono(DayOfWeek)) == Ok(d.dayOfWeek);
  }

  lemma ValidFieldRanges(d: Dates.Date)
    requires Dates.Valid(d)
    ensures 0 <= d.monthOfYear <= 13 && 0 <= d.dayOfWeek <= 7 && 0 <= Dates.GetQuarter(d) <= 4
  {
    Dates.ValidDateFacts(d);
    Dates.DerivedFieldsOfValid(d);
    if d.monthOfYear != 0 {
      assert 1 <= d.dayOfMonth <= 28;
    }
  }

  lemma QuarterNamePresent(quarter: int, style: Eras.TextStyle)
    requires 0 <= quarter <= 4
    ensures QuarterName(quarter, style).Ok? && QuarterName(quarter, style).value != "null"
  {
    assert QuarterFullNames[quarter] != "null" && QuarterShortNames[quarter] != "null";
    assert Decimal(quarter)[0] != 'n';
  }

  lemma MonthNamePresent(month: int, style: Eras.TextStyle)
    requires 0 <= month <= 13
    ensures MonthName(month, style).Ok? && MonthName(month, style).value != "null"
  {
    assert MonthFullNames[month] != "null" && MonthShortNames[month] != "null";
    assert |MonthShortNames[month]| >= 3;
  }

  lemma WeekdayNamePresent(weekday: int, style: Eras.TextStyle)
    requires 0 <= weekday <= 7
    ensures WeekdayName(weekday, style).Ok? && WeekdayName(weekday, style).value != "null"
  {
    assert WeekdayNames[weekday] != "null" && |WeekdayNames[weekday]| >= 4;
  }

  /** Text left unquoted between directives is collected into the next directive, which then
      starts with neither a renderer's name nor the ignored name: the whole format fails,
      whatever follows. */
  lemma UnquotedTextFails(d: Dates.Date, pre: string, st: ScanState, directive: string, rest: string)
    requires ScanFrom(d, Start, pre) == Ok(st) && Plain(st) && st.arg == ""
    requires |directive| > 0 && directive[|directive| - 1] == ')'
    requires NoControl(directive) && ')' !in directive[..|directive| - 1]
    requires (forall r: Renderer :: !StartsWith(directive, RendererName(r))) && !StartsWith(directive, IgnoredDirective)
    ensures Format(d, pre + directive + rest) == Err(InvalidFormat)
  {
    UnknownDirectiveScan(d, st, directive);
    ScanAppend(d, Start, pre, directive);
    ScanAppend(d, Start, pre + directive, rest);
  }

  /** A directive with no renderer ends the scan with the format error. */
  lemma UnknownDirectiveScan(d: Dates.Date, st: ScanState, directive: string)
    requires Plain(st) && st.arg == ""
    requires |directive| > 0 && directive[|directive| - 1] == ')'
    requires NoControl(directive) && ')' !in directive[..|directive| - 1]
    requires (forall r: Renderer :: !StartsWith(directive, RendererName(r))) && !StartsWith(directive, IgnoredDirective)
    ensures ScanFrom(d, st, directive) == Err(InvalidFormat)
  {
    var body := directive[..|directive| - 1];
    assert st.arg + body + ")" == directive;
    assert NoControl(body) by {
      assert forall i :: 0 <= i < |body| ==> body[i] == directive[i];
    }
    UnknownDirectiveFails(d, directive);
    Directive(d, st, body);
    assert body + ")" == directive;
  }

  /** A directive that starts with a space, as unquoted spacing in a pattern makes it, has
      no renderer. */
  lemma SpacedDirective(body: string)
    requires |body| > 0 && body[0] == ' '
    ensures (forall r: Renderer :: !StartsWith(body, RendererName(r))) && !StartsWith(body, IgnoredDirective)
  {
    forall r: Renderer
      ensures !StartsWith(body, RendererName(r))
    {
      var name := RendererName(r);
      if |name| <= |body| {
        assert body[..|name|][0] == ' ' != name[0];
      }
    }
    if |IgnoredDirective| <= |body| {
      assert body[..|IgnoredDirective|][0] == ' ' != IgnoredDirective[0];
    }
  }
}
