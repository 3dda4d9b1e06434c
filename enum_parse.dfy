/** Case-insensitive lookup of an enum constant by its name
    (EnumStringParseAble.parse), instantiated with DateGranularity. */
module EnumParse {
  import opened Wrappers
  import opened JavaStrings

  /** The date granularities, in declaration order. */
  datatype DateGranularity = DAY | WEEK | MONTH | YEAR

  /** Enum.values() of DateGranularity. */
  const Constants: seq<DateGranularity> := [DAY, WEEK, MONTH, YEAR]

  /** toString of a constant: the enum's own name (the enum does not
      override it). */
  function Name(g: DateGranularity): string {
    match g
    case DAY => "DAY"
    case WEEK => "WEEK"
    case MONTH => "MONTH"
    case YEAR => "YEAR"
  }

  /** The lower-case code each constant carries (getDateGran). */
  function DateGran(g: DateGranularity): string {
    match g
    case DAY => "day"
    case WEEK => "week"
    case MONTH => "month"
    case YEAR => "year"
  }

  /** The first of `constants` whose name equals `value` ignoring case.
      (With the DateGranularity names at most one constant can match, see
      AtMostOneMatch, so the one found is the only one.) */
  function FirstMatch(constants: seq<DateGranularity>, value: string): (r: Option<DateGranularity>)
    ensures r.Some? ==> r.value in constants && EqualsIgnoreCase(Name(r.value), value)
    ensures r.None? <==> forall g :: g in constants ==> !EqualsIgnoreCase(Name(g), value)
  {
    if constants == [] then None
    else if EqualsIgnoreCase(Name(constants[0]), value) then Some(constants[0])
    else FirstMatch(constants[1..], value)
  }

  /** parse: null gives null; otherwise the first constant, in declaration
      order, whose name matches ignoring case, or null. The receiver only
      selects the enum class, so it does not appear. */
  function Parse(value: Option<string>): (r: Option<DateGranularity>)
    ensures value.None? ==> r.None?
    ensures value.Some? ==> r == FirstMatch(Constants, value.value)
  {
    match value
    case None => None
    case Some(v) => FirstMatch(Constants, v)
  }

  /** A character equal ignoring case to an upper-case ASCII letter
      upper-cases to that letter. */
  lemma SameLetterUpper(u: char, c: char)
    requires 'A' <= u <= 'Z'
    requires u == c || ToUpperChar(u) == ToUpperChar(c) || ToLowerChar(u) == ToLowerChar(c)
    ensures ToUpperChar(c) == u
  {
  }

  /** The names start with four different letters, so a string matches at
      most one constant ignoring case. */
  lemma AtMostOneMatch(g: DateGranularity, h: DateGranularity, s: string)
    requires EqualsIgnoreCase(Name(g), s) && EqualsIgnoreCase(Name(h), s)
    ensures g == h
  {
    SameLetterUpper(Name(g)[0], s[0]);
    SameLetterUpper(Name(h)[0], s[0]);
  }

  /** Every constant is found again from its name, whatever its case: the
      name and the lower-case code both parse to it. */
  lemma ParseName(g: DateGranularity)
    ensures Parse(Some(Name(g))) == Some(g)
    ensures Parse(Some(DateGran(g))) == Some(g)
  {
    assert EqualsIgnoreCase(Name(g), Name(g));
    assert EqualsIgnoreCase(Name(g), DateGran(g));
    var r1, r2 := Parse(Some(Name(g))), Parse(Some(DateGran(g)));
    assert g in Constants;
    AtMostOneMatch(r1.value, g, Name(g));
    AtMostOneMatch(r2.value, g, DateGran(g));
  }

  /** "week" and "WEEK" both name WEEK. */
  lemma ParseWeek()
    ensures Parse(Some("week")) == Some(WEEK)
    ensures Parse(Some("WEEK")) == Some(WEEK)
  {
    ParseName(WEEK);
  }

  /** A name that is no constant's gives null. */
  lemma ParseUnknown()
    ensures Parse(Some("hour")) == None
  {
    var s := "hour";
    forall g | g in Constants ensures !EqualsIgnoreCase(Name(g), s) {
      if EqualsIgnoreCase(Name(g), s) {
        SameLetterUpper(Name(g)[0], s[0]);
        assert false;
      }
    }
  }
}
