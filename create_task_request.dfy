/** The checks the CreateTaskRequest record runs when it is constructed. */
module CreateTaskRequestValidation {
  import opened Wrappers
  import opened JavaStrings
  import opened EnumParse
  import opened DecimalDigits

  /** The request record; every reference component may be null. */
  datatype CreateTaskRequest = CreateTaskRequest(
    treeId: Option<string>,
    listId: Option<string>,
    contributionThreshold: Option<real>,
    timeGranularity: Option<DateGranularity>,
    baselineDate: Option<string>,
    compareDate: Option<string>)

  /** The two exceptions the constructor throws. */
  datatype RequestError = IllegalArgument(message: string) | NullPointer(message: string)

  const TreeIdRequired := "归因树ID不能为空"
  const ThresholdRequired := "贡献度阈值不能为空"
  const ThresholdOutOfRange := "贡献度阈值必须在0到1之间"
  const GranularityRequired := "时间粒度不能为空"
  const BaselineDateRequired := "基准日期不能为空"
  const CompareDateRequired := "对比日期不能为空"
  const DateFormat := "日期格式必须为yyyy-MM-dd"

  /** The whole string matches \d{4}-\d{2}-\d{2} (\d is an ASCII digit). */
  predicate MatchesDatePattern(s: string) {
    && |s| == 10
    && IsDigit(s[0]) && IsDigit(s[1]) && IsDigit(s[2]) && IsDigit(s[3])
    && s[4] == '-'
    && IsDigit(s[5]) && IsDigit(s[6])
    && s[7] == '-'
    && IsDigit(s[8]) && IsDigit(s[9])
  }

  predicate NonBlank(value: Option<string>) {
    value.Some? && !IsBlank(value.value)
  }

  /** requireNonBlank: null or blank fails with the given message. */
  function RequireNonBlank(value: Option<string>, message: string): (r: Result<string, RequestError>)
    ensures r.Ok? <==> NonBlank(value)
    ensures r.Ok? ==> r.value == value.value
    ensures r.Err? ==> r.error == IllegalArgument(message)
  {
    if value.None? || IsBlank(value.value) then Err(IllegalArgument(message)) else Ok(value.value)
  }

  /** requireDate: non-blank first (with the caller's message), then the
      pattern (with the common format message). */
  function RequireDate(value: Option<string>, message: string): (r: Result<string, RequestError>)
    ensures r.Ok? <==> NonBlank(value) && MatchesDatePattern(value.value)
    ensures !NonBlank(value) ==> r == Err(IllegalArgument(message))
    ensures NonBlank(value) && !MatchesDatePattern(value.value) ==> r == Err(IllegalArgument(DateFormat))
  {
    var v :- RequireNonBlank(value, message);
    if MatchesDatePattern(v) then Ok(v) else Err(IllegalArgument(DateFormat))
  }

  /** The tree id and the threshold pass. */
  predicate ThresholdChecked(req: CreateTaskRequest) {
    NonBlank(req.treeId) && req.contributionThreshold.Some? && 0.0 <= req.contributionThreshold.value <= 1.0
  }

  /** Every component the constructor checks is acceptable. */
  predicate Valid(req: CreateTaskRequest) {
    && NonBlank(req.treeId)
    && req.contributionThreshold.Some? && 0.0 <= req.contributionThreshold.value <= 1.0
    && req.timeGranularity.Some?
    && NonBlank(req.baselineDate) && MatchesDatePattern(req.baselineDate.value)
    && NonBlank(req.compareDate) && MatchesDatePattern(req.compareDate.value)
  }

  /** The compact constructor: the record is built exactly when every check
      passes, and otherwise the first failing check, in the order treeId,
      threshold, granularity, baselineDate, compareDate, decides the
      exception. */
  function Validate(req: CreateTaskRequest): (r: Result<CreateTaskRequest, RequestError>)
    ensures r.Ok? <==> Valid(req)
    ensures r.Ok? ==> r.value == req
    ensures !NonBlank(req.treeId) ==> r == Err(IllegalArgument(TreeIdRequired))
    ensures NonBlank(req.treeId) && req.contributionThreshold.None? ==> r == Err(NullPointer(ThresholdRequired))
    ensures (NonBlank(req.treeId) && req.contributionThreshold.Some?
             && !(0.0 <= req.contributionThreshold.value <= 1.0))
            ==> r == Err(IllegalArgument(ThresholdOutOfRange))
    ensures (ThresholdChecked(req) && req.timeGranularity.None?) ==> r == Err(NullPointer(GranularityRequired))
    ensures (ThresholdChecked(req) && req.timeGranularity.Some?
             && RequireDate(req.baselineDate, BaselineDateRequired).Err?)
            ==> r == Err(RequireDate(req.baselineDate, BaselineDateRequired).error)
    ensures (ThresholdChecked(req) && req.timeGranularity.Some?
             && RequireDate(req.baselineDate, BaselineDateRequired).Ok?
             && RequireDate(req.compareDate, CompareDateRequired).Err?)
            ==> r == Err(RequireDate(req.compareDate, CompareDateRequired).error)
  {
    var _ :- RequireNonBlank(req.treeId, TreeIdRequired);
    if req.contributionThreshold.None? then Err(NullPointer(ThresholdRequired))
    else if req.contributionThreshold.value < 0.0 || req.contributionThreshold.value > 1.0 then
      Err(IllegalArgument(ThresholdOutOfRange))
    else if req.timeGranularity.None? then Err(NullPointer(GranularityRequired))
    else
      var _ :- RequireDate(req.baselineDate, BaselineDateRequired);
      var _ :- RequireDate(req.compareDate, CompareDateRequired);
      Ok(req)
  }

  /** The baseline date is checked before the compare date: with both
      missing the baseline's message is the one thrown. */
  lemma BaselineDateCheckedFirst(req: CreateTaskRequest)
    requires NonBlank(req.treeId) && req.contributionThreshold.Some? && 0.0 <= req.contributionThreshold.value <= 1.0
    requires req.timeGranularity.Some?
    requires req.baselineDate.None? && req.compareDate.None?
    ensures Validate(req) == Err(IllegalArgument(BaselineDateRequired))
  {
  }

  /** The bounds 0 and 1 are both accepted. */
  lemma ThresholdBoundsAccepted(req: CreateTaskRequest)
    requires Valid(req)
    ensures Validate(req.(contributionThreshold := Some(0.0))).Ok?
    ensures Validate(req.(contributionThreshold := Some(1.0))).Ok?
  {
  }

  /** listId takes no part in validation. */
  lemma ListIdUnconstrained(req: CreateTaskRequest, listId: Option<string>)
    ensures Validate(req.(listId := listId)).Ok? <==> Validate(req).Ok?
  {
  }

  // ---------------------------------------------------------------------
  // The date shape

  /** A date written from its year, month and day fields as yyyy-MM-dd. */
  function FormatDate(year: nat, month: nat, day: nat): string {
    Padded(year, 4) + "-" + Padded(month, 2) + "-" + Padded(day, 2)
  }

  /** Every yyyy-MM-dd rendering matches the pattern, and its fields are
      read back from it. */
  lemma FormattedDateMatches(year: nat, month: nat, day: nat)
    requires year < 10000 && month < 100 && day < 100
    ensures var s := FormatDate(year, month, day);
            && MatchesDatePattern(s) && !IsBlank(s)
            && DigitsValue(s[..4]) == year && DigitsValue(s[5..7]) == month && DigitsValue(s[8..]) == day
  {
    var s := FormatDate(year, month, day);
    var y, m, d := Padded(year, 4), Padded(month, 2), Padded(day, 2);
    assert s[..4] == y by { forall i | 0 <= i < 4 ensures s[i] == y[i] { } }
    assert s[5..7] == m by { forall i | 0 <= i < 2 ensures s[5 + i] == m[i] { } }
    assert s[8..] == d by { forall i | 0 <= i < 2 ensures s[8 + i] == d[i] { } }
    assert s[0] == y[0] && s[4] == '-' && s[7] == '-' && s[9] == d[1];
    assert !IsJavaWhitespace(s[4]);
    PaddedValue(year, 4);
    PaddedValue(month, 2);
    PaddedValue(day, 2);
  }

  /** Conversely every matching string is such a rendering. */
  lemma MatchingDateIsFormatted(s: string)
    requires MatchesDatePattern(s)
    ensures AllDigits(s[..4]) && AllDigits(s[5..7]) && AllDigits(s[8..])
    ensures s == FormatDate(DigitsValue(s[..4]), DigitsValue(s[5..7]), DigitsValue(s[8..]))
  {
    ValuePadded(s[..4]);
    ValuePadded(s[5..7]);
    ValuePadded(s[8..]);
    assert s == s[..4] + "-" + s[5..7] + "-" + s[8..];
  }

  /** Only the shape is checked: month 13, day 45 passes... */
  lemma DateShapeOnly()
    ensures RequireDate(Some("2024-13-45"), BaselineDateRequired).Ok?
  {
    var s := "2024-13-45";
    assert !IsJavaWhitespace(s[0]);
    assert MatchesDatePattern(s);
  }

  /** ...while a date without zero padding is rejected with the format
      message. */
  lemma UnpaddedDateRejected()
    ensures RequireDate(Some("2024-1-5"), BaselineDateRequired) == Err(IllegalArgument(DateFormat))
  {
    var s := "2024-1-5";
    assert !IsJavaWhitespace(s[0]);
    assert |s| != 10;
  }
}
