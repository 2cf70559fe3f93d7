/**
 * The activity calendar of `internal/handlers/activities.go`: the list page (tab, page, search,
 * today filter, order and page slice), the form checks shared by create and update, and the
 * `activities` table updates, which reach global activities and those of the selected center.
 * Times are integer seconds since 1970-01-01 00:00 UTC.
 */
module Activities {
  import opened Wrappers
  import opened Text
  import opened Affinity
  import opened Tables
  import opened Sorting
  import opened Accounts
  import opened Common
  import opened Models
  import Utils

  const ActivitiesPath: string := "/actividades"
  const ActivityTemplate: string := "actividad_form.html"
  const ActivitiesPerPage: int := 25
  const SecondsPerDay: int := 24 * 60 * 60
  const MissingFields: string := "Título, fecha y hora de inicio y fin son requeridos"
  const BadStart: string := "Fecha/hora de inicio inválida"
  const BadEnd: string := "Fecha/hora de fin inválida"
  const EndBeforeStart: string := "La fecha de fin debe ser posterior a la fecha de inicio"
  const CenterNotFound: string := "/actividades?error=Centro no encontrado"
  const MissingId: string := "/actividades?error=ID de actividad requerido"
  const NotFoundOrForbidden: string := "/actividades?error=Actividad no encontrada o sin permisos"

  /** A row of `activities`; a global activity has no center. */
  datatype Activity = Activity(
    id: int,
    centerId: Option<int>,
    title: string,
    description: string,
    startDatetime: int,
    endDatetime: int,
    isGlobal: bool,
    meetingUrl: Option<string>,
    webUrl: Option<string>,
    createdAt: int,
    updatedAt: int)

  // ---------------------------------------------------------------------------------------
  // The list page

  /** The `tab` query (absent reads as "all"); every value selects the same query. */
  datatype Tab = All | Shared | Links

  function TabParam(tab: Option<string>): (t: Tab)
    ensures tab.None? ==> t == All
    ensures tab == Some("compartidas") ==> t == Shared
    ensures tab == Some("enlaces") ==> t == Links
    ensures tab.Some? && tab.value != "compartidas" && tab.value != "enlaces" ==> t == All
  {
    match tab
    case None => All
    case Some(s) => if s == "compartidas" then Shared else if s == "enlaces" then Links else All
  }

  /** `center_id = (SELECT id FROM centers WHERE name = ?) OR is_global = 1`. */
  predicate VisibleFrom(a: Activity, centers: seq<Center>, centro: string) {
    a.isGlobal || (a.centerId.Some? && GetCenterID(centers, centro) == a.centerId)
  }

  /** `title LIKE '%q%' OR description LIKE '%q%'`: a substring, ignoring ASCII case. */
  predicate MatchesSearch(a: Activity, q: string) {
    ContainsSubstring(ToLower(a.title), ToLower(q)) || ContainsSubstring(ToLower(a.description), ToLower(q))
  }

  /**
   * The activity overlaps the day that starts at `dayStart`: it starts no later than the day's
   * last second and ends no earlier than its first.
   */
  predicate OverlapsDay(a: Activity, dayStart: int) {
    a.startDatetime <= dayStart + SecondsPerDay - 1 && a.endDatetime >= dayStart
  }

  /** The `WHERE` clause of `getActivitiesPaginated`. */
  predicate Listed(a: Activity, centers: seq<Center>, centro: string, q: string, showPast: bool, dayStart: int) {
    VisibleFrom(a, centers, centro) && (showPast || OverlapsDay(a, dayStart)) && (q == "" || MatchesSearch(a, q))
  }

  /** `ORDER BY start_datetime ASC`. */
  function EarliestFirst(): (Activity, Activity) -> bool {
    (a: Activity, b: Activity) => a.startDatetime <= b.startDatetime
  }

  lemma EarliestFirstIsTotal()
    ensures TotalPreorder(EarliestFirst())
  {
  }

  /** Every activity the page can show, in start order: the query without `LIMIT`. */
  function ListedActivities(rows: seq<Activity>, centers: seq<Center>, centro: string, q: string, showPast: bool,
                            dayStart: int): (r: seq<Activity>)
    ensures forall i :: 0 <= i < |r| ==> r[i] in rows && Listed(r[i], centers, centro, q, showPast, dayStart)
    ensures forall i :: 0 <= i < |rows| && Listed(rows[i], centers, centro, q, showPast, dayStart) ==> rows[i] in r
    ensures forall i, j :: 0 <= i < j < |r| ==> r[i].startDatetime <= r[j].startDatetime
    ensures |r| == |Where(rows, (a: Activity) => Listed(a, centers, centro, q, showPast, dayStart))|
    ensures multiset(r) == multiset(Where(rows, (a: Activity) => Listed(a, centers, centro, q, showPast, dayStart)))
  {
    var selected := Where(rows, (a: Activity) => Listed(a, centers, centro, q, showPast, dayStart));
    var r := InsertionSort(selected, EarliestFirst());
    EarliestFirstIsTotal();
    InsertionSortSorted(selected, EarliestFirst());
    assert |r| == |selected| by {
      assert |multiset(r)| == |multiset(selected)|;
    }
    assert forall i :: 0 <= i < |r| ==> r[i] in selected by {
      forall i | 0 <= i < |r| ensures r[i] in selected {
        assert r[i] in multiset(r);
      }
    }
    assert forall i :: 0 <= i < |selected| ==> selected[i] in r by {
      forall i | 0 <= i < |selected| ensures selected[i] in r {
        assert selected[i] in multiset(selected);
      }
    }
    r
  }

  /**
   * `ActividadesIndex`: the page of 25 the pagination picks out of the listed activities, with
   * the pagination it shows. The tab does not change the query.
   */
  function ActivitiesPage(tab: Tab, rows: seq<Activity>, centers: seq<Center>, centro: string, q: string,
                          showPast: bool, dayStart: int, page: int): (r: (seq<Activity>, PaginationInfo))
    ensures var all := ListedActivities(rows, centers, centro, q, showPast, dayStart);
      r.1 == NewPaginationInfo(page, ActivitiesPerPage, |all|) &&
      r.1.offset + |r.0| <= |all| &&
      |r.0| <= ActivitiesPerPage &&
      r.0 == all[r.1.offset..r.1.offset + |r.0|] &&
      (r.1.offset + ActivitiesPerPage <= |all| ==> |r.0| == ActivitiesPerPage) &&
      (r.1.offset + ActivitiesPerPage > |all| ==> r.1.offset + |r.0| == |all|)
  {
    var all := match tab
      case All => ListedActivities(rows, centers, centro, q, showPast, dayStart)
      case Shared => ListedActivities(rows, centers, centro, q, showPast, dayStart)
      case Links => ListedActivities(rows, centers, centro, q, showPast, dayStart);
    var info := NewPaginationInfo(page, ActivitiesPerPage, |all|);
    MulMonotone(info.currentPage - 1, info.totalPages - 1, ActivitiesPerPage);
    var end := if info.offset + ActivitiesPerPage > |all| then |all| else info.offset + ActivitiesPerPage;
    (all[info.offset..end], info)
  }

  /** The shared and links tabs show exactly what the default tab shows. */
  lemma TabsShowTheSame(rows: seq<Activity>, centers: seq<Center>, centro: string, q: string, showPast: bool,
                        dayStart: int, page: int)
    ensures ActivitiesPage(Shared, rows, centers, centro, q, showPast, dayStart, page) ==
            ActivitiesPage(All, rows, centers, centro, q, showPast, dayStart, page)
    ensures ActivitiesPage(Links, rows, centers, centro, q, showPast, dayStart, page) ==
            ActivitiesPage(All, rows, centers, centro, q, showPast, dayStart, page)
  {
  }

  /** Without `past=y`, an activity that ended before today or starts after today is not listed. */
  lemma OnlyTodayWithoutPast(a: Activity, centers: seq<Center>, centro: string, q: string, dayStart: int)
    requires a.endDatetime < dayStart || a.startDatetime >= dayStart + SecondsPerDay
    ensures !Listed(a, centers, centro, q, false, dayStart)
    ensures VisibleFrom(a, centers, centro) && (q == "" || MatchesSearch(a, q)) ==> Listed(a, centers, centro, q, true, dayStart)
  {
  }

  // ---------------------------------------------------------------------------------------
  // The form

  /** The posted activity form. */
  datatype ActivityForm = ActivityForm(
    title: string,
    description: string,
    startDate: string,
    startTime: string,
    endDate: string,
    endTime: string,
    global: string,
    meetingUrl: string,
    webUrl: string)

  /** What create and update write once the form passes. */
  datatype Draft = Draft(
    centerId: Option<int>,
    title: string,
    description: string,
    startDatetime: int,
    endDatetime: int,
    isGlobal: bool,
    meetingUrl: Option<string>,
    webUrl: Option<string>)

  // ---------------------------------------------------------------------------------------
  // `time.Parse("2006-01-02 15:04", ...)`, read left to right as the layout is

  /** Go's `getnum`: one or two leading digits; with `fixed`, exactly two. */
  function GetNum(s: string, fixed: bool): (r: Option<(int, string)>)
    ensures r.Some? ==> 0 <= r.value.0 < 100 && |r.value.1| < |s|
  {
    if |s| == 0 || !IsDigit(s[0]) then None
    else if |s| == 1 || !IsDigit(s[1]) then
      if fixed then None else Some((s[0] as int - '0' as int, s[1..]))
    else Some(((s[0] as int - '0' as int) * 10 + (s[1] as int - '0' as int), s[2..]))
  }

  /** A literal character of the layout must be the next character of the value. */
  function SkipChar(s: string, c: char): Option<string> {
    if |s| == 0 || s[0] != c then None else Some(s[1..])
  }

  /** The space of the layout matches a run of spaces; only an empty rest may have none. */
  function SkipSpace(s: string): Option<string> {
    if |s| > 0 && s[0] != ' ' then None else Some(CutSpace(s))
  }

  function CutSpace(s: string): (r: string)
    ensures |r| == 0 || r[0] != ' '
  {
    if |s| > 0 && s[0] == ' ' then CutSpace(s[1..]) else s
  }

  predicate IsLeap(year: int) {
    year % 4 == 0 && (year % 100 != 0 || year % 400 == 0)
  }

  /** Go's `daysIn`. */
  function DaysIn(month: int, year: int): int
    requires 1 <= month <= 12
  {
    if month == 2 then (if IsLeap(year) then 29 else 28)
    else if month == 4 || month == 6 || month == 9 || month == 11 then 30
    else 31
  }

  /** Days from 0000-01-01 to the first of January of `year`. */
  function DaysBeforeYear(year: nat): nat {
    365 * year + (year + 3) / 4 - (year + 99) / 100 + (year + 399) / 400
  }

  /** Days from the first of January to the first of `month`. */
  function DaysBeforeMonth(month: int, year: int): int
    requires 1 <= month <= 12
  {
    if month == 1 then 0 else DaysBeforeMonth(month - 1, year) + DaysIn(month - 1, year)
  }

  /** The instant, in seconds since 1970-01-01 00:00 UTC, that the fields name. */
  function Instant(year: nat, month: int, day: int, hour: int, minute: int): int
    requires 1 <= month <= 12
  {
    ((DaysBeforeYear(year) - DaysBeforeYear(1970) + DaysBeforeMonth(month, year) + day - 1) * 24 + hour) * 60 * 60
    + minute * 60
  }

  /**
   * `time.Parse` with the layout "2006-01-02 15:04" and no zone (UTC): four year digits, "-", a
   * two-digit month, "-", a two-digit day, a run of spaces, a one- or two-digit hour, ":", a
   * two-digit minute and nothing after; the month, hour and minute in range and the day within
   * its month.
   */
  function ParseStamp(s: string): Option<int> {
    if |s| < 4 || !AllDigits(s[..4]) then None
    else ParseDateRest(DigitsValue(s[..4]), s[4..])
  }

  /** Four digits make a number below ten thousand. */
  lemma FourDigitsBound(s: string)
    requires |s| == 4 && AllDigits(s)
    ensures DigitsValue(s) < 10000
  {
    assert s[..1][..0] == [] && s[..2][..1] == s[..1] && s[..3][..2] == s[..2] && s[..4] == s;
    assert IsDigit(s[0]) && IsDigit(s[1]) && IsDigit(s[2]) && IsDigit(s[3]);
    assert DigitsValue(s[..1]) < 10;
    assert DigitsValue(s[..2]) < 100;
    assert DigitsValue(s[..3]) < 1000;
  }

  /** The layout after the year: "-01-02", then the clock. */
  function ParseDateRest(year: nat, s: string): Option<int> {
    match SkipChar(s, '-')
    case None => None
    case Some(s1) =>
      match GetNum(s1, true)
      case None => None
      case Some((month, s2)) =>
        match SkipChar(s2, '-')
        case None => None
        case Some(s3) =>
          match GetNum(s3, true)
          case None => None
          case Some((day, s4)) => ParseClockRest(year, month, day, s4)
  }

  /** The layout after the day: " 15:04", then the range checks. */
  function ParseClockRest(year: nat, month: int, day: int, s: string): Option<int> {
    match SkipSpace(s)
    case None => None
    case Some(s1) =>
      match GetNum(s1, false)
      case None => None
      case Some((hour, s2)) =>
        match SkipChar(s2, ':')
        case None => None
        case Some(s3) =>
          match GetNum(s3, true)
          case None => None
          case Some((minute, s4)) =>
            if s4 != "" || month < 1 || 12 < month || 24 <= hour || 60 <= minute then None
            else if day < 1 || DaysIn(month, year) < day then None
            else Some(Instant(year, month, day, hour, minute))
  }

  /** `parseDateTime`: the date and the time joined by one space, then parsed. */
  function ParseDateTime(date: string, time: string): Option<int> {
    ParseStamp(date + " " + time)
  }

  /** Two digits, as a date or time input writes a month, day, hour or minute. */
  function Pad2(n: nat): (s: string)
    requires n < 100
    ensures |s| == 2 && AllDigits(s)
  {
    [DigitChar(n / 10), DigitChar(n % 10)]
  }

  /** What a date input sends: "YYYY-MM-DD". */
  function DateText(year: nat, month: nat, day: nat): string
    requires year < 10000 && month < 100 && day < 100
  {
    Pad2(year / 100) + Pad2(year % 100) + "-" + Pad2(month) + "-" + Pad2(day)
  }

  /** What a time input sends: "HH:MM". */
  function ClockText(hour: nat, minute: nat): string
    requires hour < 100 && minute < 100
  {
    Pad2(hour) + ":" + Pad2(minute)
  }

  /** A real calendar minute with a four-digit year. */
  predicate ValidStamp(year: nat, month: nat, day: nat, hour: nat, minute: nat) {
    year < 10000 && CalendarMinute(year, month, day, hour, minute)
  }

  /** A minute of a real day: the month in range, the day within it, the clock on a 24-hour dial. */
  predicate CalendarMinute(year: nat, month: nat, day: nat, hour: nat, minute: nat) {
    1 <= month <= 12 && 1 <= day <= DaysIn(month, year) && hour < 24 && minute < 60
  }

  /** The clock part accepts only a minute of a real day. */
  lemma ClockRestSound(year: nat, month: int, day: int, s: string)
    requires ParseClockRest(year, month, day, s).Some?
    ensures 1 <= month && 1 <= day
    ensures exists hour: nat, minute: nat ::
              CalendarMinute(year, month, day, hour, minute) &&
              ParseClockRest(year, month, day, s).value == Instant(year, month, day, hour, minute)
  {
    var h := GetNum(SkipSpace(s).value, false).value;
    var m := GetNum(SkipChar(h.1, ':').value, true).value;
    assert CalendarMinute(year, month, day, h.0, m.0);
  }

  /** After the year, only a real calendar minute is accepted. */
  lemma DateRestSound(year: nat, s: string)
    requires ParseDateRest(year, s).Some?
    ensures exists month: nat, day: nat, hour: nat, minute: nat ::
              CalendarMinute(year, month, day, hour, minute) &&
              ParseDateRest(year, s).value == Instant(year, month, day, hour, minute)
  {
    var mo := GetNum(SkipChar(s, '-').value, true).value;
    var d := GetNum(SkipChar(mo.1, '-').value, true).value;
    ClockRestSound(year, mo.0, d.0, d.1);
  }

  /** Whatever the layout "2006-01-02 15:04" accepts is a real calendar minute of a four-digit year. */
  lemma ParseStampSound(s: string)
    ensures ParseStamp(s).Some? ==> exists year: nat, month: nat, day: nat, hour: nat, minute: nat ::
      ValidStamp(year, month, day, hour, minute) && ParseStamp(s).value == Instant(year, month, day, hour, minute)
  {
    if ParseStamp(s).Some? {
      var year := DigitsValue(s[..4]);
      FourDigitsBound(s[..4]);
      DateRestSound(year, s[4..]);
    }
  }

  lemma Pad4Value(year: nat)
    requires year < 10000
    ensures AllDigits(Pad2(year / 100) + Pad2(year % 100))
    ensures DigitsValue(Pad2(year / 100) + Pad2(year % 100)) == year
  {
    var a, b := year / 100, year % 100;
    var s := Pad2(a) + Pad2(b);
    assert s[..3][..2] == s[..2] && s[..2][..1] == s[..1] && s[..1][..0] == [];
    assert DigitsValue(s[..1]) == a / 10;
    assert DigitsValue(s[..2]) == a;
    assert DigitsValue(s[..3]) == a * 10 + b / 10;
    assert s[..4] == s;
  }

  lemma GetNumPad2(n: nat, rest: string, fixed: bool)
    requires n < 100
    ensures GetNum(Pad2(n) + rest, fixed) == Some((n, rest))
  {
    var s := Pad2(n) + rest;
    assert s[2..] == rest;
  }

  lemma ClockRoundTrip(year: nat, month: nat, day: nat, hour: nat, minute: nat)
    requires ValidStamp(year, month, day, hour, minute)
    ensures ParseClockRest(year, month, day, " " + ClockText(hour, minute)) == Some(Instant(year, month, day, hour, minute))
  {
    var c := ClockText(hour, minute);
    assert (" " + c)[1..] == c;
    assert CutSpace(" " + c) == c;
    GetNumPad2(hour, ":" + Pad2(minute), false);
    assert c == Pad2(hour) + (":" + Pad2(minute));
    assert (":" + Pad2(minute))[1..] == Pad2(minute);
    GetNumPad2(minute, "", true);
    assert Pad2(minute) + "" == Pad2(minute);
  }

  /** After a date input's text, whatever the time input sent is read by the clock half of the layout. */
  lemma DateThenClock(year: nat, month: nat, day: nat, clock: string)
    requires year < 10000 && month < 100 && day < 100
    ensures ParseDateTime(DateText(year, month, day), clock) == ParseClockRest(year, month, day, " " + clock)
  {
    var c := " " + clock;
    var t3 := Pad2(day) + c;
    var t2 := "-" + t3;
    var t1 := Pad2(month) + t2;
    var y := Pad2(year / 100) + Pad2(year % 100);
    var s := DateText(year, month, day) + " " + clock;
    assert s == y + ("-" + t1);
    assert s[..4] == y && s[4..] == "-" + t1;
    Pad4Value(year);
    assert ("-" + t1)[1..] == t1;
    GetNumPad2(month, t2, true);
    assert t2[1..] == t3;
    GetNumPad2(day, c, true);
  }

  /** The minute a pair of date and time inputs name parses back to that minute's instant. */
  lemma ParseDateTimeRoundTrip(year: nat, month: nat, day: nat, hour: nat, minute: nat)
    requires ValidStamp(year, month, day, hour, minute)
    ensures ParseDateTime(DateText(year, month, day), ClockText(hour, minute)) ==
            Some(Instant(year, month, day, hour, minute))
  {
    DateThenClock(year, month, day, ClockText(hour, minute));
    ClockRoundTrip(year, month, day, hour, minute);
  }

  lemma ClockWithTail(year: nat, month: int, day: int, hour: nat, minute: nat, tail: string)
    requires hour < 100 && minute < 100 && tail != ""
    ensures ParseClockRest(year, month, day, " " + (ClockText(hour, minute) + tail)).None?
  {
    var c := ClockText(hour, minute) + tail;
    assert (" " + c)[1..] == c;
    assert CutSpace(" " + c) == c;
    var m := ":" + (Pad2(minute) + tail);
    assert c == Pad2(hour) + m;
    GetNumPad2(hour, m, false);
    assert m[1..] == Pad2(minute) + tail;
    GetNumPad2(minute, tail, true);
  }

  /** Nothing may follow the minute, not even seconds. */
  lemma TrailingTextRefused(year: nat, month: nat, day: nat, hour: nat, minute: nat, tail: string)
    requires year < 10000 && month < 100 && day < 100 && hour < 100 && minute < 100 && tail != ""
    ensures ParseDateTime(DateText(year, month, day), ClockText(hour, minute) + tail).None?
  {
    DateThenClock(year, month, day, ClockText(hour, minute) + tail);
    ClockWithTail(year, month, day, hour, minute, tail);
  }

  lemma ClockOneDigitHour(year: nat, month: int, day: int, hour: nat, minute: nat)
    requires hour < 10 && minute < 100
    ensures ParseClockRest(year, month, day, " " + ([DigitChar(hour)] + ":" + Pad2(minute))) ==
            ParseClockRest(year, month, day, " " + ClockText(hour, minute))
  {
    var short := [DigitChar(hour)] + ":" + Pad2(minute);
    assert (" " + short)[1..] == short;
    assert CutSpace(" " + short) == short;
    var m := ":" + Pad2(minute);
    assert short == [DigitChar(hour)] + m && short[1..] == m;
    assert GetNum(short, false) == Some((hour, m));
    var c := ClockText(hour, minute);
    assert (" " + c)[1..] == c;
    assert CutSpace(" " + c) == c;
    GetNumPad2(hour, m, false);
  }

  /** The hour may take one digit: "9:30" names the same minute as "09:30". */
  lemma OneDigitHourAccepted(year: nat, month: nat, day: nat, hour: nat, minute: nat)
    requires year < 10000 && month < 100 && day < 100 && hour < 10 && minute < 100
    ensures ParseDateTime(DateText(year, month, day), [DigitChar(hour)] + ":" + Pad2(minute)) ==
            ParseDateTime(DateText(year, month, day), ClockText(hour, minute))
  {
    DateThenClock(year, month, day, [DigitChar(hour)] + ":" + Pad2(minute));
    DateThenClock(year, month, day, ClockText(hour, minute));
    ClockOneDigitHour(year, month, day, hour, minute);
  }

  /** A day past the end of its month is refused: 2023 is not a leap year. */
  lemma NoFebruary29In2023()
    ensures ParseDateTime("2023-02-29", "09:30").None?
  {
  }

  /** The month takes two digits. */
  lemma OneDigitMonthRefused()
    ensures ParseDateTime("2024-3-01", "09:30").None?
  {
  }

  /**
   * The checks of `handleActivityCreate` and `handleActivityUpdate`, in order: the title and the
   * four date and time fields are required, both instants must parse, the end may not be before
   * the start (it may equal it), and a non-global activity needs the selected center to exist.
   */
  function CheckActivityForm(form: ActivityForm, centers: seq<Center>, centro: string): (r: Result<Draft, Response>)
    ensures form.title == "" || form.startDate == "" || form.startTime == "" || form.endDate == "" ||
            form.endTime == "" ==>
      r == Failure(Form(ActivityTemplate, MissingFields))
    ensures r.Success? <==>
      form.title != "" && form.startDate != "" && form.startTime != "" && form.endDate != "" && form.endTime != "" &&
      ParseDateTime(form.startDate, form.startTime).Some? &&
      ParseDateTime(form.endDate, form.endTime).Some? &&
      ParseDateTime(form.startDate, form.startTime).value <= ParseDateTime(form.endDate, form.endTime).value &&
      (form.global != "1" ==> GetCenterID(centers, centro).Some?)
    ensures r.Failure? && r.error.Form? ==>
      r.error.template == ActivityTemplate &&
      r.error.errorMessage in {MissingFields, BadStart, BadEnd, EndBeforeStart}
    ensures r.Failure? && !r.error.Form? ==> r.error == Redirect(CenterNotFound) && form.global != "1"
    ensures r.Success? ==>
      r.value.startDatetime == ParseDateTime(form.startDate, form.startTime).value &&
      r.value.endDatetime == ParseDateTime(form.endDate, form.endTime).value &&
      r.value.startDatetime <= r.value.endDatetime &&
      (r.value.isGlobal <==> form.global == "1") &&
      (r.value.isGlobal ==> r.value.centerId.None?) &&
      (!r.value.isGlobal ==> r.value.centerId == GetCenterID(centers, centro)) &&
      r.value.title == form.title && r.value.description == form.description &&
      r.value.meetingUrl == Utils.StringPtr(form.meetingUrl) && r.value.webUrl == Utils.StringPtr(form.webUrl)
  {
    if form.title == "" || form.startDate == "" || form.startTime == "" || form.endDate == "" || form.endTime == "" then
      Failure(Form(ActivityTemplate, MissingFields))
    else
      match ParseDateTime(form.startDate, form.startTime)
      case None => Failure(Form(ActivityTemplate, BadStart))
      case Some(start) =>
        match ParseDateTime(form.endDate, form.endTime)
        case None => Failure(Form(ActivityTemplate, BadEnd))
        case Some(end) =>
          if end < start then Failure(Form(ActivityTemplate, EndBeforeStart))
          else if form.global == "1" then
            Success(Draft(None, form.title, form.description, start, end, true,
                          Utils.StringPtr(form.meetingUrl), Utils.StringPtr(form.webUrl)))
          else
            match GetCenterID(centers, centro)
            case None => Failure(Redirect(CenterNotFound))
            case Some(c) =>
              Success(Draft(Some(c), form.title, form.description, start, end, false,
                            Utils.StringPtr(form.meetingUrl), Utils.StringPtr(form.webUrl)))
  }

  /** The checks stop at the first problem: the end is compared only once both instants parse. */
  lemma CheckOrder(form: ActivityForm, centers: seq<Center>, centro: string)
    requires form.title != "" && form.startDate != "" && form.startTime != "" && form.endDate != "" && form.endTime != ""
    ensures ParseDateTime(form.startDate, form.startTime).None? ==>
      CheckActivityForm(form, centers, centro) == Failure(Form(ActivityTemplate, BadStart))
    ensures ParseDateTime(form.startDate, form.startTime).Some? && ParseDateTime(form.endDate, form.endTime).None? ==>
      CheckActivityForm(form, centers, centro) == Failure(Form(ActivityTemplate, BadEnd))
    ensures ParseDateTime(form.startDate, form.startTime).Some? && ParseDateTime(form.endDate, form.endTime).Some? &&
            ParseDateTime(form.endDate, form.endTime).value < ParseDateTime(form.startDate, form.startTime).value ==>
      CheckActivityForm(form, centers, centro) == Failure(Form(ActivityTemplate, EndBeforeStart))
  {
  }

  // ---------------------------------------------------------------------------------------
  // The table

  /** `WHERE id = ? AND (is_global = 1 OR center_id = (SELECT id FROM centers WHERE name = ?))`. */
  predicate InScope(a: Activity, idParam: string, centers: seq<Center>, centro: string) {
    IdParamMatches(idParam, a.id) && VisibleFrom(a, centers, centro)
  }

  predicate NoneInScope(rows: seq<Activity>, idParam: string, centers: seq<Center>, centro: string) {
    forall i :: 0 <= i < |rows| ==> !InScope(rows[i], idParam, centers, centro)
  }

  /** The update: every row in scope takes the draft; id and creation time stay. */
  function ApplyDraft(rows: seq<Activity>, idParam: string, centers: seq<Center>, centro: string, d: Draft,
                      now: int): (r: seq<Activity>)
    ensures |r| == |rows|
    ensures forall i :: 0 <= i < |rows| && !InScope(rows[i], idParam, centers, centro) ==> r[i] == rows[i]
    ensures forall i :: 0 <= i < |rows| && InScope(rows[i], idParam, centers, centro) ==>
      r[i] == Activity(rows[i].id, d.centerId, d.title, d.description, d.startDatetime, d.endDatetime, d.isGlobal,
                       d.meetingUrl, d.webUrl, rows[i].createdAt, now)
  {
    UpdateWhere(rows, (a: Activity) => InScope(a, idParam, centers, centro),
                (a: Activity) => Activity(a.id, d.centerId, d.title, d.description, d.startDatetime, d.endDatetime,
                                          d.isGlobal, d.meetingUrl, d.webUrl, a.createdAt, now))
  }

  /** The delete: the rows in scope go, every other row stays. */
  function RemoveInScope(rows: seq<Activity>, idParam: string, centers: seq<Center>, centro: string): (r: seq<Activity>)
    ensures forall i :: 0 <= i < |r| ==> r[i] in rows && !InScope(r[i], idParam, centers, centro)
    ensures forall i :: 0 <= i < |rows| && !InScope(rows[i], idParam, centers, centro) ==> rows[i] in r
    ensures multiset(r) + multiset(Where(rows, (a: Activity) => InScope(a, idParam, centers, centro))) == multiset(rows)
  {
    DeleteWhere(rows, (a: Activity) => InScope(a, idParam, centers, centro))
  }

  /**
   * A center reaches only global activities and its own: another center's non-global activity
   * survives every update and delete, whatever id is posted.
   */
  lemma OtherCentersActivitiesUntouched(rows: seq<Activity>, idParam: string, centers: seq<Center>, centro: string,
                                        d: Draft, now: int, k: nat)
    requires k < |rows| && !rows[k].isGlobal && rows[k].centerId != GetCenterID(centers, centro)
    ensures ApplyDraft(rows, idParam, centers, centro, d, now)[k] == rows[k]
    ensures rows[k] in RemoveInScope(rows, idParam, centers, centro)
  {
  }

  /** Whatever the selected center, global activities are in reach: any center may edit or delete them. */
  lemma GlobalActivitiesInReach(a: Activity, centers: seq<Center>, centro: string)
    requires a.isGlobal
    ensures InScope(a, IntToString(a.id), centers, centro)
  {
    DecimalFormRead(a.id);
  }

  /** The `activities` table. */
  class ActivityStore {
    var rows: seq<Activity>

    constructor ()
      ensures rows == []
    {
      rows := [];
    }

    /** `ActividadesCrear` (POST): sign-in, a selected center, the form checks, then the insert. */
    method Create(user: Option<User>, cookies: map<string, string>, form: ActivityForm, centers: seq<Center>,
                  now: int) returns (resp: Response)
      modifies this
      ensures user.None? ==> resp == Redirect("/login") && rows == old(rows)
      ensures user.Some? && SelectedCenter(cookies).None? ==> resp == Redirect(ChooseCenterPath) && rows == old(rows)
      ensures user.Some? && SelectedCenter(cookies).Some? &&
              CheckActivityForm(form, centers, SelectedCenter(cookies).value).Failure? ==>
        resp == CheckActivityForm(form, centers, SelectedCenter(cookies).value).error && rows == old(rows)
      ensures user.Some? && SelectedCenter(cookies).Some? &&
              CheckActivityForm(form, centers, SelectedCenter(cookies).value).Success? ==>
        var d := CheckActivityForm(form, centers, SelectedCenter(cookies).value).value;
        rows == old(rows) + [Activity(NextKey(old(rows), (a: Activity) => a.id), d.centerId, d.title, d.description,
                                      d.startDatetime, d.endDatetime, d.isGlobal, d.meetingUrl, d.webUrl, now, now)] &&
        resp == Redirect(ActivitiesPath + "?success=Actividad creada correctamente")
    {
      if user.None? {
        return Redirect("/login");
      }
      var centro := SelectedCenter(cookies);
      if centro.None? {
        return Redirect(ChooseCenterPath);
      }
      var check := CheckActivityForm(form, centers, centro.value);
      if check.Failure? {
        return check.error;
      }
      var d := check.value;
      rows := rows + [Activity(NextKey(rows, (a: Activity) => a.id), d.centerId, d.title, d.description,
                               d.startDatetime, d.endDatetime, d.isGlobal, d.meetingUrl, d.webUrl, now, now)];
      resp := Redirect(ActivitiesPath + "?success=Actividad creada correctamente");
    }

    /**
     * `ActividadesEditar` (POST): after the id and the form checks, only an activity in reach is
     * updated; none in reach means "not found or not allowed".
     */
    method Update(user: Option<User>, cookies: map<string, string>, idParam: string, form: ActivityForm,
                  centers: seq<Center>, now: int) returns (resp: Response)
      modifies this
      ensures user.None? ==> resp == Redirect("/login") && rows == old(rows)
      ensures user.Some? && SelectedCenter(cookies).None? ==> resp == Redirect(ChooseCenterPath) && rows == old(rows)
      ensures user.Some? && SelectedCenter(cookies).Some? && idParam == "" ==> resp == Redirect(MissingId) && rows == old(rows)
      ensures user.Some? && SelectedCenter(cookies).Some? && idParam != "" &&
              CheckActivityForm(form, centers, SelectedCenter(cookies).value).Failure? ==>
        resp == CheckActivityForm(form, centers, SelectedCenter(cookies).value).error && rows == old(rows)
      ensures user.Some? && SelectedCenter(cookies).Some? && idParam != "" &&
              CheckActivityForm(form, centers, SelectedCenter(cookies).value).Success? ==>
        var centro := SelectedCenter(cookies).value;
        rows == ApplyDraft(old(rows), idParam, centers, centro, CheckActivityForm(form, centers, centro).value, now) &&
        resp == if NoneInScope(old(rows), idParam, centers, centro) then Redirect(NotFoundOrForbidden)
                else Redirect(ActivitiesPath + "?success=Actividad actualizada correctamente")
    {
      if user.None? {
        return Redirect("/login");
      }
      var centro := SelectedCenter(cookies);
      if centro.None? {
        return Redirect(ChooseCenterPath);
      }
      if idParam == "" {
        return Redirect(MissingId);
      }
      var check := CheckActivityForm(form, centers, centro.value);
      if check.Failure? {
        return check.error;
      }
      var affected := FirstWhere(rows, (a: Activity) => InScope(a, idParam, centers, centro.value));
      rows := ApplyDraft(rows, idParam, centers, centro.value, check.value, now);
      if affected.None? {
        return Redirect(NotFoundOrForbidden);
      }
      resp := Redirect(ActivitiesPath + "?success=Actividad actualizada correctamente");
    }

    /**
     * `ActividadesEliminar`: the center is not looked up first; an unknown center name reaches
     * only global activities.
     */
    method Delete(user: Option<User>, cookies: map<string, string>, idParam: string, centers: seq<Center>)
        returns (resp: Response)
      modifies this
      ensures user.None? ==> resp == Redirect("/login") && rows == old(rows)
      ensures user.Some? && SelectedCenter(cookies).None? ==> resp == Redirect(ChooseCenterPath) && rows == old(rows)
      ensures user.Some? && SelectedCenter(cookies).Some? && idParam == "" ==> resp == Redirect(MissingId) && rows == old(rows)
      ensures user.Some? && SelectedCenter(cookies).Some? && idParam != "" ==>
        var centro := SelectedCenter(cookies).value;
        rows == RemoveInScope(old(rows), idParam, centers, centro) &&
        resp == if NoneInScope(old(rows), idParam, centers, centro) then Redirect(NotFoundOrForbidden)
                else Redirect(ActivitiesPath + "?success=Actividad eliminada correctamente")
    {
      if user.None? {
        return Redirect("/login");
      }
      var centro := SelectedCenter(cookies);
      if centro.None? {
        return Redirect(ChooseCenterPath);
      }
      if idParam == "" {
        return Redirect(MissingId);
      }
      var affected := FirstWhere(rows, (a: Activity) => InScope(a, idParam, centers, centro.value));
      rows := RemoveInScope(rows, idParam, centers, centro.value);
      if affected.None? {
        return Redirect(NotFoundOrForbidden);
      }
      resp := Redirect(ActivitiesPath + "?success=Actividad eliminada correctamente");
    }
  }
}
