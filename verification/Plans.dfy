/** From the text of a repeat spec to the schedule it means, in both of its shapes. */
module Plans {
  import opened Text
  import opened Instants
  import opened Cron
  import opened WorkCalendar
  import opened CalendarLists
  import opened Spacing
  import opened Objects

  /** An optional list of days or hours. */
  datatype Calendar = Every | ListOf(es: seq<Entry>) {
    ghost predicate Ok(days: bool) { ListOf? ==> WellFormed(es, days) }

    function Text(): Option<string>
      requires ListOf? ==> |es| > 0
    {
      if Every? then None else Some(ListText(es))
    }

    function Covers(days: bool): set<nat> { if Every? then Steps(0, Max(days), 1) else Included(es) }
  }

  // ---------------------------------------------------------------- the five fields

  lemma TextShape(a: string, b: string, d: string)
    ensures a + " " + b + " * * " + d == a + " " + (b + " " + ("*" + " " + ("*" + " " + d)))
  {
    assert " * * " + d == " " + ("*" + " " + ("*" + " " + d));
    assert a + " " + b + " * * " + d == (a + " " + b) + (" * * " + d);
  }

  lemma FiveFields(a: string, b: string, d: string)
    requires a != "" && Spaceless(a) && b != "" && Spaceless(b) && d != "" && Spaceless(d)
    ensures Fields(a + " " + b + " * * " + d) == [a, b, "*", "*", d]
  {
    FieldsLast(d);
    FieldsHead("*", d);
    FieldsHead("*", "*" + " " + d);
    FieldsHead(b, "*" + " " + ("*" + " " + d));
    FieldsHead(a, b + " " + ("*" + " " + ("*" + " " + d)));
    TextShape(a, b, d);
  }

  lemma ParseFields(a: string, b: string, d: string, minutes: set<nat>, hours: set<nat>, days: set<nat>)
    requires a != "" && Spaceless(a) && Field(a, 59, false) == Some(minutes)
    requires b != "" && Spaceless(b) && Field(b, 23, false) == Some(hours)
    requires d != "" && Spaceless(d) && Field(d, 6, true) == Some(days)
    ensures ParseStandard(a + " " + b + " * * " + d) == Some(Schedule(minutes, hours, days))
  {
    FiveFields(a, b, d);
  }

  lemma {:induction false} JoinSpaceless(parts: seq<string>)
    requires |parts| > 0 && forall i :: 0 <= i < |parts| ==> parts[i] != "" && Spaceless(parts[i])
    ensures Join(parts, ',') != "" && Spaceless(Join(parts, ','))
  {
    if |parts| > 1 {
      JoinSpaceless(parts[1..]);
    }
  }

  lemma ListTextClean(es: seq<Entry>, days: bool)
    requires WellFormed(es, days)
    ensures ListText(es) != "" && Spaceless(ListText(es))
  {
    forall i | 0 <= i < |es|
      ensures Written(es)[i] != "" && Spaceless(Written(es)[i])
    {
      assert es[i] in es;
      WrittenClean(es[i], days);
    }
    JoinSpaceless(Written(es));
  }

  lemma NonNegative(n: nat)
    requires n <= MAX_INT64
    ensures FormatInt(n) == Decimal(n) && Spaceless(FormatInt(n)) && Clean(FormatInt(n))
    ensures FormatInt(n) != "" && Atoi(FormatInt(n)) == Some(n)
  {
    NumberAtom(Decimal(n), false);
  }

  // ---------------------------------------------------------------- single fields

  lemma OneItemField(text: string, max: nat, named: bool, s: set<nat>, x: nat)
    requires text != "" && ',' !in text && Item(text, max, named) == Some(s) && x in s
    ensures Field(text, max, named) == Some(s)
  {
    SplitWhole(text, ',');
    OneItem(text, max, named, s);
  }

  lemma StarField(max: nat, named: bool)
    ensures Field("*", max, named) == Some(Steps(0, max, 1))
  {
    SplitWhole("*", '/');
    SplitWhole("*", '-');
    assert OnStep(0, 0, 1) && 0 in Steps(0, max, 1);
    OneItemField("*", max, named, Steps(0, max, 1), 0);
  }

  lemma NumberField(m: nat, max: nat)
    requires m <= max <= MAX_INT64
    ensures Field(FormatInt(m), max, false) == Some({m})
  {
    var text := FormatInt(m);
    NonNegative(m);
    NumberAtom(text, false);
    SplitWhole(text, '/');
    SplitWhole(text, '-');
    assert text[0] in text;
    forall x: nat
      ensures x in Steps(m, m, 1) <==> x == m
    {
      assert OnStep(m, m, 1);
    }
    assert Steps(m, m, 1) == {m};
    OneItemField(text, max, false, {m}, m);
  }

  /** An item with a step appended to it. */
  lemma SteppedItem(range: string, n: nat, max: nat, from: nat, to: nat)
    requires 0 < n <= MAX_INT64 && '/' !in range
    requires Ends(range, max, false) == Some((from, to))
    requires var last := if '-' in range then to else max; from <= last <= max
    ensures Item(range + ("/" + FormatInt(n)), max, false)
            == Some(Steps(from, if '-' in range then to else max, n))
  {
    NonNegative(n);
    assert range + ("/" + FormatInt(n)) == range + ['/'] + FormatInt(n);
    SplitHead(range, '/', FormatInt(n));
    SplitWhole(FormatInt(n), '/');
  }

  lemma StarStepField(n: nat, max: nat)
    requires 0 < n <= MAX_INT64
    ensures var text := "*/" + FormatInt(n);
            text != "" && Spaceless(text) && Field(text, max, false) == Some(Steps(0, max, n))
  {
    var text := "*/" + FormatInt(n);
    NonNegative(n);
    SplitWhole("*", '-');
    SteppedItem("*", n, max, 0, max);
    assert text == "*" + ("/" + FormatInt(n));
    assert OnStep(0, 0, n) && 0 in Steps(0, max, n);
    OneItemField(text, max, false, Steps(0, max, n), 0);
  }

  // ---------------------------------------------------------------- minute mode

  lemma CalendarField(cal: Calendar, days: bool)
    requires cal.Ok(days)
    ensures var text := if cal.Every? then "*" else ListText(cal.es);
            text != "" && Spaceless(text) && Field(text, Max(days), days) == Some(cal.Covers(days))
    ensures RuleOf(cal.Text(), days) == if cal.Every? then Anytime else Only(Included(cal.es))
  {
    match cal
    case Every => StarField(Max(days), days);
    case ListOf(es) =>
      ReadersAgree(es, days);
      ListTextClean(es, days);
  }

  lemma StepBounds(from: nat, to: nat, step: nat, x: nat)
    requires step > 0
    ensures x in Steps(from, to, step) ==> from <= x <= to
    ensures from <= to ==> from in Steps(from, to, step)
  {
    assert OnStep(from, from, step);
  }

  /** "Every n minutes" within the given hours and days. */
  lemma MinutePlan(spec: RepeatSpec, n: nat, hs: Calendar, ds: Calendar)
    requires 0 < n <= MAX_INT64 && hs.Ok(false) && ds.Ok(true)
    requires spec.includedHours == hs.Text() && spec.includedDays == ds.Text()
    requires spec.minChaosInterval.Some? && spec.minChaosInterval.value.minute == Some(n)
    ensures var plan := PlanOf(spec);
            && plan.cron == Some(Schedule(Steps(0, 59, n), hs.Covers(false), ds.Covers(true)))
            && MinuteMode(plan.cron.value, n)
            && plan.days == (if ds.Every? then Anytime else Only(Included(ds.es)))
            && plan.hours == (if hs.Every? then Anytime else Only(Included(hs.es)))
  {
    StarStepField(n, 59);
    CalendarField(hs, false);
    CalendarField(ds, true);
    var hours := if hs.Every? then "*" else ListText(hs.es);
    var days := if ds.Every? then "*" else ListText(ds.es);
    ParseFields("*/" + FormatInt(n), hours, days, Steps(0, 59, n), hs.Covers(false), ds.Covers(true));
    SpecText(spec, hs, ds);
    PlanCron(spec);
  }

  lemma SpecText(spec: RepeatSpec, hs: Calendar, ds: Calendar)
    requires hs.Ok(false) && ds.Ok(true)
    requires spec.includedHours == hs.Text() && spec.includedDays == ds.Text()
    ensures spec.includedHours.Some? ==> spec.includedHours.value == ListText(hs.es)
    ensures spec.includedDays.Some? ==> spec.includedDays.value == ListText(ds.es)
    ensures spec.includedHours.None? <==> hs.Every?
    ensures spec.includedDays.None? <==> ds.Every?
  {
  }

  lemma PlanCron(spec: RepeatSpec)
    requires ScheduleRepeat(spec).Some?
    ensures PlanOf(spec).cron == ParseStandard(ScheduleRepeat(spec).value.0)
    ensures PlanOf(spec).days == RuleOf(spec.includedDays, true)
    ensures PlanOf(spec).hours == RuleOf(spec.includedHours, false)
  {
  }

  /** The requeue period after a run is the declared interval exactly when that fits in 64
      bits; else the product wraps around. */
  lemma PeriodExact(spec: RepeatSpec)
    requires ScheduleRepeat(spec).Some?
    ensures PlanOf(spec).period == Interval(spec.minChaosInterval.value)
            <==> -MAX_INT64 - 1 <= Interval(spec.minChaosInterval.value) <= MAX_INT64
  {
  }

  function Interval(i: MinChaosInterval): int
    requires i.minute.Some? || i.hour.Some?
  {
    if i.minute.Some? then i.minute.value * MINUTE else i.hour.value.everyNthHour * HOUR
  }

  // ---------------------------------------------------------------- hour mode

  /** The hours of a list whose text has "/n" appended: the step binds to the last item
      alone, and lets a lone number run to the end of the day. */
  function Stepped(es: seq<Entry>, n: nat): set<nat>
    requires |es| > 0 && n > 0
  {
    var last := es[|es| - 1];
    Included(es[..|es| - 1]) + Steps(last.Low(), if last.One? then 23 else last.High(), n)
  }

  function Both(x: Option<set<nat>>, y: Option<set<nat>>): Option<set<nat>> {
    if x.Some? && y.Some? then Some(x.value + y.value) else None
  }

  lemma ItemsHead(head: string, rest: seq<string>, max: nat, named: bool)
    ensures Items([head] + rest, max, named)
            == Both(if head == "" then Some({}) else Item(head, max, named), Items(rest, max, named))
  {
    assert ([head] + rest)[1..] == rest;
  }

  lemma {:induction false} ItemsConcat(a: seq<string>, b: seq<string>, max: nat, named: bool)
    ensures Items(a + b, max, named) == Both(Items(a, max, named), Items(b, max, named))
  {
    if a == [] {
      assert a + b == b;
      assert Items(b, max, named).Some? ==> {} + Items(b, max, named).value == Items(b, max, named).value;
    } else {
      var first, rest := a[0], a[1..];
      ItemsConcat(rest, b, max, named);
      ItemsHead(first, rest, max, named);
      ItemsHead(first, rest + b, max, named);
      assert a == [first] + rest && a + b == [first] + (rest + b);
      BothThree(if first == "" then Some({}) else Item(first, max, named),
                Items(rest, max, named), Items(b, max, named));
    }
  }

  lemma BothThree(x: Option<set<nat>>, y: Option<set<nat>>, z: Option<set<nat>>)
    ensures Both(x, Both(y, z)) == Both(Both(x, y), z)
  {
    if x.Some? && y.Some? && z.Some? {
      assert x.value + (y.value + z.value) == (x.value + y.value) + z.value;
    }
  }

  lemma OneItem(item: string, max: nat, named: bool, s: set<nat>)
    requires item != "" && Item(item, max, named) == Some(s)
    ensures Items([item], max, named) == Some(s)
  {
    assert [item][1..] == [];
    assert Items([item], max, named) == Some(s + {});
    assert s + {} == s;
  }

  lemma LastStepped(e: Entry, n: nat)
    requires HourEntry(e) && 0 < n <= MAX_INT64
    ensures Item(e.Written() + ("/" + FormatInt(n)), 23, false)
            == Some(Steps(e.Low(), if e.One? then 23 else e.High(), n))
  {
    WrittenClean(e, false);
    CronReadsEnds(e, false);
    SteppedItem(e.Written(), n, 23, e.Low(), e.High());
  }

  lemma SteppedItems(front: seq<Entry>, e: Entry, n: nat)
    requires forall x :: x in front ==> HourEntry(x)
    requires HourEntry(e) && 0 < n <= MAX_INT64
    ensures Items(Written(front) + [e.Written() + ("/" + FormatInt(n))], 23, false)
            == Some(Included(front) + Steps(e.Low(), if e.One? then 23 else e.High(), n))
  {
    var item := e.Written() + ("/" + FormatInt(n));
    CronReadsItems(front, false);
    LastStepped(e, n);
    OneItem(item, 23, false, Steps(e.Low(), if e.One? then 23 else e.High(), n));
    ItemsConcat(Written(front), [item], 23, false);
  }

  lemma SteppedSplit(es: seq<Entry>, n: nat)
    requires WellFormed(es, false) && n <= MAX_INT64
    ensures Split(ListText(es) + ("/" + FormatInt(n)), ',')
            == Written(es[..|es| - 1]) + [es[|es| - 1].Written() + ("/" + FormatInt(n))]
  {
    NonNegative(n);
    SplitText(es, false);
    SplitTail(ListText(es), "/" + FormatInt(n), ',');
    assert Written(es)[..|es| - 1] == Written(es[..|es| - 1]);
  }

  lemma SteppedNonempty(es: seq<Entry>, n: nat)
    requires WellFormed(es, false) && n > 0
    ensures Stepped(es, n) != {}
  {
    var e := es[|es| - 1];
    assert e in es;
    WrittenClean(e, false);
    StepBounds(e.Low(), if e.One? then 23 else e.High(), n, e.Low());
    assert e.Low() in Stepped(es, n);
  }

  lemma SteppedListField(es: seq<Entry>, n: nat)
    requires WellFormed(es, false) && 0 < n <= MAX_INT64
    ensures Field(ListText(es) + ("/" + FormatInt(n)), 23, false) == Some(Stepped(es, n))
  {
    var front, e := es[..|es| - 1], es[|es| - 1];
    assert e in es && forall x :: x in front ==> x in es;
    SteppedSplit(es, n);
    SteppedItems(front, e, n);
    SteppedNonempty(es, n);
  }

  /** "Every n hours" at minute m, within the given hours and days. */
  lemma HourPlan(spec: RepeatSpec, n: nat, m: nat, hs: Calendar, ds: Calendar)
    requires 0 < n <= MAX_INT64 && m < 60 && hs.Ok(false) && ds.Ok(true)
    requires spec.includedHours == hs.Text() && spec.includedDays == ds.Text()
    requires spec.minChaosInterval == Some(MinChaosInterval(None, Some(HourStep(n, m))))
    ensures var hours := if hs.Every? then Steps(0, 23, n) else Stepped(hs.es, n);
            PlanOf(spec).cron == Some(Schedule({m}, hours, ds.Covers(true)))
    ensures hs.Every? ==> HourMode(PlanOf(spec).cron.value, n, m)
  {
    var step := "/" + FormatInt(n);
    var list := if hs.Every? then "*" else ListText(hs.es);
    var days := if ds.Every? then "*" else ListText(ds.es);
    var hours := if hs.Every? then Steps(0, 23, n) else Stepped(hs.es, n);
    NonNegative(n);
    NonNegative(m);
    NumberField(m, 59);
    CalendarField(ds, true);
    CalendarField(hs, false);
    SteppedCalendar(hs, n);
    ParseFields(FormatInt(m), list + step, days, {m}, hours, ds.Covers(true));
    SpecText(spec, hs, ds);
    HourText(spec, FormatInt(m), list, FormatInt(n), days);
    PlanCron(spec);
  }

  lemma HourText(spec: RepeatSpec, m: string, list: string, n: string, days: string)
    requires spec.minChaosInterval.Some? && spec.minChaosInterval.value.minute.None?
    requires spec.minChaosInterval.value.hour.Some?
    requires m == FormatInt(spec.minChaosInterval.value.hour.value.minuteOfTheHour)
    requires n == FormatInt(spec.minChaosInterval.value.hour.value.everyNthHour)
    requires list == if spec.includedHours.Some? then spec.includedHours.value else "*"
    requires days == if spec.includedDays.Some? then spec.includedDays.value else "*"
    ensures ScheduleRepeat(spec).Some?
    ensures ScheduleRepeat(spec).value.0 == m + " " + (list + ("/" + n)) + " * * " + days
  {
    var text := m + " " + list + "/" + n + " * * " + days;
    assert ScheduleRepeat(spec).value.0 == text;
    assert text == m + " " + (list + ("/" + n)) + " * * " + days;
  }

  lemma StarStepText(n: string)
    ensures "*" + ("/" + n) == "*/" + n
  {
  }

  lemma SteppedCalendar(hs: Calendar, n: nat)
    requires 0 < n <= MAX_INT64 && hs.Ok(false)
    ensures Field((if hs.Every? then "*" else ListText(hs.es)) + ("/" + FormatInt(n)), 23, false)
            == Some(if hs.Every? then Steps(0, 23, n) else Stepped(hs.es, n))
  {
    match hs
    case Every =>
      StarStepField(n, 23);
      StarStepText(FormatInt(n));
    case ListOf(es) => SteppedListField(es, n);
  }

  /** A lone last number runs on to the end of the day, by steps; do these hours all occur
      elsewhere in the list? */
  ghost predicate StepsListed(es: seq<Entry>, n: nat)
    requires |es| > 0 && n > 0
  {
    var last := es[|es| - 1];
    last.One? ==> forall h :: last.value < h <= 23 && OnStep(h, last.value, n) ==> h in Included(es)
  }

  /** The hours of hour mode stay inside the included ones exactly when the last item is a
      range, or a number all of whose later steps are included. */
  lemma HourModeWithin(es: seq<Entry>, n: nat)
    requires WellFormed(es, false) && n > 0
    ensures Stepped(es, n) <= Included(es) <==> StepsListed(es, n)
  {
    var front, last := es[..|es| - 1], es[|es| - 1];
    var steps := Steps(last.Low(), if last.One? then 23 else last.High(), n);
    assert es == front + [last];
    IncludedParts(front, [last]);
    IncludedOne(last);
    forall h | h in steps
      ensures OnStep(h, last.Low(), 1) && (h in last.Meaning() || (last.One? && last.value < h))
    {
    }
    if last.One? && Stepped(es, n) <= Included(es) {
      assert forall h :: last.value < h <= 23 && OnStep(h, last.value, n) ==> h in steps;
    }
  }

  // ---------------------------------------------------------------- a list only cron reads

  /** A spelled-out `*` is accepted by cron and refused by the list parser, so a first run
      that has to consult the list fails. */
  lemma StarIsNoList(days: bool)
    ensures Field("*", Max(days), days).Some?
    ensures RuleOf(Some("*"), days) == Unreadable
  {
    StarField(Max(days), days);
    SplitWhole("*", ',');
    assert ["*"][..0] == [];
    assert '*' in "*";
    assert Atoi("*").None? by {
      if Atoi("*").Some? {
        AtoiShape("*");
      }
    }
    assert Parse("*", days).None?;
    assert Marks(["*"], days).None?;
  }

  // ---------------------------------------------------------------- every accepted spec

  /** A given list is one the list parser can be run on without leaving its array. */
  ghost predicate Accepted(text: Option<string>, days: bool) {
    text.Some? && text.value != "" ==> Spaceless(text.value) && Field(text.value, Max(days), days).Some?
  }

  lemma ItemDropsStep(range: string, step: string, max: nat)
    requires '/' !in step && Item(range + ("/" + step), max, false).Some?
    ensures range != "" && Item(range, max, false).Some? && Item(range, max, false).value != {}
  {
    assert range + ("/" + step) == range + ['/'] + step;
    SplitAppend(range, '/', step);
    SplitWhole(step, '/');
    SplitParts(range, '/');
    SplitParts(range, '-');
    var ends := Ends(range, max, false).value;
    StepBounds(ends.0, ends.1, 1, ends.0);
  }

  lemma {:induction false} ItemsDropStep(parts: seq<string>, last: string, step: string, max: nat)
    requires '/' !in step && Items(parts + [last + ("/" + step)], max, false).Some?
    ensures Items(parts + [last], max, false).Some? && Items(parts + [last], max, false).value != {}
  {
    var long, short := parts + [last + ("/" + step)], parts + [last];
    if parts == [] {
      assert long[1..] == [];
      assert long[0] == last + ("/" + step) != "";
      ItemDropsStep(last, step, max);
      OneItem(last, max, false, Item(last, max, false).value);
      assert short == [last];
    } else {
      assert long[1..] == parts[1..] + [last + ("/" + step)] && short[1..] == parts[1..] + [last];
      assert long[0] == parts[0] == short[0];
      ItemsDropStep(parts[1..], last, step, max);
    }
  }

  lemma FieldDropsStep(text: string, step: string, max: nat)
    requires '/' !in step && ',' !in step && Field(text + ("/" + step), max, false).Some?
    ensures Field(text, max, false).Some? && Field(text, max, false).value != {}
  {
    var parts := Split(text, ',');
    SplitTail(text, "/" + step, ',');
    var front, last := parts[..|parts| - 1], parts[|parts| - 1];
    ItemsDropStep(front, last, step, max);
    assert parts == front + [last];
  }

  lemma FormattedClean(i: int)
    ensures FormatInt(i) != "" && Spaceless(FormatInt(i)) && '/' !in FormatInt(i) && ',' !in FormatInt(i)
  {
    var n: nat := if i < 0 then -i else i;
    assert forall c :: c in Decimal(n) ==> IsDigit(c);
    assert Decimal(n) != "";
  }

  /** Fields of the five-part text when a part may be empty. */
  lemma FieldsOf(part: string, rest: string)
    requires Spaceless(part)
    ensures Fields(part + " " + rest) == Present(part) + Fields(rest)
  {
    if part == "" {
      assert (part + " " + rest)[1..] == rest;
    } else {
      FieldsHead(part, rest);
    }
  }

  function Present(part: string): seq<string> { if part == "" then [] else [part] }

  lemma FieldsInText(a: string, hours: string, days: string)
    requires a != "" && Spaceless(a) && Spaceless(hours) && Spaceless(days)
    ensures Fields(a + " " + hours + " * * " + days) == [a] + (Present(hours) + (["*"] + (["*"] + Present(days))))
  {
    var tail := "*" + " " + ("*" + " " + days);
    TailFields(days);
    FieldsOf(hours, tail);
    FieldsHead(a, hours + " " + tail);
    TextShape(a, hours, days);
  }

  lemma TailFields(days: string)
    requires Spaceless(days)
    ensures Fields("*" + " " + ("*" + " " + days)) == ["*"] + (["*"] + Present(days))
  {
    if days != "" {
      FieldsLast(days);
    }
    FieldsHead("*", days);
    FieldsHead("*", "*" + " " + days);
  }

  /** A cron text parses only if all its fields do, and then to what they are. */
  lemma ParsedFields(a: string, hours: string, days: string)
    requires a != "" && Spaceless(a) && Spaceless(hours) && Spaceless(days)
    requires ParseStandard(a + " " + hours + " * * " + days).Some?
    ensures Field(a, 59, false).Some? && Field(hours, 23, false).Some? && Field(days, 6, true).Some?
    ensures ParseStandard(a + " " + hours + " * * " + days)
            == Some(Schedule(Field(a, 59, false).value, Field(hours, 23, false).value, Field(days, 6, true).value))
  {
    FieldsInText(a, hours, days);
    var fields := Fields(a + " " + hours + " * * " + days);
    assert fields[1] == hours && fields[4] == days;
  }

  ghost predicate SpaceFree(spec: RepeatSpec) {
    && (spec.includedDays.Some? ==> Spaceless(spec.includedDays.value))
    && (spec.includedHours.Some? ==> Spaceless(spec.includedHours.value))
  }

  /** The texts of the lists in the cron text. */
  function HoursText(spec: RepeatSpec): string {
    if spec.includedHours.Some? then spec.includedHours.value else "*"
  }

  function DaysText(spec: RepeatSpec): string {
    if spec.includedDays.Some? then spec.includedDays.value else "*"
  }

  function MinuteText(i: MinChaosInterval): string
    requires i.minute.Some? || i.hour.Some?
  {
    if i.minute.Some? then "*/" + FormatInt(i.minute.value) else FormatInt(i.hour.value.minuteOfTheHour)
  }

  /** In hour mode the step is appended to the hour list. */
  function SteppedText(spec: RepeatSpec, i: MinChaosInterval): string
    requires i.minute.Some? || i.hour.Some?
  {
    if i.minute.Some? then HoursText(spec) else HoursText(spec) + ("/" + FormatInt(i.hour.value.everyNthHour))
  }

  /** What cron makes of the text built from a spec, whatever its lists. */
  lemma AcceptedPlan(spec: RepeatSpec)
    requires PlanOf(spec).cron.Some? && SpaceFree(spec)
    ensures ScheduleRepeat(spec).Some?
    ensures var (i, cron) := (spec.minChaosInterval.value, PlanOf(spec).cron.value);
            && Field(MinuteText(i), 59, false) == Some(cron.minutes)
            && Field(SteppedText(spec, i), 23, false) == Some(cron.hours)
            && Field(DaysText(spec), 6, true) == Some(cron.days)
  {
    PlanCron(spec);
    match spec.minChaosInterval.value
    case MinChaosInterval(Some(n), _) =>
      FormattedClean(n);
      ParsedFields("*/" + FormatInt(n), HoursText(spec), DaysText(spec));
    case MinChaosInterval(None, Some(h)) =>
      var step := FormatInt(h.everyNthHour);
      FormattedClean(h.minuteOfTheHour);
      FormattedClean(h.everyNthHour);
      HourText(spec, FormatInt(h.minuteOfTheHour), HoursText(spec), step, DaysText(spec));
      ParsedFields(FormatInt(h.minuteOfTheHour), HoursText(spec) + ("/" + step), DaysText(spec));
  }

  /** Whenever cron accepts the text built from a spec, in either mode, both of its lists
      can be run through the list parser without an index leaving its array. */
  lemma AcceptedSpec(spec: RepeatSpec)
    requires PlanOf(spec).cron.Some? && SpaceFree(spec)
    ensures Accepted(spec.includedDays, true) && Accepted(spec.includedHours, false)
  {
    AcceptedPlan(spec);
    HoursAccepted(spec);
  }

  lemma HoursAccepted(spec: RepeatSpec)
    requires ScheduleRepeat(spec).Some? && Field(SteppedText(spec, spec.minChaosInterval.value), 23, false).Some?
    ensures Field(HoursText(spec), 23, false).Some?
    ensures HasItem(SteppedText(spec, spec.minChaosInterval.value)) <==> HasItem(HoursText(spec))
  {
    var i := spec.minChaosInterval.value;
    if i.minute.None? {
      var step := FormatInt(i.hour.value.everyNthHour);
      FormattedClean(i.hour.value.everyNthHour);
      FieldDropsStep(HoursText(spec), step, 23);
      FieldNonempty(HoursText(spec), 23, false);
      StepIsItem(HoursText(spec), step);
    }
  }

  lemma StepIsItem(text: string, step: string)
    requires ',' !in step
    ensures HasItem(text + ("/" + step))
  {
    SplitTail(text, "/" + step, ',');
    var parts := Split(text, ',');
    var last := parts[|parts| - 1] + ("/" + step);
    assert last != "" && last in Split(text + ("/" + step), ',');
  }

  lemma PlainIsItem(text: string)
    requires text != "" && ',' !in text
    ensures HasItem(text)
  {
    SplitWhole(text, ',');
    assert text in Split(text, ',');
  }

  /** The schedule of an accepted text has ticks exactly if each list that is given has an
      item: a list of commas alone is accepted and leaves none. */
  lemma HasTicksExactly(spec: RepeatSpec)
    requires PlanOf(spec).cron.Some? && SpaceFree(spec)
    ensures PlanOf(spec).cron.value.Nonempty() <==>
            && (spec.includedHours.Some? ==> HasItem(spec.includedHours.value))
            && (spec.includedDays.Some? ==> HasItem(spec.includedDays.value))
  {
    AcceptedPlan(spec);
    HoursAccepted(spec);
    var i := spec.minChaosInterval.value;
    FieldNonempty(MinuteText(i), 59, false);
    FieldNonempty(SteppedText(spec, i), 23, false);
    FieldNonempty(DaysText(spec), 6, true);
    PlainIsItem("*");
    FormattedClean(if i.minute.Some? then i.minute.value else i.hour.value.minuteOfTheHour);
    PlainIsItem(MinuteText(i));
  }
}
