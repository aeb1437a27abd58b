/** Day and hour lists with a declared meaning, and both readers of their text: cron's
    field and the controller's own parser. */
module CalendarLists {
  import opened Text
  import opened Cron
  import opened WorkCalendar

  /** One item of a list, with the text it is written as and the values it stands for. */
  datatype Entry =
    | One(text: string, value: nat)
    | Span(from: string, low: nat, to: string, high: nat)
  {
    function Written(): string {
      match this
      case One(text, _) => text
      case Span(from, _, to, _) => from + "-" + to
    }

    function Meaning(): set<nat> {
      match this
      case One(_, value) => Steps(value, value, 1)
      case Span(_, low, _, high) => Steps(low, high, 1)
    }

    function Low(): nat { if One? then value else low }

    function High(): nat { if One? then value else high }
  }

  ghost predicate IsDayDigit(s: string, v: nat) { |s| == 1 && IsDigit(s[0]) && v == DigitValue(s[0]) <= 6 }

  ghost predicate IsDayName(s: string, v: nat) { DayNumber(ToLower(s)) == Some(v) }

  ghost predicate IsDay(s: string, v: nat) { IsDayDigit(s, v) || IsDayName(s, v) }

  ghost predicate IsHour(s: string, v: nat) { IsNumber(s) && v == Value(s) <= 23 }

  /** A day list item: single-digit numbers or names, not mixed within one range. */
  ghost predicate DayEntry(e: Entry) {
    match e
    case One(text, value) => IsDay(text, value)
    case Span(from, low, to, high) =>
      && low <= high
      && ((IsDayDigit(from, low) && IsDayDigit(to, high)) || (IsDayName(from, low) && IsDayName(to, high)))
  }

  ghost predicate HourEntry(e: Entry) {
    match e
    case One(text, value) => IsHour(text, value)
    case Span(from, low, to, high) => low <= high && IsHour(from, low) && IsHour(to, high)
  }

  ghost predicate WellWritten(e: Entry, days: bool) { if days then DayEntry(e) else HourEntry(e) }

  function Max(days: bool): nat { if days then 6 else 23 }

  // ---------------------------------------------------------------- atoms

  predicate Reserved(c: char) { c == '-' || c == '/' || c == ',' || c == '*' || c == '?' || IsSpace(c) }

  ghost predicate Clean(s: string) { forall c :: c in s ==> !Reserved(c) }

  lemma NumberAtom(s: string, named: bool)
    requires IsNumber(s) && Value(s) <= MAX_INT64
    ensures Clean(s) && Atoi(s) == Some(Value(s)) && Atom(s, named) == Some(Value(s))
  {
    assert s[0] in s;
    NumberIsNoName(s);
  }

  lemma NameAtom(s: string, v: nat)
    requires IsDayName(s, v)
    ensures |s| == 3 && v <= 6 && Clean(s) && Atom(s, true) == Some(v) && DayIndex(s) == v
  {
    var lower := ToLower(s);
    assert forall i :: 0 <= i < 3 ==> 'a' <= lower[i] <= 'z';
    forall c | c in s
      ensures !Reserved(c)
    {
      var i :| 0 <= i < 3 && s[i] == c;
      assert lower[i] == LowerChar(c);
    }
  }

  lemma AnyAtom(s: string, v: nat, days: bool)
    requires if days then IsDay(s, v) else IsHour(s, v)
    ensures s != "" && Clean(s) && Spaceless(s) && v <= Max(days) && Atom(s, days) == Some(v)
  {
    if days && IsDayName(s, v) {
      NameAtom(s, v);
    } else {
      if days {
        assert s == [s[0]] && s[..0] == "";
      }
      NumberAtom(s, days);
    }
  }

  // ---------------------------------------------------------------- items

  lemma WrittenClean(e: Entry, days: bool)
    requires WellWritten(e, days)
    ensures var s := e.Written();
            s != "" && Spaceless(s) && ',' !in s && '/' !in s && e.Low() <= e.High() <= Max(days)
    ensures e.Span? ==> Split(e.Written(), '-') == [e.from, e.to] && '-' in e.Written()
    ensures e.One? ==> Split(e.Written(), '-') == [e.text] && '-' !in e.Written()
  {
    match e
    case One(text, value) =>
      AnyAtom(text, value, days);
      SplitWhole(text, '-');
    case Span(from, low, to, high) =>
      AnyAtom(from, low, days);
      AnyAtom(to, high, days);
      assert e.Written() == from + ['-'] + to;
      SplitHead(from, '-', to);
      SplitWhole(to, '-');
  }

  /** cron reads an item as declared. */
  lemma CronReadsEnds(e: Entry, days: bool)
    requires WellWritten(e, days)
    ensures Ends(e.Written(), Max(days), days) == Some((e.Low(), e.High()))
  {
    WrittenClean(e, days);
    match e
    case One(text, value) =>
      AnyAtom(text, value, days);
      PlainEnds(e.Written(), days);
    case Span(from, low, to, high) =>
      AnyAtom(from, low, days);
      AnyAtom(to, high, days);
      PlainEnds(e.Written(), days);
  }

  lemma PlainEnds(range: string, days: bool)
    requires var ends := Split(range, '-');
             |ends| <= 2 && forall s :: s in ends ==> s != "" && Clean(s) && Atom(s, days).Some?
    ensures var ends := Split(range, '-');
            Ends(range, Max(days), days) == Some((Atom(ends[0], days).value, Atom(ends[|ends| - 1], days).value))
  {
    var first := Split(range, '-')[0];
    assert first in Split(range, '-');
    assert first[0] in first;
  }

  lemma CronReadsItem(e: Entry, days: bool)
    requires WellWritten(e, days)
    ensures Item(e.Written(), Max(days), days) == Some(e.Meaning())
  {
    WrittenClean(e, days);
    CronReadsEnds(e, days);
    SplitWhole(e.Written(), '/');
  }

  lemma NumericReadsItem(e: Entry, days: bool)
    requires match e
             case One(text, value) => IsNumber(text) && value == Value(text) <= MAX_INT64
             case Span(from, low, to, high) =>
               && IsNumber(from) && low == Value(from) <= MAX_INT64
               && IsNumber(to) && high == Value(to) <= MAX_INT64
    ensures ParseCronData(e.Written()) == Some((e.Low(), e.High()))
  {
    match e
    case One(text, _) =>
      NumberAtom(text, false);
    case Span(from, _, to, _) =>
      NumberAtom(from, false);
      NumberAtom(to, false);
      assert e.Written() == from + ['-'] + to;
      SplitHead(from, '-', to);
      SplitWhole(to, '-');
      TrimNothing(from);
      TrimNothing(to);
  }

  lemma DigitText(s: string, v: nat)
    requires IsDayDigit(s, v)
    ensures IsNumber(s) && Value(s) == v && '-' !in s
  {
    assert s == [s[0]] && s[..0] == "";
  }

  /** The controller's parser reads an item as declared. */
  lemma ParserReadsItem(e: Entry, days: bool)
    requires WellWritten(e, days)
    ensures Parse(e.Written(), days) == Some((e.Low(), e.High()))
  {
    WrittenClean(e, days);
    match e
    case One(text, value) =>
      if days && IsDayName(text, value) {
        NameAtom(text, value);
      } else {
        if days {
          DigitText(text, value);
        }
        NumericReadsItem(e, days);
      }
    case Span(from, low, to, high) =>
      if days && IsDayName(from, low) {
        NameAtom(from, low);
        NameAtom(to, high);
        TrimNothing(from);
        TrimNothing(to);
      } else {
        if days {
          DigitText(from, low);
          DigitText(to, high);
        }
        NumericReadsItem(e, days);
      }
  }

  // ---------------------------------------------------------------- lists

  function Written(es: seq<Entry>): seq<string> {
    seq(|es|, i requires 0 <= i < |es| => es[i].Written())
  }

  function ListText(es: seq<Entry>): string
    requires |es| > 0
  {
    Join(Written(es), ',')
  }

  /** What a list includes. */
  function Included(es: seq<Entry>): set<nat> {
    set e, x | e in es && x in e.Meaning() :: x
  }

  lemma IncludedParts(a: seq<Entry>, b: seq<Entry>)
    ensures Included(a + b) == Included(a) + Included(b)
  {
    assert forall e :: e in a + b <==> e in a || e in b;
  }

  lemma IncludedOne(e: Entry)
    ensures Included([e]) == e.Meaning()
  {
    assert e in [e];
  }

  ghost predicate WellFormed(es: seq<Entry>, days: bool) {
    |es| > 0 && forall e :: e in es ==> WellWritten(e, days)
  }

  lemma SplitText(es: seq<Entry>, days: bool)
    requires WellFormed(es, days)
    ensures Split(ListText(es), ',') == Written(es)
  {
    forall i | 0 <= i < |es|
      ensures ',' !in Written(es)[i]
    {
      assert es[i] in es;
      WrittenClean(es[i], days);
    }
    SplitJoin(Written(es), ',');
  }

  lemma {:induction false} CronReadsItems(es: seq<Entry>, days: bool)
    requires forall e :: e in es ==> WellWritten(e, days)
    ensures Items(Written(es), Max(days), days) == Some(Included(es))
  {
    if es != [] {
      assert Written(es)[1..] == Written(es[1..]);
      CronReadsItem(es[0], days);
      WrittenClean(es[0], days);
      CronReadsItems(es[1..], days);
      assert es == [es[0]] + es[1..];
      IncludedOne(es[0]);
      IncludedParts([es[0]], es[1..]);
    } else {
      assert Included(es) == {};
    }
  }

  lemma MarksOneMore(front: seq<string>, item: string, days: bool, marked: set<int>, low: int, high: int)
    requires Marks(front, days) == Some(marked) && Parse(item, days) == Some((low, high))
    ensures Marks(front + [item], days) == Some(marked + Range(low, high))
  {
    assert (front + [item])[..|front|] == front;
  }

  lemma {:induction false} ParserReadsItems(es: seq<Entry>, days: bool)
    requires forall e :: e in es ==> WellWritten(e, days)
    ensures Marks(Written(es), days) == Some(Included(es))
  {
    if es != [] {
      var front, e := es[..|es| - 1], es[|es| - 1];
      assert es == front + [e];
      ParserReadsItem(e, days);
      ParserReadsItems(front, days);
      MarksOneMore(Written(front), e.Written(), days, Included(front), e.Low(), e.High());
      assert Written(es) == Written(front) + [e.Written()];
      SameRange(e.Low(), e.High());
      IncludedOne(e);
      IncludedParts(front, [e]);
    } else {
      assert Included(es) == {};
    }
  }

  lemma SameRange(low: nat, high: nat)
    ensures Range(low, high) == Steps(low, high, 1)
  {
    forall x: int
      ensures x in Range(low, high) <==> x in Steps(low, high, 1)
    {
      if x >= 0 {
        assert OnStep(x, low, 1) <==> low <= x;
      }
      assert Within(x, low, high) <==> low <= x <= high;
    }
  }

  /** Both readers agree with the declared meaning of a well-written list. */
  lemma ReadersAgree(es: seq<Entry>, days: bool)
    requires WellFormed(es, days)
    ensures Field(ListText(es), Max(days), days) == Some(Included(es))
    ensures Marked(ListText(es), days) == Some(Included(es))
  {
    SplitText(es, days);
    CronReadsItems(es, days);
    ParserReadsItems(es, days);
    var e := es[0];
    WrittenClean(e, days);
    assert OnStep(e.Low(), e.Low(), 1);
    assert e.Low() in e.Meaning();
    assert e.Low() in Included(es);
  }

  // ---------------------------------------------------------------- mixed ranges

  ghost predicate Mixed(from: string, low: nat, to: string, high: nat) {
    (IsDayDigit(from, low) && IsDayName(to, high)) || (IsDayName(from, low) && IsDayDigit(to, high))
  }

  lemma CronReadsMixed(from: string, low: nat, to: string, high: nat)
    requires low <= high && Mixed(from, low, to, high)
    ensures Item(from + "-" + to, 6, true) == Some(Steps(low, high, 1))
  {
    AnyAtom(from, low, true);
    AnyAtom(to, high, true);
    var text := from + ['-'] + to;
    assert text == from + "-" + to;
    SplitHead(from, '-', to);
    SplitWhole(to, '-');
    SplitWhole(text, '/');
    assert from[0] in from;
  }

  lemma LongRange(from: string, to: string)
    requires Clean(from) && Clean(to) && |from| + |to| > 2
    ensures ParseWeekdays(from + "-" + to) == Some((DayIndex(from), DayIndex(to)))
  {
    var text := from + ['-'] + to;
    assert text == from + "-" + to && '-' in text;
    SplitHead(from, '-', to);
    SplitWhole(to, '-');
    TrimNothing(from);
    TrimNothing(to);
  }

  lemma DigitIndex(s: string, v: nat)
    requires IsDayDigit(s, v)
    ensures DayIndex(s) == 0 && Clean(s)
  {
    assert s == [s[0]];
  }

  lemma ParserReadsMixed(from: string, low: nat, to: string, high: nat)
    requires Mixed(from, low, to, high)
    ensures ParseWeekdays(from + "-" + to) == if IsDayDigit(from, low) then Some((0, high)) else Some((low, 0))
  {
    if IsDayDigit(from, low) {
      DigitIndex(from, low);
      NameAtom(to, high);
    } else {
      NameAtom(from, low);
      DigitIndex(to, high);
    }
    LongRange(from, to);
  }

  /** A range between a single-digit number and a name: the name lookup reads the number
      as Sunday, so the parser marks the declared days exactly when the number is 0. */
  lemma MixedRangeExact(from: string, low: nat, to: string, high: nat)
    requires low <= high && Mixed(from, low, to, high)
    ensures var text := from + "-" + to;
            && Item(text, 6, true) == Some(Steps(low, high, 1))
            && ParseWeekdays(text).Some?
            && (Range(ParseWeekdays(text).value.0, ParseWeekdays(text).value.1) == Steps(low, high, 1)
                <==> (if IsDayDigit(from, low) then low else high) == 0)
  {
    CronReadsMixed(from, low, to, high);
    ParserReadsMixed(from, low, to, high);
    SameRange(low, high);
    assert Within(low, low, high) && Within(high, low, high);
    assert low in Range(low, high) && high in Range(low, high);
    if IsDayDigit(from, low) {
      assert Within(0, 0, high) && 0 in Range(0, high);
      assert 0 in Range(low, high) ==> low == 0;
    } else {
      assert high in Range(low, 0) ==> high == 0;
    }
  }

  // ---------------------------------------------------------------- any item cron accepts

  lemma StepsEnds(a: nat, b: nat, from: nat, to: nat)
    requires from <= to
    ensures Range(a, b) == Steps(from, to, 1) <==> a == from && b == to
  {
    SameRange(from, to);
    assert Within(from, from, to) && Within(to, from, to);
    assert from in Range(from, to) && to in Range(from, to);
    if Range(a, b) == Range(from, to) {
      assert Within(a, a, b) && a in Range(a, b);
      assert Within(b, a, b) && b in Range(a, b);
    }
  }

  /** Of an item that cron accepts, the numeric parser makes the same, or an error. */
  lemma NumericNeverMisreads(item: string, max: nat, named: bool)
    requires Spaceless(item) && Item(item, max, named).Some? && ParseCronData(item).Some?
    ensures Item(item, max, named) == Some(Range(ParseCronData(item).value.0, ParseCronData(item).value.1))
  {
    if '/' in item {
      StepIsRefused(item, max, named);
    }
    SplitWhole(item, '/');
    SplitParts(item, '-');
    NumericEnds(item, max, named);
    SameRange(ParseCronData(item).value.0, ParseCronData(item).value.1);
  }

  lemma NumericEnds(item: string, max: nat, named: bool)
    requires Spaceless(item) && Ends(item, max, named).Some? && ParseCronData(item).Some?
    ensures Ends(item, max, named) == ParseCronData(item)
  {
    var parts := Split(item, '-');
    SplitParts(item, '-');
    TrimNothing(parts[0]);
    AtomOfNumber(parts[0], named);
    if '-' in item {
      TrimNothing(parts[1]);
      AtomOfNumber(parts[1], named);
    }
  }

  /** An hour list that cron accepts is an error to the list parser, or marks the hours that
      cron reads. */
  lemma HoursNeverMisread(text: string)
    requires Spaceless(text) && Field(text, 23, false).Some? && Marked(text, false).Some?
    ensures Marked(text, false) == Some(Field(text, 23, false).value)
  {
    SplitParts(text, ',');
    MarksAsItems(Split(text, ','), 23);
  }

  lemma {:induction false} MarksAsItems(items: seq<string>, max: nat)
    requires forall item :: item in items ==> Spaceless(item)
    requires Items(items, max, false).Some? && Marks(items, false).Some?
    ensures Marks(items, false) == Some(Items(items, max, false).value)
  {
    if items != [] {
      var front, item := items[..|items| - 1], items[|items| - 1];
      assert items == front + [item] && item in items;
      EveryItem(items, max, false, item);
      NumericNeverMisreads(item, max, false);
      ItemsFront(front, item, max, false);
      MarksAsItems(front, max);
    }
  }

  lemma {:induction false} ItemsFront(front: seq<string>, item: string, max: nat, named: bool)
    requires Items(front + [item], max, named).Some? && item != ""
    ensures Items(front, max, named).Some? && Item(item, max, named).Some?
    ensures Items(front + [item], max, named).value == Items(front, max, named).value + Item(item, max, named).value
  {
    var all := front + [item];
    if front == [] {
      assert all[1..] == [];
      assert Item(item, max, named).value + {} == {} + Item(item, max, named).value;
    } else {
      assert all[1..] == front[1..] + [item] && all[0] == front[0];
      ItemsFront(front[1..], item, max, named);
      var head := if front[0] == "" then {} else Item(front[0], max, named).value;
      assert head + (Items(front[1..], max, named).value + Item(item, max, named).value)
          == head + Items(front[1..], max, named).value + Item(item, max, named).value;
    }
  }

  /** Short enough that the day parser tries it as numbers. */
  predicate Short(item: string) { |item| <= 1 || ('-' in item && |item| <= 3) }

  /** The day names a longer item is taken to hold, whatever it holds. */
  function NamesIn(item: string): (string, string) {
    var parts := Split(item, '-');
    if |parts| > 1 then (parts[0], parts[1]) else (item, item)
  }

  /** When the days from one name to another are the ones cron reads. An item of more than
      two parts is one whose first part is `*` or `?`, to cron all days whatever follows. */
  ghost predicate NamesAgree(item: string, from: nat, to: nat, s: set<nat>) {
    if |Split(item, '-')| <= 2 then s == {0} || ('/' !in item && Ends(item, 6, true) == Some((from, to)))
    else (to == 6 && s == Steps(0, 6, 1)) || (to == 0 && s == {0})
  }

  /** What the day parser makes of any item cron accepts. A short one it reads as cron does,
      or not at all. A longer one it reads by its day names alone, any other text standing
      for Sunday: right exactly if cron reads it as Sunday too, or it has no step and its
      ends are those names. */
  lemma DayItemExact(item: string)
    requires Spaceless(item) && Item(item, 6, true).Some?
    ensures var s := Item(item, 6, true).value;
            var (from, to) := (DayIndex(NamesIn(item).0), DayIndex(NamesIn(item).1));
            if Short(item) then
              ParseWeekdays(item).Some? ==> Range(ParseWeekdays(item).value.0, ParseWeekdays(item).value.1) == s
            else
              && ParseWeekdays(item) == Some((from, to))
              && (Range(from, to) == s <==> NamesAgree(item, from, to, s))
  {
    SplitParts(item, '-');
    if Short(item) {
      if ParseWeekdays(item).Some? {
        NumericNeverMisreads(item, 6, true);
      }
    } else {
      TrimNothing(NamesIn(item).0);
      TrimNothing(NamesIn(item).1);
      if |Split(item, '-')| > 2 {
        StarredDayItem(item);
      } else if '/' in item {
        SteppedDayItem(item);
      } else {
        PlainDayItem(item);
      }
    }
  }

  lemma SlashIsNoName(s: string)
    requires '/' in s
    ensures DayNumber(ToLower(s)).None?
  {
    var i :| 0 <= i < |s| && s[i] == '/';
    assert ToLower(s)[i] == '/';
  }

  lemma StepOfItem(item: string)
    requires Item(item, 6, true).Some? && |Split(item, '/')| > 1
    ensures var parts := Split(item, '/');
            |parts| == 2 && Ends(parts[0], 6, true).Some? && '-' !in parts[1]
  {
    AtoiShape(Split(item, '/')[1]);
  }

  lemma PairJoined(s: string, sep: char)
    requires |Split(s, sep)| == 2
    ensures s == Split(s, sep)[0] + ([sep] + Split(s, sep)[1])
  {
    JoinSplit(s, sep);
    assert Split(s, sep)[1..] == [Split(s, sep)[1]];
  }

  /** A step after a range of at most two ends joins the last of them. */
  lemma StepJoinsEnd(range: string, step: string)
    requires '-' !in step && |Split(range + (['/'] + step), '-')| <= 2
    ensures var item := range + (['/'] + step);
            && '/' in NamesIn(item).1
            && NamesIn(item).0 == if '-' in item then Split(range, '-')[0] else item
  {
    var item, ends := range + (['/'] + step), Split(range, '-');
    SplitParts(item, '-');
    SplitTail(range, ['/'] + step, '-');
    assert '/' in ends[|ends| - 1] + (['/'] + step);
  }

  lemma SteppedShape(item: string)
    requires Item(item, 6, true).Some? && |Split(item, '-')| <= 2 && '/' in item
    ensures '/' in NamesIn(item).1
    ensures var range := Split(item, '/')[0];
            Ends(range, 6, true).Some? && NamesIn(item).0 == if '-' in item then Split(range, '-')[0] else item
  {
    SplitParts(item, '/');
    StepOfItem(item);
    PairJoined(item, '/');
    StepJoinsEnd(Split(item, '/')[0], Split(item, '/')[1]);
  }

  lemma FirstName(range: string)
    requires Ends(range, 6, true).Some?
    ensures Ends(range, 6, true).value.0 == 0 ==> DayIndex(Split(range, '-')[0]) == 0
  {
  }

  lemma SteppedLow(item: string)
    requires Item(item, 6, true).Some? && '/' in item && Ends(Split(item, '/')[0], 6, true).Some?
    ensures Ends(Split(item, '/')[0], 6, true).value.0 in Item(item, 6, true).value
  {
    var low := Ends(Split(item, '/')[0], 6, true).value.0;
    SplitParts(item, '/');
    assert OnStep(low, low, Atoi(Split(item, '/')[1]).value);
  }

  lemma UpToSunday(from: nat)
    ensures Range(from, 0) == if from == 0 then {0} else {}
  {
    assert from == 0 ==> Within(0, from, 0);
  }

  /** A step makes the last end unreadable, and so Sunday. */
  lemma SteppedDayItem(item: string)
    requires Item(item, 6, true).Some? && |Split(item, '-')| <= 2 && '/' in item
    ensures var (from, to) := (DayIndex(NamesIn(item).0), DayIndex(NamesIn(item).1));
            to == 0 && (Range(from, to) == Item(item, 6, true).value <==> Item(item, 6, true).value == {0})
  {
    SteppedShape(item);
    SlashIsNoName(NamesIn(item).1);
    if '-' !in item {
      SlashIsNoName(item);
    }
    FirstName(Split(item, '/')[0]);
    SteppedLow(item);
    UpToSunday(DayIndex(NamesIn(item).0));
  }

  /** cron reads an item of more than two parts as all days, by its step. */
  lemma StarredShape(item: string) returns (n: nat)
    requires Item(item, 6, true).Some? && |Split(item, '-')| > 2
    ensures n > 0 && Item(item, 6, true) == Some(Steps(0, 6, n))
    ensures DayIndex(NamesIn(item).0) == 0
  {
    SplitParts(item, '/');
    if '/' in item {
      StepOfItem(item);
      PairJoined(item, '/');
      var range, step := Split(item, '/')[0], Split(item, '/')[1];
      SplitTail(range, ['/'] + step, '-');
      n := Atoi(step).value;
    } else {
      n := 1;
    }
  }

  lemma AllDaysBy(n: nat, to: nat)
    requires n > 0 && to <= 6
    ensures Range(0, to) == Steps(0, 6, n) <==>
            (to == 6 && Steps(0, 6, n) == Steps(0, 6, 1)) || (to == 0 && Steps(0, 6, n) == {0})
  {
    if to == 6 {
      SameRange(0, 6);
    } else if to == 0 {
      UpToSunday(0);
    } else {
      NeitherAllNorOne(n, to);
    }
  }

  lemma NeitherAllNorOne(n: nat, to: nat)
    requires n > 0 && 0 < to < 6
    ensures Range(0, to) != Steps(0, 6, n)
  {
    assert Within(1, 0, to) && 1 in Range(0, to) && 6 !in Range(0, to);
    if n == 1 {
      assert OnStep(6, 0, n) && 6 in Steps(0, 6, n);
    } else {
      assert 1 % n == 1;
      assert !OnStep(1, 0, n) && 1 !in Steps(0, 6, n);
    }
  }

  lemma StarredDayItem(item: string)
    requires Item(item, 6, true).Some? && |Split(item, '-')| > 2
    ensures var to := DayIndex(NamesIn(item).1);
            && DayIndex(NamesIn(item).0) == 0
            && (Range(0, to) == Item(item, 6, true).value <==> NamesAgree(item, 0, to, Item(item, 6, true).value))
  {
    var n := StarredShape(item);
    AllDaysBy(n, DayIndex(NamesIn(item).1));
  }

  lemma PlainDayItem(item: string)
    requires Item(item, 6, true).Some? && |Split(item, '-')| <= 2 && '/' !in item && !Short(item)
    ensures var s := Item(item, 6, true).value;
            var (from, to) := (DayIndex(NamesIn(item).0), DayIndex(NamesIn(item).1));
            Range(from, to) == s <==> s == {0} || Ends(item, 6, true) == Some((from, to))
  {
    SplitWhole(item, '/');
    SplitParts(item, '-');
    var (low, high) := Ends(item, 6, true).value;
    StepsEnds(DayIndex(NamesIn(item).0), DayIndex(NamesIn(item).1), low, high);
    StepsEnds(0, 0, low, high);
    StepsEnds(0, 0, 0, 0);
    assert Range(0, 0) == {0};
  }

  /** The number one with a leading zero, every other day, and every other working day:
      cron accepts all three, and the day parser takes each for Sunday. */
  lemma TakenForSunday()
    ensures Item("01", 6, true) == Some({1}) && ParseWeekdays("01") == Some((0, 0))
    ensures Item("*/2", 6, true) == Some({0, 2, 4, 6}) && ParseWeekdays("*/2") == Some((0, 0))
    ensures Item("1-5/2", 6, true) == Some({1, 3, 5}) && ParseWeekdays("1-5/2") == Some((0, 0))
  {
    LeadingZero();
    OddAndEven();
    EveryOtherDay();
    EveryOtherWorkingDay();
  }

  lemma LeadingZero()
    ensures Item("01", 6, true) == Some({1}) && ParseWeekdays("01") == Some((0, 0))
  {
    var s := "01";
    SplitWhole(s, '/');
    SplitWhole(s, '-');
    assert s[..1] == "0" && "0"[..0] == "";
    assert Atoi(s) == Some(1);
    AtomOfNumber(s, true);
    assert Steps(1, 1, 1) == {1} by {
      assert OnStep(1, 1, 1);
    }
  }

  lemma EveryOtherDay()
    ensures Item("*/2", 6, true) == Some(Steps(0, 6, 2)) && ParseWeekdays("*/2") == Some((0, 0))
  {
    Digit("2", 2);
    assert "*/2" == "*" + ['/'] + "2";
    TwoParts("*", '/', "2");
    SplitWhole("*", '-');
    SlashIsNoName("*/2");
  }

  lemma EveryOtherWorkingDay()
    ensures Item("1-5/2", 6, true) == Some(Steps(1, 5, 2)) && ParseWeekdays("1-5/2") == Some((0, 0))
  {
    SteppedDigits("1", 1, "5", 5, "2", 2);
    StepTaken("1", 1, "5", "2");
    assert "1-5/2" == "1" + ['-'] + "5" + ['/'] + "2" == "1" + ['-'] + ("5" + ['/'] + "2");
  }

  lemma SteppedDigits(from: string, low: nat, to: string, high: nat, step: string, n: nat)
    requires IsDayDigit(from, low) && IsDayDigit(to, high) && IsDayDigit(step, n) && low <= high && n > 0
    ensures Item(from + ['-'] + to + ['/'] + step, 6, true) == Some(Steps(low, high, n))
  {
    Digit(from, low);
    Digit(to, high);
    Digit(step, n);
    TwoParts(from + ['-'] + to, '/', step);
    TwoParts(from, '-', to);
  }

  lemma StepTaken(from: string, low: nat, to: string, step: string)
    requires IsDayDigit(from, low) && |to| == 1 && to[0] != '-' && Spaceless(to) && Spaceless(step) && '-' !in step
    ensures ParseWeekdays(from + ['-'] + (to + ['/'] + step)) == Some((0, 0))
  {
    var rest := to + ['/'] + step;
    DigitIndex(from, low);
    DigitText(from, low);
    assert rest[1] == '/' && '-' !in rest;
    TwoParts(from, '-', rest);
    TrimNothing(from);
    TrimNothing(rest);
    SlashIsNoName(rest);
  }

  /** Of a range of day names with a step the last end is taken for Sunday, so that unless the
      first is Sunday too no day is marked. */
  lemma SteppedNames(from: string, low: nat, to: string, high: nat, step: string, n: nat)
    requires IsDayName(from, low) && IsDayName(to, high) && IsDayDigit(step, n) && low <= high && n > 0
    ensures var item := from + ['-'] + (to + ['/'] + step);
            && Item(item, 6, true) == Some(Steps(low, high, n))
            && Marked(item, true) == Some(if low == 0 then {0} else {})
  {
    NamesWithStep(from, low, to, high, step, n);
    NameThenStep(to, high, step, n);
    StepOfNames(from, low, to + ['/'] + step);
    OneItemMarks(from + ['-'] + (to + ['/'] + step), low, 0);
    UpToSunday(low);
  }

  lemma NameThenStep(to: string, high: nat, step: string, n: nat)
    requires IsDayName(to, high) && IsDayDigit(step, n)
    ensures var rest := to + ['/'] + step;
            '/' in rest && '-' !in rest && ',' !in rest && Spaceless(rest)
  {
    NameAtom(to, high);
  }

  lemma OneItemMarks(item: string, low: int, high: int)
    requires ',' !in item && ParseWeekdays(item) == Some((low, high))
    ensures Marked(item, true) == Some(Range(low, high))
  {
    SplitWhole(item, ',');
    MarksOneMore([], item, true, {}, low, high);
    assert [] + [item] == [item];
    assert {} + Range(low, high) == Range(low, high);
  }

  lemma NamesWithStep(from: string, low: nat, to: string, high: nat, step: string, n: nat)
    requires IsDayName(from, low) && IsDayName(to, high) && IsDayDigit(step, n) && low <= high && n > 0
    ensures Item(from + ['-'] + (to + ['/'] + step), 6, true) == Some(Steps(low, high, n))
  {
    NameAtom(from, low);
    NameAtom(to, high);
    Digit(step, n);
    assert from + ['-'] + (to + ['/'] + step) == from + ['-'] + to + ['/'] + step;
    TwoParts(from + ['-'] + to, '/', step);
    TwoParts(from, '-', to);
    assert from[0] in from;
  }

  lemma StepOfNames(from: string, low: nat, rest: string)
    requires IsDayName(from, low) && '/' in rest && '-' !in rest && Spaceless(rest)
    ensures ParseWeekdays(from + ['-'] + rest) == Some((low, 0)) && ',' !in from
  {
    NameAtom(from, low);
    TwoParts(from, '-', rest);
    TrimNothing(from);
    TrimNothing(rest);
    SlashIsNoName(rest);
  }

  /** Every other working day by name: to cron Monday, Wednesday and Friday, to the list
      parser no day at all. */
  lemma TakenForNoDay()
    ensures Item("Mon-Fri/2", 6, true) == Some({1, 3, 5}) && Marked("Mon-Fri/2", true) == Some({})
  {
    assert ToLower("Mon") == "mon" && ToLower("Fri") == "fri";
    SteppedNames("Mon", 1, "Fri", 5, "2", 2);
    OddAndEven();
    assert "Mon-Fri/2" == "Mon" + ['-'] + ("Fri" + ['/'] + "2");
  }

  lemma Digit(s: string, v: nat)
    requires IsDayDigit(s, v)
    ensures Atoi(s) == Some(v) && Atom(s, true) == Some(v)
  {
    DigitText(s, v);
    NumberAtom(s, true);
  }

  lemma TwoParts(a: string, sep: char, b: string)
    requires sep !in a && sep !in b
    ensures Split(a + [sep] + b, sep) == [a, b]
  {
    SplitHead(a, sep, b);
    SplitWhole(b, sep);
  }

  lemma OddAndEven()
    ensures Steps(0, 6, 2) == {0, 2, 4, 6} && Steps(1, 5, 2) == {1, 3, 5}
  {
    forall x: nat
      ensures x in Steps(0, 6, 2) <==> x in {0, 2, 4, 6}
      ensures x in Steps(1, 5, 2) <==> x in {1, 3, 5}
    {
      assert OnStep(x, 0, 2) <==> x % 2 == 0;
      assert OnStep(x, 1, 2) <==> x >= 1 && (x - 1) % 2 == 0;
    }
  }

  // ---------------------------------------------------------------- printing a set

  /** The members of a set, in increasing order, as plain numbers. */
  function Numbers(s: set<nat>, bound: nat): seq<Entry> {
    if bound == 0 then []
    else
      var x := bound - 1;
      Numbers(s, x) + (if x in s then [One(Decimal(x), x)] else [])
  }

  lemma {:induction false} NumbersMeaning(s: set<nat>, bound: nat, days: bool)
    requires bound <= Max(days) + 1
    ensures forall e :: e in Numbers(s, bound) ==> WellWritten(e, days)
    ensures forall x :: x in Included(Numbers(s, bound)) <==> x in s && x < bound
  {
    if bound > 0 {
      var x := bound - 1;
      var e := One(Decimal(x), x);
      NumbersMeaning(s, x, days);
      IncludedParts(Numbers(s, x), if x in s then [e] else []);
      IncludedOne(e);
      assert forall y :: y in e.Meaning() <==> y == x by {
        assert OnStep(x, x, 1);
      }
      assert Included([]) == {};
      assert x in s ==> WellWritten(e, days) by {
        OneDigit(x);
      }
    }
  }

  lemma OneDigit(x: nat)
    ensures x < 10 ==> |Decimal(x)| == 1 && DigitValue(Decimal(x)[0]) == x
  {
  }

  /** Printing any nonempty day or hour set and reading it back gives the set. */
  lemma PrintParse(s: set<nat>, days: bool)
    requires s != {} && forall x :: x in s ==> x <= Max(days)
    ensures var es := Numbers(s, Max(days) + 1);
            && |es| > 0
            && Marked(ListText(es), days) == Some(s)
            && Field(ListText(es), Max(days), days) == Some(s)
  {
    var es := Numbers(s, Max(days) + 1);
    NumbersMeaning(s, Max(days) + 1, days);
    var x :| x in s;
    assert x in Included(es);
    assert Included(es) == s;
    ReadersAgree(es, days);
  }
}
