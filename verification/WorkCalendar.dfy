/** The controller's own reading of the included-days and included-hours lists, set
    against cron's reading of the same text. */
module WorkCalendar {
  import opened Text
  import opened Cron

  // ---------------------------------------------------------------- the parser

  predicate Within(i: int, low: int, high: int) { low <= i <= high }

  function Range(low: int, high: int): set<int> {
    set i: int | low <= i <= high && Within(i, low, high)
  }

  /** The lookup in the WeekDays table; a missing key reads as 0. */
  function DayIndex(name: string): (d: int)
    ensures 0 <= d <= 6
  {
    match DayNumber(ToLower(name))
    case Some(d) => d
    case None => 0
  }

  function ParseCronData(data: string): Option<(int, int)> {
    var parts := Split(data, '-');
    if '-' in data && |parts| < 2 then None
    else
      var start := if '-' in data then TrimSpace(parts[0]) else data;
      var end := if '-' in data then TrimSpace(parts[1]) else data;
      match (Atoi(start), Atoi(end))
      case (Some(a), Some(b)) => Some((a, b))
      case _ => None
  }

  function ParseWeekdays(data: string): Option<(int, int)> {
    if '-' in data then
      if |data| <= 3 then ParseCronData(data)
      else
        var parts := Split(data, '-');
        if |parts| < 2 then None
        else Some((DayIndex(TrimSpace(parts[0])), DayIndex(TrimSpace(parts[1]))))
    else if |data| <= 1 then ParseCronData(data)
    else Some((DayIndex(data), DayIndex(data)))
  }

  function Parse(data: string, days: bool): Option<(int, int)> {
    if days then ParseWeekdays(data) else ParseCronData(data)
  }

  /** The indices a list of items marks; None when an item does not parse. */
  function Marks(items: seq<string>, days: bool): Option<set<int>> {
    if items == [] then Some({})
    else
      var last := |items| - 1;
      match (Marks(items[..last], days), Parse(items[last], days))
      case (Some(marked), Some((low, high))) => Some(marked + Range(low, high))
      case _ => None
  }

  /** The days (or hours) a list marks, for a whole list text. */
  function Marked(text: string, days: bool): Option<set<int>> { Marks(Split(text, ','), days) }

  // ---------------------------------------------------------------- no index out of range

  ghost predicate InBounds(item: string, days: bool, max: nat) {
    match Parse(item, days)
    case Some((low, high)) => low <= high ==> 0 <= low && high <= max
    case None => true
  }

  lemma NumberIsNoName(s: string)
    requires Atoi(s).Some?
    ensures DayNumber(ToLower(s)).None?
  {
    if |s| == 3 {
      assert IsDigit(s[1]) by {
        AtoiShape(s);
      }
      assert ToLower(s)[1] == s[1];
    }
  }

  lemma AtomOfNumber(s: string, named: bool)
    requires Atoi(s).Some?
    ensures Atom(s, named) == if Atoi(s).value < 0 then None else Some(Atoi(s).value)
    ensures s != "*" && s != "?"
  {
    NumberIsNoName(s);
    AtoiShape(s);
  }

  /** An item cron accepts with a step in it is one the numeric parser refuses. */
  lemma StepIsRefused(item: string, max: nat, named: bool)
    requires Spaceless(item) && '/' in item && Item(item, max, named).Some?
    ensures ParseCronData(item).None?
  {
    var steps := Split(item, '/');
    SplitParts(item, '/');
    JoinSplit(item, '/');
    assert item == steps[0] + "/" + steps[1];
    AtoiShape(steps[1]);
    var parts := Split(item, '-');
    SplitParts(item, '-');
    if '-' in item {
      var ends := Split(steps[0], '-');
      SplitParts(steps[0], '-');
      assert item == steps[0] + ("/" + steps[1]);
      SplitTail(steps[0], "/" + steps[1], '-');
      TrimNothing(parts[0]);
      TrimNothing(parts[1]);
      if Atoi(parts[0]).Some? {
        AtoiShape(parts[0]);
        assert parts[0] == ends[0];
        assert '/' in parts[1];
        if Atoi(parts[1]).Some? {
          AtoiShape(parts[1]);
        }
      }
    } else if Atoi(item).Some? {
      AtoiShape(item);
    }
  }

  lemma NumericInBounds(item: string, max: nat, named: bool)
    requires Spaceless(item) && Item(item, max, named).Some?
    ensures InBounds(item, false, max)
  {
    if '/' in item {
      StepIsRefused(item, max, named);
    } else if ParseCronData(item).Some? {
      SplitWhole(item, '/');
      var parts := Split(item, '-');
      SplitParts(item, '-');
      TrimNothing(parts[0]);
      AtomOfNumber(parts[0], named);
      if '-' in item {
        TrimNothing(parts[1]);
        AtomOfNumber(parts[1], named);
      }
    }
  }

  /** Whatever text cron accepts, the array index never leaves the field. */
  lemma AcceptedInBounds(text: string, days: bool)
    requires Spaceless(text) && Field(text, if days then 6 else 23, days).Some?
    ensures forall item :: item in Split(text, ',') ==> InBounds(item, days, if days then 6 else 23)
  {
    var max := if days then 6 else 23;
    SplitParts(text, ',');
    forall item | item in Split(text, ',')
      ensures InBounds(item, days, max)
    {
      if item == "" {
        assert Parse(item, days).None?;
      } else {
        EveryItem(Split(text, ','), max, days, item);
        NumericInBounds(item, max, days);
      }
    }
  }

  lemma {:induction false} EveryItem(parts: seq<string>, max: nat, named: bool, item: string)
    requires Items(parts, max, named).Some? && item in parts && item != ""
    ensures Item(item, max, named).Some?
    ensures Item(item, max, named).value <= Items(parts, max, named).value
  {
    if item != parts[0] {
      EveryItem(parts[1..], max, named, item);
    }
  }

  // ---------------------------------------------------------------- the array

  /** isWeekdayPossible and isHoursPossible: mark the listed indices in a fixed array,
      then look one up. None stands for a parse error. */
  method IsListed(text: string, days: bool, index: nat) returns (r: Option<bool>)
    requires Spaceless(text) && Field(text, if days then 6 else 23, days).Some?
    requires index <= if days then 6 else 23
    ensures r == match Marked(text, days)
                 case Some(marked) => Some(index in marked)
                 case None => None
  {
    AcceptedInBounds(text, days);
    r := MarkAndLookUp(Split(text, ','), days, if days then 6 else 23, index);
  }

  method MarkAndLookUp(items: seq<string>, days: bool, max: nat, index: nat) returns (r: Option<bool>)
    requires forall item :: item in items ==> InBounds(item, days, max)
    requires index <= max
    ensures r == match Marks(items, days)
                 case Some(marked) => Some(index in marked)
                 case None => None
  {
    var marked := new int[max + 1](_ => 0);
    for k := 0 to |items|
      invariant Marks(items[..k], days).Some?
      invariant Shows(marked[..], Marks(items[..k], days).value)
    {
      assert items[..k + 1][..k] == items[..k];
      assert items[k] in items;
      match Parse(items[k], days)
      case None =>
        MarksPrefix(items, k + 1, days);
        return None;
      case Some((low, high)) =>
        MarkRange(marked, low, high);
    }
    assert items[..|items|] == items;
    return Some(marked[index] == 1);
  }

  method MarkRange(marked: array<int>, low: int, high: int)
    requires low <= high ==> 0 <= low && high < marked.Length
    modifies marked
    ensures forall i :: 0 <= i < marked.Length ==>
              marked[i] == if i in Range(low, high) then 1 else old(marked[i])
  {
    var i := low;
    while i <= high
      invariant low <= i && (i == low || i <= high + 1)
      invariant forall k :: 0 <= k < marked.Length ==>
                  marked[k] == if low <= k < i then 1 else old(marked[k])
    {
      marked[i] := 1;
      i := i + 1;
    }
    assert forall k :: k in Range(low, high) <==> Within(k, low, high);
  }

  ghost predicate Shows(cells: seq<int>, marked: set<int>) {
    forall i :: 0 <= i < |cells| ==> (cells[i] == 1 <==> i in marked)
  }

  lemma {:induction false} MarksPrefix(items: seq<string>, k: nat, days: bool)
    requires k <= |items| && Marks(items[..k], days).None?
    ensures Marks(items, days).None?
  {
    if k == |items| {
      assert items[..k] == items;
    } else {
      var last := |items| - 1;
      assert items[..last][..k] == items[..k];
      MarksPrefix(items[..last], k, days);
    }
  }
}
