/** The day-by-day cash forecast: running balance, lowest point, crunch days. Amounts in cents. */
module Forecast {
  import opened Calendar

  datatype Event = Event(date: Date, amount: int)

  /** One row of the table. */
  datatype Day = Day(opening: int, closing: int, inflows: int, outflows: int, events: seq<Event>, crunch: bool)

  /** Days are counted from today; lowestDay is a day number. */
  datatype Report = Report(days: seq<Day>, lowest: int, lowestDay: int, crunchDays: seq<int>, netFlow: int)

  predicate Dated(events: seq<Event>) {
    forall k :: 0 <= k < |events| ==> Valid(events[k].date)
  }

  function Total(events: seq<Event>): int {
    if events == [] then 0 else Total(events[..|events| - 1]) + events[|events| - 1].amount
  }

  function TotalIn(events: seq<Event>): int {
    if events == [] then 0
    else TotalIn(events[..|events| - 1]) + if events[|events| - 1].amount >= 0 then events[|events| - 1].amount else 0
  }

  /** The events of one day, in the order they were collected. */
  function On(events: seq<Event>, day: int): (r: seq<Event>)
    requires Dated(events)
    ensures forall e :: e in r ==> e in events && Valid(e.date) && Ordinal(e.date) == day
  {
    if events == [] then []
    else
      var last := events[|events| - 1];
      On(events[..|events| - 1], day) + if Ordinal(last.date) == day then [last] else []
  }

  /** Everything dated from day a to day b. */
  function Between(events: seq<Event>, a: int, b: int): int
    requires Dated(events)
  {
    if events == [] then 0
    else
      var last := events[|events| - 1];
      Between(events[..|events| - 1], a, b) + if a <= Ordinal(last.date) <= b then last.amount else 0
  }

  lemma {:induction false} OneMoreDay(events: seq<Event>, a: int, b: int)
    requires Dated(events) && a <= b + 1
    ensures Between(events, a, b + 1) == Between(events, a, b) + Total(On(events, b + 1))
  {
    hide Ordinal;
    if events != [] {
      var rest, last := events[..|events| - 1], events[|events| - 1];
      OneMoreDay(rest, a, b);
      if Ordinal(last.date) == b + 1 {
        assert (On(rest, b + 1) + [last])[..|On(rest, b + 1)|] == On(rest, b + 1);
      } else {
        assert On(rest, b + 1) + [] == On(rest, b + 1);
      }
    }
  }

  lemma {:induction false} EmptyWindow(events: seq<Event>, a: int)
    requires Dated(events)
    ensures Between(events, a, a - 1) == 0
  {
    if events != [] {
      EmptyWindow(events[..|events| - 1], a);
    }
  }

  lemma {:induction false} AllInside(events: seq<Event>, a: int, b: int)
    requires Dated(events) && forall k :: 0 <= k < |events| ==> a <= Ordinal(events[k].date) <= b
    ensures Between(events, a, b) == Total(events)
  {
    hide Ordinal;
    if events != [] {
      AllInside(events[..|events| - 1], a, b);
    }
  }

  /** Events keyed by date. */
  method GroupByDay(events: seq<Event>) returns (byDay: map<int, seq<Event>>)
    requires Dated(events)
    ensures forall day :: (if day in byDay then byDay[day] else []) == On(events, day)
  {
    hide Ordinal;
    byDay := map[];
    for i := 0 to |events|
      invariant forall day :: (if day in byDay then byDay[day] else []) == On(events[..i], day)
    {
      assert events[..i + 1][..i] == events[..i];
      var day := Ordinal(events[i].date);
      byDay := byDay[day := (if day in byDay then byDay[day] else []) + [events[i]]];
    }
    assert events[..|events|] == events;
  }

  method Flows(events: seq<Event>) returns (inflows: int, outflows: int)
    ensures inflows == TotalIn(events) && inflows + outflows == Total(events)
  {
    inflows, outflows := 0, 0;
    for i := 0 to |events|
      invariant inflows == TotalIn(events[..i]) && inflows + outflows == Total(events[..i])
    {
      assert events[..i + 1][..i] == events[..i];
      if events[i].amount >= 0 {
        inflows := inflows + events[i].amount;
      } else {
        outflows := outflows + events[i].amount;
      }
    }
    assert events[..|events|] == events;
  }

  /** Opening plus everything dated up to day i of the window; day -1 is the opening itself. */
  function BalanceAt(events: seq<Event>, today: Date, opening: int, i: int): int
    requires Dated(events) && Valid(today)
  {
    opening + Between(events, Ordinal(today), Ordinal(today) + i)
  }

  ghost predicate RowOk(events: seq<Event>, today: Date, opening: int, threshold: int, i: nat, row: Day)
    requires Dated(events) && Valid(today)
  {
    && row.opening == BalanceAt(events, today, opening, i - 1)
    && row.closing == BalanceAt(events, today, opening, i)
    && row.events == On(events, Ordinal(today) + i)
    && row.inflows == TotalIn(row.events) && row.inflows + row.outflows == Total(row.events)
    && (row.crunch <==> row.closing < threshold)
  }

  /** The lowest of the opening and the first n closings, at the first day it is reached. */
  ghost predicate LowestOk(days: seq<Day>, opening: int, lowest: int, at: int) {
    && lowest <= opening
    && (forall i :: 0 <= i < |days| ==> lowest <= days[i].closing)
    && (lowest == opening ==> at == 0)
    && (lowest < opening ==>
         && 0 <= at < |days| && days[at].closing == lowest
         && forall i :: 0 <= i < at ==> lowest < days[i].closing)
  }

  /** The crunch days, in order: exactly the rows below the threshold. */
  function CrunchOf(days: seq<Day>): seq<int> {
    if days == [] then []
    else CrunchOf(days[..|days| - 1]) + if days[|days| - 1].crunch then [|days| - 1] else []
  }

  /** The table and its summary. */
  method Generate(events: seq<Event>, today: Date, horizon: nat, opening: int, threshold: int) returns (r: Report)
    requires Dated(events) && Valid(today)
    ensures |r.days| == horizon
    ensures forall i :: 0 <= i < horizon ==> RowOk(events, today, opening, threshold, i, r.days[i])
    ensures LowestOk(r.days, opening, r.lowest, r.lowestDay)
    ensures r.crunchDays == CrunchOf(r.days)
    ensures r.netFlow == Total(events)
  {
    hide Ordinal, On, Total, TotalIn, BalanceAt, RowOk, LowestOk, CrunchOf;
    var byDay := GroupByDay(events);
    var days: seq<Day>, balance, lowest, lowestDay, crunchDays: seq<int> := [], opening, opening, 0, [];
    NoDaysYet(events, today, opening);
    for i := 0 to horizon
      invariant |days| == i && balance == BalanceAt(events, today, opening, i - 1)
      invariant forall k :: 0 <= k < i ==> RowOk(events, today, opening, threshold, k, days[k])
      invariant LowestOk(days, opening, lowest, lowestDay)
      invariant crunchDays == CrunchOf(days)
    {
      var d := Ordinal(today) + i;
      var todays := if d in byDay then byDay[d] else [];
      var inflows, outflows := Flows(todays);
      var before := balance;
      balance := balance + inflows + outflows;
      var crunch := balance < threshold;
      var row := Day(before, balance, inflows, outflows, todays, crunch);
      RowMade(events, today, opening, threshold, i, row);
      LowestStep(days, opening, lowest, lowestDay, row);
      CrunchStep(days, row);
      if crunch {
        crunchDays := crunchDays + [i];
      }
      if balance < lowest {
        lowest := balance;
        lowestDay := i;
      }
      days := days + [row];
    }
    var all, out := Flows(events);
    r := Report(days, lowest, lowestDay, crunchDays, all + out);
  }

  lemma NoDaysYet(events: seq<Event>, today: Date, opening: int)
    requires Dated(events) && Valid(today)
    ensures BalanceAt(events, today, opening, -1) == opening && LowestOk([], opening, opening, 0) && CrunchOf([]) == []
  {
    EmptyWindow(events, Ordinal(today));
  }

  lemma RowMade(events: seq<Event>, today: Date, opening: int, threshold: int, i: nat, row: Day)
    requires Dated(events) && Valid(today)
    requires row.opening == BalanceAt(events, today, opening, i - 1)
    requires row.events == On(events, Ordinal(today) + i)
    requires row.inflows == TotalIn(row.events) && row.inflows + row.outflows == Total(row.events)
    requires row.closing == row.opening + row.inflows + row.outflows && row.crunch == (row.closing < threshold)
    ensures RowOk(events, today, opening, threshold, i, row) && row.closing == BalanceAt(events, today, opening, i)
  {
    hide Ordinal, Total, TotalIn, On, Between;
    OneMoreDay(events, Ordinal(today), Ordinal(today) + i - 1);
  }

  lemma LowestStep(days: seq<Day>, opening: int, lowest: int, at: int, row: Day)
    requires LowestOk(days, opening, lowest, at)
    ensures LowestOk(days + [row], opening, if row.closing < lowest then row.closing else lowest,
                     if row.closing < lowest then |days| else at)
  {
  }

  lemma CrunchStep(days: seq<Day>, row: Day)
    ensures CrunchOf(days + [row]) == CrunchOf(days) + if row.crunch then [|days|] else []
  {
    assert (days + [row])[..|days|] == days;
  }

  // ---- What the report says ----

  /** Inflows add up what comes in, and only that: the rest of the total goes out. */
  lemma {:induction false} FlowsSigned(events: seq<Event>)
    ensures TotalIn(events) >= 0 >= Total(events) - TotalIn(events)
    ensures (forall k :: 0 <= k < |events| ==> events[k].amount >= 0) ==> TotalIn(events) == Total(events)
    ensures (forall k :: 0 <= k < |events| ==> events[k].amount <= 0) ==> TotalIn(events) == 0
  {
    if events != [] {
      FlowsSigned(events[..|events| - 1]);
    }
  }

  lemma {:induction false} CrunchExactly(days: seq<Day>, i: int)
    ensures i in CrunchOf(days) <==> 0 <= i < |days| && days[i].crunch
    ensures forall k :: 0 <= k < |CrunchOf(days)| ==> CrunchOf(days)[k] < |days|
    ensures forall j, k :: 0 <= j < k < |CrunchOf(days)| ==> CrunchOf(days)[j] < CrunchOf(days)[k]
  {
    if days != [] {
      CrunchExactly(days[..|days| - 1], i);
    }
  }

  /** Nothing is lost or counted twice: with every event in the window the last day closes at opening plus net flow. */
  lemma LastBalance(events: seq<Event>, today: Date, end: Date, horizon: nat, opening: int)
    requires Dated(events) && Valid(today) && Valid(end) && Ordinal(end) == Ordinal(today) + horizon - 1
    requires forall k :: 0 <= k < |events| ==> NotAfter(today, events[k].date) && NotAfter(events[k].date, end)
    ensures BalanceAt(events, today, opening, horizon - 1) == opening + Total(events)
  {
    hide Ordinal, Total, Between, NotAfter;
    forall k | 0 <= k < |events|
      ensures Ordinal(today) <= Ordinal(events[k].date) <= Ordinal(end)
    {
      InWindow(today, events[k].date, end);
    }
    AllInside(events, Ordinal(today), Ordinal(end));
  }

  lemma InWindow(today: Date, d: Date, end: Date)
    requires Valid(today) && Valid(d) && Valid(end)
    ensures NotAfter(today, d) && NotAfter(d, end) <==> Ordinal(today) <= Ordinal(d) <= Ordinal(end)
  {
    hide Ordinal;
    OrdinalOrders(d, today);
    OrdinalOrders(end, d);
  }

  /** An event in the window appears on exactly one row, the row of its date. */
  lemma {:induction false} OnItsDay(events: seq<Event>, e: Event, day: int)
    requires Dated(events)
    ensures multiset(On(events, day))[e] == if e in events && Ordinal(e.date) == day then multiset(events)[e] else 0
  {
    hide Ordinal;
    if events == [] {
      assert multiset(events)[e] == 0;
    } else {
      var rest, last := events[..|events| - 1], events[|events| - 1];
      assert events == rest + [last];
      OnItsDay(rest, e, day);
      assert e in rest <==> multiset(rest)[e] > 0;
    }
  }
}
