/** How often a file appender reopens its file. */
module Throttle {
  import opened Basics
  import opened Compiler
  import opened Logging

  // m_lastTime, and how often the file was reopened; nothing is written before the first time.
  datatype FileState = FileState(lastTime: Time, reopens: nat)

  // An event that passes the level check, as in LogAppender.Log.
  function Arrive(st: FileState, now: Time): FileState {
    if Due(st.lastTime, now) then FileState(now, st.reopens + 1) else st
  }

  function ArriveAll(st: FileState, times: seq<Time>): FileState
    decreases times
  {
    if times == [] then st else ArriveAll(Arrive(st, times[0]), times[1..])
  }

  function Latest(from: Time, times: seq<Time>): Time {
    if times == [] then from
    else
      var rest := Latest(from, times[1..]);
      if times[0] > rest then times[0] else rest
  }

  // Far enough from 2^64 for the sum in the comparison not to wrap.
  predicate NoWrap(times: seq<Time>) {
    forall j :: 0 <= j < |times| ==> times[j] + 3 < TWO_64
  }

  /** For times in any order, the last reopen time never goes back and never passes the
      latest time seen, and each reopen takes three seconds more. */
  lemma {:induction false} ReopenBound(st: FileState, times: seq<Time>)
    requires st.lastTime + 3 < TWO_64 && NoWrap(times)
    ensures var end := ArriveAll(st, times);
      st.lastTime <= end.lastTime <= Latest(st.lastTime, times) &&
      3 * (end.reopens - st.reopens) <= end.lastTime - st.lastTime && st.reopens <= end.reopens
    decreases times
  {
    if times != [] {
      var next := Arrive(st, times[0]);
      ReopenBound(next, times[1..]);
      LatestMonotone(st.lastTime, next.lastTime, times[1..]);
    }
  }

  /** And it is never late: without wrap-around, every event that passes is less than three
      seconds past the last reopen when it is written. */
  lemma {:induction false} NeverLate(st: FileState, times: seq<Time>, j: nat)
    requires st.lastTime + 3 < TWO_64 && NoWrap(times) && j < |times|
    ensures times[j] < ArriveAll(st, times[..j + 1]).lastTime + 3
    decreases times
  {
    assert times[..j + 1][1..] == times[1..][..j];
    if j > 0 {
      NeverLate(Arrive(st, times[0]), times[1..], j - 1);
    }
  }

  lemma {:induction false} LatestMonotone(low: Time, high: Time, times: seq<Time>)
    requires low <= high
    ensures Latest(high, times) == if Latest(low, times) > high then Latest(low, times) else high
  {
    if times != [] {
      LatestMonotone(low, high, times[1..]);
    }
  }

  // Events written while the file had never been opened.
  function WrittenUnopened(st: FileState, times: seq<Time>): nat
    decreases times
  {
    if times == [] then 0
    else
      var next := Arrive(st, times[0]);
      (if next.reopens == 0 then 1 else 0) + WrittenUnopened(next, times[1..])
  }

  lemma {:induction false} OpenedStaysOpen(st: FileState, times: seq<Time>)
    requires st.reopens > 0
    ensures WrittenUnopened(st, times) == 0
    decreases times
  {
    if times != [] {
      OpenedStaysOpen(Arrive(st, times[0]), times[1..]);
    }
  }

  /** A fresh appender opens its file before its first write exactly when its first event
      is not in the first three seconds of the epoch. */
  lemma OpenedBeforeWritingIff(times: seq<Time>)
    ensures WrittenUnopened(FileState(0, 0), times) == 0 <==> times == [] || times[0] >= 3
  {
    if times != [] && times[0] >= 3 {
      OpenedStaysOpen(Arrive(FileState(0, 0), times[0]), times[1..]);
    }
  }

  /** The throttle holds exactly while the sum does not wrap: past that, an earlier time
      counts as due and the last reopen time goes back. */
  lemma NeverBackIff(lastTime: Time)
    ensures (forall now: Time :: Arrive(FileState(lastTime, 0), now).lastTime >= lastTime) <==> lastTime + 3 < 0x1_0000_0000_0000_0000
  {
    if lastTime + 3 >= TWO_64 {
      var now: Time := lastTime + 3 - TWO_64;
      assert Due(lastTime, now);
      assert Arrive(FileState(lastTime, 0), now).lastTime < lastTime;
    }
  }

  // ---------------------------------------------------------------- the appender's own runs

  // How often a trace reopens the appender's file.
  function Reopens(trace: seq<Effect>, a: LogAppender): nat {
    if trace == [] then 0 else (if trace[0] == Reopen(a) then 1 else 0) + Reopens(trace[1..], a)
  }

  lemma {:induction false} ReopensConcat(s: seq<Effect>, t: seq<Effect>, a: LogAppender)
    ensures Reopens(s + t, a) == Reopens(s, a) + Reopens(t, a)
  {
    if s == [] {
      assert s + t == t;
    } else {
      assert (s + t)[1..] == s[1..] + t;
      ReopensConcat(s[1..], t, a);
    }
  }

  // The times of the events that pass a level.
  function Passing(events: seq<(Level, Event)>, level: Level): seq<Time> {
    if events == [] then []
    else (if events[0].0 >= level then [events[0].1.time] else []) + Passing(events[1..], level)
  }

  ghost function StateOf(a: LogAppender, world: World): FileState
    reads a`lastTime, world
  {
    FileState(a.lastTime, Reopens(world.trace, a))
  }

  // The last time before and after an event: it moves to the event's time if that is at
  // least three seconds later, and an event that passes is never further than that from it.
  predicate Throttled(before: Time, after: Time, now: Time, passes: bool) {
    if passes then now < after + 3 && (after == before || (after == now && now >= before + 3)) else after == before
  }

  // One event at a file appender is one arrival, if it passes the level.
  method LogOnce(a: LogAppender, name: string, l: Level, e: Event, world: World)
    requires a.formatter != null && a.kind.File?
    modifies a`lastTime, world
    ensures StateOf(a, world) == if l >= a.level then Arrive(old(StateOf(a, world)), e.time) else old(StateOf(a, world))
    ensures old(a.lastTime) + 3 < TWO_64 ==>
      Throttled(old(a.lastTime), a.lastTime, e.time, l >= a.level) &&
      world.trace == old(world.trace) +
        ((if a.lastTime != old(a.lastTime) then [Reopen(a)] else []) + OutletLine(a.Out(), Context(name, l, e, world.strftime)))
  {
    ghost var c := Context(name, l, e, world.strftime);
    ghost var line := OutletLine(a.Out(), c);
    ReopensOfLog(world.trace, a, l >= a.level && Due(a.lastTime, e.time), line);
    hide WritesOf, Reopens;
    a.Log(name, l, e, world);
  }

  lemma ReopensOfLog(before: seq<Effect>, a: LogAppender, reopens: bool, line: seq<Effect>)
    requires line == [] || (|line| == 1 && line[0].Write?)
    ensures Reopens(before + (if reopens then [Reopen(a)] else []) + line, a) == Reopens(before, a) + if reopens then 1 else 0
  {
    var first := if reopens then [Reopen(a)] else [];
    ReopensConcat(before, first, a);
    ReopensConcat(before + first, line, a);
    assert line != [] ==> line[1..] == [];
    assert first != [] ==> first[1..] == [];
    assert Reopens(line, a) == 0;
    assert Reopens(first, a) == if reopens then 1 else 0;
  }

  /** Any number of events logged one after the other by a file appender: its last time
      and its reopens in the trace follow the arrivals of the events that pass its level. */
  method LogSequence(a: LogAppender, name: string, events: seq<(Level, Event)>, world: World)
    requires a.formatter != null && a.kind.File?
    modifies a`lastTime, world
    ensures StateOf(a, world) == ArriveAll(old(StateOf(a, world)), Passing(events, a.level))
  {
    hide Reopens, Arrive;
    var j := 0;
    assert events[0..] == events;
    while j < |events|
      invariant 0 <= j <= |events|
      invariant ArriveAll(StateOf(a, world), Passing(events[j..], a.level)) == ArriveAll(old(StateOf(a, world)), Passing(events, a.level))
    {
      PassingStep(StateOf(a, world), events, j, a.level);
      LogOnce(a, name, events[j].0, events[j].1, world);
      j := j + 1;
    }
    assert events[j..] == [];
  }

  lemma PassingStep(st: FileState, events: seq<(Level, Event)>, j: nat, level: Level)
    requires j < |events|
    ensures ArriveAll(st, Passing(events[j..], level)) ==
      ArriveAll(if events[j].0 >= level then Arrive(st, events[j].1.time) else st, Passing(events[j + 1..], level))
  {
    hide Arrive;
    assert events[j..][1..] == events[j + 1..];
    var rest := Passing(events[j + 1..], level);
    assert [] + rest == rest && ([events[j].1.time] + rest)[1..] == rest;
  }

  // A reopen wherever the last time moves, and a line for each event that passes.
  function Traced(o: Outlet, name: string, events: seq<(Level, Event)>, lasts: seq<Time>, strftime: (string, Time) -> string): seq<Effect>
    requires |lasts| == |events| + 1
    decreases events
  {
    if events == [] then []
    else
      (if lasts[1] != lasts[0] then [Reopen(o.writer)] else []) +
      OutletLine(o, Context(name, events[0].0, events[0].1, strftime)) + Traced(o, name, events[1..], lasts[1..], strftime)
  }

  lemma {:induction false} TracedSnoc(o: Outlet, name: string, events: seq<(Level, Event)>, lasts: seq<Time>, e: (Level, Event), last: Time,
                                      strftime: (string, Time) -> string)
    requires |lasts| == |events| + 1
    ensures Traced(o, name, events + [e], lasts + [last], strftime) ==
      Traced(o, name, events, lasts, strftime) +
      ((if last != lasts[|events|] then [Reopen(o.writer)] else []) + OutletLine(o, Context(name, e.0, e.1, strftime)))
    decreases events
  {
    hide OutletLine;
    if events == [] {
      assert (events + [e])[1..] == [];
      assert (lasts + [last])[1..] == [last];
      assert Traced(o, name, [], [last], strftime) == [];
    } else {
      assert (events + [e])[1..] == events[1..] + [e] && (lasts + [last])[1..] == lasts[1..] + [last];
      TracedSnoc(o, name, events[1..], lasts[1..], e, last, strftime);
      var first := if lasts[1] != lasts[0] then [Reopen(o.writer)] else [];
      var line := OutletLine(o, Context(name, events[0].0, events[0].1, strftime));
      Assoc(first + line, Traced(o, name, events[1..], lasts[1..], strftime),
            (if last != lasts[|events|] then [Reopen(o.writer)] else []) + OutletLine(o, Context(name, e.0, e.1, strftime)));
    }
  }

  lemma {:induction false} PassingNoWrap(events: seq<(Level, Event)>, level: Level, j: nat)
    requires NoWrap(Passing(events, level)) && j < |events| && events[j].0 >= level
    ensures events[j].1.time + 3 < TWO_64
  {
    var rest := Passing(events[1..], level);
    var times := Passing(events, level);
    if j == 0 {
      assert times[0] == events[0].1.time;
    } else {
      assert forall k :: 0 <= k < |rest| ==> rest[k] == times[|times| - |rest| + k];
      PassingNoWrap(events[1..], level, j - 1);
    }
  }

  /** So for a file appender, over any events whose times do not wrap: its last time moves
      exactly when an event that passes is three seconds past it, and the trace gains a
      reopen for every such move and a line for every event that passes, in order. */
  method LogThrottled(a: LogAppender, name: string, events: seq<(Level, Event)>, world: World) returns (ghost lasts: seq<Time>)
    requires a.formatter != null && a.kind.File? && a.lastTime + 3 < TWO_64 && NoWrap(Passing(events, a.level))
    modifies a`lastTime, world
    ensures |lasts| == |events| + 1 && lasts[0] == old(a.lastTime) && lasts[|events|] == a.lastTime
    ensures forall k :: 0 <= k < |events| ==> Throttled(lasts[k], lasts[k + 1], events[k].1.time, events[k].0 >= a.level)
    ensures world.trace == old(world.trace) + Traced(a.Out(), name, events, lasts, world.strftime)
    ensures 3 * (Reopens(world.trace, a) - Reopens(old(world.trace), a)) <= a.lastTime - old(a.lastTime)
    ensures old(a.lastTime) <= a.lastTime <= Latest(old(a.lastTime), Passing(events, a.level))
  {
    hide Reopens, ArriveAll, Latest, NoWrap, Arrive, Traced, Throttled, OutletLine, Passing;
    ReopenBound(StateOf(a, world), Passing(events, a.level));
    ghost var before := world.trace;
    lasts := [a.lastTime];
    TracedNothing(a.Out(), name, a.lastTime, world.strftime);
    var j := 0;
    assert events[0..] == events && events[..0] == [];
    assert before + [] == before;
    while j < |events|
      invariant 0 <= j <= |events| && a.lastTime + 3 < TWO_64
      invariant ArriveAll(StateOf(a, world), Passing(events[j..], a.level)) == ArriveAll(old(StateOf(a, world)), Passing(events, a.level))
      invariant |lasts| == j + 1 && lasts[0] == old(a.lastTime) && lasts[j] == a.lastTime
      invariant forall k :: 0 <= k < j ==> Throttled(lasts[k], lasts[k + 1], events[k].1.time, events[k].0 >= a.level)
      invariant world.trace == before + Traced(a.Out(), name, events[..j], lasts, world.strftime)
    {
      PassingStep(StateOf(a, world), events, j, a.level);
      ghost var last, sofar := a.lastTime, Traced(a.Out(), name, events[..j], lasts, world.strftime);
      LogOnce(a, name, events[j].0, events[j].1, world);
      StaysBelow(events, a.level, j, last, a.lastTime);
      TracedSnoc(a.Out(), name, events[..j], lasts, events[j], a.lastTime, world.strftime);
      assert events[..j] + [events[j]] == events[..j + 1];
      Assoc(before, sofar, (if a.lastTime != last then [Reopen(a)] else []) +
                           OutletLine(a.Out(), Context(name, events[j].0, events[j].1, world.strftime)));
      lasts := lasts + [a.lastTime];
      j := j + 1;
    }
    assert events[..j] == events;
    NoMoreTimes(StateOf(a, world), events[j..], a.level);
  }

  lemma TracedNothing(o: Outlet, name: string, last: Time, strftime: (string, Time) -> string)
    ensures Traced(o, name, [], [last], strftime) == []
  {
  }

  lemma NoMoreTimes(st: FileState, events: seq<(Level, Event)>, level: Level)
    requires events == []
    ensures ArriveAll(st, Passing(events, level)) == st
  {
  }

  // Far from wrapping, the last time stays so.
  lemma StaysBelow(events: seq<(Level, Event)>, level: Level, j: nat, before: Time, after: Time)
    requires NoWrap(Passing(events, level)) && j < |events| && before + 3 < TWO_64
    requires Throttled(before, after, events[j].1.time, events[j].0 >= level)
    ensures after + 3 < TWO_64
  {
    if events[j].0 >= level {
      PassingNoWrap(events, level, j);
    }
  }
}
