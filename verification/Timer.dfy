/** The timer process: pending events in an array, and an alarm for the next one. */
module Timer {
  import opened Common

  const MAXEVENTS := 256

  datatype Event = Event(token: string, replyAt: int)

  /** The tokens of the events before `n` that are due, in order. */
  ghost function Due(events: seq<Option<Event>>, n: nat, now: int): seq<string>
    requires n <= |events|
  {
    if n == 0 then []
    else
      var e := events[n - 1];
      Due(events, n - 1, now) + if e.Some? && e.value.replyAt <= now then [e.value.token] else []
  }

  lemma DueStep(events: seq<Option<Event>>, n: nat, now: int)
    requires n < |events|
    ensures Due(events, n + 1, now) ==
            Due(events, n, now) + if Kept(events[n], now) == events[n] then [] else [events[n].value.token]
  {
  }

  /** What is left of an event when those that are due have gone off. */
  function Kept(e: Option<Event>, now: int): Option<Event> {
    if e.Some? && e.value.replyAt <= now then None else e
  }

  /** At time `now` the event at `i` is due. */
  ghost predicate DueAt(events: seq<Option<Event>>, i: nat, now: int) {
    i < |events| && events[i].Some? && events[i].value.replyAt <= now
  }

  /** Of the first `n` events: what is written at time `now`, which is the tokens of the events at `fired`; and these
      are all the places of events that are due, in increasing order. */
  ghost predicate Fired(events: seq<Option<Event>>, n: nat, now: int, fired: seq<nat>, written: seq<string>) {
    && |written| == |fired|
    && (forall k :: 0 <= k < |fired| ==> fired[k] < n && DueAt(events, fired[k], now))
    && (forall k :: 0 <= k < |fired| ==> fired[k] < |events| && Some(written[k]) == Token(events[fired[k]]))
    && (forall j, k :: 0 <= j < k < |fired| ==> fired[j] < fired[k])
    && (forall i: nat :: i < n && DueAt(events, i, now) ==> i in fired)
  }

  function Token(e: Option<Event>): Option<string> {
    if e.Some? then Some(e.value.token) else None
  }

  /** What is left at time `now`: an event whose time is still to come is where it was, and nothing else is. */
  ghost predicate Left(events: seq<Option<Event>>, now: int, left: seq<Option<Event>>) {
    && |left| == |events|
    && forall i :: 0 <= i < |events| ==>
         if events[i].Some? && events[i].value.replyAt > now then left[i] == events[i] else left[i] == None
  }

  /** The places of the first `n` events that are due. */
  ghost function DuePlaces(events: seq<Option<Event>>, n: nat, now: int): seq<nat>
    requires n <= |events|
  {
    if n == 0 then []
    else DuePlaces(events, n - 1, now) + if Kept(events[n - 1], now) == events[n - 1] then [] else [n - 1]
  }

  lemma FiredOne(events: seq<Option<Event>>, n: nat, now: int, fired: seq<nat>, written: seq<string>)
    requires n < |events| && DueAt(events, n, now) && Fired(events, n, now, fired, written)
    ensures Fired(events, n + 1, now, fired + [n], written + [events[n].value.token])
  {
    var fired', written' := fired + [n], written + [events[n].value.token];
    forall i: nat | i < n + 1 && DueAt(events, i, now) ensures i in fired' {
      assert i < n ==> i in fired;
      assert fired'[|fired|] == n;
    }
  }

  lemma {:induction false} DueFired(events: seq<Option<Event>>, n: nat, now: int)
    requires n <= |events|
    ensures Fired(events, n, now, DuePlaces(events, n, now), Due(events, n, now))
  {
    hide Fired, DueAt;
    if n == 0 {
      NoneFired(events, now);
    } else {
      DueFired(events, n - 1, now);
      var fired, written := DuePlaces(events, n - 1, now), Due(events, n - 1, now);
      DueOne(events, n - 1, now);
      if DueAt(events, n - 1, now) {
        FiredOne(events, n - 1, now, fired, written);
      } else {
        NotFired(events, n - 1, now, fired, written);
      }
    }
  }

  lemma NoneFired(events: seq<Option<Event>>, now: int)
    ensures Fired(events, 0, now, [], [])
  {
  }

  lemma DueOne(events: seq<Option<Event>>, n: nat, now: int)
    requires n < |events|
    ensures var places, tokens := DuePlaces(events, n, now), Due(events, n, now);
            if DueAt(events, n, now) then
              && events[n].Some?
              && DuePlaces(events, n + 1, now) == places + [n] && Due(events, n + 1, now) == tokens + [events[n].value.token]
            else DuePlaces(events, n + 1, now) == places && Due(events, n + 1, now) == tokens
  {
  }

  lemma NotFired(events: seq<Option<Event>>, n: nat, now: int, fired: seq<nat>, written: seq<string>)
    requires n < |events| && !DueAt(events, n, now) && Fired(events, n, now, fired, written)
    ensures Fired(events, n + 1, now, fired, written)
  {
  }

  lemma LeftIs(events: seq<Option<Event>>, left: seq<Option<Event>>, now: int)
    requires |left| == |events| && forall i :: 0 <= i < |events| ==> left[i] == Kept(events[i], now)
    ensures Left(events, now, left)
  {
  }

  ghost predicate Earliest(events: seq<Option<Event>>, n: nat, t: int)
    requires n <= |events|
  {
    && (exists i :: 0 <= i < n && events[i].Some? && events[i].value.replyAt == t)
    && forall i :: 0 <= i < n && events[i].Some? ==> t <= events[i].value.replyAt
  }

  /** Of the first `n` places, `newmax` is one past the highest used; `value` is how long it is from `now` to
      the event at `next`, the earliest of them, or -1 if there is none. */
  ghost predicate Soonest(events: seq<Option<Event>>, n: nat, now: int, newmax: nat, value: int, next: nat)
    requires n <= |events|
  {
    && newmax <= n && (newmax > 0 ==> events[newmax - 1].Some?)
    && (forall j :: newmax <= j < n ==> events[j] == None)
    && (if newmax == 0 then value == -1
        else value > 0 && next < n && events[next].Some? && events[next].value.replyAt == now + value)
    && (forall j :: 0 <= j < n && events[j].Some? ==> now + value <= events[j].value.replyAt)
  }

  /** Of the first `n` places, `slot` is the lowest free one, or it is `m` if they are all used. */
  ghost predicate Lowest(events: seq<Option<Event>>, n: nat, m: nat, slot: nat)
    requires n <= m <= |events|
  {
    && slot <= m && (slot < m ==> slot < n && events[slot] == None)
    && (forall j :: 0 <= j < n && j < slot ==> events[j].Some?)
  }

  lemma SoonestStep(events: seq<Option<Event>>, events': seq<Option<Event>>, i: nat, now: int, newmax: nat,
                    value: int, next: nat)
    requires i < |events| == |events'| && events' == events[i := events'[i]]
    requires events'[i].Some? ==> events'[i].value.replyAt > now
    requires Soonest(events, i, now, newmax, value, next)
    ensures if events'[i].None? then Soonest(events', i + 1, now, newmax, value, next)
            else var tdiff := events'[i].value.replyAt - now;
                 if tdiff < value || value < 0 then Soonest(events', i + 1, now, i + 1, tdiff, i)
                 else Soonest(events', i + 1, now, i + 1, value, next)
  {
  }

  lemma LowestStep(events: seq<Option<Event>>, events': seq<Option<Event>>, i: nat, m: nat, slot: nat)
    requires i < m <= |events| == |events'| && events' == events[i := events'[i]]
    requires Lowest(events, i, m, slot)
    ensures Lowest(events', i + 1, m, if events'[i].None? && i < slot then i else slot)
  {
  }

  class Timer {
    var events: seq<Option<Event>>
    var slot: nat                    // the lowest free index
    var mevent: nat                  // one past the highest used index
    var alarm: Option<int>           // seconds to the alarm last set
    var output: seq<string>          // tokens written

    ghost predicate Bounded()
      reads this
    {
      && |events| == MAXEVENTS && mevent <= MAXEVENTS
      && forall i :: mevent <= i < MAXEVENTS ==> events[i] == None
    }

    /** What holds between signals. */
    ghost predicate Valid()
      reads this
    {
      && Bounded() && slot <= mevent && (mevent > 0 ==> events[mevent - 1].Some?)
      && (forall i :: 0 <= i < slot ==> events[i].Some?) && (slot < MAXEVENTS ==> events[slot] == None)
    }

    constructor ()
      ensures Valid() && output == [] && events == seq(MAXEVENTS, _ => None)
    {
      events, slot, mevent, alarm, output := seq(MAXEVENTS, _ => None), 0, 0, None, [];
    }

    /** Let the event at `i` go off if it is due. */
    method Fire(i: nat, now: int)
      requires i < |events|
      modifies this`events, this`output
      ensures events == old(events)[i := Kept(old(events)[i], now)]
      ensures output == old(output) + if events[i] == old(events)[i] then [] else [old(events)[i].value.token]
    {
      while events[i].Some? && events[i].value.replyAt <= now
        invariant |events| == |old(events)|
        invariant (events == old(events) && output == old(output))
                  || (old(events)[i].Some? && old(events)[i].value.replyAt <= now
                      && events == old(events)[i := None] && output == old(output) + [old(events)[i].value.token])
        decreases events[i].Some?
      {
        output := output + [events[i].value.token];
        events := events[i := None];
      }
    }

    /** The loop of notify: what goes off, the lowest free index, the highest used one, and the time to the
        earliest event left. */
    method Scan(now: int) returns (newmax: nat, value: int, ghost next: nat)
      requires Bounded()
      modifies this`events, this`output, this`slot
      ensures |events| == MAXEVENTS && forall j :: 0 <= j < MAXEVENTS ==> events[j] == Kept(old(events)[j], now)
      ensures output == old(output) + Due(old(events), mevent, now)
      ensures Soonest(events, mevent, now, newmax, value, next) && Lowest(events, mevent, mevent, slot)
    {
      hide Due, Soonest, Lowest;
      newmax, value, next := 0, -1, 0;
      slot := mevent;
      ScanStart(now);
      for i := 0 to mevent
        invariant |events| == MAXEVENTS
        invariant forall j :: 0 <= j < MAXEVENTS ==> events[j] == if j < i then Kept(old(events)[j], now) else old(events)[j]
        invariant output == old(output) + Due(old(events), i, now)
        invariant Soonest(events, i, now, newmax, value, next) && Lowest(events, i, mevent, slot)
      {
        ghost var before := events;
        DueStep(old(events), i, now);
        Fire(i, now);
        SoonestStep(before, events, i, now, newmax, value, next);
        LowestStep(before, events, i, mevent, slot);
        if events[i].Some? {
          newmax := i + 1;
          var tdiff := events[i].value.replyAt - now;
          if tdiff < value || value < 0 {
            value := tdiff;
            next := i;
          }
        } else if i < slot {
          slot := i;
        }
      }
    }

    lemma ScanStart(now: int)
      requires Bounded()
      ensures Due(events, 0, now) == [] && Soonest(events, 0, now, 0, -1, 0) && Lowest(events, 0, mevent, mevent)
    {
    }

    /** notify, at time `now`.  Each event that is due is written once, in order, and gone; the others are
        as they were; and the alarm, if anything is left, is for the earliest of them. */
    method Notify(now: int) returns (ghost fired: seq<nat>, ghost written: seq<string>)
      requires Bounded()
      modifies this
      ensures Valid() && Left(old(events), now, events)
      ensures output == old(output) + written && Fired(old(events), MAXEVENTS, now, fired, written)
      ensures forall i :: 0 <= i < MAXEVENTS && events[i].Some? ==> events[i].value.replyAt > now
      ensures mevent == 0 ==> alarm == old(alarm)
      ensures mevent > 0 ==> alarm.Some? && alarm.value > 0 && Earliest(events, MAXEVENTS, now + alarm.value)
    {
      hide Due, DuePlaces, Fired, Left;
      var newmax, value, next := Scan(now);
      mevent := newmax;
      slot := if slot > mevent then mevent else slot;
      DueBeyond(old(events), old(mevent), MAXEVENTS, now);
      DueFired(old(events), MAXEVENTS, now);
      LeftIs(old(events), events, now);
      fired, written := DuePlaces(old(events), MAXEVENTS, now), Due(old(events), MAXEVENTS, now);
      if mevent > 0 {
        alarm := Some(value);
        assert 0 <= next < MAXEVENTS && events[next].Some? && events[next].value.replyAt == now + value;
      }
    }

    /** Nothing is due where there is nothing. */
    static lemma {:induction false} DueBeyond(events: seq<Option<Event>>, m: nat, n: nat, now: int)
      requires m <= n <= |events| && forall i :: m <= i < n ==> events[i] == None
      ensures Due(events, n, now) == Due(events, m, now)
      decreases n
    {
      if m < n {
        DueBeyond(events, m, n - 1, now);
      }
    }

    /** getevent, of a line that stands for `request` (None if it is no good, or memory has run out) at time
        `now`.  "Too many events" is said only if every place is taken. */
    method GetEvent(request: Option<Event>, now: int) returns (full: bool, ghost fired: seq<nat>, ghost written: seq<string>)
      requires Valid()
      modifies this
      ensures Valid()
      ensures full <==> forall i :: 0 <= i < MAXEVENTS ==> old(events)[i].Some?
      ensures var asked := if full || request.None? then old(events) else old(events)[old(slot) := request];
              && Left(asked, now, events)
              && output == old(output) + written && Fired(asked, MAXEVENTS, now, fired, written)
      ensures !full ==> old(events)[old(slot)] == None && forall i :: 0 <= i < old(slot) ==> old(events)[i].Some?
      ensures mevent > 0 ==> alarm.Some? && Earliest(events, MAXEVENTS, now + alarm.value)
    {
      full := slot == MAXEVENTS;
      if !full && request.Some? {
        events := events[slot := request];
        if slot == mevent {
          mevent := mevent + 1;
        }
      }
      fired, written := Notify(now);
    }
  }
}
