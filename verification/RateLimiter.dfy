/** The sliding-window rate limiter, against the full history of admissions. */
module RateLimiter {
  import opened Options

  type Time = real

  // ----- The specification: nothing is ever forgotten -----

  /** How many events lie after `cut`. */
  function CountAfter(history: seq<Time>, cut: Time): (n: nat)
    ensures n <= |history|
  {
    if |history| == 0 then 0
    else CountAfter(history[..|history| - 1], cut) + (if history[|history| - 1] > cut then 1 else 0)
  }

  /** How many events lie in (from, to]. */
  function CountWithin(history: seq<Time>, from: Time, to: Time): (n: nat)
    ensures n <= |history|
  {
    if |history| == 0 then 0
    else CountWithin(history[..|history| - 1], from, to) + (if from < history[|history| - 1] <= to then 1 else 0)
  }

  function Events(table: map<string, seq<Time>>, key: string): seq<Time> {
    if key in table then table[key] else []
  }

  datatype Call = Call(key: string, limit: int, window: int, now: Time) {
    function Cut(): Time { now - window as real }
  }

  /** Admit a call exactly when fewer than `limit` admissions of its key lie in (now - window, now]. */
  predicate Admits(history: map<string, seq<Time>>, call: Call) {
    CountAfter(Events(history, call.key), call.Cut()) < call.limit
  }

  function Recorded(history: map<string, seq<Time>>, call: Call): map<string, seq<Time>> {
    if Admits(history, call) then history[call.key := Events(history, call.key) + [call.now]] else history
  }

  function Answers(history: map<string, seq<Time>>, calls: seq<Call>): seq<bool>
    decreases |calls|
  {
    if |calls| == 0 then [] else [Admits(history, calls[0])] + Answers(Recorded(history, calls[0]), calls[1..])
  }

  function History(history: map<string, seq<Time>>, calls: seq<Call>): map<string, seq<Time>>
    decreases |calls|
  {
    if |calls| == 0 then history else History(Recorded(history, calls[0]), calls[1..])
  }

  // ----- The limiter as it is: an ordered table of queues -----

  /** A dictionary keeps its keys in insertion order. */
  datatype Table = Table(keys: seq<string>, events: map<string, seq<Time>>)

  ghost predicate WellFormed(t: Table) {
    && (forall i, j :: 0 <= i < j < |t.keys| ==> t.keys[i] != t.keys[j])
    && (forall k :: k in t.keys <==> k in t.events)
  }

  /** `while events and events[0] <= cut: events.popleft()` */
  function Popped(events: seq<Time>, cut: Time): seq<Time> {
    if |events| > 0 && events[0] <= cut then Popped(events[1..], cut) else events
  }

  function Touched(t: Table, key: string): Table {
    if key in t.events then t else Table(t.keys + [key], t.events[key := []])
  }

  /** Deletes the empty queues among the given keys. */
  function Swept(t: Table, stale: seq<string>): Table
    decreases |stale|
  {
    if |stale| == 0 then t
    else if stale[0] in t.events && t.events[stale[0]] == [] then Swept(Without(t, stale[0]), stale[1..])
    else Swept(t, stale[1..])
  }

  function Without(t: Table, key: string): Table {
    Table(Remove(t.keys, key), t.events - {key})
  }

  function Remove(keys: seq<string>, key: string): seq<string> {
    if |keys| == 0 then [] else if keys[0] == key then Remove(keys[1..], key) else [keys[0]] + Remove(keys[1..], key)
  }

  const EVICTION_THRESHOLD: nat := 4096
  const EVICTION_BATCH: nat := 512

  function Sweep(t: Table): Table {
    if |t.keys| > EVICTION_THRESHOLD then Swept(t, t.keys[..EVICTION_BATCH]) else t
  }

  /** `allowed`, at the given instant. */
  function Answer(t: Table, call: Call): (Table, bool) {
    var touched := Touched(t, call.key);
    var events := Popped(touched.events[call.key], call.Cut());
    var popped := touched.(events := touched.events[call.key := events]);
    if |events| >= call.limit then (popped, false)
    else (Sweep(popped.(events := popped.events[call.key := events + [call.now]])), true)
  }

  function TableAnswers(t: Table, calls: seq<Call>): seq<bool>
    decreases |calls|
  {
    if |calls| == 0 then [] else [Answer(t, calls[0]).1] + TableAnswers(Answer(t, calls[0]).0, calls[1..])
  }

  function FinalTable(t: Table, calls: seq<Call>): Table
    decreases |calls|
  {
    if |calls| == 0 then t else FinalTable(Answer(t, calls[0]).0, calls[1..])
  }

  // ----- Removal and eviction -----

  lemma {:induction false} RemoveKeeps(keys: seq<string>, key: string)
    requires forall i, j :: 0 <= i < j < |keys| ==> keys[i] != keys[j]
    ensures var r := Remove(keys, key);
            && (forall i, j :: 0 <= i < j < |r| ==> r[i] != r[j])
            && (forall k :: k in r <==> k in keys && k != key)
  {
    if |keys| > 0 {
      RemoveKeeps(keys[1..], key);
      assert keys == [keys[0]] + keys[1..];
      var rest := Remove(keys[1..], key);
      assert forall j :: 0 <= j < |rest| ==> rest[j] in keys[1..];
    }
  }

  lemma {:induction false} SweptKeeps(t: Table, stale: seq<string>)
    requires WellFormed(t)
    ensures WellFormed(Swept(t, stale))
    ensures forall k :: Events(Swept(t, stale).events, k) == Events(t.events, k)
    decreases |stale|
  {
    if |stale| > 0 {
      if stale[0] in t.events && t.events[stale[0]] == [] {
        RemoveKeeps(t.keys, stale[0]);
        SweptKeeps(Without(t, stale[0]), stale[1..]);
      } else {
        SweptKeeps(t, stale[1..]);
      }
    }
  }

  /** Evicting empty queues loses no event, so no later answer can tell. */
  lemma SweepKeeps(t: Table)
    requires WellFormed(t)
    ensures WellFormed(Sweep(t)) && forall k :: Events(Sweep(t).events, k) == Events(t.events, k)
  {
    if |t.keys| > EVICTION_THRESHOLD {
      SweptKeeps(t, t.keys[..EVICTION_BATCH]);
    }
  }

  // ----- The refinement -----

  ghost predicate Sorted(h: seq<Time>) {
    forall i, j :: 0 <= i < j < |h| ==> h[i] <= h[j]
  }

  /** `kept` is what is left of `h` when its first `n` events, all at or before `mark`, are forgotten. */
  ghost predicate Forgets(h: seq<Time>, kept: seq<Time>, mark: Option<Time>, n: int) {
    0 <= n <= |h| && kept == h[n..] && forall i :: 0 <= i < n ==> mark.Some? && h[i] <= mark.value
  }

  ghost predicate ForgetsOnlyPast(h: seq<Time>, kept: seq<Time>, mark: Option<Time>) {
    exists n :: Forgets(h, kept, mark, n)
  }

  lemma {:induction false} PoppedForgets(h: seq<Time>, kept: seq<Time>, cut: Time)
    requires Sorted(h) && ForgetsOnlyPast(h, kept, Some(cut))
    ensures ForgetsOnlyPast(h, Popped(kept, cut), Some(cut))
    ensures forall i :: 0 <= i < |Popped(kept, cut)| ==> Popped(kept, cut)[i] > cut
    decreases |kept|
  {
    var n :| Forgets(h, kept, Some(cut), n);
    if |kept| > 0 && kept[0] <= cut {
      assert Forgets(h, kept[1..], Some(cut), n + 1);
      PoppedForgets(h, kept[1..], cut);
    } else if |kept| > 0 {
      assert kept[0] == h[n];
      forall i | 0 <= i < |kept| ensures kept[i] > cut {
        assert kept[i] == h[n + i];
      }
    }
  }

  lemma {:induction false} CountAfterAll(h: seq<Time>, cut: Time, n: nat)
    requires n <= |h|
    requires forall i :: 0 <= i < n ==> h[i] <= cut
    requires forall i :: n <= i < |h| ==> h[i] > cut
    ensures CountAfter(h, cut) == |h| - n
    decreases |h|
  {
    if |h| > 0 {
      var last := |h| - 1;
      CountAfterAll(h[..last], cut, if n <= last then n else last);
    }
  }

  lemma {:induction false} CountAfterAtLeast(h: seq<Time>, cut: Time, n: nat)
    requires n <= |h| && forall i :: n <= i < |h| ==> h[i] > cut
    ensures CountAfter(h, cut) >= |h| - n
    decreases |h|
  {
    if |h| > n {
      CountAfterAtLeast(h[..|h| - 1], cut, n);
    }
  }

  /** The queue, once popped, is as long as the full count. */
  lemma PoppedCounts(h: seq<Time>, kept: seq<Time>, cut: Time)
    requires Sorted(h) && ForgetsOnlyPast(h, kept, Some(cut))
    ensures |Popped(kept, cut)| == CountAfter(h, cut)
  {
    PoppedForgets(h, kept, cut);
    var n :| Forgets(h, Popped(kept, cut), Some(cut), n);
    forall i | n <= i < |h| ensures h[i] > cut {
      assert h[i] == Popped(kept, cut)[i - n];
    }
    CountAfterAll(h, cut, n);
  }

  /** Exactly when a queue that has forgotten `n` events still counts like the full history: when the latest of them
      is not after the cut. Otherwise it counts only what it has kept, which is too little. */
  lemma PoppedCountsExactly(h: seq<Time>, n: nat, cut: Time)
    requires Sorted(h) && n <= |h|
    ensures |Popped(h[n..], cut)| == CountAfter(h, cut) <==> n == 0 || h[n - 1] <= cut
    ensures n > 0 && h[n - 1] > cut ==> |Popped(h[n..], cut)| == |h| - n < CountAfter(h, cut)
  {
    if n == 0 || h[n - 1] <= cut {
      assert Forgets(h, h[n..], Some(cut), n);
      PoppedCounts(h, h[n..], cut);
    } else {
      CountAfterAtLeast(h, cut, n - 1);
      assert |h| > n ==> h[n..][0] == h[n];
    }
  }

  /** So a call is answered wrongly exactly when its cut lies before a forgotten event and the limit lies between the
      two counts; and then it is a call admitted that should not have been. */
  lemma AnswerWrongExactly(t: Table, history: map<string, seq<Time>>, call: Call, n: nat)
    requires WellFormed(t) && Sorted(Events(history, call.key)) && n <= |Events(history, call.key)|
    requires Events(t.events, call.key) == Events(history, call.key)[n..]
    ensures var h := Events(history, call.key);
            Answer(t, call).1 != Admits(history, call) <==>
            n > 0 && h[n - 1] > call.Cut() && |h| - n < call.limit <= CountAfter(h, call.Cut())
    ensures Answer(t, call).1 != Admits(history, call) ==> Answer(t, call).1
  {
    AnswerEvents(t, call);
    PoppedCountsExactly(Events(history, call.key), n, call.Cut());
  }

  /** The table holds, for every key, the history without events at or before the key's latest cut. */
  ghost predicate Tracks(t: Table, history: map<string, seq<Time>>, marks: map<string, Time>, clock: Time) {
    && WellFormed(t)
    && forall k :: TracksKey(Events(t.events, k), Events(history, k), clock, MarkOf(marks, k))
  }

  function MarkOf(marks: map<string, Time>, key: string): Option<Time> {
    if key in marks then Some(marks[key]) else None
  }

  ghost predicate TracksKey(kept: seq<Time>, h: seq<Time>, clock: Time, mark: Option<Time>) {
    Sorted(h) && (forall i :: 0 <= i < |h| ==> h[i] <= clock) && ForgetsOnlyPast(h, kept, mark)
  }

  lemma LaterTracksKey(kept: seq<Time>, h: seq<Time>, clock: Time, later: Time, mark: Option<Time>, next: Time)
    requires TracksKey(kept, h, clock, mark) && clock <= later && (mark.Some? ==> mark.value <= next)
    ensures TracksKey(kept, h, later, Some(next))
  {
    var n :| Forgets(h, kept, mark, n);
    assert Forgets(h, kept, Some(next), n);
  }

  lemma ForgetsAppend(h: seq<Time>, kept: seq<Time>, mark: Option<Time>, n: int, now: Time)
    requires Forgets(h, kept, mark, n)
    ensures Forgets(h + [now], kept + [now], mark, n)
  {
    forall i | 0 <= i < n ensures (h + [now])[i] == h[i] {
    }
  }

  lemma AppendTracksKey(kept: seq<Time>, h: seq<Time>, now: Time, mark: Option<Time>)
    requires TracksKey(kept, h, now, mark)
    ensures TracksKey(kept + [now], h + [now], now, mark)
  {
    var n :| Forgets(h, kept, mark, n);
    ForgetsAppend(h, kept, mark, n, now);
  }

  lemma TouchedKeeps(t: Table, key: string)
    requires WellFormed(t)
    ensures WellFormed(Touched(t, key)) && key in Touched(t, key).events
    ensures forall k :: Events(Touched(t, key).events, k) == Events(t.events, k)
  {
  }

  /** What a call does to the queues: its own is popped and may grow, all others stay. */
  lemma AnswerEvents(t: Table, call: Call)
    requires WellFormed(t)
    ensures var (after, ok) := Answer(t, call);
            var events := Popped(Events(t.events, call.key), call.Cut());
            && WellFormed(after) && ok == (|events| < call.limit)
            && Events(after.events, call.key) == (if ok then events + [call.now] else events)
            && forall k :: k != call.key ==> Events(after.events, k) == Events(t.events, k)
  {
    var touched := Touched(t, call.key);
    TouchedKeeps(t, call.key);
    var events := Popped(touched.events[call.key], call.Cut());
    SweepKeeps(touched.(events := touched.events[call.key := events][call.key := events + [call.now]]));
  }

  /** The queue of the called key. */
  lemma CalledKeyTracks(kept: seq<Time>, h: seq<Time>, clock: Time, mark: Option<Time>, call: Call)
    requires TracksKey(kept, h, clock, mark) && clock <= call.now && (mark.Some? ==> mark.value <= call.Cut())
    ensures |Popped(kept, call.Cut())| == CountAfter(h, call.Cut())
    ensures TracksKey(Popped(kept, call.Cut()), h, call.now, Some(call.Cut()))
    ensures TracksKey(Popped(kept, call.Cut()) + [call.now], h + [call.now], call.now, Some(call.Cut()))
  {
    LaterTracksKey(kept, h, clock, call.now, mark, call.Cut());
    PoppedForgets(h, kept, call.Cut());
    PoppedCounts(h, kept, call.Cut());
    AppendTracksKey(Popped(kept, call.Cut()), h, call.now, Some(call.Cut()));
  }

  lemma AnswersAsHistory(t: Table, history: map<string, seq<Time>>, marks: map<string, Time>, clock: Time, call: Call)
    requires Tracks(t, history, marks, clock) && clock <= call.now
    requires call.key in marks ==> marks[call.key] <= call.Cut()
    ensures Answer(t, call).1 == Admits(history, call)
  {
    AnswerEvents(t, call);
    CalledKeyTracks(Events(t.events, call.key), Events(history, call.key), clock, MarkOf(marks, call.key), call);
  }

  lemma EveryKeyTracks(t: Table, history: map<string, seq<Time>>, marks: map<string, Time>, clock: Time, call: Call,
                       k: string)
    requires Tracks(t, history, marks, clock) && clock <= call.now
    requires call.key in marks ==> marks[call.key] <= call.Cut()
    ensures TracksKey(Events(Answer(t, call).0.events, k), Events(Recorded(history, call), k), call.now,
                      MarkOf(marks[call.key := call.Cut()], k))
  {
    AnswersAsHistory(t, history, marks, clock, call);
    AnswerEvents(t, call);
    if k == call.key {
      CalledKeyTracks(Events(t.events, k), Events(history, k), clock, MarkOf(marks, k), call);
    } else {
      assert TracksKey(Events(t.events, k), Events(history, k), clock, MarkOf(marks, k));
    }
  }

  /** One call: the table answers as the full history does, and goes on tracking it. */
  lemma AnswerRefines(t: Table, history: map<string, seq<Time>>, marks: map<string, Time>, clock: Time, call: Call)
    requires Tracks(t, history, marks, clock) && clock <= call.now
    requires call.key in marks ==> marks[call.key] <= call.Cut()
    ensures Answer(t, call).1 == Admits(history, call)
    ensures Tracks(Answer(t, call).0, Recorded(history, call), marks[call.key := call.Cut()], call.now)
  {
    AnswersAsHistory(t, history, marks, clock, call);
    AnswerEvents(t, call);
    forall k
      ensures TracksKey(Events(Answer(t, call).0.events, k), Events(Recorded(history, call), k), call.now,
                        MarkOf(marks[call.key := call.Cut()], k))
    {
      EveryKeyTracks(t, history, marks, clock, call, k);
    }
  }

  ghost predicate InClockOrder(calls: seq<Call>, clock: Time) {
    && (forall i :: 0 <= i < |calls| ==> clock <= calls[i].now)
    && (forall i, j :: 0 <= i < j < |calls| ==> calls[i].now <= calls[j].now)
  }

  /** No call looks further back than a call of the same key before it has popped. */
  ghost predicate CutsAdvance(calls: seq<Call>, marks: map<string, Time>) {
    && (forall i :: 0 <= i < |calls| && calls[i].key in marks ==> marks[calls[i].key] <= calls[i].Cut())
    && (forall i, j :: 0 <= i < j < |calls| && calls[i].key == calls[j].key ==> calls[i].Cut() <= calls[j].Cut())
  }

  lemma CutsAdvanceOn(calls: seq<Call>, marks: map<string, Time>)
    requires |calls| > 0 && CutsAdvance(calls, marks)
    ensures CutsAdvance(calls[1..], marks[calls[0].key := calls[0].Cut()])
  {
    var rest, next := calls[1..], marks[calls[0].key := calls[0].Cut()];
    forall i | 0 <= i < |rest| && rest[i].key in next ensures next[rest[i].key] <= rest[i].Cut() {
      assert rest[i] == calls[i + 1];
    }
  }

  lemma {:induction false} TableRefinesHistory(t: Table, history: map<string, seq<Time>>, marks: map<string, Time>,
                                               clock: Time, calls: seq<Call>)
    requires Tracks(t, history, marks, clock) && InClockOrder(calls, clock) && CutsAdvance(calls, marks)
    ensures TableAnswers(t, calls) == Answers(history, calls)
    decreases |calls|
  {
    if |calls| > 0 {
      var call := calls[0];
      AnswerRefines(t, history, marks, clock, call);
      CutsAdvanceOn(calls, marks);
      TableRefinesHistory(Answer(t, call).0, Recorded(history, call), marks[call.key := call.Cut()], call.now,
                          calls[1..]);
    }
  }

  /** A new limiter answers like a count over the full history every sequence of calls in clock order whose cuts
      never move back, whatever the windows. */
  lemma LimiterRefinesHistory(clock: Time, calls: seq<Call>)
    requires InClockOrder(calls, clock) && CutsAdvance(calls, map[])
    ensures TableAnswers(Table([], map[]), calls) == Answers(map[], calls)
  {
    forall k ensures TracksKey([], Events(map[], k), clock, MarkOf(map[], k)) {
      assert Forgets([], [], None, 0);
    }
    TableRefinesHistory(Table([], map[]), map[], map[], clock, calls);
  }

  /** Windows that never grow, constant ones among them, never move a cut back. */
  lemma WindowsThatDoNotGrow(clock: Time, calls: seq<Call>)
    requires InClockOrder(calls, clock)
    requires forall i, j :: 0 <= i < j < |calls| && calls[i].key == calls[j].key ==> calls[j].window <= calls[i].window
    ensures CutsAdvance(calls, map[]) && TableAnswers(Table([], map[]), calls) == Answers(map[], calls)
  {
    LimiterRefinesHistory(clock, calls);
  }

  /** A window that grows breaks this: the event at 0 is forgotten by the second call and missed by the third. */
  lemma GrowingWindowForgets()
    ensures var calls := [Call("k", 1, 10, 0.0), Call("k", 1, 10, 10.0), Call("k", 2, 100, 20.0)];
            var t := FinalTable(Table([], map[]), calls[..2]);
            var history := History(map[], calls[..2]);
            Answer(t, calls[2]).1 && !Admits(history, calls[2])
  {
    var c1, c2, c3 := Call("k", 1, 10, 0.0), Call("k", 1, 10, 10.0), Call("k", 2, 100, 20.0);
    assert [c1, c2, c3][..2] == [c1, c2];
    SpacedCallsLeaveOne(c1, c2);
    SpacedCallsAreBothRecorded(c1, c2);
    assert c3.Cut() == -80.0;
    CountOfTwo(0.0, 10.0, -80.0);
    assert Popped([10.0], -80.0) == [10.0];
  }

  /** Of two calls a window apart the table keeps the second only. */
  lemma SpacedCallsLeaveOne(first: Call, second: Call)
    requires first.key == second.key && first.limit >= 1 && second.limit >= 1
    requires first.now <= second.Cut()
    ensures FinalTable(Table([], map[]), [first, second]) == Table([first.key], map[first.key := [second.now]])
  {
    var once := Table([first.key], map[first.key := [first.now]]);
    var twice := Table([first.key], map[first.key := [second.now]]);
    assert [first, second][1..] == [second] && [second][1..] == [] && [first.now][1..] == [];
    SoleAdmission(Table([], map[]), first);
    SoleAdmission(once, second);
    assert FinalTable(twice, []) == twice && FinalTable(once, [second]) == twice;
  }

  /** The history keeps both. */
  lemma SpacedCallsAreBothRecorded(first: Call, second: Call)
    requires first.key == second.key && first.limit == 1 && second.limit == 1
    requires first.now <= second.Cut() && second.Cut() < second.now
    ensures History(map[], [first, second]) == map[first.key := [first.now, second.now]]
  {
    var once, twice := map[first.key := [first.now]], map[first.key := [first.now, second.now]];
    assert [first, second][1..] == [second] && [second][1..] == [];
    assert CountAfter([], first.Cut()) == 0;
    assert Events(map[], first.key) == [] && [] + [first.now] == [first.now];
    assert Recorded(map[], first) == once;
    CountOfOne(first.now, second.Cut());
    assert Events(once, first.key) == [first.now] && [first.now] + [second.now] == [first.now, second.now];
    assert Recorded(once, second) == twice;
    assert History(twice, []) == twice && History(once, [second]) == twice;
  }

  lemma CountOfOne(a: Time, cut: Time)
    ensures CountAfter([a], cut) == if a > cut then 1 else 0
  {
    assert [a][1..] == [] && [a][..0] == [];
  }

  /** A call whose queue is empty once popped, on a table of no other key. */
  lemma SoleAdmission(t: Table, call: Call)
    requires call.limit >= 1 && t.keys == (if call.key in t.events then [call.key] else [])
    requires forall k :: k in t.events ==> k == call.key
    requires Popped(Events(t.events, call.key), call.Cut()) == []
    ensures Answer(t, call) == (Table([call.key], map[call.key := [call.now]]), true)
  {
    var touched := Touched(t, call.key);
    assert touched.keys == [call.key];
    var popped := touched.(events := touched.events[call.key := []]);
    assert [] + [call.now] == [call.now];
    assert popped.events[call.key := [call.now]] == map[call.key := [call.now]];
  }

  lemma CountOfTwo(a: Time, b: Time, cut: Time)
    ensures CountAfter([a], cut) == (if a > cut then 1 else 0)
    ensures CountAfter([a, b], cut) == (if a > cut then 1 else 0) + (if b > cut then 1 else 0)
  {
    assert [a][..0] == [] && [a, b][..1] == [a];
  }

  // ----- No window holds more than the limit -----

  /** Any `limit + 1` consecutive admissions span at least a window. */
  ghost predicate Spread(h: seq<Time>, limit: nat, window: Time) {
    forall i, j :: 0 <= i && j == i + limit && j < |h| ==> h[i] <= h[j] - window
  }

  lemma {:induction false} CountAfterSuffix(h: seq<Time>, cut: Time, n: nat)
    requires Sorted(h) && n <= |h| && CountAfter(h, cut) < n
    ensures h[|h| - n] <= cut
    decreases |h|
  {
    var last := |h| - 1;
    if h[last] > cut {
      CountAfterSuffix(h[..last], cut, n - 1);
      assert h[..last][last - (n - 1)] == h[|h| - n];
    } else {
      assert h[|h| - n] <= h[last];
    }
  }

  lemma AdmissionKeepsSpread(h: seq<Time>, limit: nat, window: Time, now: Time)
    requires Sorted(h) && Spread(h, limit, window) && window >= 0.0 && CountAfter(h, now - window) < limit
    ensures Spread(h + [now], limit, window)
  {
    if |h| >= limit {
      CountAfterSuffix(h, now - window, limit);
    }
  }

  /** One limit and one window for the key; other keys may have any. */
  ghost predicate Uniform(calls: seq<Call>, key: string, limit: nat, window: int) {
    forall i :: 0 <= i < |calls| && calls[i].key == key ==> calls[i].limit == limit && calls[i].window == window
  }

  ghost predicate Kept(h: seq<Time>, limit: nat, window: int, clock: Time) {
    Sorted(h) && Spread(h, limit, window as real) && forall i :: 0 <= i < |h| ==> h[i] <= clock
  }

  /** The instants of the key's calls that the table admits. */
  function Admitted(t: Table, calls: seq<Call>, key: string): seq<Time>
    decreases |calls|
  {
    if |calls| == 0 then []
    else
      var (after, ok) := Answer(t, calls[0]);
      (if ok && calls[0].key == key then [calls[0].now] else []) + Admitted(after, calls[1..], key)
  }

  /** The admissions so far of one key, of which its queue holds the newest. */
  ghost predicate Holds(t: Table, h: seq<Time>, key: string, limit: nat, window: int, clock: Time) {
    && WellFormed(t) && Kept(h, limit, window, clock)
    && ForgetsOnlyPast(h, Events(t.events, key), Some(clock - window as real))
  }

  function Extended(h: seq<Time>, call: Call, ok: bool, key: string): seq<Time> {
    if ok && call.key == key then h + [call.now] else h
  }

  /** One call of any key: what is admitted of `key` stays spread, whatever windows the other keys use. */
  lemma AnswerHolds(t: Table, h: seq<Time>, call: Call, key: string, limit: nat, window: int, clock: Time)
    requires Holds(t, h, key, limit, window, clock) && clock <= call.now && window >= 0
    requires call.key == key ==> call.limit == limit && call.window == window
    ensures Holds(Answer(t, call).0, Extended(h, call, Answer(t, call).1, key), key, limit, window, call.now)
  {
    AnswerEvents(t, call);
    var kept := Events(t.events, key);
    LaterTracksKey(kept, h, clock, call.now, Some(clock - window as real), call.now - window as real);
    if call.key == key {
      CalledKeyTracks(kept, h, clock, Some(clock - window as real), call);
      if Answer(t, call).1 {
        AdmissionKeepsSpread(h, limit, window as real, call.now);
      }
    }
  }

  lemma AdmittedFirst(t: Table, h: seq<Time>, calls: seq<Call>, key: string)
    requires |calls| > 0
    ensures var (after, ok) := Answer(t, calls[0]);
            h + Admitted(t, calls, key) == Extended(h, calls[0], ok, key) + Admitted(after, calls[1..], key)
  {
    var (after, ok) := Answer(t, calls[0]);
    var rest := Admitted(after, calls[1..], key);
    if ok && calls[0].key == key {
      assert h + ([calls[0].now] + rest) == h + [calls[0].now] + rest;
    } else {
      assert [] + rest == rest;
    }
  }

  ghost predicate SpreadOut(h: seq<Time>, limit: nat, window: int) {
    Sorted(h) && Spread(h, limit, window as real)
  }

  lemma {:induction false} AdmittedStaysSpread(t: Table, h: seq<Time>, calls: seq<Call>, key: string,
                                               limit: nat, window: int, clock: Time)
    requires Holds(t, h, key, limit, window, clock) && window >= 0
    requires InClockOrder(calls, clock) && Uniform(calls, key, limit, window)
    ensures SpreadOut(h + Admitted(t, calls, key), limit, window)
    decreases |calls|
  {
    if |calls| == 0 {
      assert h + Admitted(t, calls, key) == h;
    } else {
      var call := calls[0];
      var (after, ok) := Answer(t, call);
      AnswerHolds(t, h, call, key, limit, window, clock);
      AdmittedStaysSpread(after, Extended(h, call, ok, key), calls[1..], key, limit, window, call.now);
      AdmittedFirst(t, h, calls, key);
    }
  }

  lemma {:induction false} CountWithinTail(h: seq<Time>, from: Time, to: Time, n: nat)
    requires n <= |h| && forall i :: 0 <= i < |h| - n ==> h[i] <= from
    ensures CountWithin(h, from, to) <= n
    decreases |h|
  {
    if |h| > 0 {
      CountWithinTail(h[..|h| - 1], from, to, if n == 0 then 0 else n - 1);
    }
  }

  lemma {:induction false} SpreadBoundsWindow(h: seq<Time>, limit: nat, window: Time, to: Time)
    requires Sorted(h) && Spread(h, limit, window)
    ensures CountWithin(h, to - window, to) <= limit
    decreases |h|
  {
    if |h| > 0 {
      var last := |h| - 1;
      if h[last] > to {
        SpreadBoundsWindow(h[..last], limit, window, to);
      } else if |h| > limit {
        forall i | 0 <= i < |h| - limit ensures h[i] <= to - window {
          assert h[|h| - limit - 1] <= h[|h| - 1] - window by {
            assert |h| - 1 == (|h| - limit - 1) + limit;
          }
          assert i == |h| - limit - 1 || h[i] <= h[|h| - limit - 1];
        }
        CountWithinTail(h, to - window, to, limit);
      }
    }
  }

  /** A key with one limit and window never has more than `limit` admissions in any such window, whatever the calls of
      other keys, their limits and windows. */
  lemma NoWindowExceedsLimit(calls: seq<Call>, key: string, limit: nat, window: int, clock: Time, to: Time)
    requires InClockOrder(calls, clock) && Uniform(calls, key, limit, window) && window >= 0
    ensures CountWithin(Admitted(Table([], map[]), calls, key), to - window as real, to) <= limit
  {
    NewLimiterSpreads(calls, key, limit, window, clock);
    SpreadBoundsWindow(Admitted(Table([], map[]), calls, key), limit, window as real, to);
  }

  lemma NewLimiterSpreads(calls: seq<Call>, key: string, limit: nat, window: int, clock: Time)
    requires InClockOrder(calls, clock) && Uniform(calls, key, limit, window) && window >= 0
    ensures SpreadOut(Admitted(Table([], map[]), calls, key), limit, window)
  {
    var t, none: seq<Time> := Table([], map[]), [];
    EmptyHolds(key, limit, window, clock);
    AdmittedStaysSpread(t, none, calls, key, limit, window, clock);
    NothingBefore(Admitted(t, calls, key));
  }

  lemma NothingBefore(h: seq<Time>)
    ensures [] + h == h
  {
  }

  lemma EmptyHolds(key: string, limit: nat, window: int, clock: Time)
    ensures Holds(Table([], map[]), [], key, limit, window, clock)
  {
    assert Forgets([], [], Some(clock - window as real), 0);
  }

  // ----- And no call is refused without need -----

  lemma {:induction false} AfterIsWithin(h: seq<Time>, cut: Time, now: Time)
    requires forall i :: 0 <= i < |h| ==> h[i] <= now
    ensures CountAfter(h, cut) == CountWithin(h, cut, now)
    decreases |h|
  {
    if |h| > 0 {
      AfterIsWithin(h[..|h| - 1], cut, now);
    }
  }

  lemma AnswersByWindow(t: Table, h: seq<Time>, call: Call, window: int, clock: Time)
    requires call.limit >= 0 && call.window == window
    requires Holds(t, h, call.key, call.limit, window, clock) && clock <= call.now
    ensures Answer(t, call).1 <==> CountWithin(h, call.now - window as real, call.now) < call.limit
  {
    AnswerEvents(t, call);
    QueueCounts(Events(t.events, call.key), h, clock, call);
  }

  lemma QueueCounts(kept: seq<Time>, h: seq<Time>, clock: Time, call: Call)
    requires TracksKey(kept, h, clock, Some(clock - call.window as real)) && clock <= call.now
    ensures |Popped(kept, call.Cut())| == CountWithin(h, call.Cut(), call.now)
  {
    CalledKeyTracks(kept, h, clock, Some(clock - call.window as real), call);
    AfterIsWithin(h, call.Cut(), call.now);
  }

  lemma {:induction false} AdmitsFrom(t: Table, h: seq<Time>, calls: seq<Call>, call: Call, clock: Time)
    requires call.limit >= 0 && call.window >= 0 && Holds(t, h, call.key, call.limit, call.window, clock)
    requires InClockOrder(calls, clock) && Uniform(calls, call.key, call.limit, call.window)
    requires clock <= call.now && forall i :: 0 <= i < |calls| ==> calls[i].now <= call.now
    ensures Answer(FinalTable(t, calls), call).1 <==>
            CountWithin(h + Admitted(t, calls, call.key), call.now - call.window as real, call.now) < call.limit
    decreases |calls|
  {
    if |calls| == 0 {
      assert h + Admitted(t, calls, call.key) == h;
      AnswersByWindow(t, h, call, call.window, clock);
    } else {
      var first := calls[0];
      var (after, ok) := Answer(t, first);
      AnswerHolds(t, h, first, call.key, call.limit, call.window, clock);
      LaterCalls(calls, call, clock);
      AdmitsFrom(after, Extended(h, first, ok, call.key), calls[1..], call, first.now);
      AdmittedFirst(t, h, calls, call.key);
      assert FinalTable(t, calls) == FinalTable(after, calls[1..]);
    }
  }

  lemma LaterCalls(calls: seq<Call>, call: Call, clock: Time)
    requires |calls| > 0 && call.limit >= 0
    requires InClockOrder(calls, clock) && Uniform(calls, call.key, call.limit, call.window)
    ensures InClockOrder(calls[1..], calls[0].now) && Uniform(calls[1..], call.key, call.limit, call.window)
  {
  }

  /** After any run, a call of a key with one limit and window is admitted exactly when fewer than `limit` of the key's
      admissions lie in its window. */
  lemma AdmitsExactly(calls: seq<Call>, call: Call, clock: Time)
    requires call.limit >= 0 && call.window >= 0 && Uniform(calls, call.key, call.limit, call.window)
    requires InClockOrder(calls, clock)
    requires clock <= call.now && forall i :: 0 <= i < |calls| ==> calls[i].now <= call.now
    ensures Answer(FinalTable(Table([], map[]), calls), call).1 <==>
            CountWithin(Admitted(Table([], map[]), calls, call.key), call.now - call.window as real, call.now)
            < call.limit
  {
    EmptyHolds(call.key, call.limit, call.window, clock);
    AdmitsFrom(Table([], map[]), [], calls, call, clock);
    NothingBefore(Admitted(Table([], map[]), calls, call.key));
  }

  // ----- What the sweep deletes -----

  lemma {:induction false} SweptExactly(t: Table, stale: seq<string>, k: string)
    requires WellFormed(t)
    ensures k in Swept(t, stale).events <==> k in t.events && !(k in stale && t.events[k] == [])
    decreases |stale|
  {
    if |stale| > 0 {
      RemoveKeeps(t.keys, stale[0]);
      assert stale == [stale[0]] + stale[1..];
      SweptExactly(if stale[0] in t.events && t.events[stale[0]] == [] then Without(t, stale[0]) else t, stale[1..], k);
    }
  }

  /** A table of more than 4096 keys loses exactly the empty ones among its first 512, any other table none. */
  lemma SweepExactly(t: Table, k: string)
    requires WellFormed(t)
    ensures k in Sweep(t).events <==>
            k in t.events && !(|t.keys| > 4096 && t.events[k] == [] && exists i :: 0 <= i < 512 && t.keys[i] == k)
  {
    if |t.keys| > 4096 {
      SweptExactly(t, t.keys[..512], k);
      assert k in t.keys[..512] <==> exists i :: 0 <= i < 512 && t.keys[i] == k;
    }
  }

  // ----- Eviction never happens for positive limits -----

  ghost predicate NoneEmpty(t: Table) {
    forall k :: k in t.events ==> t.events[k] != []
  }

  lemma {:induction false} SweptRemovesNothing(t: Table, stale: seq<string>)
    requires NoneEmpty(t)
    ensures Swept(t, stale) == t
    decreases |stale|
  {
    if |stale| > 0 {
      SweptRemovesNothing(t, stale[1..]);
    }
  }

  /** A queue is empty after a call only if the limit is not positive, so otherwise the sweep finds nothing to
      delete and the table keeps every key it has ever seen. */
  lemma PositiveLimitKeepsKeys(t: Table, call: Call)
    requires WellFormed(t) && NoneEmpty(t) && call.limit >= 1
    ensures NoneEmpty(Answer(t, call).0)
    ensures Answer(t, call).0.keys == if call.key in t.events then t.keys else t.keys + [call.key]
  {
    var touched := Touched(t, call.key);
    var events := Popped(touched.events[call.key], call.Cut());
    var popped := touched.(events := touched.events[call.key := events]);
    if |events| < call.limit {
      var final := popped.(events := popped.events[call.key := events + [call.now]]);
      SweptRemovesNothing(final, if |final.keys| >= EVICTION_BATCH then final.keys[..EVICTION_BATCH] else []);
    }
  }

  /** The keys of the calls, each where it first occurs, after those of `seen`. */
  function KeysSeen(seen: seq<string>, calls: seq<Call>): seq<string>
    decreases |calls|
  {
    if |calls| == 0 then seen
    else KeysSeen(if calls[0].key in seen then seen else seen + [calls[0].key], calls[1..])
  }

  lemma {:induction false} TableGrows(t: Table, calls: seq<Call>)
    requires WellFormed(t) && NoneEmpty(t) && forall i :: 0 <= i < |calls| ==> calls[i].limit >= 1
    ensures FinalTable(t, calls).keys == KeysSeen(t.keys, calls) && NoneEmpty(FinalTable(t, calls))
    decreases |calls|
  {
    if |calls| > 0 {
      PositiveLimitKeepsKeys(t, calls[0]);
      AnswerEvents(t, calls[0]);
      TableGrows(Answer(t, calls[0]).0, calls[1..]);
    }
  }

  /** Over any run of calls with positive limits, whatever the clock does, no key is ever evicted: the table ends with
      every key called, in order of first use, however many there are. */
  lemma PositiveLimitsNeverEvict(calls: seq<Call>)
    requires forall i :: 0 <= i < |calls| ==> calls[i].limit >= 1
    ensures FinalTable(Table([], map[]), calls).keys == KeysSeen([], calls)
  {
    TableGrows(Table([], map[]), calls);
  }

  /** Only a limit that is not positive leaves an empty queue behind. */
  lemma EmptyQueueExactly(t: Table, call: Call)
    requires WellFormed(t) && NoneEmpty(t)
    ensures (call.key in Answer(t, call).0.events && Answer(t, call).0.events[call.key] == []) <==>
            call.limit <= 0 && Popped(Events(t.events, call.key), call.Cut()) == []
  {
    AnswerEvents(t, call);
  }

  // ----- The object -----

  /** The loop that pops expired events off the left. */
  method PopUntil(events: seq<Time>, cut: Time) returns (queue: seq<Time>)
    ensures queue == Popped(events, cut)
  {
    queue := events;
    while |queue| > 0 && queue[0] <= cut
      invariant Popped(queue, cut) == Popped(events, cut)
    {
      queue := queue[1..];
    }
  }

  class SlidingRateLimiter {
    var keys: seq<string>
    var events: map<string, seq<Time>>

    ghost predicate Valid()
      reads this
    {
      WellFormed(Contents())
    }

    function Contents(): Table
      reads this
    {
      Table(keys, events)
    }

    constructor ()
      ensures Valid() && Contents() == Table([], map[])
    {
      keys, events := [], map[];
    }

    method DeleteEmpty(stale: seq<string>)
      requires Valid()
      modifies this
      ensures Valid() && Contents() == Swept(old(Contents()), stale)
    {
      ghost var goal := Swept(Contents(), stale);
      for index := 0 to |stale|
        invariant Valid() && Swept(Contents(), stale[index..]) == goal
      {
        var key := stale[index];
        assert stale[index..][1..] == stale[index + 1..];
        if key in events && events[key] == [] {
          RemoveKeeps(keys, key);
          keys, events := Remove(keys, key), events - {key};
        }
      }
      assert stale[|stale|..] == [];
    }

    /** One call under the lock, at the instant `now` of the monotonic clock. */
    method Allowed(key: string, limit: int, window: int, now: Time) returns (ok: bool)
      requires Valid()
      modifies this
      ensures Valid() && (Contents(), ok) == Answer(old(Contents()), Call(key, limit, window, now))
    {
      if key !in events {
        keys, events := keys + [key], events[key := []];
      }
      var queue := PopUntil(events[key], now - window as real);
      events := events[key := queue];
      if |queue| >= limit {
        return false;
      }
      events := events[key := queue + [now]];
      assert WellFormed(Contents());
      if |keys| > EVICTION_THRESHOLD {
        DeleteEmpty(keys[..EVICTION_BATCH]);
      }
      return true;
    }
  }
}
