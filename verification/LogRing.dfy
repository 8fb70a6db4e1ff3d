// The tester's log ring (tester/src/tester_logger.py) and a client that polls it (tester/src/app.py).
module LogRing {
  import opened Text

  datatype Entry = Entry(seq_: int, level: string, logger: string, message: string)
  datatype Filter = Filter(level: string, logger: string, search: string)

  // The numeric level of a name, 0 when it is not one.
  function Severity(level: string): int {
    if level in {"CRITICAL", "FATAL"} then 50
    else if level == "ERROR" then 40
    else if level in {"WARNING", "WARN"} then 30
    else if level == "INFO" then 20
    else if level == "DEBUG" then 10
    else 0
  }

  predicate Matches(e: Entry, f: Filter) {
    && (f.level != "" ==> Severity(e.level) >= Severity(Upper(f.level)))
    && (f.logger != "" ==> Contains(e.logger, f.logger))
    && (f.search != "" ==> Contains(Lower(e.message), Lower(f.search)))
  }

  // The order of the levels. A name that is none of them ranks below all.
  lemma SeverityOrder(level: string)
    ensures 0 < Severity("DEBUG") < Severity("INFO") < Severity("WARNING") < Severity("ERROR") < Severity("CRITICAL")
    ensures Severity("WARN") == Severity("WARNING") && Severity("FATAL") == Severity("CRITICAL")
    ensures Severity(level) == 0 <==>
            level !in {"DEBUG", "INFO", "WARN", "WARNING", "ERROR", "FATAL", "CRITICAL"}
  {
  }

  // A lower level selects all that a higher one selects; an entry of the level asked for is selected, one below
  // it is not. The other two filters ask for a substring.
  lemma MatchesMeans(e: Entry, f: Filter, level: string)
    ensures f.level != "" && Severity(Upper(level)) <= Severity(Upper(f.level)) && Matches(e, f) ==>
              Matches(e, f.(level := level))
    ensures f.level != "" && Severity(e.level) < Severity(Upper(f.level)) ==> !Matches(e, f)
    ensures f.level == "" || Severity(e.level) >= Severity(Upper(f.level)) ==>
              (Matches(e, f) <==>
                 && (f.logger == "" || exists x, y :: e.logger == x + f.logger + y)
                 && (f.search == "" || exists x, y :: Lower(e.message) == x + Lower(f.search) + y))
  {
    if Contains(e.logger, f.logger) { var x, y := ContainsFinds(e.logger, f.logger); }
    if x, y :| e.logger == x + f.logger + y { ContainsEach(x, f.logger, y); }
    if Contains(Lower(e.message), Lower(f.search)) { var x, y := ContainsFinds(Lower(e.message), Lower(f.search)); }
    if x, y :| Lower(e.message) == x + Lower(f.search) + y { ContainsEach(x, Lower(f.search), y); }
  }

  // The matching entries numbered above `after`, in order; 0 stands for no lower end.
  function Select(es: seq<Entry>, after: int, f: Filter): seq<Entry> {
    if es == [] then [] else
      (if (after == 0 || es[0].seq_ > after) && Matches(es[0], f) then [es[0]] else []) + Select(es[1..], after, f)
  }

  // entries[-n:] when there are more than n. With n = 0 that slice is everything.
  function LastN(es: seq<Entry>, n: int): seq<Entry> {
    if |es| <= n then es
    else if n > 0 then es[|es| - n..]
    else if -n <= |es| then es[-n..]
    else []
  }

  // ---- The ring as what was ever emitted, from some place on ----

  // Entry number i is all[i - 1]; the ring holds all[lo..].
  datatype Ring = Ring(all: seq<Entry>, lo: nat) {
    ghost predicate Valid(capacity: nat) {
      && lo <= |all| <= lo + capacity
      && forall i :: 0 <= i < |all| ==> all[i].seq_ == i + 1
    }

    function Held(): seq<Entry>
      requires lo <= |all|
    {
      all[lo..]
    }

    function Emitted(capacity: nat, level: string, logger: string, message: string): Ring {
      var all' := all + [Entry(|all| + 1, level, logger, message)];
      Ring(all', if lo + capacity < |all'| then |all'| - capacity else lo)
    }

    function Cleared(): Ring {
      Ring(all, |all|)
    }

    function Poll(after: int, f: Filter, n: int): seq<Entry>
      requires lo <= |all|
    {
      LastN(Select(Held(), after, f), n)
    }
  }

  lemma {:induction false} SelectAppend(a: seq<Entry>, b: seq<Entry>, after: int, f: Filter)
    ensures Select(a + b, after, f) == Select(a, after, f) + Select(b, after, f)
    decreases |a|
  {
    if a == [] {
      assert a + b == b;
    } else {
      assert (a + b)[1..] == a[1..] + b;
      SelectAppend(a[1..], b, after, f);
    }
  }

  ghost predicate Increasing(es: seq<Entry>) {
    forall i, j :: 0 <= i < j < |es| ==> es[i].seq_ < es[j].seq_
  }

  // Selecting takes exactly the matching entries above the lower end, and keeps their order.
  lemma {:induction false} SelectMembers(es: seq<Entry>, after: int, f: Filter, e: Entry)
    ensures e in Select(es, after, f) <==> e in es && (after == 0 || e.seq_ > after) && Matches(e, f)
    decreases |es|
  {
    if es == [] {
    } else {
      assert es == [es[0]] + es[1..];
      SelectMembers(es[1..], after, f, e);
    }
  }

  lemma {:induction false} SelectIncreasing(es: seq<Entry>, after: int, f: Filter)
    requires Increasing(es)
    ensures Increasing(Select(es, after, f))
    decreases |es|
  {
    if es == [] {
    } else {
      SelectIncreasing(es[1..], after, f);
      var rest := Select(es[1..], after, f);
      forall i | 0 <= i < |rest| ensures es[0].seq_ < rest[i].seq_ {
        SelectMembers(es[1..], after, f, rest[i]);
        var k :| 0 <= k < |es[1..]| && es[1..][k] == rest[i];
        assert es[k + 1] == rest[i];
      }
    }
  }

  lemma NothingSelected(es: seq<Entry>, after: int, f: Filter)
    requires forall e :: e in es && (after == 0 || e.seq_ > after) ==> !Matches(e, f)
    ensures Select(es, after, f) == []
  {
    var chosen := Select(es, after, f);
    if chosen != [] {
      SelectMembers(es, after, f, chosen[0]);
    }
  }

  // ---- What one poll returns ----

  // Matching entries above the lower end that are no longer in the ring.
  function Lost(r: Ring, after: int, f: Filter): seq<Entry>
    requires r.lo <= |r.all|
  {
    Select(r.all[..r.lo], after, f)
  }

  // Whether cutting to the last n keeps all.
  predicate KeepsAll(count: nat, n: int) {
    count <= n || n == 0 || count == 0
  }

  lemma LastNMeans(es: seq<Entry>, n: int)
    ensures |LastN(es, n)| <= |es| && LastN(es, n) == es[|es| - |LastN(es, n)|..]
    ensures LastN(es, n) == es <==> KeepsAll(|es|, n)
  {
  }

  // A poll returns every matching entry since `after` exactly when none of them was evicted or cleared and
  // they are at most n, or n is 0.
  lemma PollCompleteIff(r: Ring, capacity: nat, after: int, f: Filter, n: int)
    requires r.Valid(capacity)
    ensures r.Poll(after, f, n) == Select(r.all, after, f) <==>
            Lost(r, after, f) == [] && KeepsAll(|Select(r.all, after, f)|, n)
  {
    assert r.all == r.all[..r.lo] + r.Held();
    SelectAppend(r.all[..r.lo], r.Held(), after, f);
    LastNMeans(Select(r.Held(), after, f), n);
  }

  // Nothing is lost while the ring still holds every entry numbered above `after`, matching or not. When that
  // is so in a run is what KeepsUp says below.
  lemma NothingLost(r: Ring, capacity: nat, after: int, f: Filter)
    requires r.Valid(capacity) && r.lo <= after
    ensures Lost(r, after, f) == []
  {
    NoneSelected(r.all[..r.lo], after, f);
  }

  lemma NoneSelected(es: seq<Entry>, after: int, f: Filter)
    requires forall i :: 0 <= i < |es| ==> after != 0 && es[i].seq_ <= after
    ensures Select(es, after, f) == []
  {
    NothingSelected(es, after, f);
  }

  // Fitting the capacity is not enough for the matching entries alone: others push them out.
  lemma OthersEvict()
    ensures var r := Ring([], 0).Emitted(1, "ERROR", "a", "x").Emitted(1, "INFO", "a", "y");
      && r.Valid(1) && |Select(r.all, 0, Filter("ERROR", "", ""))| == 1
      && r.Poll(0, Filter("ERROR", "", ""), 50) == []
  {
    var r := Ring([], 0).Emitted(1, "ERROR", "a", "x").Emitted(1, "INFO", "a", "y");
    var x, y := Entry(1, "ERROR", "a", "x"), Entry(2, "INFO", "a", "y");
    assert r == Ring([x, y], 1);
    assert Upper("ERROR") == "ERROR";
    assert r.Held() == [y] && Select([y], 0, Filter("ERROR", "", "")) == [];
    assert r.all[1..] == [y];
    assert Select(r.all, 0, Filter("ERROR", "", "")) == [x];
  }

  // ---- Runs of a polling client ----

  datatype Step = Emit(level: string, logger: string, message: string) | Clear | Poll(n: int)

  // The client polls with the number of the last entry it got.
  datatype State = State(ring: Ring, last: int, got: seq<Entry>)

  function Next(s: State, capacity: nat, f: Filter, step: Step): State
    requires s.ring.lo <= |s.ring.all|
  {
    match step
    case Emit(level, logger, message) => s.(ring := s.ring.Emitted(capacity, level, logger, message))
    case Clear => s.(ring := s.ring.Cleared())
    case Poll(n) =>
      var es := s.ring.Poll(s.last, f, n);
      if es == [] then s else State(s.ring, es[|es| - 1].seq_, s.got + es)
  }

  ghost predicate Run(states: seq<State>, capacity: nat, f: Filter, steps: seq<Step>) {
    && |states| == |steps| + 1
    && states[0].ring.Valid(capacity) && states[0].got == []
    && forall i :: 0 <= i < |steps| ==>
         states[i].ring.lo <= |states[i].ring.all| && states[i + 1] == Next(states[i], capacity, f, steps[i])
  }

  // Every state: what the client got is increasing, above where it started, and ends at its last number.
  ghost predicate Sound(s: State, capacity: nat, f: Filter, start: int) {
    && s.ring.Valid(capacity)
    && Increasing(s.got)
    && (forall e :: e in s.got ==> e in s.ring.all && Matches(e, f) && start < e.seq_ <= s.last)
    && start <= s.last && (s.last == start || s.last <= |s.ring.all|)
  }

  lemma RingStep(r: Ring, capacity: nat, level: string, logger: string, message: string)
    requires r.Valid(capacity)
    ensures r.Emitted(capacity, level, logger, message).Valid(capacity) && r.Cleared().Valid(capacity)
    ensures r.all <= r.Emitted(capacity, level, logger, message).all
  {
  }

  lemma PollMeans(r: Ring, capacity: nat, after: int, f: Filter, n: int)
    requires r.Valid(capacity)
    ensures var es := r.Poll(after, f, n);
      && Increasing(es)
      && (forall e :: e in es ==> e in r.all && Matches(e, f) && after < e.seq_)
  {
    var held := r.Held();
    var es := r.Poll(after, f, n);
    assert Increasing(held);
    SelectIncreasing(held, after, f);
    LastNMeans(Select(held, after, f), n);
    forall e | e in es ensures e in r.all && Matches(e, f) && after < e.seq_ {
      SelectMembers(held, after, f, e);
      var i :| 0 <= i < |held| && held[i] == e;
      assert r.all[i + r.lo] == e;
    }
  }

  lemma IncreasingAppend(a: seq<Entry>, b: seq<Entry>, last: int)
    requires Increasing(a) && Increasing(b)
    requires (forall e :: e in a ==> e.seq_ <= last) && forall e :: e in b ==> last < e.seq_
    ensures Increasing(a + b)
  {
    forall i, j | 0 <= i < j < |a + b| ensures (a + b)[i].seq_ < (a + b)[j].seq_ {
      if i < |a| { assert a[i] in a; }
      if j >= |a| { assert b[j - |a|] in b; }
    }
  }

  lemma LastIsGreatest(es: seq<Entry>)
    requires Increasing(es) && es != []
    ensures forall e :: e in es ==> e.seq_ <= es[|es| - 1].seq_
  {
    forall e | e in es ensures e.seq_ <= es[|es| - 1].seq_ {
      var i :| 0 <= i < |es| && es[i] == e;
    }
  }

  lemma SoundAfter(s: State, capacity: nat, f: Filter, start: int, es: seq<Entry>)
    requires Sound(s, capacity, f, start) && es != [] && Increasing(es)
    requires forall e :: e in es ==> e in s.ring.all && Matches(e, f) && s.last < e.seq_
    ensures Sound(State(s.ring, es[|es| - 1].seq_, s.got + es), capacity, f, start)
  {
    LastIsGreatest(es);
    IncreasingAppend(s.got, es, s.last);
    assert es[|es| - 1] in s.ring.all;
  }

  lemma SoundPoll(s: State, capacity: nat, f: Filter, start: int, n: int)
    requires Sound(s, capacity, f, start)
    ensures Sound(Next(s, capacity, f, Poll(n)), capacity, f, start)
  {
    var es := s.ring.Poll(s.last, f, n);
    PollMeans(s.ring, capacity, s.last, f, n);
    if es != [] {
      SoundAfter(s, capacity, f, start, es);
    }
  }

  lemma SoundStep(s: State, capacity: nat, f: Filter, start: int, step: Step)
    requires Sound(s, capacity, f, start)
    ensures Sound(Next(s, capacity, f, step), capacity, f, start)
  {
    match step
    case Emit(level, logger, message) => RingStep(s.ring, capacity, level, logger, message);
    case Clear =>
    case Poll(n) => SoundPoll(s, capacity, f, start, n);
  }

  // Whatever is emitted or cleared in between, and whatever the filter and limits, a polling client gets
  // entries with strictly increasing numbers, none twice.
  lemma {:induction false} PollsNeverRepeat(states: seq<State>, capacity: nat, f: Filter, steps: seq<Step>, n: nat)
    requires Run(states, capacity, f, steps) && n <= |steps|
    ensures Sound(states[n], capacity, f, states[0].last)
  {
    if n == 0 {
    } else {
      PollsNeverRepeat(states, capacity, f, steps, n - 1);
      SoundStep(states[n - 1], capacity, f, states[0].last, steps[n - 1]);
    }
  }

  // The polls that return all that is new to the client.
  ghost predicate CompletePoll(s: State, f: Filter, step: Step)
    requires s.ring.lo <= |s.ring.all|
  {
    step.Poll? ==> Lost(s.ring, s.last, f) == [] && KeepsAll(|Select(s.ring.all, s.last, f)|, step.n)
  }

  // Up to its last number the client missed nothing.
  ghost predicate Complete(s: State, f: Filter, start: int) {
    forall e :: e in s.ring.all && Matches(e, f) && start < e.seq_ <= s.last ==> e in s.got
  }

  lemma CompleteStep(s: State, capacity: nat, f: Filter, start: int, step: Step)
    requires Sound(s, capacity, f, start) && Complete(s, f, start) && CompletePoll(s, f, step)
    ensures Complete(Next(s, capacity, f, step), f, start)
    ensures step.Poll? ==> forall e :: e in s.ring.all && Matches(e, f) && start < e.seq_ ==> e in Next(s, capacity, f, step).got
  {
    match step
    case Emit(level, logger, message) =>
      var e := Entry(|s.ring.all| + 1, level, logger, message);
      assert s.ring.Emitted(capacity, level, logger, message).all == s.ring.all + [e];
    case Clear =>
    case Poll(n) =>
      PollCompleteIff(s.ring, capacity, s.last, f, n);
      forall e | e in s.ring.all && Matches(e, f) && start < e.seq_
        ensures e in Next(s, capacity, f, step).got
      {
        SelectMembers(s.ring.all, s.last, f, e);
      }
  }

  // When every poll is complete, the client holds after each poll all matching entries emitted since it started.
  // Such polls need not keep up: with a limit of 0, or when only entries that do not match were evicted.
  lemma {:induction false} PollsMissNothing(states: seq<State>, capacity: nat, f: Filter, steps: seq<Step>, n: nat)
    requires Run(states, capacity, f, steps) && n <= |steps|
    requires forall i :: 0 <= i < n ==> states[i].ring.lo <= |states[i].ring.all| && CompletePoll(states[i], f, steps[i])
    ensures Complete(states[n], f, states[0].last)
    ensures n > 0 && steps[n - 1].Poll? ==>
              forall e :: e in states[n].ring.all && Matches(e, f) && e.seq_ > states[0].last <==> e in states[n].got
  {
    if n == 0 {
    } else {
      PollsMissNothing(states, capacity, f, steps, n - 1);
      PollsNeverRepeat(states, capacity, f, steps, n - 1);
      PollsNeverRepeat(states, capacity, f, steps, n);
      CompleteStep(states[n - 1], capacity, f, states[0].last, steps[n - 1]);
    }
  }

  // ---- When a polling client keeps up ----

  function Max(a: int, b: int): int {
    if a < b then b else a
  }

  // Where the client starts: at its number, or at the oldest entry the ring still has.
  function Base(s: State): int {
    Max(s.last, s.ring.lo)
  }

  // The number up to which nothing is new: what had been emitted at the latest poll, and before any poll the
  // place where the client starts.
  function Seen(states: seq<State>, steps: seq<Step>, i: nat): int
    requires |states| == |steps| + 1 && i <= |steps|
  {
    if i == 0 then Base(states[0]) else SeenAfter(states[i - 1], steps[i - 1], Seen(states, steps, i - 1))
  }

  function SeenAfter(s: State, step: Step, seen: int): int {
    if step.Poll? then Max(seen, |s.ring.all|) else seen
  }

  function Cut(all: seq<Entry>, seen: int): (c: nat)
    ensures c <= |all|
  {
    if seen < 0 then 0 else if seen <= |all| then seen else |all|
  }

  // The entries numbered above `seen`, and the others.
  function New(all: seq<Entry>, seen: int): seq<Entry> {
    all[Cut(all, seen)..]
  }

  function Old(all: seq<Entry>, seen: int): seq<Entry> {
    all[..Cut(all, seen)]
  }

  // What a caller can check: at a poll at most `capacity` entries, matching or not, were emitted since the
  // poll before, and the matching ones among them are at most n, which is positive; and the ring is only
  // cleared when nothing was emitted since that poll.
  predicate Keeps(s: State, capacity: nat, f: Filter, step: Step, seen: int) {
    var emitted := New(s.ring.all, seen);
    match step
    case Emit(_, _, _) => true
    case Clear => emitted == []
    case Poll(n) => |emitted| <= capacity && 1 <= n && |Select(emitted, 0, f)| <= n
  }

  predicate KeepsUp(states: seq<State>, capacity: nat, f: Filter, steps: seq<Step>, i: nat)
    requires |states| == |steps| + 1 && i < |steps|
  {
    Keeps(states[i], capacity, f, steps[i], Seen(states, steps, i))
  }

  // What holds all along: the client has exactly the matching entries up to `seen`, and the ring holds all
  // newer ones as far as its capacity goes.
  ghost predicate Caught(s: State, s0: State, capacity: nat, f: Filter, seen: int) {
    && Sound(s, capacity, f, s0.last)
    && s0.ring.lo <= s.ring.lo && s.last <= seen && Base(s0) <= seen
    && (seen == Base(s0) || seen <= |s.ring.all|)
    && s.ring.lo <= Max(seen, |s.ring.all| - capacity)
    && s.got == Select(Old(s.ring.all, seen), Base(s0), f)
  }

  lemma {:induction false} SelectAbove(es: seq<Entry>, after: int, f: Filter)
    requires forall i :: 0 <= i < |es| ==> es[i].seq_ > after
    ensures Select(es, after, f) == Select(es, 0, f)
    decreases |es|
  {
    if es == [] {
    } else {
      assert forall i :: 0 <= i < |es[1..]| ==> es[1..][i] == es[i + 1];
      SelectAbove(es[1..], after, f);
    }
  }

  lemma StartCaught(s: State, capacity: nat, f: Filter)
    requires s.ring.Valid(capacity) && s.got == []
    ensures Caught(s, s, capacity, f, Base(s))
  {
    NothingSelected(Old(s.ring.all, Base(s)), Base(s), f);
  }

  lemma EmitCaught(s: State, s0: State, capacity: nat, f: Filter, seen: int, level: string, logger: string, message: string)
    requires Caught(s, s0, capacity, f, seen)
    ensures Caught(Next(s, capacity, f, Emit(level, logger, message)), s0, capacity, f, seen)
  {
    SoundStep(s, capacity, f, s0.last, Emit(level, logger, message));
    var all, e := s.ring.all, Entry(|s.ring.all| + 1, level, logger, message);
    if seen <= |all| {
      assert Old(all + [e], seen) == Old(all, seen);
    } else {
      assert Old(all + [e], seen) == Old(all, seen) + [e];
      SelectAppend(Old(all, seen), [e], Base(s0), f);
      NothingSelected([e], Base(s0), f);
    }
  }

  // Of the entries up to `seen`, none that the ring held since the start is above the client's number.
  lemma NoneAboveLast(s: State, s0: State, capacity: nat, f: Filter, seen: int, lo: nat)
    requires Caught(s, s0, capacity, f, seen) && lo <= Cut(s.ring.all, seen)
    requires s0.ring.lo <= Max(lo, s0.last)
    ensures Select(Old(s.ring.all, seen)[lo..], s.last, f) == []
  {
    var old_ := Old(s.ring.all, seen);
    forall e | e in old_[lo..] && (s.last == 0 || e.seq_ > s.last)
      ensures !Matches(e, f)
    {
      var j :| 0 <= j < |old_[lo..]| && old_[lo..][j] == e;
      assert e == old_[lo + j] && e in old_ && e.seq_ == lo + j + 1;
      SelectMembers(old_, Base(s0), f, e);
    }
    NothingSelected(old_[lo..], s.last, f);
  }

  // The new entries are above any number up to `seen`.
  lemma NewSelected(all: seq<Entry>, seen: int, after: int, f: Filter)
    requires after <= seen && forall i :: 0 <= i < |all| ==> all[i].seq_ == i + 1
    ensures Select(New(all, seen), after, f) == Select(New(all, seen), 0, f)
  {
    var new_ := New(all, seen);
    forall i | 0 <= i < |new_| ensures new_[i].seq_ > after {
      assert new_[i] == all[Cut(all, seen) + i];
    }
    SelectAbove(new_, after, f);
  }

  // What is selected of all[lo..] when nothing is selected up to `seen`.
  lemma SplitSelect(all: seq<Entry>, lo: nat, seen: int, after: int, f: Filter)
    requires lo <= Cut(all, seen) && Select(Old(all, seen)[lo..], after, f) == []
    ensures Select(all[lo..], after, f) == Select(New(all, seen), after, f)
  {
    assert all[lo..] == Old(all, seen)[lo..] + New(all, seen);
    SelectAppend(Old(all, seen)[lo..], New(all, seen), after, f);
  }

  // All the new entries are still in the ring, and they are all a poll selects.
  lemma NewIsSelected(s: State, s0: State, capacity: nat, f: Filter, seen: int)
    requires Caught(s, s0, capacity, f, seen) && |New(s.ring.all, seen)| <= capacity
    ensures Select(s.ring.Held(), s.last, f) == Select(New(s.ring.all, seen), 0, f)
  {
    NoneAboveLast(s, s0, capacity, f, seen, s.ring.lo);
    SplitSelect(s.ring.all, s.ring.lo, seen, s.last, f);
    NewSelected(s.ring.all, seen, s.last, f);
  }

  lemma NewIsAllAbove(s: State, s0: State, capacity: nat, f: Filter, seen: int)
    requires Caught(s, s0, capacity, f, seen) && s0.ring.lo <= s0.last
    ensures Select(s.ring.all, s.last, f) == Select(New(s.ring.all, seen), 0, f)
  {
    NoneAboveLast(s, s0, capacity, f, seen, 0);
    SplitSelect(s.ring.all, 0, seen, s.last, f);
    assert s.ring.all[0..] == s.ring.all;
    NewSelected(s.ring.all, seen, s.last, f);
  }

  // A poll that keeps up returns exactly the new matching entries.
  lemma PollReturnsNew(s: State, s0: State, capacity: nat, f: Filter, seen: int, n: int)
    requires Caught(s, s0, capacity, f, seen) && Keeps(s, capacity, f, Poll(n), seen)
    ensures s.ring.Poll(s.last, f, n) == Select(New(s.ring.all, seen), 0, f)
    ensures s0.ring.lo <= s0.last ==> CompletePoll(s, f, Poll(n))
  {
    NewIsSelected(s, s0, capacity, f, seen);
    LastNMeans(Select(s.ring.Held(), s.last, f), n);
    if s0.ring.lo <= s0.last {
      NewIsAllAbove(s, s0, capacity, f, seen);
      PollCompleteIff(s.ring, capacity, s.last, f, n);
    }
  }

  lemma SelectOldNew(all: seq<Entry>, seen: int, base: int, f: Filter)
    requires base <= seen && forall i :: 0 <= i < |all| ==> all[i].seq_ == i + 1
    ensures Select(Old(all, seen), base, f) + Select(New(all, seen), 0, f) == Select(all, base, f)
  {
    assert all == Old(all, seen) + New(all, seen);
    SelectAppend(Old(all, seen), New(all, seen), base, f);
    NewSelected(all, seen, base, f);
  }

  // After a poll that keeps up the client has exactly the matching entries above where it started.
  lemma PollGetsAll(s: State, s0: State, capacity: nat, f: Filter, seen: int, n: int)
    requires Caught(s, s0, capacity, f, seen) && Keeps(s, capacity, f, Poll(n), seen)
    ensures s.ring.Poll(s.last, f, n) == Select(New(s.ring.all, seen), 0, f)
    ensures s0.ring.lo <= s0.last ==> CompletePoll(s, f, Poll(n))
    ensures Next(s, capacity, f, Poll(n)).got == Select(s.ring.all, Base(s0), f)
  {
    PollReturnsNew(s, s0, capacity, f, seen, n);
    SelectOldNew(s.ring.all, seen, Base(s0), f);
  }

  lemma PollCaught(s: State, s0: State, capacity: nat, f: Filter, seen: int, n: int)
    requires Caught(s, s0, capacity, f, seen) && Keeps(s, capacity, f, Poll(n), seen)
    ensures Caught(Next(s, capacity, f, Poll(n)), s0, capacity, f, Max(seen, |s.ring.all|))
  {
    PollGetsAll(s, s0, capacity, f, seen, n);
    SoundStep(s, capacity, f, s0.last, Poll(n));
    assert Old(s.ring.all, Max(seen, |s.ring.all|)) == s.ring.all;
  }

  lemma ClearCaught(s: State, s0: State, capacity: nat, f: Filter, seen: int)
    requires Caught(s, s0, capacity, f, seen) && Keeps(s, capacity, f, Clear, seen)
    ensures Caught(Next(s, capacity, f, Clear), s0, capacity, f, seen)
  {
    SoundStep(s, capacity, f, s0.last, Clear);
    assert |s.ring.all| <= seen;
  }

  lemma CaughtStep(s: State, s0: State, capacity: nat, f: Filter, seen: int, step: Step)
    requires Caught(s, s0, capacity, f, seen) && Keeps(s, capacity, f, step, seen)
    ensures Caught(Next(s, capacity, f, step), s0, capacity, f, SeenAfter(s, step, seen))
  {
    match step
    case Emit(level, logger, message) => EmitCaught(s, s0, capacity, f, seen, level, logger, message);
    case Clear => ClearCaught(s, s0, capacity, f, seen);
    case Poll(n) => PollCaught(s, s0, capacity, f, seen, n);
  }

  lemma {:induction false} RunCaught(states: seq<State>, capacity: nat, f: Filter, steps: seq<Step>, n: nat)
    requires Run(states, capacity, f, steps) && n <= |steps|
    requires forall i :: 0 <= i < n ==> KeepsUp(states, capacity, f, steps, i)
    ensures Caught(states[n], states[0], capacity, f, Seen(states, steps, n))
  {
    if n == 0 {
      StartCaught(states[0], capacity, f);
    } else {
      RunCaught(states, capacity, f, steps, n - 1);
      assert KeepsUp(states, capacity, f, steps, n - 1);
      CaughtStep(states[n - 1], states[0], capacity, f, Seen(states, steps, n - 1), steps[n - 1]);
    }
  }

  // A client that keeps up misses nothing: every poll returns exactly the matching entries emitted since the
  // poll before, and after it the client has, in order, exactly the matching entries above where it started.
  lemma KeepingUpMissesNothing(states: seq<State>, capacity: nat, f: Filter, steps: seq<Step>, n: nat)
    requires Run(states, capacity, f, steps) && n < |steps| && steps[n].Poll?
    requires forall i :: 0 <= i <= n ==> KeepsUp(states, capacity, f, steps, i)
    ensures states[n].ring.lo <= |states[n].ring.all|
    ensures states[n].ring.Poll(states[n].last, f, steps[n].n)
            == Select(New(states[n].ring.all, Seen(states, steps, n)), 0, f)
    ensures states[n + 1].got == Select(states[n + 1].ring.all, Base(states[0]), f)
    ensures states[0].ring.lo <= states[0].last ==> CompletePoll(states[n], f, steps[n])
  {
    RunCaught(states, capacity, f, steps, n);
    assert KeepsUp(states, capacity, f, steps, n);
    PollGetsAll(states[n], states[0], capacity, f, Seen(states, steps, n), steps[n].n);
  }

  // ---- The handler ----

  class RingBufferHandler {
    const capacity: nat
    var buffer: seq<Entry>
    var lastSeq: int
    // Everything ever emitted.
    ghost var all: seq<Entry>

    ghost function Now(): Ring
      requires |buffer| <= |all|
      reads this
    {
      Ring(all, |all| - |buffer|)
    }

    // The buffer is a contiguous block of numbers that ends at the current one, or is empty.
    ghost predicate Valid()
      reads this
    {
      && lastSeq == |all| && |buffer| <= |all|
      && Now().Valid(capacity) && buffer == Now().Held()
    }

    constructor (capacity: nat)
      ensures Valid() && this.capacity == capacity && all == []
    {
      this.capacity := capacity;
      buffer, lastSeq, all := [], 0, [];
    }

    // emit: nothing happens when the message cannot be rendered.
    method Emit(renders: bool, level: string, logger: string, message: string)
      requires Valid()
      modifies this
      ensures Valid()
      ensures Now() == if renders then old(Now()).Emitted(capacity, level, logger, message) else old(Now())
      ensures !renders ==> unchanged(this)
      ensures renders ==> lastSeq == old(lastSeq) + 1
      ensures renders ==>
                var es := old(buffer) + [Entry(lastSeq, level, logger, message)];
                buffer == if |es| > capacity then es[1..] else es
    {
      if renders {
        lastSeq := lastSeq + 1;
        buffer := buffer + [Entry(lastSeq, level, logger, message)];
        if |buffer| > capacity {
          buffer := buffer[1..];
        }
        all := all + [Entry(lastSeq, level, logger, message)];
      }
    }

    function GetEntries(afterSeq: int, f: Filter, n: int): (r: seq<Entry>)
      requires Valid()
      reads this
      ensures r == Now().Poll(afterSeq, f, n)
    {
      LastN(Select(buffer, afterSeq, f), n)
    }

    // clear: the numbers go on from where they were.
    method Clear()
      requires Valid()
      modifies this
      ensures Valid() && Now() == old(Now()).Cleared() && lastSeq == old(lastSeq) && buffer == []
    {
      buffer := [];
    }
  }
}
