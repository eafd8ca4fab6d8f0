/** The entries of the preserved chronology: authored groups, and automatic runs of what no
    group has taken. */
module TimelineRuns {
  import opened Wrappers
  import opened JsonValues
  import opened Sequences

  const TIME_LIMIT := 8_640_000_000_000_000
  const RUN_LIMIT := 250
  const RUN_GAP := 300_000

  datatype Event = Event(id: Text, itemId: Text, groupingKey: Text, start: Option<int>)

  datatype Group = Group(id: Text, ids: seq<Text>)

  datatype Alias = Alias(alias: Text, id: Text)

  predicate Timed(e: Event) {
    e.start.Some? && -TIME_LIMIT <= e.start.value <= TIME_LIMIT
  }

  predicate DistinctIds(events: seq<Event>) {
    forall i, j :: 0 <= i < j < |events| ==> events[i].id != events[j].id
  }

  function Flat(parts: seq<seq<Event>>): seq<Event> {
    if parts == [] then [] else Flat(parts[..|parts| - 1]) + parts[|parts| - 1]
  }

  // ---- authored groups

  function Named(events: seq<Event>): map<Text, Event> {
    if events == [] then map[] else Named(events[..|events| - 1])[events[|events| - 1].id := events[|events| - 1]]
  }

  /** The events by their names; an alias counts when what it stands for is on the page. */
  function Lookup(byId: map<Text, Event>, aliases: seq<Alias>): map<Text, Event> {
    if aliases == [] then byId
    else
      var before, last := Lookup(byId, aliases[..|aliases| - 1]), aliases[|aliases| - 1];
      if last.id in before then before[last.alias := before[last.id]] else before
  }

  function Members(byId: map<Text, Event>, ids: seq<Text>): seq<Event> {
    if ids == [] then []
    else Members(byId, ids[..|ids| - 1]) + if ids[|ids| - 1] in byId then [byId[ids[|ids| - 1]]] else []
  }

  /** A group shows when at least two members do and, on a partial page, all of them. */
  predicate Shows(members: seq<Event>, group: Group, complete: bool) {
    |members| >= 2 && (complete || |members| == |group.ids|) && forall i :: 0 <= i < |members| ==> Timed(members[i])
  }

  function Grouped(byId: map<Text, Event>, groups: seq<Group>, complete: bool): seq<seq<Event>> {
    if groups == [] then []
    else
      var last := groups[|groups| - 1];
      var members := Members(byId, last.ids);
      Grouped(byId, groups[..|groups| - 1], complete) + if Shows(members, last, complete) then [members] else []
  }

  function Rest(events: seq<Event>, consumed: set<Text>): seq<Event> {
    if events == [] then []
    else
      var last := events[|events| - 1];
      Rest(events[..|events| - 1], consumed) + if last.id in consumed then [] else [last]
  }

  // ---- automatic runs

  /** Does `next` go on with the run that `first` opened and `previous` ends so far? */
  predicate GoesOn(first: Event, previous: Event, next: Event) {
    && Timed(first) && Timed(next) && previous.start.Some? && next.start.value - previous.start.value <= RUN_GAP
    && next.itemId == first.itemId && next.groupingKey == first.groupingKey
  }

  /** A run: at most 250 events of one container and grouping key, close to each other. */
  predicate IsRun(run: seq<Event>, compact: bool) {
    && 0 < |run| <= RUN_LIMIT
    && forall k :: 0 < k < |run| ==> Linked(run, k, compact)
  }

  predicate Linked(run: seq<Event>, k: nat, compact: bool)
    requires 0 < k < |run|
  {
    compact && GoesOn(run[0], run[k - 1], run[k])
  }

  /** Could the run have taken the next event? */
  predicate Full(run: seq<Event>, next: Event, compact: bool)
    requires run != []
  {
    |run| == RUN_LIMIT || !compact || !GoesOn(run[0], run[|run| - 1], next)
  }

  /** The runs cut `events` in order, and none stops before it has to. */
  predicate CutsIntoRuns(runs: seq<seq<Event>>, events: seq<Event>, compact: bool) {
    && Flat(runs) == events
    && (forall i :: 0 <= i < |runs| ==> IsRun(runs[i], compact))
    && (forall i :: 0 < i < |runs| ==> Full(runs[i - 1], runs[i][0], compact))
  }

  /** Where the run that opens at `index` ends. */
  method RunEnd(rest: seq<Event>, index: nat, compact: bool) returns (end: nat)
    requires index < |rest|
    ensures index < end <= |rest| && IsRun(rest[index..end], compact)
    ensures end < |rest| ==> Full(rest[index..end], rest[end], compact)
  {
    var first := rest[index];
    end := index + 1;
    while compact && Timed(first) && end < |rest| && end - index < RUN_LIMIT && Timed(rest[end])
          && rest[end].start.value - rest[end - 1].start.value <= RUN_GAP
          && rest[end].itemId == first.itemId && rest[end].groupingKey == first.groupingKey
      invariant index < end <= |rest| && IsRun(rest[index..end], compact)
      invariant Timed(first) ==> rest[end - 1].start.Some?
      decreases |rest| - end
    {
      RunGrows(rest[index..end], rest[end], compact);
      assert rest[index..end + 1] == rest[index..end] + [rest[end]];
      end := end + 1;
    }
  }

  lemma RunGrows(run: seq<Event>, next: Event, compact: bool)
    requires IsRun(run, compact) && |run| < RUN_LIMIT && compact && GoesOn(run[0], run[|run| - 1], next)
    ensures IsRun(run + [next], compact)
  {
    forall k | 0 < k <= |run| ensures Linked(run + [next], k, compact) {
      assert k < |run| ==> Linked(run, k, compact);
    }
  }

  method AutomaticRuns(rest: seq<Event>, compact: bool) returns (runs: seq<seq<Event>>)
    ensures CutsIntoRuns(runs, rest, compact)
  {
    runs := [];
    var index := 0;
    while index < |rest|
      invariant index <= |rest|
      invariant CutsIntoRuns(runs, rest[..index], compact)
      invariant runs != [] && index < |rest| ==> Full(runs[|runs| - 1], rest[index], compact)
      decreases |rest| - index
    {
      var end := RunEnd(rest, index, compact);
      CutsNext(runs, rest[..index], rest[index..end], compact);
      assert rest[..end] == rest[..index] + rest[index..end];
      runs := runs + [rest[index..end]];
      index := end;
    }
    assert rest[..|rest|] == rest;
  }

  lemma CutsNext(runs: seq<seq<Event>>, events: seq<Event>, run: seq<Event>, compact: bool)
    requires CutsIntoRuns(runs, events, compact) && IsRun(run, compact)
    requires runs != [] ==> Full(runs[|runs| - 1], run[0], compact)
    ensures CutsIntoRuns(runs + [run], events + run, compact)
  {
    assert (runs + [run])[..|runs|] == runs;
    forall i | 0 < i < |runs + [run]| ensures Full((runs + [run])[i - 1], (runs + [run])[i][0], compact) {
      assert i < |runs| ==> Full(runs[i - 1], runs[i][0], compact);
    }
  }

  /** The whole collection, before the entries are put in the order of their times. */
  method Collect(events: seq<Event>, aliases: seq<Alias>, groups: seq<Group>, complete: bool, compact: bool)
    returns (grouped: seq<seq<Event>>, runs: seq<seq<Event>>)
    ensures grouped == Grouped(Lookup(Named(events), aliases), groups, complete)
    ensures CutsIntoRuns(runs, Rest(events, Ids(Flat(grouped))), complete && compact)
  {
    var byId := NameEvents(events, aliases);
    var consumed: set<Text> := {};
    grouped := [];
    for g := 0 to |groups|
      invariant grouped == Grouped(byId, groups[..g], complete)
      invariant consumed == Ids(Flat(grouped))
    {
      grouped, consumed := TakeGroup(byId, groups, g, complete, grouped, consumed);
    }
    assert groups[..|groups|] == groups;
    var rest := FindRest(events, consumed);
    runs := AutomaticRuns(rest, complete && compact);
  }

  /** One authored group, shown if it can be. */
  method TakeGroup(byId: map<Text, Event>, groups: seq<Group>, g: nat, complete: bool,
                   before: seq<seq<Event>>, taken: set<Text>)
    returns (grouped: seq<seq<Event>>, consumed: set<Text>)
    requires g < |groups| && before == Grouped(byId, groups[..g], complete) && taken == Ids(Flat(before))
    ensures grouped == Grouped(byId, groups[..g + 1], complete) && consumed == Ids(Flat(grouped))
  {
    assert groups[..g + 1][..g] == groups[..g];
    var group := groups[g];
    var members := FindMembers(byId, group.ids);
    grouped, consumed := before, taken;
    if |members| < 2 || (!complete && |members| != |group.ids|)
       || exists i :: 0 <= i < |members| && !Timed(members[i]) {
      return;
    }
    assert (before + [members])[..|before|] == before;
    IdsAppend(Flat(before), members);
    consumed := consumed + Ids(members);
    grouped := grouped + [members];
  }

  method FindMembers(byId: map<Text, Event>, ids: seq<Text>) returns (members: seq<Event>)
    ensures members == Members(byId, ids)
  {
    members := [];
    for i := 0 to |ids|
      invariant members == Members(byId, ids[..i])
    {
      assert ids[..i + 1][..i] == ids[..i];
      if ids[i] in byId {
        members := members + [byId[ids[i]]];
      }
    }
    assert ids[..|ids|] == ids;
  }

  method FindRest(events: seq<Event>, consumed: set<Text>) returns (rest: seq<Event>)
    ensures rest == Rest(events, consumed)
  {
    rest := [];
    for i := 0 to |events|
      invariant rest == Rest(events[..i], consumed)
    {
      assert events[..i + 1][..i] == events[..i];
      if events[i].id !in consumed {
        rest := rest + [events[i]];
      }
    }
    assert events[..|events|] == events;
  }

  method NameEvents(events: seq<Event>, aliases: seq<Alias>) returns (byId: map<Text, Event>)
    ensures byId == Lookup(Named(events), aliases)
  {
    byId := map[];
    for i := 0 to |events|
      invariant byId == Named(events[..i])
    {
      assert events[..i + 1][..i] == events[..i];
      byId := byId[events[i].id := events[i]];
    }
    assert events[..|events|] == events;
    for i := 0 to |aliases|
      invariant byId == Lookup(Named(events), aliases[..i])
    {
      assert aliases[..i + 1][..i] == aliases[..i];
      if aliases[i].id in byId {
        byId := byId[aliases[i].alias := byId[aliases[i].id]];
      }
    }
    assert aliases[..|aliases|] == aliases;
  }

  function Ids(events: seq<Event>): set<Text> {
    set i | 0 <= i < |events| :: events[i].id
  }

  lemma IdsAppend(a: seq<Event>, b: seq<Event>)
    ensures Ids(a + b) == Ids(a) + Ids(b)
  {
    forall x | x in Ids(a) + Ids(b) ensures x in Ids(a + b) {
      if x in Ids(a) {
        var i :| 0 <= i < |a| && a[i].id == x;
        assert (a + b)[i].id == x;
      } else {
        var i :| 0 <= i < |b| && b[i].id == x;
        assert (a + b)[|a| + i].id == x;
      }
    }
  }

  // ---- the runs are the only way to cut

  lemma {:induction false} FlatFront(parts: seq<seq<Event>>)
    requires parts != []
    ensures Flat(parts) == parts[0] + Flat(parts[1..])
    decreases |parts|
  {
    if |parts| == 1 {
      assert parts[..0] == [] && parts[1..] == [] && Flat(parts[..0]) == [];
    } else {
      var front, rest, last := parts[..|parts| - 1], parts[1..], parts[|parts| - 1];
      FlatFront(front);
      assert front[0] == parts[0] && rest[|rest| - 1] == last;
      assert parts[..|parts| - 1][1..] == parts[1..][..|parts| - 2];
    }
  }

  /** A cut that goes on after its first run could not have made that run longer. */
  lemma FirstRunIsFull(runs: seq<seq<Event>>, events: seq<Event>, compact: bool)
    requires CutsIntoRuns(runs, events, compact) && runs != []
    ensures runs[0] <= events
    ensures |runs[0]| < |events| ==> Full(runs[0], events[|runs[0]|], compact)
  {
    FlatFront(runs);
    if |runs| > 1 {
      FlatFront(runs[1..]);
      assert Full(runs[1 - 1], runs[1][0], compact);
      assert runs[1][0] == events[|runs[0]|];
    }
  }

  /** The first run cannot be shorter in one cut than in another. */
  lemma FirstRun(a: seq<seq<Event>>, b: seq<seq<Event>>, events: seq<Event>, compact: bool)
    requires CutsIntoRuns(a, events, compact) && CutsIntoRuns(b, events, compact) && a != [] && b != []
    ensures |a[0]| >= |b[0]|
  {
    FirstRunIsFull(a, events, compact);
    FirstRunIsFull(b, events, compact);
    assert a[0] == events[..|a[0]|];
    if |a[0]| < |b[0]| {
      RunGoesThrough(b[0], events, |a[0]|, compact);
    }
  }

  lemma RunGoesThrough(run: seq<Event>, events: seq<Event>, n: nat, compact: bool)
    requires IsRun(run, compact) && run <= events && 0 < n < |run|
    ensures !Full(events[..n], events[n], compact)
  {
    assert Linked(run, n, compact);
    assert events[..n][n - 1] == run[n - 1];
  }

  /** Greedy maximality leaves no choice: the runs are determined by the events. */
  lemma {:induction false} OneWayToCut(a: seq<seq<Event>>, b: seq<seq<Event>>, events: seq<Event>, compact: bool)
    requires CutsIntoRuns(a, events, compact) && CutsIntoRuns(b, events, compact)
    ensures a == b
    decreases |a|
  {
    if a == [] {
      if b != [] {
        FlatFront(b);
      }
    } else {
      FlatFront(a);
      if b != [] {
        FlatFront(b);
        FirstRun(a, b, events, compact);
        FirstRun(b, a, events, compact);
        assert a[0] == events[..|a[0]|] && b[0] == events[..|b[0]|];
        var rest := events[|a[0]|..];
        CutsLater(a, events, compact);
        CutsLater(b, events, compact);
        OneWayToCut(a[1..], b[1..], rest, compact);
        assert a == [a[0]] + a[1..] && b == [b[0]] + b[1..];
      }
    }
  }

  lemma CutsLater(runs: seq<seq<Event>>, events: seq<Event>, compact: bool)
    requires CutsIntoRuns(runs, events, compact) && runs != []
    ensures |runs[0]| <= |events| && CutsIntoRuns(runs[1..], events[|runs[0]|..], compact)
  {
    FlatFront(runs);
    forall i | 0 < i < |runs[1..]| ensures Full(runs[1..][i - 1], runs[1..][i][0], compact) {
      assert Full(runs[(i + 1) - 1], runs[i + 1][0], compact);
    }
  }

  // ---- no event is lost, and none shows twice unless the groups share it

  lemma {:induction false} RestMember(events: seq<Event>, consumed: set<Text>, e: Event)
    ensures multiset(Rest(events, consumed))[e] == if e.id in consumed then 0 else multiset(events)[e]
    decreases |events|
  {
    if events != [] {
      var n := |events| - 1;
      RestMember(events[..n], consumed, e);
      assert events == events[..n] + [events[n]];
    }
  }

  lemma {:induction false} DistinctCounts(events: seq<Event>)
    ensures Distinct(events) <==> forall e :: multiset(events)[e] <= 1
    decreases |events|
  {
    if events != [] {
      var n := |events| - 1;
      var front, last := events[..n], events[n];
      DistinctCounts(front);
      assert events == front + [last];
      if Distinct(events) {
        assert Distinct(front);
        assert last !in front;
      } else if Distinct(front) {
        var i, j :| 0 <= i < j < |events| && events[i] == events[j];
        assert j == n && front[i] == last;
        assert last in front;
        assert multiset(events)[last] > 1;
      } else {
        var e :| multiset(front)[e] > 1;
        assert multiset(events)[e] > 1;
      }
    }
  }

  /** Everything that a name stands for is an event of the page. */
  lemma {:induction false} LookupOnPage(events: seq<Event>, aliases: seq<Alias>)
    ensures forall name :: name in Lookup(Named(events), aliases) ==> Lookup(Named(events), aliases)[name] in events
    decreases |aliases|
  {
    if aliases == [] {
      NamedOnPage(events);
    } else {
      LookupOnPage(events, aliases[..|aliases| - 1]);
    }
  }

  lemma {:induction false} NamedOnPage(events: seq<Event>)
    ensures forall name :: name in Named(events) ==> Named(events)[name] in events
    decreases |events|
  {
    if events != [] {
      var n := |events| - 1;
      NamedOnPage(events[..n]);
      assert events == events[..n] + [events[n]];
    }
  }

  lemma {:induction false} MembersOnPage(byId: map<Text, Event>, ids: seq<Text>, events: seq<Event>)
    requires forall name :: name in byId ==> byId[name] in events
    ensures forall e :: e in Members(byId, ids) ==> e in events
    decreases |ids|
  {
    if ids != [] {
      MembersOnPage(byId, ids[..|ids| - 1], events);
    }
  }

  lemma {:induction false} GroupedOnPage(byId: map<Text, Event>, groups: seq<Group>, complete: bool, events: seq<Event>)
    requires forall name :: name in byId ==> byId[name] in events
    ensures forall e :: e in Flat(Grouped(byId, groups, complete)) ==> e in events
    decreases |groups|
  {
    if groups != [] {
      var n := |groups| - 1;
      GroupedOnPage(byId, groups[..n], complete, events);
      MembersOnPage(byId, groups[n].ids, events);
      var before, members := Grouped(byId, groups[..n], complete), Members(byId, groups[n].ids);
      if Shows(members, groups[n], complete) {
        assert (before + [members])[..|before|] == before;
      } else {
        assert before + [] == before;
      }
    }
  }

  /** An event of the page is left to the runs exactly when no group has taken it. */
  lemma TakenOrLeft(events: seq<Event>, taken: seq<Event>, e: Event)
    requires DistinctIds(events) && forall t :: t in taken ==> t in events
    ensures multiset(Rest(events, Ids(taken)))[e] == if e in taken then 0 else multiset(events)[e]
  {
    RestMember(events, Ids(taken), e);
    if e in taken {
      var i :| 0 <= i < |taken| && taken[i] == e;
      assert taken[i].id in Ids(taken);
    } else {
      assert forall i :: 0 <= i < |taken| ==> taken[i] in taken && taken[i] in events;
    }
  }

  /** With one event for each identifier, every event of the page lies in a group or a run; it
      lies in exactly one, once, if and only if no two showing groups share an event and none
      names one twice. */
  lemma EventsConserved(events: seq<Event>, aliases: seq<Alias>, groups: seq<Group>, complete: bool,
                        runs: seq<seq<Event>>, compact: bool)
    requires DistinctIds(events)
    requires var taken := Flat(Grouped(Lookup(Named(events), aliases), groups, complete));
             CutsIntoRuns(runs, Rest(events, Ids(taken)), compact)
    ensures var taken := Flat(Grouped(Lookup(Named(events), aliases), groups, complete));
            && (forall e :: e in events ==> e in taken || e in Flat(runs))
            && (Distinct(taken) <==> multiset(taken) + multiset(Flat(runs)) == multiset(events))
  {
    var byId := Lookup(Named(events), aliases);
    var taken := Flat(Grouped(byId, groups, complete));
    LookupOnPage(events, aliases);
    GroupedOnPage(byId, groups, complete, events);
    Shared(events, taken, Flat(runs));
  }

  lemma Shared(events: seq<Event>, taken: seq<Event>, left: seq<Event>)
    requires DistinctIds(events) && (forall t :: t in taken ==> t in events) && left == Rest(events, Ids(taken))
    ensures forall e :: e in events ==> e in taken || e in left
    ensures Distinct(taken) <==> multiset(taken) + multiset(left) == multiset(events)
  {
    DistinctCounts(events);
    DistinctCounts(taken);
    forall e: Event ensures multiset(left)[e] == if e in taken then 0 else multiset(events)[e] {
      TakenOrLeft(events, taken, e);
    }
    if Distinct(taken) {
      assert multiset(taken) + multiset(left) == multiset(events);
    } else {
      var e :| multiset(taken)[e] > 1;
      assert multiset(events)[e] <= 1;
      assert (multiset(taken) + multiset(left))[e] > 1;
    }
  }
}
