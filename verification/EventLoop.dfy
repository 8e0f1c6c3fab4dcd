/**
  The event loop, epoll build (rdp-server/eventloop.c).

  Sources live in memory until a cleanup at the end of a dispatch frees those marked for removal. The
  memory is a map, so that every dereference is checked; addresses are never used twice. Callbacks make
  any calls they like on sources that still exist: their behaviour says for every callback, first, second
  and so on without end, which calls it makes. A turn of the loop need not end, so it is followed for any
  given number of rescheduled sources.
*/
module EventLoop {
  type Id = nat
  datatype Interest = Read | Write | Error | Hangup
  datatype Source = Source(mask: set<Interest>, marked: bool, rescheduleMask: set<Interest>)

  /** What code inside a callback, or between two dispatches, may call. */
  datatype Call = Add(mask: set<Interest>) | Reschedule(id: Id, interest: Interest) | Remove(id: Id) | Change(id: Id, mask: set<Interest>)

  type Memory = map<Id, Source>

  // ------------------------------------------------------- what happened, and in which order

  /** Ran: on a report, with the interests of it the source is registered for. Recalled: because it was rescheduled. */
  datatype Event =
    | Added(id: Id, mask: set<Interest>)
    | Changed(id: Id, mask: set<Interest>)
    | Asked(id: Id, interest: Interest)
    | Ran(id: Id, reported: set<Interest>, mask: set<Interest>)
    | Recalled(id: Id, mask: set<Interest>)
    | Removed(id: Id)
    | Freed(id: Id)

  function AddedIn(log: seq<Event>): set<Id> {
    if log == [] then {}
    else var e := log[|log| - 1]; AddedIn(log[..|log| - 1]) + if e.Added? then {e.id} else {}
  }

  function RemovedIn(log: seq<Event>): set<Id> {
    if log == [] then {}
    else var e := log[|log| - 1]; RemovedIn(log[..|log| - 1]) + if e.Removed? then {e.id} else {}
  }

  function FreedIn(log: seq<Event>): set<Id> {
    if log == [] then {}
    else var e := log[|log| - 1]; FreedIn(log[..|log| - 1]) + if e.Freed? then {e.id} else {}
  }

  /** The interests a source is registered for. */
  function MaskIn(log: seq<Event>, id: Id): set<Interest> {
    if log == [] then {}
    else
      var e := log[|log| - 1];
      if (e.Added? || e.Changed?) && e.id == id then e.mask else MaskIn(log[..|log| - 1], id)
  }

  /** The interests it was rescheduled for since it was last called for that. */
  function AskedIn(log: seq<Event>, id: Id): set<Interest> {
    if log == [] then {}
    else
      var e, before := log[|log| - 1], AskedIn(log[..|log| - 1], id);
      if e.id != id then before
      else if e.Added? || e.Recalled? then {}
      else if e.Asked? then before + {e.interest}
      else before
  }

  predicate Running(log: seq<Event>, id: Id) {
    id in AddedIn(log) && id !in RemovedIn(log) && id !in FreedIn(log)
  }

  /**
    May e come next? A callback needs a source that is neither removed nor freed, and is handed exactly the
    interests that were reported or asked for; a source is freed once.
  */
  predicate Allowed(log: seq<Event>, e: Event) {
    match e
    case Added(id, _) => id !in AddedIn(log)
    case Changed(id, _) => id in AddedIn(log) && id !in FreedIn(log)
    case Asked(id, _) => id in AddedIn(log) && id !in FreedIn(log)
    case Ran(id, reported, mask) => Running(log, id) && mask == MaskIn(log, id) * reported
    case Recalled(id, mask) => Running(log, id) && mask == AskedIn(log, id) != {}
    case Removed(id) => Running(log, id)
    case Freed(id) => id in AddedIn(log) && id !in FreedIn(log)
  }

  predicate Safe(log: seq<Event>) {
    log == [] || (Safe(log[..|log| - 1]) && Allowed(log[..|log| - 1], log[|log| - 1]))
  }

  lemma Append(log: seq<Event>, e: Event)
    ensures AddedIn(log + [e]) == AddedIn(log) + if e.Added? then {e.id} else {}
    ensures RemovedIn(log + [e]) == RemovedIn(log) + if e.Removed? then {e.id} else {}
    ensures FreedIn(log + [e]) == FreedIn(log) + if e.Freed? then {e.id} else {}
    ensures Safe(log + [e]) <==> Safe(log) && Allowed(log, e)
  {
    assert (log + [e])[..|log|] == log;
  }

  lemma AppendMasks(log: seq<Event>, e: Event, id: Id)
    ensures MaskIn(log + [e], id) == if (e.Added? || e.Changed?) && e.id == id then e.mask else MaskIn(log, id)
    ensures AskedIn(log + [e], id) == if e.id != id then AskedIn(log, id)
                                      else if e.Added? || e.Recalled? then {}
                                      else if e.Asked? then AskedIn(log, id) + {e.interest}
                                      else AskedIn(log, id)
  {
    assert (log + [e])[..|log|] == log;
  }

  /** In a safe log every callback is handed what it is for. */
  lemma MasksAreRight(log: seq<Event>, j: nat)
    requires Safe(log) && j < |log|
    ensures log[j].Ran? ==> log[j].mask == MaskIn(log[..j], log[j].id) * log[j].reported
    ensures log[j].Recalled? ==> log[j].mask == AskedIn(log[..j], log[j].id) && log[j].mask != {}
  {
    SafeAt(log, j);
  }

  lemma {:induction false} SafeAt(log: seq<Event>, j: nat)
    requires Safe(log) && j < |log|
    ensures Allowed(log[..j], log[j])
  {
    if j < |log| - 1 {
      SafeAt(log[..|log| - 1], j);
      assert log[..|log| - 1][..j] == log[..j];
    }
  }

  lemma {:induction false} Recorded(log: seq<Event>, i: nat)
    requires i < |log|
    ensures log[i].Removed? ==> log[i].id in RemovedIn(log)
    ensures log[i].Freed? ==> log[i].id in FreedIn(log)
  {
    if i < |log| - 1 {
      Recorded(log[..|log| - 1], i);
    }
  }

  /** In a safe log no callback runs on a source after its removal or its release. */
  lemma NoCallbackAfter(log: seq<Event>, i: nat, j: nat)
    requires Safe(log) && i < j < |log| && (log[i].Removed? || log[i].Freed?)
    ensures log[j].Ran? || log[j].Recalled? ==> log[j].id != log[i].id
  {
    SafeAt(log, j);
    Recorded(log[..j], i);
  }

  /** In a safe log no source is freed twice. */
  lemma FreedOnce(log: seq<Event>, i: nat, j: nat)
    requires Safe(log) && i < j < |log| && log[i].Freed?
    ensures log[j].Freed? ==> log[j].id != log[i].id
  {
    SafeAt(log, j);
    Recorded(log[..j], i);
  }

  function CalledIn(log: seq<Event>): set<Id> {
    if log == [] then {}
    else var e := log[|log| - 1]; CalledIn(log[..|log| - 1]) + if e.Ran? || e.Recalled? then {e.id} else {}
  }

  lemma {:induction false} LogGrows(a: seq<Event>, b: seq<Event>)
    requires a <= b
    ensures RemovedIn(a) <= RemovedIn(b) && CalledIn(a) <= CalledIn(b)
  {
    if |a| < |b| {
      LogGrows(a, b[..|b| - 1]);
    } else {
      assert a == b;
    }
  }

  /** The sources whose callback ran since position n, or that were removed. */
  function Served(log: seq<Event>, n: nat): set<Id>
    requires n <= |log|
  {
    RemovedIn(log) + CalledIn(log[n..])
  }

  lemma ServedGrows(a: seq<Event>, b: seq<Event>, n: nat)
    requires a <= b && n <= |a|
    ensures Served(a, n) <= Served(b, n)
  {
    LogGrows(a, b);
    LogGrows(a[n..], b[n..]);
  }

  lemma RanIsServed(before: seq<Event>, e: Event, log: seq<Event>, n: nat)
    requires before + [e] <= log && n <= |before| && (e.Ran? || e.Recalled?)
    ensures e.id in Served(log, n)
  {
    var part := (before + [e])[n..];
    assert part == before[n..] + [e];
    assert part[..|part| - 1] == before[n..];
    LogGrows(part, log[n..]);
  }

  // ------------------------------------------------------------------- lists

  function Elems(s: seq<Id>): set<Id> {
    if s == [] then {} else {s[0]} + Elems(s[1..])
  }

  predicate Distinct(s: seq<Id>) {
    s == [] || (s[0] !in Elems(s[1..]) && Distinct(s[1..]))
  }

  lemma First(id: Id, s: seq<Id>)
    ensures Elems([id] + s) == {id} + Elems(s)
    ensures Distinct([id] + s) <==> id !in Elems(s) && Distinct(s)
  {
    assert ([id] + s)[1..] == s;
  }

  lemma {:induction false} Last(s: seq<Id>, id: Id)
    ensures Elems(s + [id]) == Elems(s) + {id}
    ensures Distinct(s) && id !in Elems(s) ==> Distinct(s + [id])
  {
    if s == [] {
      assert s + [id] == [id] + [];
      First(id, []);
    } else {
      assert s + [id] == [s[0]] + (s[1..] + [id]);
      First(s[0], s[1..] + [id]);
      Last(s[1..], id);
    }
  }

  lemma {:induction false} ElemsPrefix(a: seq<Id>, b: seq<Id>)
    requires a <= b
    ensures Elems(a) <= Elems(b)
  {
    if a != [] {
      ElemsPrefix(a[1..], b[1..]);
    }
  }

  /** LinkedList_Remove. */
  function Without(s: seq<Id>, id: Id): seq<Id> {
    if s == [] then [] else if s[0] == id then s[1..] else [s[0]] + Without(s[1..], id)
  }

  lemma {:induction false} WithoutContents(s: seq<Id>, id: Id)
    requires Distinct(s)
    ensures Distinct(Without(s, id)) && Elems(Without(s, id)) == Elems(s) - {id}
  {
    if s != [] {
      WithoutContents(s[1..], id);
      First(s[0], Without(s[1..], id));
    }
  }

  /** The sources of reported events. */
  function Ids(events: seq<(Id, set<Interest>)>): set<Id> {
    if events == [] then {} else Ids(events[..|events| - 1]) + {events[|events| - 1].0}
  }

  lemma {:induction false} IdsHave(events: seq<(Id, set<Interest>)>, i: nat)
    requires i < |events|
    ensures events[i].0 in Ids(events) && Ids(events[..i + 1]) == Ids(events[..i]) + {events[i].0}
  {
    assert events[..i + 1][..i] == events[..i];
    if i < |events| - 1 {
      IdsHave(events[..|events| - 1], i);
    }
  }

  /** The kernel reports on watched sources only. */
  function Reportable(events: seq<(Id, set<Interest>)>, watched: set<Id>): (r: seq<(Id, set<Interest>)>)
    ensures Ids(r) <= watched
  {
    if events == [] then []
    else
      var r, e := Reportable(events[..|events| - 1], watched), events[|events| - 1];
      if e.0 in watched then assert (r + [e])[..|r|] == r; r + [e] else r
  }

  /** What happens between two turns of the loop, and what the kernel then reports. */
  datatype Turn = Turn(calls: seq<Call>, events: seq<(Id, set<Interest>)>)

  // ------------------------------------------------------------- invariants

  function Marked(m: Memory): set<Id> { set id | id in m && m[id].marked }

  ghost predicate SourcesOk(m: Memory, sources: seq<Id>, cleanups: seq<Id>, watched: set<Id>) {
    && Distinct(sources) && Elems(sources) == m.Keys
    && Distinct(cleanups) && Elems(cleanups) == Marked(m)
    && watched == m.Keys - Marked(m)
  }

  function Masked(m: Memory): set<Id> { set id | id in m && m[id].rescheduleMask != {} }

  /** The list holds live sources only, and every source that is to be called again, once. */
  ghost predicate PendingOk(m: Memory, pending: seq<Id>) {
    Distinct(pending) && Masked(m) - Marked(m) <= Elems(pending) <= Masked(m)
  }

  function Upto(n: Id): set<Id> { if n == 0 then {} else Upto(n - 1) + {n - 1} }

  lemma {:induction false} UptoHas(n: Id, id: Id)
    ensures id in Upto(n) <==> id < n
  {
    if n > 0 {
      UptoHas(n - 1, id);
    }
  }

  ghost predicate LogOk(m: Memory, next: Id, log: seq<Event>) {
    && Safe(log)
    && AddedIn(log) == Upto(next) == m.Keys + FreedIn(log)
    && m.Keys !! FreedIn(log)
    && RemovedIn(log) <= Upto(next)
    && RemovedIn(log) * m.Keys == Marked(m)
  }

  /** The masks in memory are those of the log. */
  ghost predicate MasksOk(m: Memory, log: seq<Event>) {
    forall id :: id in m ==> m[id].mask == MaskIn(log, id) && m[id].rescheduleMask == AskedIn(log, id)
  }

  // ------------------------------------------- what the calls do to the invariants

  /** One source and its masks change with an event about it. */
  lemma EventKeepsMasks(m: Memory, log: seq<Event>, e: Event, s: Source)
    requires MasksOk(m, log) && s.mask == MaskIn(log + [e], e.id) && s.rescheduleMask == AskedIn(log + [e], e.id)
    ensures MasksOk(m[e.id := s], log + [e])
  {
    forall id | id in m
      ensures id != e.id ==> m[id].mask == MaskIn(log + [e], id) && m[id].rescheduleMask == AskedIn(log + [e], id)
    {
      AppendMasks(log, e, id);
    }
  }

  lemma FreeKeepsMasks(m: Memory, log: seq<Event>, id: Id)
    requires MasksOk(m, log)
    ensures MasksOk(m - {id}, log + [Freed(id)])
  {
    forall i | i in m && i != id
      ensures m[i].mask == MaskIn(log + [Freed(id)], i) && m[i].rescheduleMask == AskedIn(log + [Freed(id)], i)
    {
      AppendMasks(log, Freed(id), i);
    }
  }

  lemma AddKeepsSets(m: Memory, id: Id, s: Source)
    requires id !in m && !s.marked && s.rescheduleMask == {}
    ensures var n := m[id := s]; n.Keys == m.Keys + {id} && Marked(n) == Marked(m) && Masked(n) == Masked(m)
  {}

  lemma AddKeepsSources(m: Memory, sources: seq<Id>, cleanups: seq<Id>, watched: set<Id>, id: Id, s: Source)
    requires SourcesOk(m, sources, cleanups, watched) && id !in m && !s.marked && s.rescheduleMask == {}
    ensures SourcesOk(m[id := s], [id] + sources, cleanups, watched + {id})
  {
    First(id, sources);
    AddKeepsSets(m, id, s);
  }

  lemma AddKeepsLog(m: Memory, next: Id, log: seq<Event>, s: Source)
    requires LogOk(m, next, log) && !s.marked && s.rescheduleMask == {}
    ensures next !in m && LogOk(m[next := s], next + 1, log + [Added(next, s.mask)])
  {
    UptoHas(next, next);
    Append(log, Added(next, s.mask));
    AddKeepsSets(m, next, s);
  }

  lemma RemoveKeepsSets(m: Memory, id: Id)
    requires id in m
    ensures var n := m[id := m[id].(marked := true)]; n.Keys == m.Keys && Marked(n) == Marked(m) + {id} && Masked(n) == Masked(m)
  {}

  lemma RemoveKeepsSources(m: Memory, sources: seq<Id>, cleanups: seq<Id>, watched: set<Id>, id: Id)
    requires SourcesOk(m, sources, cleanups, watched) && id in m && id !in Marked(m)
    ensures SourcesOk(m[id := m[id].(marked := true)], sources, [id] + cleanups, watched - {id})
  {
    First(id, cleanups);
    RemoveKeepsSets(m, id);
  }

  lemma RemoveKeepsLog(m: Memory, next: Id, log: seq<Event>, id: Id)
    requires LogOk(m, next, log) && id in m && id !in Marked(m)
    ensures LogOk(m[id := m[id].(marked := true)], next, log + [Removed(id)])
  {
    Append(log, Removed(id));
    RemoveKeepsSets(m, id);
  }

  /** Masks and reschedule masks do not matter to the other lists. */
  lemma MasksAreIndependent(m: Memory, id: Id, s: Source)
    requires id in m && s.marked == m[id].marked
    ensures m[id := s].Keys == m.Keys && Marked(m[id := s]) == Marked(m)
  {}

  lemma RescheduleKeeps(m: Memory, pending: seq<Id>, id: Id, mask: set<Interest>)
    requires PendingOk(m, pending) && id in m && mask != {}
    ensures var n := m[id := m[id].(rescheduleMask := mask)];
            && (m[id].rescheduleMask == {} ==> PendingOk(n, pending + [id]))
            && (m[id].rescheduleMask != {} ==> PendingOk(n, pending))
  {
    var n := m[id := m[id].(rescheduleMask := mask)];
    Last(pending, id);
    assert Marked(n) == Marked(m) && Masked(n) == Masked(m) + {id};
  }

  /** Going through the list: the head's mask is taken before its callback runs, a removed head is dropped. */
  lemma HeadTaken(m: Memory, pending: seq<Id>)
    requires PendingOk(m, pending) && pending != []
    ensures pending[0] in m && m[pending[0]].rescheduleMask != {}
    ensures var n := m[pending[0] := m[pending[0]].(rescheduleMask := {})];
            PendingOk(n, pending[1..]) && n.Keys == m.Keys && Marked(n) == Marked(m)
    ensures m[pending[0]].marked ==> PendingOk(m, pending[1..])
  {
    var n := m[pending[0] := m[pending[0]].(rescheduleMask := {})];
    assert Masked(n) == Masked(m) - {pending[0]};
  }

  lemma FreeKeepsSets(m: Memory, id: Id)
    requires id in m
    ensures var n := m - {id}; n.Keys == m.Keys - {id} && Marked(n) == Marked(m) - {id} && Masked(n) == Masked(m) - {id}
  {}

  lemma FreeKeepsSources(m: Memory, sources: seq<Id>, cleanups: seq<Id>, watched: set<Id>)
    requires SourcesOk(m, sources, cleanups, watched) && cleanups != []
    ensures cleanups[0] in m
    ensures SourcesOk(m - {cleanups[0]}, Without(sources, cleanups[0]), cleanups[1..], watched)
  {
    assert cleanups[0] in Marked(m);
    WithoutContents(sources, cleanups[0]);
    FreeKeepsSets(m, cleanups[0]);
  }

  lemma FreeKeepsLog(m: Memory, next: Id, log: seq<Event>, id: Id)
    requires LogOk(m, next, log) && id in m
    ensures LogOk(m - {id}, next, log + [Freed(id)])
  {
    Append(log, Freed(id));
    FreeKeepsSets(m, id);
  }

  lemma RunKeepsLog(m: Memory, next: Id, log: seq<Event>, id: Id, reported: set<Interest>)
    requires LogOk(m, next, log) && MasksOk(m, log) && id in m && !m[id].marked
    ensures var e := Ran(id, reported, m[id].mask * reported); LogOk(m, next, log + [e]) && MasksOk(m, log + [e])
  {
    var e := Ran(id, reported, m[id].mask * reported);
    Append(log, e);
    AppendMasks(log, e, id);
    EventKeepsMasks(m, log, e, m[id]);
    assert m[id := m[id]] == m;
    assert id !in Marked(m);
  }

  lemma RecallKeepsLog(m: Memory, next: Id, log: seq<Event>, id: Id)
    requires LogOk(m, next, log) && MasksOk(m, log) && id in m && !m[id].marked && m[id].rescheduleMask != {}
    ensures var e, n := Recalled(id, m[id].rescheduleMask), m[id := m[id].(rescheduleMask := {})];
            LogOk(n, next, log + [e]) && MasksOk(n, log + [e])
  {
    var e := Recalled(id, m[id].rescheduleMask);
    Append(log, e);
    AppendMasks(log, e, id);
    MasksAreIndependent(m, id, m[id].(rescheduleMask := {}));
    EventKeepsMasks(m, log, e, m[id].(rescheduleMask := {}));
    assert id !in Marked(m);
  }

  lemma AskKeepsLog(m: Memory, next: Id, log: seq<Event>, id: Id, interest: Interest)
    requires LogOk(m, next, log) && MasksOk(m, log) && id in m
    ensures var n := m[id := m[id].(rescheduleMask := m[id].rescheduleMask + {interest})];
            LogOk(n, next, log + [Asked(id, interest)]) && MasksOk(n, log + [Asked(id, interest)])
  {
    var s := m[id].(rescheduleMask := m[id].rescheduleMask + {interest});
    Append(log, Asked(id, interest));
    AppendMasks(log, Asked(id, interest), id);
    MasksAreIndependent(m, id, s);
    EventKeepsMasks(m, log, Asked(id, interest), s);
  }

  lemma ChangeKeepsLog(m: Memory, next: Id, log: seq<Event>, id: Id, mask: set<Interest>)
    requires LogOk(m, next, log) && MasksOk(m, log) && id in m
    ensures var n := m[id := m[id].(mask := mask)]; LogOk(n, next, log + [Changed(id, mask)]) && MasksOk(n, log + [Changed(id, mask)])
  {
    var s := m[id].(mask := mask);
    Append(log, Changed(id, mask));
    AppendMasks(log, Changed(id, mask), id);
    MasksAreIndependent(m, id, s);
    EventKeepsMasks(m, log, Changed(id, mask), s);
  }

  lemma AddKeepsMasks(m: Memory, next: Id, log: seq<Event>, mask: set<Interest>)
    requires MasksOk(m, log)
    ensures MasksOk(m[next := Source(mask, false, {})], log + [Added(next, mask)])
  {
    AppendMasks(log, Added(next, mask), next);
    EventKeepsMasks(m, log, Added(next, mask), Source(mask, false, {}));
  }

  lemma RemoveKeepsMasks(m: Memory, log: seq<Event>, id: Id)
    requires MasksOk(m, log) && id in m
    ensures MasksOk(m[id := m[id].(marked := true)], log + [Removed(id)])
  {
    AppendMasks(log, Removed(id), id);
    EventKeepsMasks(m, log, Removed(id), m[id].(marked := true));
  }

  lemma AllFreed(m: Memory, next: Id, log: seq<Event>)
    requires LogOk(m, next, log) && Marked(m) == {}
    ensures RemovedIn(log) <= FreedIn(log)
  {}

  lemma StillServed(list: seq<Id>, rest: seq<Id>, before: seq<Event>, log: seq<Event>, n: nat)
    requires n <= |before| && before <= log && list != [] && list[1..] <= rest && list[0] in Served(log, |before|)
    ensures Elems(list) + Served(before, n) <= Elems(rest) + Served(log, n)
  {
    ElemsPrefix(list[1..], rest);
    ServedGrows(before, log, n);
    ServedSince(log, n, |before|);
  }

  lemma {:induction false} ServedSince(log: seq<Event>, n: nat, k: nat)
    requires n <= k <= |log|
    ensures Served(log, k) <= Served(log, n)
  {
    CalledSince(log, n, k);
  }

  lemma {:induction false} CalledSince(log: seq<Event>, n: nat, k: nat)
    requires n <= k <= |log|
    ensures CalledIn(log[k..]) <= CalledIn(log[n..])
    decreases |log|
  {
    if k < |log| {
      var front := log[..|log| - 1];
      CalledSince(front, n, k);
      assert log[k..][..|log[k..]| - 1] == front[k..] && log[n..][..|log[n..]| - 1] == front[n..];
    }
  }

  lemma OneMoreServed(events: seq<(Id, set<Interest>)>, i: nat, before: seq<Event>, log: seq<Event>, n: nat)
    requires n <= |before| && before <= log && i < |events| && Ids(events[..i]) <= Served(before, n)
    requires events[i].0 in Served(log, |before|)
    ensures Ids(events[..i + 1]) <= Served(log, n)
  {
    IdsHave(events, i);
    ServedGrows(before, log, n);
    ServedSince(log, n, |before|);
  }

  lemma MinusStep(m: Memory, s: seq<Id>)
    requires s != []
    ensures (m - {s[0]}) - Elems(s[1..]) == m - Elems(s)
  {}

  lemma FreedMarked(m: Memory, freed: set<Id>, n: Memory)
    requires freed == Marked(m) >= Masked(m) && n == m - freed
    ensures Marked(n) == {} && Masked(n) == {}
  {}

  // ------------------------------------------------ all invariants, call by call

  /** The invariants of the loop together; pending are the listed sources but a running head. */
  ghost predicate AllOk(m: Memory, next: Id, sources: seq<Id>, cleanups: seq<Id>, watched: set<Id>, pending: seq<Id>, log: seq<Event>) {
    SourcesOk(m, sources, cleanups, watched) && LogOk(m, next, log) && MasksOk(m, log) && PendingOk(m, pending)
  }

  datatype Verdict = Sound | Broken

  /** The same as a value, which the methods below compare without looking into it. */
  ghost function Judged(m: Memory, next: Id, sources: seq<Id>, cleanups: seq<Id>, watched: set<Id>, pending: seq<Id>, log: seq<Event>): Verdict {
    if AllOk(m, next, sources, cleanups, watched, pending, log) then Sound else Broken
  }

  /** The listed sources but a running head. */
  function Waiting(busy: bool, rescheduled: seq<Id>): seq<Id> {
    if busy && rescheduled != [] then rescheduled[1..] else rescheduled
  }

  lemma WaitingGrows(busy: bool, rescheduled: seq<Id>, more: seq<Id>)
    requires busy ==> rescheduled != []
    ensures Waiting(busy, rescheduled + more) == Waiting(busy, rescheduled) + more
  {
    assert busy ==> (rescheduled + more)[1..] == rescheduled[1..] + more;
  }

  lemma AddKeepsAll(m: Memory, next: Id, sources: seq<Id>, cleanups: seq<Id>, watched: set<Id>, pending: seq<Id>, log: seq<Event>,
                    mask: set<Interest>)
    requires Judged(m, next, sources, cleanups, watched, pending, log) == Sound
    ensures Judged(m[next := Source(mask, false, {})], next + 1, [next] + sources, cleanups, watched + {next}, pending,
                  log + [Added(next, mask)]) == Sound
    ensures next !in m
  {
    var s := Source(mask, false, {});
    AddKeepsLog(m, next, log, s);
    AddKeepsMasks(m, next, log, mask);
    AddKeepsSources(m, sources, cleanups, watched, next, s);
    AddKeepsSets(m, next, s);
  }

  lemma AskKeepsAll(m: Memory, next: Id, sources: seq<Id>, cleanups: seq<Id>, watched: set<Id>, pending: seq<Id>, log: seq<Event>,
                    id: Id, interest: Interest)
    requires Judged(m, next, sources, cleanups, watched, pending, log) == Sound && id in m
    ensures var s := m[id].(rescheduleMask := m[id].rescheduleMask + {interest});
            Judged(m[id := s], next, sources, cleanups, watched, pending + if m[id].rescheduleMask == {} then [id] else [],
                  log + [Asked(id, interest)]) == Sound
  {
    var s := m[id].(rescheduleMask := m[id].rescheduleMask + {interest});
    MasksAreIndependent(m, id, s);
    AskKeepsLog(m, next, log, id, interest);
    RescheduleKeeps(m, pending, id, s.rescheduleMask);
    assert pending + [] == pending;
  }

  lemma RemoveKeepsAll(m: Memory, next: Id, sources: seq<Id>, cleanups: seq<Id>, watched: set<Id>, pending: seq<Id>, log: seq<Event>,
                       id: Id)
    requires Judged(m, next, sources, cleanups, watched, pending, log) == Sound && id in m && !m[id].marked
    ensures Judged(m[id := m[id].(marked := true)], next, sources, [id] + cleanups, watched - {id}, pending, log + [Removed(id)]) == Sound
  {
    RemoveKeepsSources(m, sources, cleanups, watched, id);
    RemoveKeepsLog(m, next, log, id);
    RemoveKeepsMasks(m, log, id);
    RemoveKeepsSets(m, id);
  }

  lemma ChangeKeepsAll(m: Memory, next: Id, sources: seq<Id>, cleanups: seq<Id>, watched: set<Id>, pending: seq<Id>, log: seq<Event>,
                       id: Id, mask: set<Interest>)
    requires Judged(m, next, sources, cleanups, watched, pending, log) == Sound && id in m
    ensures Judged(m[id := m[id].(mask := mask)], next, sources, cleanups, watched, pending, log + [Changed(id, mask)]) == Sound
  {
    ChangeKeepsSets(m, id, mask);
    ChangeKeepsLog(m, next, log, id, mask);
  }

  lemma ChangeKeepsSets(m: Memory, id: Id, mask: set<Interest>)
    requires id in m
    ensures var n := m[id := m[id].(mask := mask)]; n.Keys == m.Keys && Marked(n) == Marked(m) && Masked(n) == Masked(m)
  {}

  lemma RunKeepsAll(m: Memory, next: Id, sources: seq<Id>, cleanups: seq<Id>, watched: set<Id>, pending: seq<Id>, log: seq<Event>,
                    id: Id, reported: set<Interest>)
    requires Judged(m, next, sources, cleanups, watched, pending, log) == Sound && id in m && !m[id].marked
    ensures Judged(m, next, sources, cleanups, watched, pending, log + [Ran(id, reported, m[id].mask * reported)]) == Sound
    ensures m[id].mask == MaskIn(log, id)
  {
    RunKeepsLog(m, next, log, id, reported);
  }

  lemma RecallKeepsAll(m: Memory, next: Id, sources: seq<Id>, cleanups: seq<Id>, watched: set<Id>, pending: seq<Id>, log: seq<Event>)
    requires Judged(m, next, sources, cleanups, watched, pending, log) == Sound && pending != [] && pending[0] in m && !m[pending[0]].marked
    ensures var id := pending[0];
            Judged(m[id := m[id].(rescheduleMask := {})], next, sources, cleanups, watched, pending[1..],
                  log + [Recalled(id, m[id].rescheduleMask)]) == Sound
    ensures m[pending[0]].rescheduleMask == AskedIn(log, pending[0])
  {
    HeadTaken(m, pending);
    RecallKeepsLog(m, next, log, pending[0]);
  }

  // ------------------------------------------- which callbacks run, and whether a turn ends

  /** What the callbacks do: the n-th one makes these calls. */
  type Behaviour = nat -> seq<Call>

  /** The sources, the list of those to be called again, and the number of callbacks so far. */
  datatype Course = Course(memory: Memory, next: Id, rescheduled: seq<Id>, ran: nat)

  function Performed(c: Course, call: Call): Course {
    match call
    case Add(mask) => c.(memory := c.memory[c.next := Source(mask, false, {})], next := c.next + 1)
    case Reschedule(id, interest) =>
      if id !in c.memory then c
      else
        var s := c.memory[id];
        c.(memory := c.memory[id := s.(rescheduleMask := s.rescheduleMask + {interest})],
           rescheduled := c.rescheduled + if s.rescheduleMask == {} then [id] else [])
    case Remove(id) => if id !in c.memory then c else c.(memory := c.memory[id := c.memory[id].(marked := true)])
    case Change(id, mask) => if id !in c.memory then c else c.(memory := c.memory[id := c.memory[id].(mask := mask)])
  }

  function PerformedAll(c: Course, calls: seq<Call>): Course {
    if calls == [] then c else Performed(PerformedAll(c, calls[..|calls| - 1]), calls[|calls| - 1])
  }

  function Called(c: Course, b: Behaviour): Course {
    var d := PerformedAll(c, b(c.ran));
    d.(ran := c.ran + 1)
  }

  /** One reported event. */
  function Reacted(c: Course, id: Id, b: Behaviour): Course {
    if id in c.memory && !c.memory[id].marked then Called(c, b) else c
  }

  function ReactedAll(c: Course, events: seq<(Id, set<Interest>)>, b: Behaviour): Course {
    if events == [] then c else Reacted(ReactedAll(c, events[..|events| - 1], b), events[|events| - 1].0, b)
  }

  function HeadCleared(c: Course): Course
    requires c.rescheduled != [] && c.rescheduled[0] in c.memory
  {
    var id := c.rescheduled[0];
    c.(memory := c.memory[id := c.memory[id].(rescheduleMask := {})])
  }

  function HeadDropped(c: Course): Course {
    if c.rescheduled == [] then c else c.(rescheduled := c.rescheduled[1..])
  }

  /** One round of the loop in treat_rescheduled. */
  function Head(c: Course, b: Behaviour): Course {
    if c.rescheduled == [] then c
    else
      var id := c.rescheduled[0];
      HeadDropped(if id in c.memory && !c.memory[id].marked then Called(HeadCleared(c), b) else c)
  }

  function Heads(c: Course, b: Behaviour, k: nat): Course {
    if k == 0 then c else Head(Heads(c, b, k - 1), b)
  }

  /** The reschedule calls of one callback, and of the callbacks number from to to. */
  function Asks(calls: seq<Call>): nat {
    if calls == [] then 0 else Asks(calls[..|calls| - 1]) + if calls[|calls| - 1].Reschedule? then 1 else 0
  }

  function AskCount(b: Behaviour, from: nat, to: nat): nat {
    if to <= from then 0 else AskCount(b, from, to - 1) + Asks(b(to - 1))
  }

  lemma {:induction false} PerformedLists(c: Course, calls: seq<Call>)
    ensures var d := PerformedAll(c, calls);
            c.rescheduled <= d.rescheduled && |d.rescheduled| <= |c.rescheduled| + Asks(calls) && d.ran == c.ran
  {
    if calls != [] {
      PerformedLists(c, calls[..|calls| - 1]);
    }
  }

  lemma HeadListed(c: Course, b: Behaviour)
    ensures var d := Head(c, b);
            && c.ran <= d.ran <= c.ran + 1
            && (c.rescheduled == [] ==> d.rescheduled == [])
            && (c.rescheduled != [] ==> |d.rescheduled| + 1 <= |c.rescheduled| + if d.ran == c.ran then 0 else Asks(b(c.ran)))
  {
    if c.rescheduled != [] && c.rescheduled[0] in c.memory {
      PerformedLists(HeadCleared(c), b(c.ran));
    }
  }

  /** A list of l sources, k of a total of n handled since callback number from, unless it is empty. */
  predicate Within(b: Behaviour, from: nat, ran: nat, n: nat, k: nat, l: nat) {
    from <= ran <= from + k && (l > 0 ==> l + k <= n + AskCount(b, from, ran))
  }

  lemma WithinNext(b: Behaviour, from: nat, n: nat, k: nat, ran0: nat, l0: nat, ran: nat, l: nat)
    requires Within(b, from, ran0, n, k, l0) && ran0 <= ran <= ran0 + 1
    requires if l0 == 0 then l == 0 else l + 1 <= l0 + if ran == ran0 then 0 else Asks(b(ran0))
    ensures Within(b, from, ran, n, k + 1, l)
  {}

  /** What is listed and what has been handled was listed before, or was asked for. */
  lemma {:induction false} HeadsListed(c: Course, b: Behaviour, k: nat)
    ensures Within(b, c.ran, Heads(c, b, k).ran, |c.rescheduled|, k, |Heads(c, b, k).rescheduled|)
  {
    if k > 0 {
      HeadsListed(c, b, k - 1);
      var d := Heads(c, b, k - 1);
      var e := Head(d, b);
      HeadListed(d, b);
      WithinNext(b, c.ran, |c.rescheduled|, k - 1, d.ran, |d.rescheduled|, e.ran, |e.rescheduled|);
    }
  }

  lemma {:induction false} ReactedListed(c: Course, events: seq<(Id, set<Interest>)>, b: Behaviour)
    ensures var d := ReactedAll(c, events, b);
            c.ran <= d.ran <= c.ran + |events| && |d.rescheduled| <= |c.rescheduled| + AskCount(b, c.ran, d.ran)
  {
    if events != [] {
      var d := ReactedAll(c, events[..|events| - 1], b);
      ReactedListed(c, events[..|events| - 1], b);
      PerformedLists(d, b(d.ran));
    }
  }

  lemma {:induction false} AskCountSplit(b: Behaviour, from: nat, mid: nat, to: nat)
    requires from <= mid <= to
    ensures AskCount(b, from, mid) + AskCount(b, mid, to) == AskCount(b, from, to)
  {
    if mid < to {
      AskCountSplit(b, from, mid, to - 1);
    }
  }

  /** A turn as a whole: what the events cause, then k rounds of the rescheduled list. */
  function TurnCourse(c: Course, events: seq<(Id, set<Interest>)>, b: Behaviour, k: nat): Course {
    Heads(ReactedAll(c, events, b), b, k)
  }

  /** However long the turn goes on, its callbacks make no more than r reschedule calls. */
  ghost predicate AsksAtMost(c: Course, events: seq<(Id, set<Interest>)>, b: Behaviour, r: nat) {
    forall k: nat :: AskCount(b, c.ran, TurnCourse(c, events, b, k).ran) <= r
  }

  ghost predicate Ends(c: Course, events: seq<(Id, set<Interest>)>, b: Behaviour) {
    exists k: nat :: TurnCourse(c, events, b, k).rescheduled == []
  }

  /** Then it ends, after few callbacks. */
  lemma TurnEnds(c: Course, events: seq<(Id, set<Interest>)>, b: Behaviour, r: nat)
    requires AsksAtMost(c, events, b, r)
    ensures var d := TurnCourse(c, events, b, |c.rescheduled| + r);
            d.rescheduled == [] && d.ran <= c.ran + |events| + |c.rescheduled| + r
  {
    var e := ReactedAll(c, events, b);
    var d := TurnCourse(c, events, b, |c.rescheduled| + r);
    ReactedListed(c, events, b);
    HeadsListed(e, b, |c.rescheduled| + r);
    AskCountSplit(b, c.ran, e.ran, d.ran);
  }

  lemma {:induction false} HeadsEnd(c: Course, b: Behaviour, k: nat, n: nat)
    requires k <= n && Heads(c, b, k).rescheduled == []
    ensures Heads(c, b, n) == Heads(c, b, k)
  {
    if k < n {
      HeadsEnd(c, b, k, n - 1);
    }
  }

  lemma {:induction false} HeadsRun(c: Course, b: Behaviour, k: nat, n: nat)
    requires k <= n
    ensures Heads(c, b, k).ran <= Heads(c, b, n).ran
  {
    if k < n {
      HeadsRun(c, b, k, n - 1);
      HeadListed(Heads(c, b, n - 1), b);
    }
  }

  lemma EndedAsks(c: Course, events: seq<(Id, set<Interest>)>, b: Behaviour, end: nat, k: nat)
    requires TurnCourse(c, events, b, end).rescheduled == []
    ensures AskCount(b, c.ran, TurnCourse(c, events, b, k).ran) <= AskCount(b, c.ran, TurnCourse(c, events, b, end).ran)
  {
    var e := ReactedAll(c, events, b);
    ReactedListed(c, events, b);
    HeadsRun(e, b, 0, k);
    if k <= end {
      HeadsRun(e, b, k, end);
      AskCountSplit(b, c.ran, Heads(e, b, k).ran, Heads(e, b, end).ran);
    } else {
      HeadsEnd(e, b, end, k);
    }
  }

  /** A turn ends if and only if the callbacks it runs make finitely many reschedule calls. */
  lemma TurnEndsExactly(c: Course, events: seq<(Id, set<Interest>)>, b: Behaviour)
    ensures Ends(c, events, b) <==> exists r: nat :: AsksAtMost(c, events, b, r)
  {
    if r: nat :| AsksAtMost(c, events, b, r) {
      TurnEnds(c, events, b, r);
    }
    if Ends(c, events, b) {
      var end: nat :| TurnCourse(c, events, b, end).rescheduled == [];
      forall k: nat
        ensures AskCount(b, c.ran, TurnCourse(c, events, b, k).ran) <= AskCount(b, c.ran, TurnCourse(c, events, b, end).ran)
      {
        EndedAsks(c, events, b, end, k);
      }
      assert AsksAtMost(c, events, b, AskCount(b, c.ran, TurnCourse(c, events, b, end).ran));
    }
  }

  /** A turn may go on for ever: a callback that asks to be called again is the next one, however long one waits. */
  lemma {:induction false} AskingForEver(c: Course, id: Id, interest: Interest, b: Behaviour, k: nat)
    requires c.rescheduled == [id] && id in c.memory && !c.memory[id].marked
    requires forall n: nat :: b(n) == [Reschedule(id, interest)]
    ensures var d := Heads(c, b, k);
            d.rescheduled == [id] && d.ran == c.ran + k && id in d.memory && !d.memory[id].marked
  {
    if k > 0 {
      AskingForEver(c, id, interest, b, k - 1);
      var d := Heads(c, b, k - 1);
      assert PerformedAll(HeadCleared(d), [Reschedule(id, interest)][..0]) == HeadCleared(d);
      assert PerformedAll(HeadCleared(d), [Reschedule(id, interest)]) == Performed(HeadCleared(d), Reschedule(id, interest));
    }
  }

  // --------------------------------------------------------------- the loop

  class Loop {
    var memory: Memory
    var next: Id
    var sources: seq<Id>
    var rescheduled: seq<Id>
    var cleanups: seq<Id>
    /** The kernel's interest list. */
    var watched: set<Id>
    /** The source at the head of rescheduled has its callback running. */
    ghost var busy: bool
    /** The callbacks so far, and what all of them do. */
    var ran: nat
    const behaviour: Behaviour
    ghost var log: seq<Event>

    ghost predicate Valid()
      reads this
    {
      && (busy ==> rescheduled != [])
      && Judged(memory, next, sources, cleanups, watched, Waiting(busy, rescheduled), log) == Sound
    }

    ghost function Now(): Course
      reads this
    {
      Course(memory, next, rescheduled, ran)
    }

    constructor (behaviour: Behaviour)
      ensures Valid() && !busy && log == [] && this.behaviour == behaviour && Now() == Course(map[], 0, [], 0)
    {
      memory, next, sources, rescheduled, cleanups, watched := map[], 0, [], [], [], {};
      this.behaviour, ran := behaviour, 0;
      busy, log := false, [];
    }

    method AddSource(mask: set<Interest>) returns (id: Id)
      requires Valid()
      modifies this
      ensures Valid() && id == old(next) && memory == old(memory)[id := Source(mask, false, {})]
      ensures unchanged(`rescheduled, `busy, `ran, `cleanups) && next == id + 1 && log == old(log) + [Added(id, mask)]
    {
      id := next;
      AddKeepsAll(memory, next, sources, cleanups, watched, Waiting(busy, rescheduled), log, mask);
      memory := memory[id := Source(mask, false, {})];
      sources, watched, next := [id] + sources, watched + {id}, next + 1;
      log := log + [Added(id, mask)];
    }

    method RescheduleSource(id: Id, interest: Interest)
      requires Valid() && id in memory
      modifies this
      ensures Valid() && unchanged(`busy, `ran, `next, `cleanups) && log == old(log) + [Asked(id, interest)]
      ensures memory == old(memory)[id := old(memory)[id].(rescheduleMask := old(memory)[id].rescheduleMask + {interest})]
      ensures rescheduled == old(rescheduled) + if old(memory)[id].rescheduleMask == {} then [id] else []
    {
      var s, more := memory[id], if memory[id].rescheduleMask == {} then [id] else [];
      AskKeepsAll(memory, next, sources, cleanups, watched, Waiting(busy, rescheduled), log, id, interest);
      WaitingGrows(busy, rescheduled, more);
      rescheduled := rescheduled + more;
      memory, log := memory[id := s.(rescheduleMask := s.rescheduleMask + {interest})], log + [Asked(id, interest)];
    }

    method RemoveSource(id: Id)
      requires Valid() && id in memory
      modifies this
      ensures Valid() && unchanged(`busy, `ran, `next, `rescheduled)
      ensures memory == old(memory)[id := old(memory)[id].(marked := true)]
      ensures log == old(log) + if old(memory)[id].marked then [] else [Removed(id)]
    {
      if memory[id].marked {
        assert memory == memory[id := memory[id].(marked := true)];
      } else {
        RemoveKeepsAll(memory, next, sources, cleanups, watched, Waiting(busy, rescheduled), log, id);
        watched, cleanups, log := watched - {id}, [id] + cleanups, log + [Removed(id)];
        memory := memory[id := memory[id].(marked := true)];
      }
    }

    method ChangeSource(id: Id, mask: set<Interest>)
      requires Valid() && id in memory
      modifies this`memory, this`log
      ensures Valid() && memory == old(memory)[id := old(memory)[id].(mask := mask)] && log == old(log) + [Changed(id, mask)]
    {
      ChangeKeepsAll(memory, next, sources, cleanups, watched, Waiting(busy, rescheduled), log, id, mask);
      memory, log := memory[id := memory[id].(mask := mask)], log + [Changed(id, mask)];
    }

    /** One call; only sources not yet freed can be named. */
    method Perform(call: Call)
      requires Valid()
      modifies this
      ensures Valid() && unchanged(`busy, `ran) && old(log) <= log && Now() == Performed(old(Now()), call)
      ensures old(rescheduled) <= rescheduled && old(memory).Keys <= memory.Keys
    {
      match call {
        case Add(mask) =>
          var _ := AddSource(mask);
        case Reschedule(id, interest) =>
          if id in memory {
            RescheduleSource(id, interest);
          }
        case Remove(id) =>
          if id in memory {
            RemoveSource(id);
          }
        case Change(id, mask) =>
          if id in memory {
            ChangeSource(id, mask);
          }
      }
    }

    method PerformAll(calls: seq<Call>)
      requires Valid()
      modifies this
      ensures Valid() && unchanged(`busy, `ran) && old(log) <= log && Now() == PerformedAll(old(Now()), calls)
      ensures old(rescheduled) <= rescheduled && old(memory).Keys <= memory.Keys
    {
      for i := 0 to |calls|
        invariant Valid() && unchanged(`busy, `ran) && old(log) <= log && Now() == PerformedAll(old(Now()), calls[..i])
        invariant old(rescheduled) <= rescheduled && old(memory).Keys <= memory.Keys
      {
        assert calls[..i + 1][..i] == calls[..i];
        Perform(calls[i]);
      }
      assert calls[..|calls|] == calls;
    }

    /** A callback may only run on a source in memory that is not marked for removal, and its run is the latest event. */
    method Callback(id: Id, mask: set<Interest>)
      requires Valid() && id in memory && !memory[id].marked
      requires log != [] && var e := log[|log| - 1]; (e.Ran? || e.Recalled?) && e.id == id && e.mask == mask
      modifies this
      ensures Valid() && unchanged(`busy) && old(log) <= log
      ensures old(rescheduled) <= rescheduled && old(memory).Keys <= memory.Keys
      ensures Now() == Called(old(Now()), behaviour)
    {
      PerformAll(behaviour(ran));
      ran := ran + 1;
    }

    /** Takes the head's mask. */
    method TakeHead() returns (mask: set<Interest>)
      requires Valid() && !busy && rescheduled != [] && rescheduled[0] in memory && !memory[rescheduled[0]].marked
      modifies this`memory, this`busy, this`log
      ensures Valid() && busy && mask == old(memory)[rescheduled[0]].rescheduleMask
      ensures Now() == HeadCleared(old(Now())) && log == old(log) + [Recalled(rescheduled[0], mask)]
    {
      var id := rescheduled[0];
      mask := memory[id].rescheduleMask;
      RecallKeepsAll(memory, next, sources, cleanups, watched, rescheduled, log);
      memory, busy, log := memory[id := memory[id].(rescheduleMask := {})], true, log + [Recalled(id, mask)];
    }

    method RemoveHead()
      requires Valid() && rescheduled != [] && (busy || rescheduled[0] !in memory || memory[rescheduled[0]].marked)
      modifies this`rescheduled, this`busy
      ensures Valid() && !busy && rescheduled == old(rescheduled)[1..]
    {
      if !busy {
        HeadTaken(memory, rescheduled);
      }
      rescheduled, busy := rescheduled[1..], false;
    }

    /** Runs the head with its mask; it stays in the list, marked as busy, so that it can ask again. */
    method RunHead()
      requires Valid() && !busy && rescheduled != [] && rescheduled[0] in memory && !memory[rescheduled[0]].marked
      modifies this
      ensures Valid() && busy && old(log) <= log && old(rescheduled) <= rescheduled && old(memory).Keys <= memory.Keys
      ensures old(rescheduled)[0] in Served(log, |old(log)|) && Now() == Called(HeadCleared(old(Now())), behaviour)
      ensures old(log) + [Recalled(old(rescheduled)[0], AskedIn(old(log), old(rescheduled)[0]))] <= log
    {
      var id := rescheduled[0];
      var mask := TakeHead();
      Callback(id, mask);
      RanIsServed(old(log), Recalled(id, mask), log, |old(log)|);
    }

    method TreatFirst()
      requires Valid() && !busy && rescheduled != []
      modifies this
      ensures Valid() && !busy && old(log) <= log && old(rescheduled)[1..] <= rescheduled && old(memory).Keys <= memory.Keys
      ensures old(rescheduled)[0] in Served(log, |old(log)|) && Now() == Head(old(Now()), behaviour)
    {
      HeadTaken(memory, rescheduled);
      if !memory[rescheduled[0]].marked {
        RunHead();
      }
      RemoveHead();
    }

    /**
      Follows the loop for up to limit rounds: it has ended with an empty list, or is still going on. Whoever
      asked to be called again was called, has been removed, or is still listed.
    */
    method TreatRescheduled(limit: nat) returns (ended: bool)
      requires Valid() && !busy
      modifies this
      ensures Valid() && !busy && old(log) <= log && old(memory).Keys <= memory.Keys
      ensures Now() == Heads(old(Now()), behaviour, limit) && (ended <==> rescheduled == [])
      ensures Elems(old(rescheduled)) <= Elems(rescheduled) + Served(log, |old(log)|)
    {
      var k := 0;
      while |rescheduled| > 0 && k < limit
        invariant Valid() && !busy && old(log) <= log && old(memory).Keys <= memory.Keys
        invariant 0 <= k <= limit && Now() == Heads(old(Now()), behaviour, k)
        invariant Elems(old(rescheduled)) <= Elems(rescheduled) + Served(log, |old(log)|)
        decreases limit - k
      {
        ghost var list, before := rescheduled, log;
        TreatFirst();
        StillServed(list, rescheduled, before, log, |old(log)|);
        k := k + 1;
      }
      ended := |rescheduled| == 0;
      if ended {
        HeadsEnd(old(Now()), behaviour, k, limit);
      }
    }

    /** Frees the i-th source of the cleanup list. */
    method Free(i: nat)
      requires i < |cleanups| && SourcesOk(memory, sources, cleanups[i..], watched) && LogOk(memory, next, log) && MasksOk(memory, log)
      modifies this`memory, this`sources, this`log
      ensures SourcesOk(memory, sources, cleanups[i + 1..], watched) && LogOk(memory, next, log) && MasksOk(memory, log)
      ensures memory == old(memory) - {cleanups[i]} && old(log) <= log
    {
      var id := cleanups[i];
      FreeKeepsSources(memory, sources, cleanups[i..], watched);
      FreeKeepsLog(memory, next, log, id);
      FreeKeepsMasks(memory, log, id);
      assert cleanups[i..][1..] == cleanups[i + 1..];
      sources, memory, log := Without(sources, id), memory - {id}, log + [Freed(id)];
    }

    method FreeListed()
      requires SourcesOk(memory, sources, cleanups, watched) && LogOk(memory, next, log) && MasksOk(memory, log)
      modifies this`memory, this`sources, this`log
      ensures SourcesOk(memory, sources, [], watched) && LogOk(memory, next, log) && MasksOk(memory, log)
      ensures memory == old(memory) - Elems(cleanups) && old(log) <= log
    {
      var i := 0;
      assert cleanups[0..] == cleanups;
      while i < |cleanups|
        invariant 0 <= i <= |cleanups| && old(log) <= log
        invariant SourcesOk(memory, sources, cleanups[i..], watched) && LogOk(memory, next, log) && MasksOk(memory, log)
        invariant memory - Elems(cleanups[i..]) == old(memory) - Elems(cleanups)
      {
        assert cleanups[i..][1..] == cleanups[i + 1..];
        MinusStep(memory, cleanups[i..]);
        Free(i);
        i := i + 1;
      }
      assert cleanups[i..] == [] && memory - {} == memory;
    }

    /** Frees every source marked for removal, and nothing else. */
    method TreatCleanups()
      requires SourcesOk(memory, sources, cleanups, watched) && LogOk(memory, next, log) && MasksOk(memory, log)
      modifies this`memory, this`sources, this`cleanups, this`log
      ensures SourcesOk(memory, sources, cleanups, watched) && LogOk(memory, next, log) && MasksOk(memory, log)
      ensures cleanups == [] && memory == old(memory) - Elems(old(cleanups)) && old(log) <= log
    {
      FreeListed();
      cleanups := [];
    }

    /** One reported event. */
    method Report(id: Id, reported: set<Interest>)
      requires Valid() && id in memory
      modifies this
      ensures Valid() && unchanged(`busy) && old(memory).Keys <= memory.Keys && old(log) <= log
      ensures old(rescheduled) <= rescheduled && id in Served(log, |old(log)|) && Now() == Reacted(old(Now()), id, behaviour)
      ensures !old(memory)[id].marked ==> old(log) + [Ran(id, reported, MaskIn(old(log), id) * reported)] <= log
    {
      if !memory[id].marked {
        var mask := memory[id].mask * reported;
        RunKeepsAll(memory, next, sources, cleanups, watched, Waiting(busy, rescheduled), log, id, reported);
        log := log + [Ran(id, reported, mask)];
        Callback(id, mask);
        RanIsServed(old(log), Ran(id, reported, mask), log, |old(log)|);
      } else {
        assert id in Marked(memory);
      }
    }

    /** The clean state between two turns: no source is marked, listed or waiting to be called again. */
    ghost predicate Clean()
      reads this
    {
      !busy && rescheduled == [] && cleanups == [] && Marked(memory) == {} && Masked(memory) == {}
    }

    method CleanUp()
      requires Valid() && !busy && rescheduled == []
      modifies this`memory, this`sources, this`cleanups, this`log
      ensures Valid() && Clean() && old(log) <= log
    {
      if |cleanups| > 0 {
        TreatCleanups();
      }
      FreedMarked(old(memory), Elems(old(cleanups)), memory);
    }

    /** The i-th of the reported events. */
    method ReportNext(events: seq<(Id, set<Interest>)>, i: nat, ghost start: Course, ghost n: nat)
      requires Valid() && i < |events| && Ids(events) <= memory.Keys && n <= |log|
      requires Ids(events[..i]) <= Served(log, n) && Now() == ReactedAll(start, events[..i], behaviour)
      modifies this
      ensures Valid() && unchanged(`busy) && old(memory).Keys <= memory.Keys && old(log) <= log && old(rescheduled) <= rescheduled
      ensures Ids(events[..i + 1]) <= Served(log, n) && Now() == ReactedAll(start, events[..i + 1], behaviour)
    {
      assert events[..i + 1][..i] == events[..i];
      IdsHave(events, i);
      Report(events[i].0, events[i].1);
      OneMoreServed(events, i, old(log), log, n);
    }

    method ReportAll(events: seq<(Id, set<Interest>)>)
      requires Valid() && Ids(events) <= memory.Keys
      modifies this
      ensures Valid() && unchanged(`busy) && old(log) <= log && old(rescheduled) <= rescheduled
      ensures Ids(events) <= Served(log, |old(log)|) && old(memory).Keys <= memory.Keys
      ensures Now() == ReactedAll(old(Now()), events, behaviour)
    {
      for i := 0 to |events|
        invariant Valid() && unchanged(`busy) && old(log) <= log && old(memory).Keys <= memory.Keys
        invariant old(rescheduled) <= rescheduled && Now() == ReactedAll(old(Now()), events[..i], behaviour)
        invariant Ids(events[..i]) <= Served(log, |old(log)|)
      {
        ReportNext(events, i, old(Now()), |old(log)|);
      }
      assert events[..|events|] == events;
    }

    /**
      One turn on the events the kernel reported, whatever the callbacks do, followed for up to limit rounds of
      the rescheduled list. The log stays safe and every reported source was called unless it was removed. Once
      the turn has ended, the same holds of the rescheduled sources, and all removed sources have been freed.
      Until then nothing is freed.
    */
    method Dispatch(events: seq<(Id, set<Interest>)>, limit: nat) returns (ended: bool)
      requires Valid() && !busy
      requires Ids(events) <= watched
      modifies this
      ensures Valid() && Safe(log) && old(log) <= log && Ids(events) <= Served(log, |old(log)|)
      ensures ended <==> TurnCourse(old(Now()), events, behaviour, limit).rescheduled == []
      ensures ended ==> Clean() && RemovedIn(log) <= FreedIn(log) && Elems(old(rescheduled)) <= Served(log, |old(log)|)
      ensures !ended ==> Now() == TurnCourse(old(Now()), events, behaviour, limit) && old(memory).Keys <= memory.Keys
    {
      ReportAll(events);
      ghost var reported := log;
      ElemsPrefix(old(rescheduled), rescheduled);
      ended := TreatRescheduled(limit);
      ghost var treated := log;
      if ended {
        CleanUp();
        AllFreed(memory, next, log);
      }
      ServedGrows(reported, log, |old(log)|);
      ServedGrows(treated, log, |reported|);
      ServedSince(log, |old(log)|, |reported|);
    }

    /** The sources left at the end. */
    method FreeRemaining()
      requires Distinct(sources) && Elems(sources) == memory.Keys && LogOk(memory, next, log)
      modifies this`memory, this`log
      ensures memory == map[] && LogOk(memory, next, log) && old(log) <= log
    {
      var i := 0;
      assert sources[0..] == sources;
      while i < |sources|
        invariant 0 <= i <= |sources| && old(log) <= log
        invariant Distinct(sources[i..]) && Elems(sources[i..]) == memory.Keys && LogOk(memory, next, log)
      {
        FreeKeepsLog(memory, next, log, sources[i]);
        FreeKeepsSets(memory, sources[i]);
        assert sources[i..][1..] == sources[i + 1..];
        memory, log := memory - {sources[i]}, log + [Freed(sources[i])];
        i := i + 1;
      }
    }

    /** Every source that was ever added has then been freed; the log being safe, once. */
    method Destroy()
      requires Valid() && !busy
      modifies this
      ensures memory == map[] && Safe(log) && old(log) <= log && FreedIn(log) == AddedIn(log) == Upto(old(next))
    {
      TreatCleanups();
      FreeRemaining();
    }

    /**
      The loop's whole life, for any calls between turns, any reports and any callbacks: then it is destroyed.
      If a turn does not end within limit rounds the loop is still in it.
    */
    method Live(turns: seq<Turn>, limit: nat) returns (ended: bool)
      requires Valid() && !busy
      modifies this
      ensures Safe(log) && old(log) <= log
      ensures ended ==> memory == map[] && FreedIn(log) == AddedIn(log)
      ensures !ended ==> Valid() && rescheduled != []
    {
      for i := 0 to |turns|
        invariant Valid() && !busy && old(log) <= log
      {
        PerformAll(turns[i].calls);
        ended := Dispatch(Reportable(turns[i].events, watched), limit);
        if !ended {
          return;
        }
      }
      Destroy();
      ended := true;
    }
  }
}
