/**
 The outbound snapshot cache that foreign callers read: two cached lists with their JSON, a dirty flag and
 two timestamps, kept up to date by a background updater and by the calls that change the core.  `Shared` is
 the package's state, `Cache` the methods that change it under a mutex, and `Next` interleaves the atomic
 steps of all goroutines.
 */
module FfiCache {
  import opened Words

  // ----- the shared state -----

  /** What one reading of the proxies yields: the full and the reduced list. */
  datatype Snapshot = Snapshot(all: string, main: string)

  /** A cached list (`None` for a stopped core) and its JSON envelope. */
  datatype Entry = Entry(prev: Option<string>, json: string)

  /** Times are in milliseconds; `None` is the zero time. */
  datatype Shared = Shared(all: Entry, main: Entry, dirty: bool, lastAccess: Option<nat>, lastRefresh: Option<nat>)

  const EMPTY := Entry(None, "")

  function Envelope(list: Option<string>): string {
    match list
    case None => "{\"error\":\"core service is not started\",\"ok\":false}"
    case Some(data) => "{\"data\":" + data + ",\"ok\":true}"
  }

  function EntryOf(list: Option<string>): Entry {
    Entry(list, Envelope(list))
  }

  function AllOf(box: Option<Snapshot>): Option<string> {
    if box == None then None else Some(box.value.all)
  }

  function MainOf(box: Option<Snapshot>): Option<string> {
    if box == None then None else Some(box.value.main)
  }

  function Recorded(c: Shared, now: nat): Shared {
    c.(lastRefresh := Some(now), dirty := false)
  }

  function Refreshed(c: Shared, box: Option<Snapshot>, now: nat): Shared {
    Recorded(c.(all := EntryOf(AllOf(box)), main := EntryOf(MainOf(box))), now)
  }

  predicate OnAccess(c: Shared) {
    c.dirty || c.lastRefresh == None
  }

  predicate InBackground(c: Shared, now: nat) {
    OnAccess(c) || now - c.lastRefresh.value >= Fallback(c, now)
  }

  function Fallback(c: Shared, now: nat): nat {
    if c.lastAccess == None || now - c.lastAccess.value >= 30_000 then 30_000
    else if now - c.lastAccess.value >= 5_000 then 15_000
    else 5_000
  }

  function Interval(c: Shared, now: nat): nat {
    if c.lastAccess == None || now - c.lastAccess.value >= 30_000 then 5_000
    else if now - c.lastAccess.value >= 5_000 then 2_000
    else 500
  }

  /** A reader came less than so many milliseconds ago. */
  predicate ReadWithin(c: Shared, now: nat, ms: nat) {
    c.lastAccess.Some? && now - c.lastAccess.value < ms
  }

  /** Unmarked, and refreshed less than 30 seconds ago, or 15 or 5 if it has been read of late. */
  predicate Young(c: Shared, now: nat) {
    && !c.dirty && c.lastRefresh.Some?
    && now - c.lastRefresh.value < 30_000
    && (ReadWithin(c, now, 30_000) ==> now - c.lastRefresh.value < 15_000)
    && (ReadWithin(c, now, 5_000) ==> now - c.lastRefresh.value < 5_000)
  }

  lemma YoungExactly(c: Shared, now: nat)
    ensures InBackground(c, now) <==> !Young(c, now)
    ensures Interval(c, now) ==
      if ReadWithin(c, now, 5_000) then 500 else if ReadWithin(c, now, 30_000) then 2_000 else 5_000
  {
  }

  /** The text a JSON reader gets. */
  function JsonText(e: Entry): string {
    if e.json == "" then Envelope(None) else e.json
  }

  class Cache {
    var all: Entry
    var main: Entry
    var dirty: bool
    var lastAccess: Option<nat>
    var lastRefresh: Option<nat>

    constructor ()
      ensures State() == Shared(EMPTY, EMPTY, true, None, None)
    {
      all, main, dirty, lastAccess, lastRefresh := EMPTY, EMPTY, true, None, None;
    }

    function State(): Shared
      reads this
    {
      Shared(all, main, dirty, lastAccess, lastRefresh)
    }

    method MarkAccess(now: nat)
      modifies this`lastAccess
      ensures State() == old(State()).(lastAccess := Some(now))
    {
      lastAccess := Some(now);
    }

    method MarkDirty()
      modifies this`dirty
      ensures State() == old(State()).(dirty := true)
    {
      dirty := true;
    }

    method RecordRefresh(now: nat)
      modifies this`lastRefresh, this`dirty
      ensures State() == Recorded(old(State()), now)
    {
      lastRefresh := Some(now);
      dirty := false;
    }

    /** The list and its JSON change together. */
    method SetCache(toMain: bool, next: Option<string>)
      modifies this`all, this`main
      ensures State() == if toMain then old(State()).(main := EntryOf(next)) else old(State()).(all := EntryOf(next))
    {
      var entry := Entry(next, Envelope(next));
      if toMain {
        main := entry;
      } else {
        all := entry;
      }
    }

    method RefreshAllLocked(box: Option<Snapshot>, now: nat)
      modifies this
      ensures State() == Refreshed(old(State()), box, now)
    {
      if box == None {
        SetCache(false, None);
        SetCache(true, None);
        RecordRefresh(now);
        return;
      }
      SetCache(false, Some(box.value.all));
      SetCache(true, Some(box.value.main));
      RecordRefresh(now);
    }

    /** What a start or a stop does: nothing of the earlier lists or of the mark is left. */
    method RefreshSnapshotCaches(box: Option<Snapshot>, now: nat)
      modifies this
      ensures State() == Refreshed(old(State()), box, now)
    {
      MarkDirty();
      RefreshAllLocked(box, now);
    }

    /** Whether it refreshed. */
    method RefreshAllIfNeeded(box: Option<Snapshot>, now: nat) returns (did: bool)
      modifies this
      ensures did == !Young(old(State()), now)
      ensures State() == if did then Refreshed(old(State()), box, now) else old(State())
    {
      YoungExactly(State(), now);
      did := dirty || lastRefresh == None || now - lastRefresh.value >= FallbackInterval(now);
      if did {
        RefreshAllLocked(box, now);
      }
    }

    function FallbackInterval(now: nat): (ms: nat)
      reads this
      ensures ms == Fallback(State(), now)
    {
      match lastAccess
      case None => 30_000
      case Some(access) =>
        var idleFor := now - access;
        if idleFor >= 30_000 then 30_000 else if idleFor >= 5_000 then 15_000 else 5_000
    }

    /** A JSON reader that nothing interrupts: only a marked or empty cache is brought up to date. */
    method SnapshotJson(onlyMain: bool, box: Option<Snapshot>, now: nat) returns (text: string)
      modifies this
      ensures var c := old(State()).(lastAccess := Some(now));
        State() == if OnAccess(c) then Refreshed(c, box, now) else c
      ensures text == JsonText(if onlyMain then main else all)
      ensures old(dirty) || old(lastRefresh) == None ==>
        text == Envelope(if onlyMain then MainOf(box) else AllOf(box)) && !dirty && lastRefresh == Some(now)
      ensures !old(dirty) && old(lastRefresh).Some? ==> all == old(all) && main == old(main)
    {
      MarkAccess(now);
      if dirty || lastRefresh == None {
        RefreshAllLocked(box, now);
      }
      var json := if onlyMain then main.json else all.json;
      text := if json == "" then Envelope(None) else json;
    }
  }

  // ----- the goroutines -----

  type Pid = nat

  /** The calls, with the number of alterations they make before and after their mark. */
  datatype Call = Select | Stop | Start | TestGroup(n: nat) | TestMembers(before: nat, after: nat)

  /** What a caller does before it refreshes: stop, start or alter the core, mark the cache, fork a prober. */
  datatype Work = Close | Open | Touch | Mark | Fork

  datatype Stage =
    | Access | Check | Working | Waiting | Deciding | Reading
    | StoringAll | StoringMain | Recording | Releasing | Timing | Fetch | Done

  /**
   A caller runs a call, or is the prober (`None`) that a selection forks; the updater last looked at the
   cache at `looked` and sleeps until `wake`.
   */
  datatype Role =
    | Caller(call: Option<Call>)
    | Updater(started: bool, looked: nat, wake: nat)
    | Reader(onlyMain: bool, asJson: bool, again: bool, result: nat)

  /** `own` is the newest version this goroutine made, `at` the version it has read. */
  datatype Proc = Proc(role: Role, stage: Stage, todo: seq<Work>, own: nat, at: nat, marked: bool)

  type History = h: seq<Option<Snapshot>> | h != [] witness [None]

  /** `history[v]` is what the core has at version v, `None` when stopped; `allAt` and `mainAt` are cached versions. */
  datatype State = State(
    history: History,
    shared: Shared,
    allAt: nat,
    mainAt: nat,
    lock: Option<Pid>,
    procs: map<Pid, Proc>,
    updater: bool,
    now: nat)

  function Touches(n: nat): (work: seq<Work>)
    ensures |work| == n && forall i :: 0 <= i < n ==> work[i] == Touch
  {
    seq(n, i => Touch)
  }

  function Script(call: Call): seq<Work> {
    match call
    case Select => [Touch, Mark, Fork]
    case Stop => [Close, Mark]
    case Start => [Open, Mark]
    case TestGroup(n) => [Mark] + Touches(n)
    case TestMembers(before, after) => Touches(before) + [Mark] + Touches(after)
  }

  datatype Event =
    | Tick(ms: nat)
    | Begin(pid: Pid, call: Call)
    | BeginUpdater(pid: Pid)
    | BeginReader(pid: Pid, onlyMain: bool, asJson: bool)
    | Go(pid: Pid, next: Snapshot, child: Pid, touches: nat)

  const INIT := State([None], Shared(EMPTY, EMPTY, true, None, None), 0, 0, None, map[], false, 0)

  function Worker(call: Option<Call>, todo: seq<Work>): Proc {
    Proc(Caller(call), Working, todo, 0, 0, false)
  }

  predicate Running(history: History) {
    history[|history| - 1].Some?
  }

  /** Only a running core has outbounds to select or to test. */
  predicate CanBegin(s: State, pid: Pid, call: Call) {
    pid !in s.procs && (call.Stop? || call.Start? || Running(s.history))
  }

  /** `None` when the step is not possible, as for a goroutine waiting for the lock. */
  function Next(s: State, e: Event): Option<State> {
    match e
    case Tick(ms) => Some(s.(now := s.now + ms))
    case Begin(pid, call) =>
      if CanBegin(s, pid, call) then Some(s.(procs := s.procs[pid := Worker(Some(call), Script(call))])) else None
    case BeginUpdater(pid) =>
      if pid in s.procs || s.updater then None
      else
        Some(s.(updater := true, procs := s.procs[pid := Proc(Updater(false, 0, 0), Waiting, [], 0, 0, false)]))
    case BeginReader(pid, onlyMain, asJson) =>
      if pid in s.procs then None
      else Some(s.(procs := s.procs[pid := Proc(Reader(onlyMain, asJson, false, 0), Access, [], 0, 0, false)]))
    case Go(pid, next, child, touches) =>
      if pid !in s.procs then None
      else if Performs(s, pid) then Perform(s, pid, next, child, touches)
      else Advance(s, pid)
  }

  predicate Performs(s: State, pid: Pid) {
    pid in s.procs && s.procs[pid].stage == Working && s.procs[pid].todo != []
  }

  predicate Advances(s: State, pid: Pid) {
    pid in s.procs && !Performs(s, pid)
  }

  /** Altering a stopped core leaves it stopped. */
  function Changed(history: History, change: Work, next: Snapshot): Option<Snapshot> {
    if change == Close || (change == Touch && !Running(history)) then None else Some(next)
  }

  /** To stop a stopped core or to start a running one is an error: the call returns without a refresh. */
  predicate Refused(history: History, change: Work) {
    (change == Close && !Running(history)) || (change == Open && Running(history))
  }

  function Perform(s: State, pid: Pid, next: Snapshot, child: Pid, touches: nat): Option<State>
    requires Performs(s, pid)
  {
    var p := s.procs[pid];
    var q := p.(todo := p.todo[1..]);
    match p.todo[0]
    case Mark => Some(s.(shared := s.shared.(dirty := true), procs := s.procs[pid := q.(marked := true)]))
    case Fork =>
      if child in s.procs then None
      else Some(s.(procs := s.procs[pid := q][child := Worker(None, Touches(touches))]))
    case change =>
      if Refused(s.history, change) then Some(s.(procs := s.procs[pid := p.(stage := Done, todo := [])]))
      else
        Some(s.(history := s.history + [Changed(s.history, change, next)],
                procs := s.procs[pid := q.(own := |s.history|)]))
  }

  function Advance(s: State, pid: Pid): Option<State>
    requires Advances(s, pid)
  {
    var p := s.procs[pid];
    match p.stage
    case Working => Some(s.(procs := s.procs[pid := p.(stage := Waiting)]))
    case Access => Some(s.(shared := s.shared.(lastAccess := Some(s.now)), procs := s.procs[pid := p.(stage := Check)]))
    case Check => Some(s.(procs := s.procs[pid := p.(stage := if OnAccess(s.shared) then Waiting else Fetch)]))
    case Waiting =>
      if s.lock != None then None
      else
        var checks := p.role.Updater? && p.role.started;
        Some(s.(lock := Some(pid), procs := s.procs[pid := p.(stage := if checks then Deciding else Reading)]))
    case Deciding =>
      var stage := if InBackground(s.shared, s.now) then Reading else Releasing;
      Some(s.(procs := s.procs[pid := Looked(p, s.now).(stage := stage)]))
    case Reading => Some(s.(procs := s.procs[pid := p.(stage := StoringAll, at := |s.history| - 1)]))
    case StoringAll =>
      if p.at >= |s.history| then None
      else
        Some(s.(shared := s.shared.(all := EntryOf(AllOf(s.history[p.at]))), allAt := p.at,
                procs := s.procs[pid := p.(stage := StoringMain)]))
    case StoringMain =>
      if p.at >= |s.history| then None
      else
        Some(s.(shared := s.shared.(main := EntryOf(MainOf(s.history[p.at]))), mainAt := p.at,
                procs := s.procs[pid := p.(stage := Recording)]))
    case Recording =>
      Some(s.(shared := Recorded(s.shared, s.now),
              procs := s.procs[pid := Looked(p, s.now).(stage := Releasing, marked := false)]))
    case Releasing => Some(s.(lock := None, procs := s.procs[pid := p.(stage := AfterRelease(p.role))]))
    case Timing =>
      if !p.role.Updater? then None
      else
        var role := p.role.(started := true, wake := s.now + Interval(s.shared, s.now));
        Some(s.(procs := s.procs[pid := p.(stage := Done, role := role)]))
    case Fetch => if p.role.Reader? then Some(s.(procs := s.procs[pid := Fetched(s, p)])) else None
    case Done =>
      if p.role.Updater? && p.role.wake <= s.now then Some(s.(procs := s.procs[pid := p.(stage := Waiting)])) else None
  }

  function Looked(p: Proc, now: nat): Proc {
    if p.role.Updater? then p.(role := p.role.(looked := now)) else p
  }

  function AfterRelease(role: Role): Stage {
    match role
    case Caller(_) => Done
    case Updater(_, _, _) => Timing
    case Reader(_, _, _, _) => Fetch
  }

  /** A reader of the list that finds nothing refreshes once more and reads again; a JSON reader does not. */
  function Fetched(s: State, p: Proc): Proc
    requires p.role.Reader?
  {
    var entry := if p.role.onlyMain then s.shared.main else s.shared.all;
    if entry.prev == None && !p.role.asJson && !p.role.again then p.(stage := Waiting, role := p.role.(again := true))
    else p.(stage := Done, role := p.role.(result := if p.role.onlyMain then s.mainAt else s.allAt))
  }

  function Run(s: State, events: seq<Event>): Option<State>
    decreases |events|
  {
    if events == [] then Some(s)
    else
      match Next(s, events[0])
      case None => None
      case Some(t) => Run(t, events[1..])
  }

  // ----- the invariant -----

  predicate Locked(stage: Stage) {
    stage.Deciding? || stage.Reading? || Storing(stage) || stage.Releasing?
  }

  predicate Storing(stage: Stage) {
    stage.StoringAll? || stage.StoringMain? || stage.Recording?
  }

  /** It has not returned, nor is it past its refresh. */
  predicate Pending(p: Proc) {
    !p.stage.Releasing? && !p.stage.Timing? && !p.stage.Fetch? && !p.stage.Done?
  }

  function Version(s: State): int {
    |s.history| - 1
  }

  /** Whoever stores has a version no older than its own changes or either cache. */
  predicate StoresNewer(s: State, p: Proc) {
    && p.own <= p.at
    && s.mainAt <= s.allAt <= p.at
    && (p.stage == StoringAll ==> s.mainAt == s.allAt)
    && (p.stage != StoringAll ==> s.allAt == p.at)
    && (p.stage == Recording ==> s.mainAt == p.at)
  }

  /** Roles and stages fit together. */
  predicate Fit(p: Proc) {
    && (p.stage.Access? || p.stage.Check? || p.stage.Fetch? ==> p.role.Reader?)
    && (p.stage == Working ==> p.role.Caller?)
    && (p.stage.Deciding? || p.stage.Timing? ==> p.role.Updater?)
    && (!p.role.Caller? ==> p.own == 0 && !p.marked)
  }

  /** What a call does first, if anything, is to open or close the core. */
  predicate Once(p: Proc) {
    forall i :: 0 <= i < |p.todo| && (p.todo[i].Open? || p.todo[i].Close?) ==> i == 0 && p.own == 0 && !p.marked
  }

  /** Past its refresh, a goroutine finds both caches at least as new as its own changes. */
  predicate Good(s: State, pid: Pid)
    requires pid in s.procs
  {
    var p := s.procs[pid];
    && Fit(p)
    && Once(p)
    && p.own < |s.history| && p.at < |s.history|
    && (Locked(p.stage) <==> s.lock == Some(pid))
    && (Storing(p.stage) ==> StoresNewer(s, p))
    && (!Pending(p) ==> p.own <= s.mainAt && p.own <= s.allAt)
    && (p.marked ==> Pending(p))
  }

  /** The caches differ only while the holder of the lock stores them. */
  predicate Locking(s: State) {
    && s.allAt < |s.history| && s.mainAt < |s.history|
    && (s.lock.Some? ==> s.lock.value in s.procs)
    && (s.lock == None || !Storing(s.procs[s.lock.value].stage) ==> s.allAt == s.mainAt)
  }

  /** Each cached pair is that of its version; before the first refresh it is empty. */
  predicate Faithful(s: State) {
    && s.allAt < |s.history| && s.mainAt < |s.history|
    && s.history[0] == None
    && (s.shared.all == EntryOf(AllOf(s.history[s.allAt])) || (s.shared.all == EMPTY && s.allAt == 0))
    && (s.shared.main == EntryOf(MainOf(s.history[s.mainAt])) || (s.shared.main == EMPTY && s.mainAt == 0))
  }

  /** Versions after the first are somebody's changes. */
  ghost predicate Owned(s: State) {
    Version(s) > 0 ==> exists pid :: pid in s.procs && s.procs[pid].own == Version(s)
  }

  /** The dirty flag is the initial one or that of a call still under way. */
  ghost predicate DirtyOwned(s: State) {
    s.shared.dirty && s.shared.lastRefresh != None ==> exists pid :: pid in s.procs && s.procs[pid].marked
  }

  ghost predicate Inv(s: State) {
    && Faithful(s)
    && Locking(s)
    && Owned(s)
    && DirtyOwned(s)
    && (forall pid :: pid in s.procs ==> Good(s, pid))
  }

  /** Time and versions only go forward, for the caches too. */
  predicate Later(s: State, t: State) {
    && s.now <= t.now && s.history <= t.history
    && s.allAt <= t.allAt && s.mainAt <= t.mainAt
  }

  // ----- every step keeps it -----

  lemma KeepNext(s: State, e: Event)
    requires Inv(s) && Next(s, e).Some?
    ensures Inv(Next(s, e).value) && Later(s, Next(s, e).value)
  {
    hide EntryOf, AllOf, MainOf, Script, Touches, Perform, Advance, Owned, DirtyOwned, Faithful, Good, Locking, Inv;
    match e
    case Go(pid, next, child, touches) =>
      if Performs(s, pid) {
        KeepPerform(s, pid, next, child, touches);
      } else {
        KeepAdvance(s, pid);
      }
    case _ => KeepBegin(s, e);
  }

  lemma KeepBegin(s: State, e: Event)
    requires Inv(s) && !e.Go? && Next(s, e).Some?
    ensures Inv(Next(s, e).value) && Later(s, Next(s, e).value)
  {
    hide Good, Faithful, Locking, Owned, DirtyOwned, Next;
    var t := Next(s, e).value;
    forall k | k in t.procs ensures Good(t, k) {
      GoodBegin(s, e, k);
    }
    ExistBegin(s, e);
    GlobalBegin(s, e);
  }

  lemma GoodBegin(s: State, e: Event, k: Pid)
    requires !e.Go? && Next(s, e).Some? && k in Next(s, e).value.procs
    requires (k in s.procs ==> Good(s, k)) && Locking(s)
    ensures Good(Next(s, e).value, k)
  {
    hide Script, Touches, Once;
    if e.Begin? {
      OnceScript(e.call);
    }
    OnceIdle(Updater(false, 0, 0), Waiting);
    if e.BeginReader? {
      OnceIdle(Reader(e.onlyMain, e.asJson, false, 0), Access);
    }
  }

  lemma OnceScript(call: Call)
    ensures Once(Worker(Some(call), Script(call)))
  {
  }

  lemma OnceIdle(role: Role, stage: Stage)
    ensures Once(Proc(role, stage, [], 0, 0, false))
  {
  }

  lemma GlobalBegin(s: State, e: Event)
    requires !e.Go? && Next(s, e).Some? && Locking(s) && Faithful(s)
    ensures var t := Next(s, e).value; Faithful(t) && Locking(t) && Later(s, t)
  {
    hide EntryOf, AllOf, MainOf, Script, Touches;
  }

  lemma ExistBegin(s: State, e: Event)
    requires Inv(s) && !e.Go? && Next(s, e).Some?
    ensures Owned(Next(s, e).value) && DirtyOwned(Next(s, e).value)
  {
    hide EntryOf, AllOf, MainOf, Script, Touches, Perform, Advance, Good, Faithful, Locking;
    var t := Next(s, e).value;
    assert forall k :: k in s.procs ==> k in t.procs && t.procs[k] == s.procs[k];
  }

  lemma KeepPerform(s: State, pid: Pid, next: Snapshot, child: Pid, touches: nat)
    requires Inv(s) && Performs(s, pid) && Perform(s, pid, next, child, touches).Some?
    ensures var t := Perform(s, pid, next, child, touches).value; Inv(t) && Later(s, t)
  {
    hide Good, Faithful, Locking, Owned, DirtyOwned, Perform;
    var t := Perform(s, pid, next, child, touches).value;
    forall k | k in t.procs ensures Good(t, k) {
      GoodPerform(s, pid, next, child, touches, k);
    }
    ExistPerform(s, pid, next, child, touches);
    GlobalPerform(s, pid, next, child, touches);
  }

  lemma GoodPerform(s: State, pid: Pid, next: Snapshot, child: Pid, touches: nat, k: Pid)
    requires Performs(s, pid) && Perform(s, pid, next, child, touches).Some?
    requires Good(s, pid) && (k in s.procs ==> Good(s, k)) && Locking(s)
    requires k in Perform(s, pid, next, child, touches).value.procs
    ensures Good(Perform(s, pid, next, child, touches).value, k)
  {
    hide Changed, Touches, Once, Running;
    OncePopped(s.procs[pid], |s.history|);
    OnceIdle(s.procs[pid].role, Done);
    OnceProber(touches);
  }

  /** After the first step nothing opens or closes the core. */
  lemma OncePopped(p: Proc, own: nat)
    requires Once(p) && p.todo != []
    ensures var q := p.(todo := p.todo[1..]); Once(q) && Once(q.(marked := true)) && Once(q.(own := own))
    ensures Once(p.(stage := Done, todo := []))
    ensures p.todo[0].Open? || p.todo[0].Close? ==> p.own == 0 && !p.marked
  {
  }

  lemma OnceProber(touches: nat)
    ensures Once(Worker(None, Touches(touches)))
  {
  }

  lemma ExistPerform(s: State, pid: Pid, next: Snapshot, child: Pid, touches: nat)
    requires Inv(s) && Performs(s, pid) && Perform(s, pid, next, child, touches).Some?
    ensures var t := Perform(s, pid, next, child, touches).value; Owned(t) && DirtyOwned(t)
  {
    hide EntryOf, AllOf, MainOf, Envelope, Touches, Good, Faithful, Locking, Refused, Changed;
    var t := Perform(s, pid, next, child, touches).value;
    assert forall k :: k in s.procs ==> k in t.procs;
  }

  lemma GlobalPerform(s: State, pid: Pid, next: Snapshot, child: Pid, touches: nat)
    requires Performs(s, pid) && Perform(s, pid, next, child, touches).Some?
    requires Good(s, pid) && Locking(s) && Faithful(s)
    ensures var t := Perform(s, pid, next, child, touches).value; Faithful(t) && Locking(t) && Later(s, t)
  {
    hide Changed, Refused, Touches, EntryOf, AllOf, MainOf, Once;
  }

  lemma KeepAdvance(s: State, pid: Pid)
    requires Inv(s) && Advances(s, pid) && Advance(s, pid).Some?
    ensures Inv(Advance(s, pid).value) && Later(s, Advance(s, pid).value)
  {
    hide Good, Faithful, Locking, Owned, DirtyOwned, Advance;
    var t := Advance(s, pid).value;
    forall k | k in t.procs ensures Good(t, k) {
      GoodAdvance(s, pid, k);
    }
    ExistAdvance(s, pid);
    GlobalAdvance(s, pid);
  }

  lemma GoodAdvance(s: State, pid: Pid, k: Pid)
    requires Inv(s) && Advances(s, pid) && Advance(s, pid).Some?
    requires k in Advance(s, pid).value.procs
    ensures Good(Advance(s, pid).value, k)
  {
    hide Good, Faithful, Locking, Owned, DirtyOwned, EntryOf, AllOf, MainOf, Fetched, Interval, Recorded;
    if k != pid {
      GoodOther(s, pid, k);
    } else if Storing(s.procs[pid].stage) {
      GoodStoring(s, pid);
    } else if Locked(s.procs[pid].stage) || s.procs[pid].stage.Waiting? {
      GoodLocked(s, pid);
    } else {
      GoodSelf(s, pid);
    }
  }

  lemma GoodStoring(s: State, pid: Pid)
    requires Advances(s, pid) && Storing(s.procs[pid].stage) && Advance(s, pid).Some?
    requires Good(s, pid) && Locking(s)
    ensures pid in Advance(s, pid).value.procs && Good(Advance(s, pid).value, pid)
  {
    hide EntryOf, AllOf, MainOf;
  }

  lemma GoodLocked(s: State, pid: Pid)
    requires Advances(s, pid) && Advance(s, pid).Some?
    requires var stage := s.procs[pid].stage; !Storing(stage) && (Locked(stage) || stage.Waiting?)
    requires Good(s, pid) && Locking(s)
    ensures pid in Advance(s, pid).value.procs && Good(Advance(s, pid).value, pid)
  {
    hide EntryOf, AllOf, MainOf, Recorded, Interval, InBackground, OnAccess, Fetched;
  }

  lemma GoodSelf(s: State, pid: Pid)
    requires Advances(s, pid) && Advance(s, pid).Some? && !Locked(s.procs[pid].stage) && !s.procs[pid].stage.Waiting?
    requires Good(s, pid) && Locking(s)
    ensures pid in Advance(s, pid).value.procs && Good(Advance(s, pid).value, pid)
  {
    hide EntryOf, AllOf, MainOf, Recorded, Interval, InBackground, OnAccess;
  }

  lemma GoodOther(s: State, pid: Pid, k: Pid)
    requires Advances(s, pid) && Advance(s, pid).Some?
    requires k in s.procs && k != pid
    requires Good(s, pid) && Good(s, k) && Locking(s)
    ensures k in Advance(s, pid).value.procs && Good(Advance(s, pid).value, k)
  {
    hide EntryOf, AllOf, MainOf, Fetched, Fit, Once, Interval, Looked;
  }

  lemma ExistAdvance(s: State, pid: Pid)
    requires Inv(s) && Advances(s, pid) && Advance(s, pid).Some?
    ensures Owned(Advance(s, pid).value) && DirtyOwned(Advance(s, pid).value)
  {
    hide EntryOf, AllOf, MainOf, Envelope, Touches, Good, Faithful, Locking;
    var t := Advance(s, pid).value;
    assert forall k :: k in s.procs ==> k in t.procs;
  }

  lemma GlobalAdvance(s: State, pid: Pid)
    requires Advances(s, pid) && Advance(s, pid).Some?
    requires Good(s, pid) && Locking(s) && Faithful(s)
    ensures var t := Advance(s, pid).value; Faithful(t) && Locking(t) && Later(s, t)
  {
    hide AllOf, MainOf, EntryOf, Envelope, Once, Interval, InBackground, OnAccess, Fetched, Fit;
  }

  // ----- what every run guarantees -----

  lemma {:induction false} KeepRun(s: State, events: seq<Event>)
    requires Inv(s) && Run(s, events).Some?
    ensures Inv(Run(s, events).value) && Later(s, Run(s, events).value)
    decreases |events|
  {
    hide Inv, Next;
    if events != [] {
      KeepNext(s, events[0]);
      KeepRun(Next(s, events[0]).value, events[1..]);
    }
  }

  lemma Reachable(events: seq<Event>)
    requires Run(INIT, events).Some?
    ensures Inv(Run(INIT, events).value)
  {
    hide Run, Next;
    KeepRun(INIT, events);
  }

  /** Whatever the interleaving, cached versions never go back, and each cached pair is that of its version. */
  lemma Monotone(first: seq<Event>, more: seq<Event>)
    requires Run(INIT, first).Some? && Run(Run(INIT, first).value, more).Some?
    ensures var s, t := Run(INIT, first).value, Run(Run(INIT, first).value, more).value;
      s.allAt <= t.allAt && s.mainAt <= t.mainAt && Faithful(t)
  {
    hide Run, Next;
    Reachable(first);
    KeepRun(Run(INIT, first).value, more);
  }

  predicate Stale(s: State) {
    s.allAt < Version(s) || s.mainAt < Version(s)
  }

  /** A cache is stale only while the goroutine that made the newest version is still to finish its refresh. */
  lemma StaleIsOwned(events: seq<Event>)
    requires Run(INIT, events).Some? && Stale(Run(INIT, events).value)
    ensures var s := Run(INIT, events).value;
      exists pid :: pid in s.procs && s.procs[pid].own == Version(s) && Pending(s.procs[pid])
  {
    hide Run, Next;
    Reachable(events);
    var s := Run(INIT, events).value;
    var pid :| pid in s.procs && s.procs[pid].own == Version(s);
    assert Good(s, pid);
  }

  /** Once a call has returned, both caches hold a state at least as new as its change, for good. */
  lemma ReturnedIsFresh(first: seq<Event>, pid: Pid, more: seq<Event>)
    requires Run(INIT, first).Some? && Run(Run(INIT, first).value, more).Some?
    requires var s := Run(INIT, first).value; pid in s.procs && s.procs[pid].stage.Done? && s.procs[pid].own > 0
    ensures var s, t := Run(INIT, first).value, Run(Run(INIT, first).value, more).value;
      && s.procs[pid].own <= t.allAt < |t.history| && s.procs[pid].own <= t.mainAt < |t.history|
      && t.shared.all == EntryOf(AllOf(t.history[t.allAt])) && t.shared.main == EntryOf(MainOf(t.history[t.mainAt]))
      && s.history <= t.history
  {
    hide Run, Next;
    Reachable(first);
    KeepRun(Run(INIT, first).value, more);
    assert Good(Run(INIT, first).value, pid);
  }

  /** A reader that starts after a call has returned sees that call's change. */
  lemma ReadersSeeReturned(first: seq<Event>, pid: Pid, more: seq<Event>, reader: Pid)
    requires Run(INIT, first).Some? && Run(Run(INIT, first).value, more).Some?
    requires var s := Run(INIT, first).value; pid in s.procs && s.procs[pid].stage.Done? && reader !in s.procs
    requires var t := Run(Run(INIT, first).value, more).value;
      reader in t.procs && t.procs[reader].role.Reader? && t.procs[reader].stage.Done?
    ensures Run(Run(INIT, first).value, more).value.procs[reader].role.result >= Run(INIT, first).value.procs[pid].own
  {
    hide Run, Next;
    Reachable(first);
    var s := Run(INIT, first).value;
    assert Good(s, pid);
    ReadAfter(s, more, reader, s.procs[pid].own);
  }

  ghost predicate ReadNoOlder(s: State, reader: Pid, floor: nat) {
    && floor <= s.allAt && floor <= s.mainAt
    && (reader in s.procs && s.procs[reader].role.Reader? && s.procs[reader].stage.Done? ==>
      floor <= s.procs[reader].role.result)
  }

  lemma {:induction false} ReadAfter(s: State, events: seq<Event>, reader: Pid, floor: nat)
    requires Inv(s) && ReadNoOlder(s, reader, floor) && Run(s, events).Some?
    ensures ReadNoOlder(Run(s, events).value, reader, floor)
    decreases |events|
  {
    hide Inv, Next, ReadNoOlder;
    if events != [] {
      KeepNext(s, events[0]);
      FitAll(s, reader);
      ReadStep(s, events[0], reader, floor);
      ReadAfter(Next(s, events[0]).value, events[1..], reader, floor);
    }
  }

  lemma FitAll(s: State, k: Pid)
    requires Inv(s)
    ensures k in s.procs ==> Fit(s.procs[k])
  {
    assert k in s.procs ==> Good(s, k);
  }

  lemma ReadStep(s: State, e: Event, reader: Pid, floor: nat)
    requires ReadNoOlder(s, reader, floor) && Next(s, e).Some? && Later(s, Next(s, e).value)
    requires reader in s.procs ==> Fit(s.procs[reader])
    ensures ReadNoOlder(Next(s, e).value, reader, floor)
  {
    hide Perform, Advance, Fit, Later, Script, Touches;
    if e.Go? && Performs(s, e.pid) {
      ReadPerform(s, e.pid, e.next, e.child, e.touches, reader);
    } else if e.Go? {
      ReadAdvance(s, e.pid, reader, floor);
    }
  }

  lemma ReadPerform(s: State, pid: Pid, next: Snapshot, child: Pid, touches: nat, reader: Pid)
    requires Performs(s, pid) && Perform(s, pid, next, child, touches).Some? &&
      (reader in s.procs ==> Fit(s.procs[reader]))
    ensures var t := Perform(s, pid, next, child, touches).value;
      && t.allAt == s.allAt && t.mainAt == s.mainAt
      && (reader in t.procs && t.procs[reader].role.Reader? && t.procs[reader].stage.Done? ==>
        reader in s.procs && t.procs[reader] == s.procs[reader])
  {
    hide Changed, Refused, Touches;
  }

  lemma ReadAdvance(s: State, pid: Pid, reader: Pid, floor: nat)
    requires ReadNoOlder(s, reader, floor) && Advances(s, pid) && Advance(s, pid).Some? &&
      Later(s, Advance(s, pid).value)
    ensures ReadNoOlder(Advance(s, pid).value, reader, floor)
  {
    hide Recorded, EntryOf, AllOf, MainOf, Interval, InBackground, OnAccess;
  }

  /** A list reader that has not refreshed a second time has a version with a list. */
  predicate HasList(s: State, reader: Pid) {
    reader in s.procs ==> Listed(s, s.procs[reader])
  }

  predicate Listed(s: State, p: Proc) {
    p.role.Reader? && p.stage.Done? && !p.role.asJson && !p.role.again ==>
      p.role.result < |s.history| && s.history[p.role.result].Some?
  }

  lemma ListStep(s: State, e: Event, reader: Pid)
    requires HasList(s, reader) && Next(s, e).Some? && s.history <= Next(s, e).value.history && Faithful(s)
    requires reader in s.procs ==> Fit(s.procs[reader])
    ensures HasList(Next(s, e).value, reader)
  {
    hide Perform, Advance, Fit, Script, Touches, Faithful;
    if e.Go? && Performs(s, e.pid) {
      ReadPerform(s, e.pid, e.next, e.child, e.touches, reader);
    } else if e.Go? {
      ListAdvance(s, e.pid, reader);
    }
  }

  lemma ListAdvance(s: State, pid: Pid, reader: Pid)
    requires HasList(s, reader) && Advances(s, pid) && Advance(s, pid).Some? && Faithful(s)
    ensures HasList(Advance(s, pid).value, reader)
  {
    hide Recorded, Envelope, EntryOf, AllOf, MainOf, Interval, InBackground, OnAccess, Faithful, Fetched;
    if s.procs[pid].stage.Fetch? && s.procs[pid].role.Reader? {
      FetchedIsListed(s, s.procs[pid]);
    }
  }

  lemma FetchedIsListed(s: State, p: Proc)
    requires p.role.Reader? && !p.stage.Done? && Faithful(s)
    ensures Listed(s, Fetched(s, p))
  {
  }

  lemma {:induction false} ListRun(s: State, events: seq<Event>, reader: Pid)
    requires Inv(s) && HasList(s, reader) && Run(s, events).Some?
    ensures HasList(Run(s, events).value, reader)
    decreases |events|
  {
    hide Inv, Next, HasList;
    if events != [] {
      KeepNext(s, events[0]);
      FitAll(s, reader);
      InvFaithful(s);
      ListStep(s, events[0], reader);
      ListRun(Next(s, events[0]).value, events[1..], reader);
    }
  }

  lemma InvFaithful(s: State)
    requires Inv(s)
    ensures Faithful(s)
  {
  }

  /** In every run a list reader comes back without a list only after it has refreshed a second time. */
  lemma EmptyOnlyAgain(events: seq<Event>, reader: Pid)
    requires Run(INIT, events).Some?
    ensures HasList(Run(INIT, events).value, reader)
  {
    hide Run, Next;
    ListRun(INIT, events, reader);
  }

  /** When every call has returned, the caches are the newest state and nothing is marked dirty. */
  lemma Quiescent(events: seq<Event>)
    requires Run(INIT, events).Some?
    requires var s := Run(INIT, events).value;
      forall pid :: pid in s.procs && s.procs[pid].role.Caller? ==> s.procs[pid].stage.Done?
    ensures var s := Run(INIT, events).value;
      s.allAt == Version(s) && s.mainAt == Version(s) && (s.shared.dirty ==> s.shared.lastRefresh == None)
  {
    hide Run, Next;
    Reachable(events);
    var s := Run(INIT, events).value;
    forall pid | pid in s.procs ensures Good(s, pid) {
    }
    if Stale(s) {
      StaleIsOwned(events);
    }
  }

  /** A JSON reader gets the envelope of the list another reader would get, from the start on. */
  lemma JsonAgrees(events: seq<Event>)
    requires Run(INIT, events).Some?
    ensures var c := Run(INIT, events).value.shared;
      JsonText(c.all) == Envelope(c.all.prev) && JsonText(c.main) == Envelope(c.main.prev)
  {
    hide Run, Next;
    Reachable(events);
  }

  /** Some goroutine can always go on while one is not done. */
  lemma NoDeadlock(events: seq<Event>, pid: Pid)
    requires Run(INIT, events).Some?
    requires pid in Run(INIT, events).value.procs && !Run(INIT, events).value.procs[pid].stage.Done?
    ensures var s := Run(INIT, events).value;
      exists e: Event :: e.Go? && e.pid in s.procs && !s.procs[e.pid].stage.Done? && Next(s, e).Some?
  {
    hide Run, Next;
    Reachable(events);
    var s := Run(INIT, events).value;
    var k := Runner(s, pid);
    var child := FreshPid(s.procs.Keys);
    CanGo(s, k, Go(k, Snapshot("", ""), child, 0));
  }

  lemma Runner(s: State, pid: Pid) returns (k: Pid)
    requires Inv(s) && pid in s.procs && !s.procs[pid].stage.Done?
    ensures k in s.procs && Good(s, k) && !s.procs[k].stage.Done? && (s.procs[k].stage.Waiting? ==> s.lock.None?)
  {
    hide Owned, DirtyOwned, Faithful, StoresNewer, Fit;
    k := if s.procs[pid].stage.Waiting? && s.lock.Some? then s.lock.value else pid;
    assert Good(s, pid) && Good(s, k);
  }

  lemma CanGo(s: State, k: Pid, e: Event)
    requires k in s.procs && Good(s, k) && !s.procs[k].stage.Done? && (s.procs[k].stage.Waiting? ==> s.lock.None?)
    requires e.Go? && e.pid == k && e.child !in s.procs
    ensures Next(s, e).Some?
  {
    hide Changed, Recorded, EntryOf, AllOf, MainOf, Touches;
  }

  lemma {:induction false} FreshPid(pids: set<Pid>) returns (pid: Pid)
    ensures pid !in pids
  {
    var rest, max := pids, 0;
    while rest != {}
      invariant rest <= pids && forall p :: p in pids - rest ==> p <= max
      decreases |rest|
    {
      var p :| p in rest;
      max := if p > max then p else max;
      rest := rest - {p};
    }
    assert pids - rest == pids;
    pid := max + 1;
  }

  // ----- what the dirty flag says -----

  /** A call that marks the cache before it alters anything has marked it by the time it has altered something. */
  predicate MarksFirst(call: Option<Call>) {
    call.Some? && (call.value.TestGroup? || (call.value.TestMembers? && call.value.before == 0))
  }

  predicate Announced(p: Proc) {
    p.role.Caller? && MarksFirst(p.role.call) ==>
      p.marked || !Pending(p) || (p.stage == Working && p.own == 0 && p.todo != [] && p.todo[0] == Mark)
  }

  /** Since the updater last looked, or after it, the cache was less than thirty seconds old. */
  predicate Looks(s: State, p: Proc) {
    p.role.Updater? ==> Fit(p) && (!Pending(p) ==>
      p.role.looked <= s.now && s.shared.lastRefresh.Some? && p.role.looked < s.shared.lastRefresh.value + 30_000)
  }

  /** The last refresh, if any, is not after `now`. */
  predicate Past(s: State) {
    s.shared.lastRefresh.Some? ==> s.shared.lastRefresh.value <= s.now
  }

  ghost predicate Kept(s: State) {
    && Past(s)
    && (forall pid :: pid in s.procs ==> Announced(s.procs[pid]) && Looks(s, s.procs[pid]))
  }

  lemma KeptNext(s: State, e: Event)
    requires Kept(s) && Next(s, e).Some?
    ensures Kept(Next(s, e).value)
  {
    hide Next, Announced, Looks;
    var t := Next(s, e).value;
    ClockNext(s, e);
    forall k | k in t.procs ensures Announced(t.procs[k]) && Looks(t, t.procs[k]) {
      AnnouncedNext(s, e, k);
      LooksNext(s, e, k);
    }
  }

  lemma ClockNext(s: State, e: Event)
    requires Kept(s) && Next(s, e).Some?
    ensures Past(Next(s, e).value)
  {
    hide EntryOf, AllOf, MainOf, Script, Touches, Changed, Refused, Announced, Looks, Interval, Fetched;
  }

  lemma AnnouncedNext(s: State, e: Event, k: Pid)
    requires Next(s, e).Some? && k in Next(s, e).value.procs && (k in s.procs ==> Announced(s.procs[k]))
    ensures Announced(Next(s, e).value.procs[k])
  {
    hide Announced, Perform, Advance, Script, Touches;
    if !e.Go? {
      AnnouncedBegin(s, e, k);
    } else if Performs(s, e.pid) {
      AnnouncedPerform(s, e.pid, e.next, e.child, e.touches, k);
    } else {
      AnnouncedAdvance(s, e.pid, k);
    }
  }

  lemma AnnouncedBegin(s: State, e: Event, k: Pid)
    requires !e.Go? && Next(s, e).Some? && k in Next(s, e).value.procs && (k in s.procs ==> Announced(s.procs[k]))
    ensures Announced(Next(s, e).value.procs[k])
  {
    if e.Begin? && MarksFirst(Some(e.call)) {
      assert Script(e.call)[0] == Mark;
    }
  }

  lemma AnnouncedPerform(s: State, pid: Pid, next: Snapshot, child: Pid, touches: nat, k: Pid)
    requires Performs(s, pid) && Perform(s, pid, next, child, touches).Some?
    requires k in Perform(s, pid, next, child, touches).value.procs && (k in s.procs ==> Announced(s.procs[k]))
    ensures Announced(Perform(s, pid, next, child, touches).value.procs[k])
  {
    hide Touches, Changed, Refused;
  }

  lemma AnnouncedAdvance(s: State, pid: Pid, k: Pid)
    requires Advances(s, pid) && Advance(s, pid).Some?
    requires k in Advance(s, pid).value.procs && (k in s.procs ==> Announced(s.procs[k]))
    ensures Announced(Advance(s, pid).value.procs[k])
  {
    hide EntryOf, AllOf, MainOf, Recorded, Interval, InBackground, OnAccess, MarksFirst;
  }

  lemma LooksNext(s: State, e: Event, k: Pid)
    requires Past(s) && Next(s, e).Some? && k in Next(s, e).value.procs && (k in s.procs ==> Looks(s, s.procs[k]))
    requires e.Go? && e.pid in s.procs ==> Looks(s, s.procs[e.pid])
    ensures Looks(Next(s, e).value, Next(s, e).value.procs[k])
  {
    hide Looks, Perform, Advance, Script, Touches;
    if !e.Go? {
      LooksBegin(s, e, k);
    } else if Performs(s, e.pid) {
      LooksPerform(s, e.pid, e.next, e.child, e.touches, k);
    } else {
      LooksAdvance(s, e.pid, k);
    }
  }

  lemma LooksBegin(s: State, e: Event, k: Pid)
    requires !e.Go? && Next(s, e).Some? && k in Next(s, e).value.procs && (k in s.procs ==> Looks(s, s.procs[k]))
    ensures Looks(Next(s, e).value, Next(s, e).value.procs[k])
  {
    hide Script, Touches;
  }

  lemma LooksPerform(s: State, pid: Pid, next: Snapshot, child: Pid, touches: nat, k: Pid)
    requires Performs(s, pid) && Perform(s, pid, next, child, touches).Some?
    requires k in Perform(s, pid, next, child, touches).value.procs
    requires Looks(s, s.procs[pid]) && (k in s.procs ==> Looks(s, s.procs[k]))
    ensures var t := Perform(s, pid, next, child, touches).value; Looks(t, t.procs[k])
  {
    hide Touches, Changed, Refused;
  }

  lemma LooksAdvance(s: State, pid: Pid, k: Pid)
    requires Advances(s, pid) && Advance(s, pid).Some? && k in Advance(s, pid).value.procs
    requires Past(s) && (k in s.procs ==> Looks(s, s.procs[k]))
    ensures var t := Advance(s, pid).value; Looks(t, t.procs[k])
  {
    hide EntryOf, AllOf, MainOf, Interval;
    if s.procs[pid].stage == Deciding {
      FallbackBound(s.shared, s.now);
    }
  }

  lemma FallbackBound(c: Shared, now: nat)
    ensures Fallback(c, now) <= 30_000 && Interval(c, now) <= 5_000
  {
  }

  lemma {:induction false} KeptRun(s: State, events: seq<Event>)
    requires Kept(s) && Run(s, events).Some?
    ensures Kept(Run(s, events).value)
    decreases |events|
  {
    hide Kept, Next;
    if events != [] {
      KeptNext(s, events[0]);
      KeptRun(Next(s, events[0]).value, events[1..]);
    }
  }

  /** The newest version is the work of this call, or of a selection's prober. */
  ghost predicate NewestBy(s: State, call: Option<Call>) {
    exists pid :: pid in s.procs && s.procs[pid].role == Caller(call) && s.procs[pid].own == Version(s)
  }

  /** The flag is up, or a goroutine that raised it has not recorded its refresh. */
  ghost predicate Warned(s: State) {
    s.shared.dirty || exists pid :: pid in s.procs && s.procs[pid].marked
  }

  /** Nothing tells that the caches lack what this call did. */
  ghost predicate Missed(events: seq<Event>, call: Option<Call>) {
    && Run(INIT, events).Some?
    && var s := Run(INIT, events).value;
    Stale(s) && NewestBy(s, call) && !Warned(s)
  }

  /**
   Whether the flag, or a goroutine between its mark and its refresh, always tells that a change is not in the
   caches yet depends on the call that made the change: it does exactly for the tests that mark first.
   */
  lemma StaleIsWarned(call: Option<Call>)
    ensures (forall events :: !Missed(events, call)) <==> MarksFirst(call)
  {
    hide Run, Next, INIT;
    if MarksFirst(call) {
      forall events ensures !Missed(events, call) {
        MarkedBefore(events, call);
      }
    } else {
      var events := MissedRun(call);
      assert Missed(events, call);
    }
  }

  lemma MarkedBefore(events: seq<Event>, call: Option<Call>)
    requires MarksFirst(call)
    ensures !Missed(events, call)
  {
    hide Run, Next, Inv, Kept, MarksFirst;
    if Run(INIT, events).Some? {
      var s := Run(INIT, events).value;
      Reachable(events);
      KeptStart();
      KeptRun(INIT, events);
      forall pid | pid in s.procs && s.procs[pid].role == Caller(call) && s.procs[pid].own == Version(s) && Stale(s)
        ensures s.procs[pid].marked
      {
        MarkedOne(s, pid);
      }
    }
  }

  lemma MarkedOne(s: State, pid: Pid)
    requires Inv(s) && Kept(s) && pid in s.procs && s.procs[pid].role.Caller? && MarksFirst(s.procs[pid].role.call)
    requires s.procs[pid].own == Version(s) && Stale(s)
    ensures s.procs[pid].marked
  {
    hide MarksFirst, Faithful, Locking, Owned, DirtyOwned, Fit, Once, StoresNewer;
    assert Good(s, pid) && Announced(s.procs[pid]);
  }

  lemma KeptStart()
    ensures Kept(INIT)
  {
  }

  lemma MissedRun(call: Option<Call>) returns (events: seq<Event>)
    requires !MarksFirst(call)
    ensures Missed(events, call)
  {
    hide Run, Next, Missed;
    var x := Snapshot("", "");
    if call == None {
      events := MissedProber(x);
    } else if call.value.Start? {
      var s;
      events, s := StoppedRun(x);
      events := MissedCall(events, s, call.value);
    } else {
      var s;
      events, s := StartedRun(x);
      events := MissedCall(events, s, call.value);
    }
  }

  // ----- the runs that show it -----

  lemma {:induction false} Chain(s: State, first: seq<Event>, t: State, more: seq<Event>)
    requires Run(s, first) == Some(t)
    ensures Run(s, first + more) == Run(t, more)
    decreases |first|
  {
    hide Next;
    if first == [] {
      assert first + more == more;
    } else {
      assert (first + more)[1..] == first[1..] + more;
      Chain(Next(s, first[0]).value, first[1..], t, more);
    }
  }

  lemma Extend(start: State, events: seq<Event>, s: State, e: Event) returns (longer: seq<Event>, t: State)
    requires Run(start, events) == Some(s) && Next(s, e).Some?
    ensures longer == events + [e] && t == Next(s, e).value && Run(start, longer) == Some(t)
  {
    hide Next;
    longer, t := events + [e], Next(s, e).value;
    Chain(start, events, s, [e]);
    assert [e][1..] == [];
    assert Run(t, []) == Some(t);
  }

  /** The goroutine has refreshed both caches and has returned. */
  function Settled(s: State, pid: Pid): State
    requires pid in s.procs
  {
    var v := |s.history| - 1;
    var shared := Refreshed(s.shared, s.history[v], s.now);
    s.(shared := shared, allAt := v, mainAt := v,
      procs := s.procs[pid := s.procs[pid].(stage := Done, at := v, marked := false)])
  }

  /** The three stores of a refresh, taken together, are what the method does that refreshes both lists. */
  lemma StoresRefresh(s: State, events: seq<Event>, t: State, pid: Pid) returns (longer: seq<Event>, u: State)
    requires Run(s, events) == Some(t)
    requires pid in t.procs && t.procs[pid].stage == StoringAll && t.procs[pid].at < |t.history| &&
      t.procs[pid].role.Caller?
    ensures Run(s, longer) == Some(u)
    ensures var p := t.procs[pid];
      && u.shared == Refreshed(t.shared, t.history[p.at], t.now)
      && u == t.(shared := u.shared, allAt := p.at, mainAt := p.at,
        procs := t.procs[pid := p.(stage := Releasing, marked := false)])
  {
    hide Run, EntryOf, AllOf, MainOf, Changed, Refused, Interval, InBackground, OnAccess, Fetched, Script, Touches;
    var go := Go(pid, Snapshot("", ""), 0, 0);
    longer, u := Extend(s, events, t, go);
    longer, u := Extend(s, longer, u, go);
    longer, u := Extend(s, longer, u, go);
    assert u.procs == t.procs[pid := t.procs[pid].(stage := Releasing, marked := false)];
  }

  lemma Approach(s: State, events: seq<Event>, t: State, pid: Pid) returns (longer: seq<Event>, u: State)
    requires Run(s, events) == Some(t)
    requires pid in t.procs && t.procs[pid].role.Caller? && t.procs[pid].stage == Working && t.procs[pid].todo == [] &&
      t.lock == None
    ensures Run(s, longer) == Some(u)
    ensures u == t.(lock := Some(pid),
      procs := t.procs[pid := t.procs[pid].(stage := StoringAll, at := |t.history| - 1)])
  {
    hide Run, EntryOf, AllOf, MainOf, Changed, Refused, Interval, InBackground, OnAccess, Fetched, Script, Touches;
    var go := Go(pid, Snapshot("", ""), 0, 0);
    longer, u := Extend(s, events, t, go);
    longer, u := Extend(s, longer, u, go);
    longer, u := Extend(s, longer, u, go);
    assert u.procs == t.procs[pid := t.procs[pid].(stage := StoringAll, at := |t.history| - 1)];
  }

  /** A goroutine that finds the lock free goes through its refresh and returns. */
  lemma Settle(s: State, events: seq<Event>, t: State, pid: Pid) returns (longer: seq<Event>, u: State)
    requires Run(s, events) == Some(t)
    requires pid in t.procs && t.procs[pid].role.Caller? && t.procs[pid].stage == Working && t.procs[pid].todo == [] &&
      t.lock == None
    ensures Run(s, longer) == Some(u) && u == Settled(t, pid)
  {
    hide Run, EntryOf, AllOf, MainOf, Changed, Refused, Interval, InBackground, OnAccess, Fetched, Script, Touches,
      Refreshed;
    var go := Go(pid, Snapshot("", ""), 0, 0);
    longer, u := Approach(s, events, t, pid);
    var v := |t.history| - 1;
    longer, u := StoresRefresh(s, longer, u, pid);
    longer, u := Extend(s, longer, u, go);
    assert u.procs == t.procs[pid := t.procs[pid].(stage := Done, at := v, marked := false)];
  }

  /** Nobody works on the core, and the caches hold its state. */
  predicate Quiet(s: State, running: bool) {
    && !s.shared.dirty && s.lock == None && Running(s.history) == running
    && s.allAt == Version(s) && s.mainAt == Version(s)
    && (forall pid :: pid in s.procs ==> !s.procs[pid].marked)
  }

  /** A start or a stop from beginning to end. */
  lemma Switch(events: seq<Event>, s: State, pid: Pid, x: Snapshot) returns (longer: seq<Event>, t: State)
    requires Run(INIT, events) == Some(s) && s.lock == None && pid !in s.procs
    requires forall k :: k in s.procs ==> !s.procs[k].marked
    ensures Run(INIT, longer) == Some(t) && Quiet(t, !Running(s.history)) && t.procs.Keys == s.procs.Keys + {pid}
  {
    hide Run, INIT, EntryOf, AllOf, MainOf, Interval, InBackground, OnAccess, Fetched, Touches;
    var call := if Running(s.history) then Stop else Start;
    longer, t := Extend(INIT, events, s, Begin(pid, call));
    longer, t := Extend(INIT, longer, t, Go(pid, x, 0, 0));
    longer, t := Extend(INIT, longer, t, Go(pid, x, 0, 0));
    longer, t := Settle(INIT, longer, t, pid);
  }

  lemma StartedRun(x: Snapshot) returns (events: seq<Event>, s: State)
    ensures Run(INIT, events) == Some(s) && Quiet(s, true) && s.procs.Keys == {1}
  {
    events := [];
    events, s := Switch(events, INIT, 1, x);
  }

  lemma StoppedRun(x: Snapshot) returns (events: seq<Event>, s: State)
    ensures Run(INIT, events) == Some(s) && Quiet(s, false) && s.procs.Keys == {1, 3}
  {
    hide Run, INIT;
    events, s := StartedRun(x);
    events, s := Switch(events, s, 3, x);
  }

  /** Such a call alters the core in its first step; the caches are stale then, and nobody has said so. */
  lemma MissedCall(before: seq<Event>, s: State, call: Call) returns (events: seq<Event>)
    requires Run(INIT, before) == Some(s) && Quiet(s, !call.Start?) && 2 !in s.procs && !MarksFirst(Some(call))
    ensures Missed(events, Some(call))
  {
    hide Run, INIT, EntryOf, AllOf, MainOf, Interval, InBackground, OnAccess, Fetched;
    var t;
    events, t := Extend(INIT, before, s, Begin(2, call));
    assert t.procs[2].todo[0] in [Open, Close, Touch];
    events, t := Extend(INIT, events, t, Go(2, Snapshot("", ""), 0, 0));
    assert t.procs[2].own == Version(t);
  }

  /** A selection has refreshed and returned, and then its prober stores a result. */
  lemma MissedProber(x: Snapshot) returns (events: seq<Event>)
    ensures Missed(events, None)
  {
    hide Run, INIT, EntryOf, AllOf, MainOf, Interval, InBackground, OnAccess, Fetched;
    var s;
    events, s := StartedRun(x);
    events, s := Extend(INIT, events, s, Begin(2, Select));
    events, s := Extend(INIT, events, s, Go(2, x, 0, 0));
    events, s := Extend(INIT, events, s, Go(2, x, 0, 0));
    events, s := Extend(INIT, events, s, Go(2, x, 3, 1));
    events, s := Settle(INIT, events, s, 2);
    assert s.procs[3] == Worker(None, Touches(1));
    events, s := Extend(INIT, events, s, Go(3, x, 0, 0));
    assert s.procs[3].own == Version(s);
  }

  /** The updater has read version 0 and is about to store it. */
  function Polled(history: History, callers: map<Pid, Proc>): State {
    State(history, Shared(EMPTY, EMPTY, true, None, None), 0, 0, Some(1),
          callers[1 := Proc(Updater(false, 0, 0), StoringAll, [], 0, 0, false)], true, 0)
  }

  lemma Polling(x: Snapshot) returns (events: seq<Event>)
    ensures Run(INIT, events) == Some(Polled([None], map[]))
  {
    var s := INIT;
    events := [];
    assert Run(INIT, events) == Some(s);
    hide Run, EntryOf, AllOf, MainOf;
    events, s := Extend(INIT, events, s, BeginUpdater(1));
    events, s := Extend(INIT, events, s, Go(1, x, 9, 0));
    events, s := Extend(INIT, events, s, Go(1, x, 9, 0));
    assert s.procs == Polled([None], map[]).procs;
  }

  /** A start has changed the core and marked the cache since. */
  function Marked(): Proc {
    Proc(Caller(Some(Start)), Working, [], 1, 0, true)
  }

  lemma Overtaking(x: Snapshot) returns (events: seq<Event>)
    ensures Run(INIT, events) == Some(Polled([None, Some(x)], map[2 := Marked()]))
  {
    hide Run, EntryOf, AllOf, MainOf;
    var s := Polled([None], map[]);
    events := Polling(x);
    events, s := Extend(INIT, events, s, Begin(2, Start));
    assert s.procs[2] == Worker(Some(Start), [Open, Mark]);
    events, s := Extend(INIT, events, s, Go(2, x, 9, 0));
    assert s.procs[2] == Marked().(todo := [Mark], marked := false);
    events, s := Extend(INIT, events, s, Go(2, x, 9, 0));
    assert s.procs[2] == Marked();
    assert s.history == [None, Some(x)];
    assert s.procs == Polled([None], map[2 := Marked()]).procs;
  }

  /**
   A refresh already under way clears the mark of a newer change: the flag alone can be down, after a refresh,
   while the caches are stale and the call that raised it still waits for its own refresh.
   */
  lemma LostMark(x: Snapshot) returns (events: seq<Event>)
    ensures Run(INIT, events).Some?
    ensures var s := Run(INIT, events).value;
      Stale(s) && !s.shared.dirty && s.shared.lastRefresh.Some? && 2 in s.procs && s.procs[2].marked &&
        Pending(s.procs[2])
  {
    hide Run, EntryOf, AllOf, MainOf;
    var s := Polled([None, Some(x)], map[2 := Marked()]);
    events := Overtaking(x);
    events, s := Extend(INIT, events, s, Go(1, x, 9, 0));
    events, s := Extend(INIT, events, s, Go(1, x, 9, 0));
    events, s := Extend(INIT, events, s, Go(1, x, 9, 0));
  }

  // ----- the background updater's clock -----

  /**
   The updater lets the cache be exactly when nobody has marked it and it is younger than 30 seconds, than 15
   if it was read less than 30 ago, and than 5 if it was read less than 5 ago.  Both lists are then of one
   version, and only goroutines that are still to refresh have made newer ones.
   */
  lemma SkippedIsYoung(events: seq<Event>, pid: Pid)
    requires Run(INIT, events).Some?
    requires var s := Run(INIT, events).value; Advances(s, pid) && s.procs[pid].stage == Deciding
    ensures var s := Run(INIT, events).value;
      Advance(s, pid).value.procs[pid].stage == Releasing <==>
        Young(s.shared, s.now) && s.shared.lastRefresh.value <= s.now
    ensures var s := Run(INIT, events).value;
      && s.allAt == s.mainAt
      && (forall k :: k in s.procs && s.procs[k].own > s.allAt ==> Pending(s.procs[k]))
      && (Version(s) > s.allAt ==> exists k :: k in s.procs && s.procs[k].own == Version(s) && Pending(s.procs[k]))
  {
    hide Run, Next, Inv, Kept, Advance, Pending, Young;
    KeptStart();
    KeptRun(INIT, events);
    Reachable(events);
    SkipsWhen(Run(INIT, events).value, pid);
    UnseenIsPending(Run(INIT, events).value, pid);
  }

  lemma SkipsWhen(s: State, pid: Pid)
    requires Kept(s) && Advances(s, pid) && s.procs[pid].stage == Deciding
    ensures Advance(s, pid).Some? && pid in Advance(s, pid).value.procs
    ensures Advance(s, pid).value.procs[pid].stage == Releasing <==>
      Young(s.shared, s.now) && s.shared.lastRefresh.value <= s.now
  {
    hide Fallback, Announced, Looks, ReadWithin, InBackground;
    YoungExactly(s.shared, s.now);
  }

  lemma UnseenIsPending(s: State, pid: Pid)
    requires Inv(s) && pid in s.procs && s.procs[pid].stage == Deciding
    ensures s.allAt == s.mainAt
    ensures forall k :: k in s.procs && s.procs[k].own > s.allAt ==> Pending(s.procs[k])
    ensures Version(s) > s.allAt ==> exists k :: k in s.procs && s.procs[k].own == Version(s) && Pending(s.procs[k])
  {
    hide Faithful, DirtyOwned, Fit, Once, StoresNewer;
    assert Good(s, pid);
    forall k | k in s.procs && s.procs[k].own > s.allAt ensures Pending(s.procs[k]) {
      assert Good(s, k);
    }
  }

  /**
   In every run the updater sets its timer so that, whoever refreshed in between, it looks again before the
   cache is 35 seconds old, plus the time that has passed since it looked last; it sleeps for half a second if
   a reader came less than 5 seconds ago, for two if less than 30 ago, and for five otherwise.
   */
  lemma SleepIsShort(events: seq<Event>, pid: Pid)
    requires Run(INIT, events).Some?
    requires var s := Run(INIT, events).value;
      Advances(s, pid) && s.procs[pid].stage == Timing && s.procs[pid].role.Updater?
    ensures var s := Run(INIT, events).value;
      var wake := Advance(s, pid).value.procs[pid].role.wake;
      && s.shared.lastRefresh.Some? && s.procs[pid].role.looked <= s.now
      && wake < s.shared.lastRefresh.value + 35_000 + (s.now - s.procs[pid].role.looked)
      && wake - s.now == if ReadWithin(s.shared, s.now, 5_000) then 500
                         else if ReadWithin(s.shared, s.now, 30_000) then 2_000 else 5_000
  {
    hide Run, Next;
    KeptRun(INIT, events);
    var s := Run(INIT, events).value;
    assert Looks(s, s.procs[pid]);
    YoungExactly(s.shared, s.now);
  }
}
