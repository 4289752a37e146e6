/**
 * The allocation table under concurrency (src/allocation.rs, with the Allocate and Refresh handlers of
 * src/server.rs): any number of tasks and the cleanup task, interleaved at every shared read and write. The table's
 * write lock serialises whole critical sections, but the port bitmap and the allocation counter are read outside it.
 * A table entry is named by its relayed port: the relayed address is the fixed external address with that port.
 */
module AllocationSteps {
  import opened Bytes
  import Codec

  type Tid = nat
  type Client = Codec.SocketAddr
  type Port = nat

  const MAX_ATTEMPTS: nat := 100

  /** Where a task is in `handle_allocate`, or in `handle_refresh` with lifetime zero. */
  datatype Pc =
    | Finding                                 // about to look up the client's old allocation
    | Dropping(port: Port)                    // about to lock the table and remove it
    | Quota                                   // about to read the allocation counter
    | Picking(attempts: nat)                  // about to ask for a port
    | Opening(port: Port, attempts: nat)      // has a port, waits for its socket
    | Failed(port: Port, attempts: nat)       // the bind failed, the port is still marked
    | Ready(port: Port)                       // has port and socket, about to lock the table
    | InLock                                  // inside a critical section

  datatype Call = Call(client: Client, deletes: bool, pc: Pc)

  datatype Phase = ToRelease | ToDecrement | ToUnregister

  /** The table's write lock and how far its holder has got. */
  datatype Lock =
    | Free
    | Inserting(t: Tid, port: Port, counted: bool)
    | Removing(t: Tid, port: Port, phase: Phase)
    | Cleaning(todo: set<Port>, current: Option<Port>, released: bool, removed: nat)

  datatype State = State(bits: set<Port>, table: map<Port, Client>, active: int, trackers: set<Port>,
                         lock: Lock, calls: map<Tid, Call>)

  datatype Action =
    | Begin(t: Tid, client: Client, deletes: bool)
    | Find(t: Tid, found: Option<Port>)
    | LockToRemove(t: Tid)
    | RemoveStep(t: Tid)
    | CheckQuota(t: Tid)
    | Pick(t: Tid, port: Port)
    | PickNone(t: Tid)
    | Bind(t: Tid, ok: bool)
    | ReleaseFailed(t: Tid)
    | LockToInsert(t: Tid)
    | InsertStep(t: Tid)
    | LockToClean(expired: set<Port>)
    | CleanStep(port: Port)
    | UnlockClean

  /** A lookup by client: any entry of the client, or nothing when there is none. */
  predicate LooksUp(table: map<Port, Client>, client: Client, found: Option<Port>) {
    match found
    case Some(p) => p in table && table[p] == client
    case None => forall p :: p in table ==> table[p] != client
  }

  predicate Enabled(range: set<Port>, s: State, a: Action) {
    match a
    case Begin(t, _, _) => t !in s.calls
    case Find(t, found) =>
      t in s.calls && s.calls[t].pc.Finding? && s.lock.Free? && LooksUp(s.table, s.calls[t].client, found)
    case LockToRemove(t) => t in s.calls && s.calls[t].pc.Dropping? && s.lock.Free?
    case RemoveStep(t) => t in s.calls && s.lock.Removing? && s.lock.t == t
    case CheckQuota(t) => t in s.calls && s.calls[t].pc.Quota?
    case Pick(t, p) =>
      t in s.calls && s.calls[t].pc.Picking? && s.calls[t].pc.attempts < MAX_ATTEMPTS && p in range && p !in s.bits
    case PickNone(t) => t in s.calls && s.calls[t].pc.Picking?
    case Bind(t, _) => t in s.calls && s.calls[t].pc.Opening?
    case ReleaseFailed(t) => t in s.calls && s.calls[t].pc.Failed?
    case LockToInsert(t) => t in s.calls && s.calls[t].pc.Ready? && s.lock.Free?
    case InsertStep(t) => t in s.calls && s.lock.Inserting? && s.lock.t == t
    case LockToClean(expired) => s.lock.Free? && expired <= s.table.Keys
    case CleanStep(p) =>
      && s.lock.Cleaning?
      && (if s.lock.current.None? then p in s.lock.todo else s.lock.current.value == p)
    case UnlockClean => s.lock.Cleaning? && s.lock.todo == {} && s.lock.current.None?
  }

  function Go(s: State, t: Tid, pc: Pc): State
    requires t in s.calls
  {
    s.(calls := s.calls[t := s.calls[t].(pc := pc)])
  }

  function End(s: State, t: Tid): State {
    s.(calls := s.calls - {t})
  }

  /** After the removal of the old allocation an Allocate goes on, a Refresh to zero is done. */
  function AfterRemoval(s: State, t: Tid): State
    requires t in s.calls
  {
    if s.calls[t].deletes then End(s, t) else Go(s, t, Quota)
  }

  function Apply(max: Option<nat>, range: set<Port>, s: State, a: Action): State
    requires Enabled(range, s, a)
  {
    match a
    case Begin(t, client, deletes) => s.(calls := s.calls[t := Call(client, deletes, Finding)])
    case Find(t, found) => if found.Some? then Go(s, t, Dropping(found.value)) else AfterRemoval(s, t)
    case LockToRemove(t) =>
      var p := s.calls[t].pc.port;
      if p in s.table then Go(s, t, InLock).(table := s.table - {p}, lock := Removing(t, p, ToRelease))
      else AfterRemoval(s, t)
    case RemoveStep(t) =>
      (match s.lock.phase
       case ToRelease => s.(bits := s.bits - {s.lock.port}, lock := s.lock.(phase := ToDecrement))
       case ToDecrement => s.(active := s.active - 1, lock := s.lock.(phase := ToUnregister))
       case ToUnregister => AfterRemoval(s, t).(trackers := s.trackers - {s.lock.port}, lock := Free))
    case CheckQuota(t) => if max.Some? && s.active >= max.value then End(s, t) else Go(s, t, Picking(0))
    case Pick(t, p) => Go(s, t, Opening(p, s.calls[t].pc.attempts)).(bits := s.bits + {p})
    case PickNone(t) => End(s, t)
    case Bind(t, ok) =>
      var pc := s.calls[t].pc;
      Go(s, t, if ok then Ready(pc.port) else Failed(pc.port, pc.attempts))
    case ReleaseFailed(t) =>
      var pc := s.calls[t].pc;
      Go(s, t, Picking(pc.attempts + 1)).(bits := s.bits - {pc.port})
    case LockToInsert(t) =>
      var p := s.calls[t].pc.port;
      Go(s, t, InLock).(table := s.table[p := s.calls[t].client], lock := Inserting(t, p, false))
    case InsertStep(t) =>
      if !s.lock.counted then s.(active := s.active + 1, lock := s.lock.(counted := true))
      else End(s, t).(trackers := s.trackers + {s.lock.port}, lock := Free)
    case LockToClean(expired) => s.(lock := Cleaning(expired, None, false, 0))
    case CleanStep(p) =>
      if s.lock.current.None? then
        s.(table := s.table - {p}, lock := Cleaning(s.lock.todo - {p}, Some(p), false, s.lock.removed))
      else if !s.lock.released then
        s.(bits := s.bits - {p}, lock := s.lock.(released := true))
      else
        s.(trackers := s.trackers - {p}, lock := Cleaning(s.lock.todo, None, false, s.lock.removed + 1))
    case UnlockClean => s.(active := s.active - s.lock.removed, lock := Free)
  }

  // ---------------------------------------------------------------- every taken port is in one place

  datatype Place = InTable | InLimbo | With(t: Tid)

  /** A port held by a creation that is not yet in the table. */
  predicate Holds(s: State, t: Tid, p: Port) {
    && t in s.calls
    && match s.calls[t].pc
       case Opening(q, _) => p == q
       case Failed(q, _) => p == q
       case Ready(q) => p == q
       case _ => false
  }

  /** A port whose entry is gone but whose bit the lock holder has not cleared yet. */
  predicate Limbo(lock: Lock, p: Port) {
    match lock
    case Removing(_, q, ToRelease) => p == q
    case Cleaning(_, Some(q), false, _) => p == q
    case _ => false
  }

  predicate IsAt(s: State, p: Port, place: Place) {
    match place
    case InTable => p in s.table
    case InLimbo => Limbo(s.lock, p)
    case With(t) => Holds(s, t, p)
  }

  /** The set bits of the bitmap, each with the one place its port is in. */
  ghost predicate Placed(s: State, places: map<Port, Place>) {
    && places.Keys == s.bits
    && forall p, place :: IsAt(s, p, place) <==> p in places && places[p] == place
  }

  /** The lock and its holder agree. */
  ghost predicate LockHeld(s: State) {
    && (s.lock.Inserting? ==> s.lock.port in s.table)
    && (s.lock.Inserting? || s.lock.Removing? ==> s.lock.t in s.calls && s.calls[s.lock.t].pc.InLock?)
    && (s.lock.Removing? ==> s.lock.port !in s.table)
    && (s.lock.Cleaning? ==> s.lock.todo <= s.table.Keys)
    && (s.lock.Cleaning? && s.lock.current.Some? ==> s.lock.current.value !in s.table)
    && (forall t :: t in s.calls && s.calls[t].pc.InLock? ==>
          (s.lock.Inserting? || s.lock.Removing?) && s.lock.t == t)
  }

  lemma StepKeepsLockHeld(max: Option<nat>, range: set<Port>, s: State, a: Action)
    requires Enabled(range, s, a) && LockHeld(s)
    ensures LockHeld(Apply(max, range, s, a))
  {
  }

  predicate TaskAction(a: Action) {
    a.Begin? || a.Find? || a.CheckQuota? || a.Pick? || a.PickNone? || a.Bind? || a.ReleaseFailed?
  }

  lemma TaskKeepsPlaced(max: Option<nat>, range: set<Port>, s: State, a: Action, places: map<Port, Place>)
    returns (places': map<Port, Place>)
    requires Enabled(range, s, a) && Placed(s, places) && LockHeld(s) && TaskAction(a)
    ensures Placed(Apply(max, range, s, a), places')
  {
    var s' := Apply(max, range, s, a);
    places' := places;
    if a.Pick? {
      places' := places[a.port := With(a.t)];
    } else if a.ReleaseFailed? {
      places' := places - {s.calls[a.t].pc.port};
      assert IsAt(s, s.calls[a.t].pc.port, With(a.t));
    }
    forall p, place ensures IsAt(s', p, place) <==> p in places' && places'[p] == place {
      assert IsAt(s, p, place) <==> p in places && places[p] == place;
    }
  }

  lemma LockKeepsPlaced(max: Option<nat>, range: set<Port>, s: State, a: Action, places: map<Port, Place>)
    returns (places': map<Port, Place>)
    requires Enabled(range, s, a) && Placed(s, places) && LockHeld(s) && !TaskAction(a)
    ensures Placed(Apply(max, range, s, a), places')
  {
    var s' := Apply(max, range, s, a);
    places' := places;
    match a {
      case LockToRemove(t) =>
        var p := s.calls[t].pc.port;
        if p in s.table { places' := places[p := InLimbo]; assert IsAt(s, p, InTable); }
      case RemoveStep(t) =>
        if s.lock.phase.ToRelease? { places' := places - {s.lock.port}; assert IsAt(s, s.lock.port, InLimbo); }
      case LockToInsert(t) =>
        places' := places[s.calls[t].pc.port := InTable];
        assert IsAt(s, s.calls[t].pc.port, With(t));
      case CleanStep(p) =>
        if s.lock.current.None? {
          places' := places[p := InLimbo];
          assert IsAt(s, p, InTable);
        } else if !s.lock.released {
          places' := places - {p};
          assert IsAt(s, p, InLimbo);
        }
      case _ =>
    }
    forall p, place ensures IsAt(s', p, place) <==> p in places' && places'[p] == place {
      assert IsAt(s, p, place) <==> p in places && places[p] == place;
    }
  }

  // ---------------------------------------------------------------- counter and trackers follow the table

  /** How far the allocation counter is from the table size while the lock holder is at work. */
  function Uncounted(lock: Lock): int {
    match lock
    case Free => 0
    case Inserting(_, _, counted) => if counted then 0 else -1
    case Removing(_, _, phase) => if phase.ToUnregister? then 0 else 1
    case Cleaning(_, current, _, removed) => removed + if current.Some? then 1 else 0
  }

  /** The bandwidth tracker keys for a table and a lock. */
  function TrackerKeys(table: map<Port, Client>, lock: Lock): set<Port> {
    match lock
    case Free => table.Keys
    case Inserting(_, p, _) => table.Keys - {p}
    case Removing(_, p, _) => table.Keys + {p}
    case Cleaning(_, current, _, _) => if current.Some? then table.Keys + {current.value} else table.Keys
  }

  ghost predicate Accounted(s: State) {
    && s.active == |s.table| + Uncounted(s.lock)
    && s.trackers == TrackerKeys(s.table, s.lock)
  }

  /** No insert overwrites an entry: a creation's port is never in the table. */
  lemma ReadyPortIsNew(s: State, t: Tid, places: map<Port, Place>)
    requires Placed(s, places) && t in s.calls && s.calls[t].pc.Ready?
    ensures s.calls[t].pc.port !in s.table && s.calls[t].pc.port in s.bits
  {
    assert IsAt(s, s.calls[t].pc.port, With(t));
    assert !IsAt(s, s.calls[t].pc.port, InTable);
  }

  lemma InsertKeepsAccounted(max: Option<nat>, range: set<Port>, s: State, a: Action, places: map<Port, Place>)
    requires Enabled(range, s, a) && LockHeld(s) && Placed(s, places) && Accounted(s) && a.LockToInsert?
    ensures Accounted(Apply(max, range, s, a))
  {
    var p := s.calls[a.t].pc.port;
    SizeAfter(s.table, p, s.calls[a.t].client);
    ReadyPortIsNew(s, a.t, places);
    assert s.table.Keys + {p} - {p} == s.table.Keys;
  }

  lemma InsertStepKeepsAccounted(max: Option<nat>, range: set<Port>, s: State, a: Action)
    requires Enabled(range, s, a) && LockHeld(s) && Accounted(s) && a.InsertStep?
    ensures Accounted(Apply(max, range, s, a))
  {
    assert s.table.Keys - {s.lock.port} + {s.lock.port} == s.table.Keys;
  }

  lemma RemoveKeepsAccounted(max: Option<nat>, range: set<Port>, s: State, a: Action)
    requires Enabled(range, s, a) && LockHeld(s) && Accounted(s) && a.LockToRemove?
    ensures Accounted(Apply(max, range, s, a))
  {
    var p := s.calls[a.t].pc.port;
    SizeAfter(s.table, p, s.calls[a.t].client);
    if p in s.table { assert s.table.Keys - {p} + {p} == s.table.Keys; }
  }

  lemma RemoveStepKeepsAccounted(max: Option<nat>, range: set<Port>, s: State, a: Action)
    requires Enabled(range, s, a) && LockHeld(s) && Accounted(s) && a.RemoveStep?
    ensures Accounted(Apply(max, range, s, a))
  {
    assert s.table.Keys + {s.lock.port} - {s.lock.port} == s.table.Keys;
  }

  lemma CleanTakesAccounted(max: Option<nat>, range: set<Port>, s: State, a: Action)
    requires Enabled(range, s, a) && LockHeld(s) && Accounted(s) && a.CleanStep? && s.lock.current.None?
    ensures Accounted(Apply(max, range, s, a))
  {
    SizeAfter(s.table, a.port, s.table[a.port]);
    assert s.table.Keys - {a.port} + {a.port} == s.table.Keys;
  }

  lemma CleanGoesOnAccounted(max: Option<nat>, range: set<Port>, s: State, a: Action)
    requires Enabled(range, s, a) && LockHeld(s) && Accounted(s) && a.CleanStep? && s.lock.current.Some?
    ensures Accounted(Apply(max, range, s, a))
  {
    assert s.table.Keys + {a.port} - {a.port} == s.table.Keys;
  }

  lemma TaskKeepsAccounted(max: Option<nat>, range: set<Port>, s: State, a: Action)
    requires Enabled(range, s, a) && Accounted(s) && (TaskAction(a) || a.LockToClean? || a.UnlockClean?)
    ensures Accounted(Apply(max, range, s, a))
  {
  }

  lemma StepKeepsAccounted(max: Option<nat>, range: set<Port>, s: State, a: Action, places: map<Port, Place>)
    requires Enabled(range, s, a) && LockHeld(s) && Placed(s, places) && Accounted(s)
    ensures Accounted(Apply(max, range, s, a))
  {
    match a {
      case LockToInsert(_) => InsertKeepsAccounted(max, range, s, a, places);
      case InsertStep(_) => InsertStepKeepsAccounted(max, range, s, a);
      case LockToRemove(_) => RemoveKeepsAccounted(max, range, s, a);
      case RemoveStep(_) => RemoveStepKeepsAccounted(max, range, s, a);
      case CleanStep(_) =>
        if s.lock.current.None? {
          CleanTakesAccounted(max, range, s, a);
        } else {
          CleanGoesOnAccounted(max, range, s, a);
        }
      case _ => TaskKeepsAccounted(max, range, s, a);
    }
  }

  // ---------------------------------------------------------------- every run

  /** What holds in every reachable state of the tables. */
  ghost predicate Consistent(s: State, places: map<Port, Place>) {
    Placed(s, places) && LockHeld(s) && Accounted(s)
  }

  lemma StepKeepsConsistent(max: Option<nat>, range: set<Port>, s: State, a: Action, places: map<Port, Place>)
    returns (places': map<Port, Place>)
    requires Enabled(range, s, a) && Consistent(s, places)
    ensures Consistent(Apply(max, range, s, a), places')
  {
    StepKeepsLockHeld(max, range, s, a);
    StepKeepsAccounted(max, range, s, a, places);
    if TaskAction(a) {
      places' := TaskKeepsPlaced(max, range, s, a, places);
    } else {
      places' := LockKeepsPlaced(max, range, s, a, places);
    }
  }

  const INITIAL: State := State({}, map[], 0, {}, Free, map[])

  ghost predicate Run(max: Option<nat>, range: set<Port>, states: seq<State>, actions: seq<Action>) {
    && |states| == |actions| + 1 && states[0] == INITIAL
    && forall i :: 0 <= i < |actions| ==>
         Enabled(range, states[i], actions[i]) && states[i + 1] == Apply(max, range, states[i], actions[i])
  }

  lemma {:induction false} RunIsConsistent(max: Option<nat>, range: set<Port>, states: seq<State>, actions: seq<Action>,
                                           i: nat)
    returns (places: map<Port, Place>)
    requires Run(max, range, states, actions) && i < |states|
    ensures Consistent(states[i], places)
  {
    if i == 0 {
      places := map[];
    } else {
      var before := RunIsConsistent(max, range, states, actions, i - 1);
      places := StepKeepsConsistent(max, range, states[i - 1], actions[i - 1], before);
    }
  }

  /**
   * In every state of every run: every set bit is either in the table, with one creation, or about to be cleared by
   * the lock holder; and outside critical sections the counter is the table size and the trackers are its keys.
   */
  lemma TablesInStep(max: Option<nat>, range: set<Port>, states: seq<State>, actions: seq<Action>, i: nat)
    requires Run(max, range, states, actions) && i < |states|
    ensures var s := states[i];
            && (forall p :: p in s.bits <==> exists place :: IsAt(s, p, place))
            && (forall p, place, place' :: IsAt(s, p, place) && IsAt(s, p, place') ==> place == place')
            && (s.lock.Free? ==> s.active == |s.table| && s.trackers == s.table.Keys)
            && (s.lock.Free? && s.calls == map[] ==> s.bits == s.table.Keys)
  {
    var s := states[i];
    var places := RunIsConsistent(max, range, states, actions, i);
    forall p ensures p in s.bits <==> exists place :: IsAt(s, p, place) {
      if p in s.bits { assert IsAt(s, p, places[p]); }
    }
    if s.lock.Free? && s.calls == map[] {
      forall p ensures p in s.bits <==> p in s.table {
        if p in s.bits { assert IsAt(s, p, places[p]); }
        assert IsAt(s, p, InTable) <==> p in s.table;
      }
    }
  }

  /**
   * Every bit that is cleared in a run is cleared by the one who has its port: a creation whose own bind failed, or the
   * holder of the lock that has just taken its entry out of the table. So callers release only ports they hold.
   */
  lemma OnlyHoldersRelease(max: Option<nat>, range: set<Port>, states: seq<State>, actions: seq<Action>, i: nat,
                           p: Port)
    requires Run(max, range, states, actions) && i < |actions| && p in states[i].bits && p !in states[i + 1].bits
    ensures var s, a := states[i], actions[i];
            || (a.ReleaseFailed? && IsAt(s, p, With(a.t)))
            || (a.RemoveStep? && s.lock.Removing? && s.lock.t == a.t && IsAt(s, p, InLimbo))
            || (a.CleanStep? && s.lock.Cleaning? && IsAt(s, p, InLimbo))
    ensures forall place, place' :: IsAt(states[i], p, place) && IsAt(states[i], p, place') ==> place == place'
  {
    TablesInStep(max, range, states, actions, i);
    assert Enabled(range, states[i], actions[i]);
  }

  /** The quota turns a creation away exactly when the counter has reached the limit. */
  lemma QuotaDecides(max: Option<nat>, range: set<Port>, s: State, t: Tid)
    requires Enabled(range, s, CheckQuota(t))
    ensures t !in Apply(max, range, s, CheckQuota(t)).calls <==> max.Some? && s.active >= max.value
  {
  }

  predicate Decided(s: State, t: Tid) {
    t in s.calls && (s.calls[t].pc.Ready? || s.calls[t].pc.Failed?)
  }

  lemma BindDecides(max: Option<nat>, range: set<Port>, s: State, a: Action, s': State, t: Tid)
    requires Enabled(range, s, a) && s' == Apply(max, range, s, a) && Decided(s', t)
    ensures if a.Bind? && a.t == t
            then a == Bind(t, s'.calls[t].pc.Ready?) && t in s.calls && s.calls[t].pc.Opening?
                 && s.calls[t].pc.port == s'.calls[t].pc.port
            else Decided(s, t) && s.calls[t].pc == s'.calls[t].pc
  {
  }

  /** In every run, a creation that is ready to insert has bound its socket, one that gives its port back has not. */
  lemma {:induction false} ReadyWasBound(max: Option<nat>, range: set<Port>, states: seq<State>, actions: seq<Action>,
                                         i: nat, t: Tid) returns (j: nat)
    requires Run(max, range, states, actions) && i < |states| && Decided(states[i], t)
    ensures j < i && actions[j] == Bind(t, states[i].calls[t].pc.Ready?)
    ensures t in states[j].calls && states[j].calls[t].pc.Opening?
    ensures states[j].calls[t].pc.port == states[i].calls[t].pc.port
  {
    BindDecides(max, range, states[i - 1], actions[i - 1], states[i], t);
    if actions[i - 1].Bind? && actions[i - 1].t == t {
      j := i - 1;
    } else {
      j := ReadyWasBound(max, range, states, actions, i - 1, t);
    }
  }

  /** If the call deletes, it is before or inside its removal. */
  predicate OnlyRemoves(s: State, t: Tid) {
    t in s.calls && s.calls[t].deletes ==>
      var pc := s.calls[t].pc; pc.Finding? || pc.Dropping? || (pc.InLock? && s.lock.Removing? && s.lock.t == t)
  }

  lemma StepOnlyRemoves(max: Option<nat>, range: set<Port>, s: State, a: Action, s': State, t: Tid)
    requires Enabled(range, s, a) && s' == Apply(max, range, s, a) && LockHeld(s) && OnlyRemoves(s, t)
    ensures OnlyRemoves(s', t)
  {
  }

  lemma RunLockHeld(max: Option<nat>, range: set<Port>, states: seq<State>, actions: seq<Action>, i: nat)
    requires Run(max, range, states, actions) && i < |states|
    ensures LockHeld(states[i])
  {
    var places := RunIsConsistent(max, range, states, actions, i);
  }

  /** A Refresh to zero only removes: in no run does it get as far as a creation. */
  lemma {:induction false} DeletesOnlyRemove(max: Option<nat>, range: set<Port>, states: seq<State>,
                                             actions: seq<Action>, i: nat, t: Tid)
    requires Run(max, range, states, actions) && i < |states|
    ensures OnlyRemoves(states[i], t)
  {
    if i > 0 {
      DeletesOnlyRemove(max, range, states, actions, i - 1, t);
      RunLockHeld(max, range, states, actions, i - 1);
      StepOnlyRemoves(max, range, states[i - 1], actions[i - 1], states[i], t);
    }
  }

  /** And an Allocate ends without having checked the quota only when the quota turns it away or no port is left. */
  lemma AllocateGoesOn(max: Option<nat>, range: set<Port>, s: State, a: Action, t: Tid)
    requires Enabled(range, s, a) && t in s.calls && !s.calls[t].deletes
    ensures t !in Apply(max, range, s, a).calls ==>
            a == CheckQuota(t) || a == PickNone(t) || (a == InsertStep(t) && s.lock.Inserting? && s.lock.counted)
  {
  }

  /** In every run, no creation tries more than a hundred ports. */
  lemma {:induction false} AtMostHundredPorts(max: Option<nat>, range: set<Port>, states: seq<State>,
                                              actions: seq<Action>, i: nat, t: Tid)
    requires Run(max, range, states, actions) && i < |states| && t in states[i].calls
    ensures var pc := states[i].calls[t].pc;
            && (pc.Picking? ==> pc.attempts <= 100)
            && (pc.Opening? || pc.Failed? ==> pc.attempts < 100)
  {
    if i > 0 {
      var s, a := states[i - 1], actions[i - 1];
      if t in s.calls { AtMostHundredPorts(max, range, states, actions, i - 1, t); }
      assert Enabled(range, s, a) && states[i] == Apply(max, range, s, a);
    }
  }

  /** In every run, an insert finds its key absent, so no allocation is ever overwritten. */
  lemma NoInsertOverwrites(max: Option<nat>, range: set<Port>, states: seq<State>, actions: seq<Action>, i: nat)
    requires Run(max, range, states, actions) && i < |actions| && actions[i].LockToInsert?
    ensures states[i].calls[actions[i].t].pc.port !in states[i].table
  {
    var places := RunIsConsistent(max, range, states, actions, i);
    ReadyPortIsNew(states[i], actions[i].t, places);
  }

  // ---------------------------------------------------------------- the quota

  /** A creation past its quota check and not yet counted. */
  predicate InFlight(s: State, t: Tid) {
    && t in s.calls
    && match s.calls[t].pc
       case Picking(_) => true
       case Opening(_, _) => true
       case Failed(_, _) => true
       case Ready(_) => true
       case InLock => s.lock.Inserting? && !s.lock.counted
       case _ => false
  }

  ghost function Creations(s: State): set<Tid> {
    set t | t in s.calls && InFlight(s, t)
  }

  /** Only a passed quota check adds a creation; counting one trades it for an allocation. */
  lemma CreationsAfter(max: Option<nat>, range: set<Port>, s: State, a: Action)
    requires Enabled(range, s, a) && LockHeld(s)
    ensures var s' := Apply(max, range, s, a);
            && (a.CheckQuota? || Creations(s') <= Creations(s))
            && (a.InsertStep? && !s.lock.counted ==> a.t in Creations(s) && a.t !in Creations(s'))
            && (s'.active > s.active ==> a.InsertStep? && !s.lock.counted && s'.active == s.active + 1)
  {
  }

  /**
   * With at most `k` creations in flight, active plus in-flight allocations never exceed the limit by more than
   * k - 1, although the check and the increment are separate; with k == 1 the limit itself holds.
   */
  lemma {:induction false} QuotaOvershoot(max: nat, k: nat, range: set<Port>, states: seq<State>, actions: seq<Action>,
                                          i: nat)
    requires Run(Some(max), range, states, actions) && i < |states| && k >= 1
    requires forall j :: 0 <= j < |states| ==> |Creations(states[j])| <= k
    ensures states[i].active + |Creations(states[i])| <= max + k - 1
  {
    if i == 0 {
      assert Creations(INITIAL) == {};
    } else {
      QuotaOvershoot(max, k, range, states, actions, i - 1);
      var s, a, s' := states[i - 1], actions[i - 1], states[i];
      var places := RunIsConsistent(Some(max), range, states, actions, i - 1);
      CreationsAfter(Some(max), range, s, a);
      if a.CheckQuota? {
        if s.active >= max { assert Creations(s') <= Creations(s); Subset(Creations(s'), Creations(s)); }
      } else if a.InsertStep? && !s.lock.counted {
        Subset(Creations(s'), Creations(s) - {a.t});
      } else {
        Subset(Creations(s'), Creations(s));
      }
    }
  }

  lemma {:induction false} Subset<T>(a: set<T>, b: set<T>)
    requires a <= b
    ensures |a| <= |b|
  {
    if a != {} {
      var x :| x in a;
      Subset(a - {x}, b - {x});
      assert |a| == |a - {x}| + 1 && |b| == |b - {x}| + 1;
    }
  }

  // ---------------------------------------------------------------- one allocation per client

  /** No client has two handlers in progress. */
  ghost predicate OneHandlerPerClient(s: State) {
    forall t, u :: t in s.calls && u in s.calls && t != u ==> s.calls[t].client != s.calls[u].client
  }

  /** At most one entry per client, and a task knows which entries of its client may be there. */
  ghost predicate OneEntryPerClient(s: State) {
    && (forall p, q :: p in s.table && q in s.table && s.table[p] == s.table[q] ==> p == q)
    && (forall t, p :: t in s.calls && p in s.table && s.table[p] == s.calls[t].client ==> MayHave(s, t, p))
  }

  /** Whether the client of task `t` may have an entry at `p`, given how far that one is. */
  predicate MayHave(s: State, t: Tid, p: Port)
    requires t in s.calls
  {
    match s.calls[t].pc
    case Finding => true
    case Dropping(q) => p == q
    case InLock => s.lock.Inserting?
    case _ => false
  }

  lemma InsertKeepsOneEntry(max: Option<nat>, range: set<Port>, s: State, a: Action)
    requires Enabled(range, s, a) && LockHeld(s) && OneEntryPerClient(s) && OneHandlerPerClient(s) && a.LockToInsert?
    ensures OneEntryPerClient(Apply(max, range, s, a))
  {
    var s', c := Apply(max, range, s, a), s.calls[a.t].client;
    assert forall p :: p in s.table ==> s.table[p] != c;
    forall t, p | t in s'.calls && p in s'.table && s'.table[p] == s'.calls[t].client ensures MayHave(s', t, p) {
      assert s'.calls[t].client == s.calls[t].client;
      if p == s.calls[a.t].pc.port {
        assert t == a.t;
      } else {
        assert MayHave(s, t, p);
      }
    }
  }

  lemma RemovalKeepsOneEntry(max: Option<nat>, range: set<Port>, s: State, a: Action)
    requires Enabled(range, s, a) && LockHeld(s) && OneEntryPerClient(s) && (a.LockToRemove? || a.CleanStep?)
    ensures OneEntryPerClient(Apply(max, range, s, a))
  {
    var s' := Apply(max, range, s, a);
    assert forall p :: p in s'.table ==> p in s.table && s'.table[p] == s.table[p];
    forall t, p | t in s'.calls && p in s'.table && s'.table[p] == s'.calls[t].client ensures MayHave(s', t, p) {
      assert MayHave(s, t, p);
    }
  }

  /** Any other step leaves the table alone and moves a task on in a way its entries allow. */
  lemma OtherKeepsOneEntry(max: Option<nat>, range: set<Port>, s: State, a: Action)
    requires Enabled(range, s, a) && LockHeld(s) && OneEntryPerClient(s)
    requires !a.LockToInsert? && !a.LockToRemove? && !a.CleanStep?
    ensures OneEntryPerClient(Apply(max, range, s, a))
  {
    var s' := Apply(max, range, s, a);
    forall t, p | t in s'.calls && p in s'.table && s'.table[p] == s'.calls[t].client ensures MayHave(s', t, p) {
      if t in s.calls { assert MayHave(s, t, p); }
    }
  }

  /**
   * If no client ever has two handlers in progress, the table never holds two allocations of one client, however
   * different clients and the cleanup task interleave.
   */
  lemma {:induction false} OneAllocationPerClient(max: Option<nat>, range: set<Port>, states: seq<State>,
                                                  actions: seq<Action>, i: nat)
    requires Run(max, range, states, actions) && i < |states|
    requires forall j :: 0 <= j < |states| ==> OneHandlerPerClient(states[j])
    ensures OneEntryPerClient(states[i])
  {
    if i > 0 {
      OneAllocationPerClient(max, range, states, actions, i - 1);
      var places := RunIsConsistent(max, range, states, actions, i - 1);
      if actions[i - 1].LockToInsert? {
        InsertKeepsOneEntry(max, range, states[i - 1], actions[i - 1]);
      } else if actions[i - 1].LockToRemove? || actions[i - 1].CleanStep? {
        RemovalKeepsOneEntry(max, range, states[i - 1], actions[i - 1]);
      } else {
        OtherKeepsOneEntry(max, range, states[i - 1], actions[i - 1]);
      }
    }
  }

  /** So every lookup by client finds the same entry, in whatever order the map is walked. */
  lemma LookupsAgree(max: Option<nat>, range: set<Port>, states: seq<State>, actions: seq<Action>, i: nat,
                     client: Client, found: Option<Port>, found': Option<Port>)
    requires Run(max, range, states, actions) && i < |states|
    requires forall j :: 0 <= j < |states| ==> OneHandlerPerClient(states[j])
    requires LooksUp(states[i].table, client, found) && LooksUp(states[i].table, client, found')
    ensures found == found'
  {
    OneAllocationPerClient(max, range, states, actions, i);
  }
}
