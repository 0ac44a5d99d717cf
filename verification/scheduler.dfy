/** The per-document scheduling of diagnostics and formatting
    (`scheduleDiagnostics`, `scheduleDiagnosticsPriority`, `scheduleFormatting`
    in internal/server/server.go), as a sequential state machine.

    Each document has a generation counter per kind of work and at most one
    timer handle in a map. Scheduling bumps the counter, stops the timer the
    map holds and arms a new one (or, for the priority path, starts the run at
    once). A run remembers the generation it was started with; it publishes
    only if that is still the current one.

    Timers, goroutines and the mutexes become explicit steps. A timer is
    named by its document and generation. A diagnostics timer goes through
    `Armed` (it can still be stopped), `Fired` (its callback has started but
    not yet taken the lock), `Running` (the callback removed the map's
    entry and is collecting) and `Checked` (the run read the counter under
    the lock, found its generation current, released the lock and has not
    published yet); the priority path starts at `Running`. Because
    the callback removes the map's entry for the document whatever timer it
    holds, a callback that fired just before a new schedule removes the new
    timer's handle. The debounce intervals (300 ms for diagnostics, 100 ms
    for formatting) are not modelled: any armed timer may fire at any time.
    The `uint64` counters are unbounded here. */
module Scheduler {
  import Protocol

  type Uri = string

  const DiagnosticsDebounceMs: nat := 300
  const FormattingDebounceMs: nat := 100

  datatype Stage = Armed | Fired | Running | Checked(diagnostics: Protocol.DiagnosticSlice)

  datatype DiagTask = DiagTask(uri: Uri, gen: nat, stage: Stage)

  /** A formatting request waiting for its timer; `request` is the id of the
      request it will answer. */
  datatype FmtTask = FmtTask(uri: Uri, gen: nat, fired: bool, request: nat)

  datatype Sched = Sched(
    diagTimers: map<Uri, nat>,
    diagGen: map<Uri, nat>,
    diagTasks: seq<DiagTask>,
    fmtTimers: map<Uri, nat>,
    fmtGen: map<Uri, nat>,
    fmtTasks: seq<FmtTask>)

  const Idle: Sched := Sched(map[], map[], [], map[], map[], [])

  /** A counter read from its map: a document never scheduled is at 0. */
  function Gen(m: map<Uri, nat>, u: Uri): nat {
    if u in m then m[u] else 0
  }

  /** Counters never go down from `a` to `b`. */
  ghost predicate GensGrow(a: map<Uri, nat>, b: map<Uri, nat>) {
    forall v :: Gen(a, v) <= Gen(b, v)
  }

  /** Every task and every handle names a generation already handed out. */
  predicate Valid(s: Sched) {
    && (forall t :: t in s.diagTasks ==> 1 <= t.gen <= Gen(s.diagGen, t.uri))
    && (forall u :: u in s.diagTimers ==> 1 <= s.diagTimers[u] <= Gen(s.diagGen, u))
    && (forall t :: t in s.fmtTasks ==> 1 <= t.gen <= Gen(s.fmtGen, t.uri))
    && (forall u :: u in s.fmtTimers ==> 1 <= s.fmtTimers[u] <= Gen(s.fmtGen, u))
  }

  /** `b` is `a` without its element at `i`: the elements before `i` stay
      where they are and the ones after it move down by one. */
  ghost predicate Removed<T>(a: seq<T>, b: seq<T>, i: nat) {
    && |b| + 1 == |a|
    && (forall k :: 0 <= k < i && k < |b| ==> b[k] == a[k])
    && (forall k :: i <= k < |b| ==> b[k] == a[k + 1])
  }

  /** `ts` without its element at `i`. */
  function RemoveAt<T>(ts: seq<T>, i: nat): (r: seq<T>)
    requires i < |ts|
    ensures Removed(ts, r, i)
    ensures forall t :: t in r ==> t in ts
  {
    ts[..i] + ts[i + 1..]
  }

  // ---------------------------------------------------------------------------
  // Stopping a timer

  /** `timer.Stop()` on the diagnostics timer with generation `g` of `u`:
      it is discarded if it is still armed; a timer that already fired runs
      on. */
  function StopDiag(tasks: seq<DiagTask>, u: Uri, g: nat): (r: seq<DiagTask>)
    ensures forall t :: t in r ==> t in tasks
    ensures forall t :: t in r ==> !(t.uri == u && t.gen == g && t.stage == Armed)
    ensures forall t :: t in tasks && !(t.uri == u && t.gen == g && t.stage == Armed) ==> t in r
    decreases |tasks|
  {
    if |tasks| == 0 then []
    else
      var rest := StopDiag(tasks[1..], u, g);
      var t := tasks[0];
      if t.uri == u && t.gen == g && t.stage == Armed then rest else [t] + rest
  }

  function StopFmt(tasks: seq<FmtTask>, u: Uri, g: nat): (r: seq<FmtTask>)
    ensures forall t :: t in r ==> t in tasks
    ensures forall t :: t in r ==> !(t.uri == u && t.gen == g && !t.fired)
    ensures forall t :: t in tasks && !(t.uri == u && t.gen == g && !t.fired) ==> t in r
    decreases |tasks|
  {
    if |tasks| == 0 then []
    else
      var rest := StopFmt(tasks[1..], u, g);
      var t := tasks[0];
      if t.uri == u && t.gen == g && !t.fired then rest else [t] + rest
  }

  /** The diagnostics tasks after stopping the timer the map holds for `u`. */
  function StopHeldDiag(s: Sched, u: Uri): seq<DiagTask> {
    if u in s.diagTimers then StopDiag(s.diagTasks, u, s.diagTimers[u]) else s.diagTasks
  }

  function StopHeldFmt(s: Sched, u: Uri): seq<FmtTask> {
    if u in s.fmtTimers then StopFmt(s.fmtTasks, u, s.fmtTimers[u]) else s.fmtTasks
  }

  // ---------------------------------------------------------------------------
  // Scheduling

  /** `scheduleDiagnostics(u)`: stops the held timer, bumps the counter and
      arms a timer carrying the new generation, which the map now holds. */
  function ScheduleDiagnostics(s: Sched, u: Uri): (r: Sched)
    ensures Gen(r.diagGen, u) == Gen(s.diagGen, u) + 1
    ensures forall v :: v != u ==> Gen(r.diagGen, v) == Gen(s.diagGen, v)
    ensures r.diagTimers == s.diagTimers[u := Gen(r.diagGen, u)]
    ensures DiagTask(u, Gen(r.diagGen, u), Armed) in r.diagTasks
    ensures u in s.diagTimers && s.diagTimers[u] != Gen(r.diagGen, u)
      ==> DiagTask(u, s.diagTimers[u], Armed) !in r.diagTasks
    ensures forall t :: t in s.diagTasks && !(u in s.diagTimers && t == DiagTask(u, s.diagTimers[u], Armed)) ==> t in r.diagTasks
    ensures forall t :: t in r.diagTasks ==> t in s.diagTasks || t == DiagTask(u, Gen(r.diagGen, u), Armed)
    ensures r.fmtTimers == s.fmtTimers && r.fmtGen == s.fmtGen && r.fmtTasks == s.fmtTasks
  {
    var g := Gen(s.diagGen, u) + 1;
    var tasks := StopHeldDiag(s, u);
    s.(diagTasks := tasks + [DiagTask(u, g, Armed)], diagGen := s.diagGen[u := g], diagTimers := s.diagTimers[u := g])
  }

  /** `scheduleDiagnosticsPriority(u)`: stops and forgets the held timer,
      bumps the counter and starts a run with the new generation at once. */
  function ScheduleDiagnosticsPriority(s: Sched, u: Uri): (r: Sched)
    ensures Gen(r.diagGen, u) == Gen(s.diagGen, u) + 1
    ensures forall v :: v != u ==> Gen(r.diagGen, v) == Gen(s.diagGen, v)
    ensures u !in r.diagTimers
    ensures forall v :: v != u ==> (v in r.diagTimers <==> v in s.diagTimers)
    ensures forall v :: v != u && v in r.diagTimers ==> r.diagTimers[v] == s.diagTimers[v]
    ensures DiagTask(u, Gen(r.diagGen, u), Running) in r.diagTasks
    ensures u in s.diagTimers ==> DiagTask(u, s.diagTimers[u], Armed) !in r.diagTasks
    ensures forall t :: t in s.diagTasks && !(u in s.diagTimers && t == DiagTask(u, s.diagTimers[u], Armed)) ==> t in r.diagTasks
    ensures forall t :: t in r.diagTasks ==> t in s.diagTasks || t == DiagTask(u, Gen(r.diagGen, u), Running)
    ensures r.fmtTimers == s.fmtTimers && r.fmtGen == s.fmtGen && r.fmtTasks == s.fmtTasks
  {
    var g := Gen(s.diagGen, u) + 1;
    var tasks := StopHeldDiag(s, u);
    s.(diagTasks := tasks + [DiagTask(u, g, Running)], diagGen := s.diagGen[u := g], diagTimers := s.diagTimers - {u})
  }

  /** `scheduleFormatting` for request `request` on `u`: as for diagnostics,
      with the formatting counter and timer map. */
  function ScheduleFormatting(s: Sched, u: Uri, request: nat): (r: Sched)
    ensures Gen(r.fmtGen, u) == Gen(s.fmtGen, u) + 1
    ensures forall v :: v != u ==> Gen(r.fmtGen, v) == Gen(s.fmtGen, v)
    ensures r.fmtTimers == s.fmtTimers[u := Gen(r.fmtGen, u)]
    ensures FmtTask(u, Gen(r.fmtGen, u), false, request) in r.fmtTasks
    ensures u in s.fmtTimers ==> forall t :: t in r.fmtTasks && t.uri == u && t.gen == s.fmtTimers[u] ==> t.fired || t.gen == Gen(r.fmtGen, u)
    ensures forall t :: t in s.fmtTasks && !(u in s.fmtTimers && t.uri == u && t.gen == s.fmtTimers[u] && !t.fired) ==> t in r.fmtTasks
    ensures forall t :: t in r.fmtTasks ==> t in s.fmtTasks || t == FmtTask(u, Gen(r.fmtGen, u), false, request)
    ensures r.diagTimers == s.diagTimers && r.diagGen == s.diagGen && r.diagTasks == s.diagTasks
  {
    var g := Gen(s.fmtGen, u) + 1;
    var tasks := StopHeldFmt(s, u);
    s.(fmtTasks := tasks + [FmtTask(u, g, false, request)], fmtGen := s.fmtGen[u := g], fmtTimers := s.fmtTimers[u := g])
  }

  // ---------------------------------------------------------------------------
  // Timers and runs

  /** Diagnostics task `i`'s timer fires. */
  function FireDiag(s: Sched, i: nat): (r: Sched)
    requires i < |s.diagTasks| && s.diagTasks[i].stage == Armed
    ensures |r.diagTasks| == |s.diagTasks|
    ensures r.diagTasks[i] == DiagTask(s.diagTasks[i].uri, s.diagTasks[i].gen, Fired)
    ensures forall k :: 0 <= k < |s.diagTasks| && k != i ==> r.diagTasks[k] == s.diagTasks[k]
    ensures r.diagTimers == s.diagTimers && r.diagGen == s.diagGen
    ensures r.fmtTimers == s.fmtTimers && r.fmtGen == s.fmtGen && r.fmtTasks == s.fmtTasks
  {
    s.(diagTasks := s.diagTasks[i := s.diagTasks[i].(stage := Fired)])
  }

  /** The fired callback of task `i` takes the lock and removes the map's
      entry for its document, whichever timer that entry holds. */
  function ClearDiag(s: Sched, i: nat): (r: Sched)
    requires i < |s.diagTasks| && s.diagTasks[i].stage == Fired
    ensures s.diagTasks[i].uri !in r.diagTimers
    ensures forall v :: v != s.diagTasks[i].uri ==> (v in r.diagTimers <==> v in s.diagTimers)
    ensures forall v :: v != s.diagTasks[i].uri && v in r.diagTimers ==> r.diagTimers[v] == s.diagTimers[v]
    ensures r.diagGen == s.diagGen && |r.diagTasks| == |s.diagTasks|
    ensures r.diagTasks[i] == DiagTask(s.diagTasks[i].uri, s.diagTasks[i].gen, Running)
    ensures forall k :: 0 <= k < |s.diagTasks| && k != i ==> r.diagTasks[k] == s.diagTasks[k]
    ensures r.fmtTimers == s.fmtTimers && r.fmtGen == s.fmtGen && r.fmtTasks == s.fmtTasks
  {
    var t := s.diagTasks[i];
    s.(diagTasks := s.diagTasks[i := t.(stage := Running)], diagTimers := s.diagTimers - {t.uri})
  }

  /** Running task `i` has collected its diagnostics and leaves; it may
      publish only when its generation is still its document's current one.
      This is one step: the counter is read and the result published under
      one hold of the lock. */
  function FinishDiag(s: Sched, i: nat): (r: (Sched, bool))
    requires i < |s.diagTasks| && s.diagTasks[i].stage == Running
    ensures r.1 <==> s.diagTasks[i].gen == Gen(s.diagGen, s.diagTasks[i].uri)
    ensures r.0.diagGen == s.diagGen && r.0.diagTimers == s.diagTimers
    ensures Removed(s.diagTasks, r.0.diagTasks, i)
    ensures forall t :: t in r.0.diagTasks ==> t in s.diagTasks
    ensures r.0.fmtTimers == s.fmtTimers && r.0.fmtGen == s.fmtGen && r.0.fmtTasks == s.fmtTasks
  {
    var t := s.diagTasks[i];
    (s.(diagTasks := RemoveAt(s.diagTasks, i)), t.gen == Gen(s.diagGen, t.uri))
  }

  /** Running task `i` has collected `ds` and reads its document's counter
      under the lock, then releases it. A superseded run leaves; a current
      one is left holding `ds`, to publish them later without looking at the
      counter again. */
  function CheckDiag(s: Sched, i: nat, ds: Protocol.DiagnosticSlice): (r: (Sched, bool))
    requires i < |s.diagTasks| && s.diagTasks[i].stage == Running
    ensures r.1 <==> s.diagTasks[i].gen == Gen(s.diagGen, s.diagTasks[i].uri)
    ensures r.0.diagGen == s.diagGen && r.0.diagTimers == s.diagTimers
    ensures !r.1 ==> Removed(s.diagTasks, r.0.diagTasks, i) && forall t :: t in r.0.diagTasks ==> t in s.diagTasks
    ensures r.1 ==> && |r.0.diagTasks| == |s.diagTasks|
                    && r.0.diagTasks[i] == DiagTask(s.diagTasks[i].uri, s.diagTasks[i].gen, Checked(ds))
                    && forall k :: 0 <= k < |s.diagTasks| && k != i ==> r.0.diagTasks[k] == s.diagTasks[k]
    ensures r.0.fmtTimers == s.fmtTimers && r.0.fmtGen == s.fmtGen && r.0.fmtTasks == s.fmtTasks
  {
    var t := s.diagTasks[i];
    if t.gen == Gen(s.diagGen, t.uri) then (s.(diagTasks := s.diagTasks[i := t.(stage := Checked(ds))]), true)
    else (s.(diagTasks := RemoveAt(s.diagTasks, i)), false)
  }

  /** Checked task `i` sends what it holds and leaves. */
  function PublishDiag(s: Sched, i: nat): (r: Sched)
    requires i < |s.diagTasks| && s.diagTasks[i].stage.Checked?
    ensures r.diagGen == s.diagGen && r.diagTimers == s.diagTimers
    ensures Removed(s.diagTasks, r.diagTasks, i)
    ensures forall t :: t in r.diagTasks ==> t in s.diagTasks
    ensures r.fmtTimers == s.fmtTimers && r.fmtGen == s.fmtGen && r.fmtTasks == s.fmtTasks
  {
    s.(diagTasks := RemoveAt(s.diagTasks, i))
  }

  /** Formatting task `i`'s timer fires. */
  function FireFmt(s: Sched, i: nat): (r: Sched)
    requires i < |s.fmtTasks| && !s.fmtTasks[i].fired
    ensures |r.fmtTasks| == |s.fmtTasks|
    ensures r.fmtTasks[i] == FmtTask(s.fmtTasks[i].uri, s.fmtTasks[i].gen, true, s.fmtTasks[i].request)
    ensures forall k :: 0 <= k < |s.fmtTasks| && k != i ==> r.fmtTasks[k] == s.fmtTasks[k]
    ensures r.fmtTimers == s.fmtTimers && r.fmtGen == s.fmtGen
    ensures r.diagTimers == s.diagTimers && r.diagGen == s.diagGen && r.diagTasks == s.diagTasks
  {
    s.(fmtTasks := s.fmtTasks[i := s.fmtTasks[i].(fired := true)])
  }

  /** The fired formatting callback of task `i`: under one lock it removes the
      map's entry and reads the counter. The result says whether the request
      is still current; the task leaves either way. */
  function FmtCallback(s: Sched, i: nat): (r: (Sched, bool))
    requires i < |s.fmtTasks| && s.fmtTasks[i].fired
    ensures r.1 <==> s.fmtTasks[i].gen == Gen(s.fmtGen, s.fmtTasks[i].uri)
    ensures s.fmtTasks[i].uri !in r.0.fmtTimers
    ensures forall v :: v != s.fmtTasks[i].uri ==> (v in r.0.fmtTimers <==> v in s.fmtTimers)
    ensures forall v :: v != s.fmtTasks[i].uri && v in r.0.fmtTimers ==> r.0.fmtTimers[v] == s.fmtTimers[v]
    ensures r.0.fmtGen == s.fmtGen
    ensures Removed(s.fmtTasks, r.0.fmtTasks, i)
    ensures forall t :: t in r.0.fmtTasks ==> t in s.fmtTasks
    ensures r.0.diagTimers == s.diagTimers && r.0.diagGen == s.diagGen && r.0.diagTasks == s.diagTasks
  {
    var t := s.fmtTasks[i];
    (s.(fmtTasks := RemoveAt(s.fmtTasks, i), fmtTimers := s.fmtTimers - {t.uri}),
     t.gen == Gen(s.fmtGen, t.uri))
  }

  // ---------------------------------------------------------------------------
  // Every step keeps the state valid

  lemma ScheduleDiagnosticsValid(s: Sched, u: Uri)
    requires Valid(s)
    ensures Valid(ScheduleDiagnostics(s, u))
  {
  }

  lemma ScheduleDiagnosticsPriorityValid(s: Sched, u: Uri)
    requires Valid(s)
    ensures Valid(ScheduleDiagnosticsPriority(s, u))
  {
  }

  lemma ScheduleFormattingValid(s: Sched, u: Uri, request: nat)
    requires Valid(s)
    ensures Valid(ScheduleFormatting(s, u, request))
  {
  }

  lemma DiagStepsValid(s: Sched, i: nat)
    requires Valid(s)
    ensures i < |s.diagTasks| && s.diagTasks[i].stage == Armed ==> Valid(FireDiag(s, i))
    ensures i < |s.diagTasks| && s.diagTasks[i].stage == Fired ==> Valid(ClearDiag(s, i))
    ensures i < |s.diagTasks| && s.diagTasks[i].stage == Running ==> Valid(FinishDiag(s, i).0)
    ensures forall ds :: i < |s.diagTasks| && s.diagTasks[i].stage == Running ==> Valid(CheckDiag(s, i, ds).0)
    ensures i < |s.diagTasks| && s.diagTasks[i].stage.Checked? ==> Valid(PublishDiag(s, i))
  {
    if i < |s.diagTasks| {
      match s.diagTasks[i].stage
      case Armed => FireDiagValid(s, i);
      case Fired => ClearDiagValid(s, i);
      case Running =>
        FinishDiagValid(s, i);
        forall ds {
          CheckDiagValid(s, i, ds);
        }
      case Checked(_) => PublishDiagValid(s, i);
    }
  }

  lemma FireDiagValid(s: Sched, i: nat)
    requires Valid(s) && i < |s.diagTasks| && s.diagTasks[i].stage == Armed
    ensures Valid(FireDiag(s, i))
  {
  }

  lemma ClearDiagValid(s: Sched, i: nat)
    requires Valid(s) && i < |s.diagTasks| && s.diagTasks[i].stage == Fired
    ensures Valid(ClearDiag(s, i))
  {
  }

  lemma FinishDiagValid(s: Sched, i: nat)
    requires Valid(s) && i < |s.diagTasks| && s.diagTasks[i].stage == Running
    ensures Valid(FinishDiag(s, i).0)
  {
  }

  lemma CheckDiagValid(s: Sched, i: nat, ds: Protocol.DiagnosticSlice)
    requires Valid(s) && i < |s.diagTasks| && s.diagTasks[i].stage == Running
    ensures Valid(CheckDiag(s, i, ds).0)
  {
  }

  lemma PublishDiagValid(s: Sched, i: nat)
    requires Valid(s) && i < |s.diagTasks| && s.diagTasks[i].stage.Checked?
    ensures Valid(PublishDiag(s, i))
  {
  }

  lemma FmtStepsValid(s: Sched, i: nat)
    requires Valid(s)
    ensures i < |s.fmtTasks| && !s.fmtTasks[i].fired ==> Valid(FireFmt(s, i))
    ensures i < |s.fmtTasks| && s.fmtTasks[i].fired ==> Valid(FmtCallback(s, i).0)
  {
  }
}
