/** The single-flight protocol of internal/catalog/catalog.go (EnsureBody, finishBodyLoad, Add,
    Remove).  One step is one critical section under the catalog mutex; waiting on a channel and
    the provider's LoadBody happen between steps.

    Channels are numbers, handed out once.  Closing a channel twice panics in Go, so the state
    records whether that has ever happened.  `reg` numbers the registrations, so that removing a
    skill and adding it again is visible although the key is the same. */
module BodyLoading {
  import opened SkillTypes

  type Key = ProviderSkillKey
  type Chan = nat
  type CallId = nat

  const MAX_ROUNDS: nat := 5

  /** ContextError stands for errors that wrap context.Canceled or context.DeadlineExceeded. */
  datatype LoadError = ContextError | ProviderNotFound | OtherError(text: string)

  datatype LoadResult = Body(text: string) | Err(error: LoadError)

  datatype Slot = Slot(reg: nat, body: Option<string>, err: Option<LoadError>, wait: Option<Chan>)

  datatype Bodies = Bodies(byKey: map<Key, Slot>, closed: set<Chan>, panicked: bool, regs: nat, chans: nat)

  // ----- The critical sections -------------------------------------------------------------

  function CloseChan(b: Bodies, ch: Chan): Bodies {
    b.(closed := b.closed + {ch}, panicked := b.panicked || ch in b.closed)
  }

  /** Add: a non-empty body supplied by the provider counts as loaded. */
  function AddEntry(b: Bodies, k: Key, skillBody: string): Bodies {
    b.(byKey := b.byKey[k := Slot(b.regs, if skillBody == "" then None else Some(skillBody), None, None)],
       regs := b.regs + 1)
  }

  /** Remove: wake the waiters of a load in flight. */
  function RemoveEntry(b: Bodies, k: Key): Bodies
    requires k in b.byKey
  {
    var woken := if b.byKey[k].wait.Some? then CloseChan(b, b.byKey[k].wait.value) else b;
    woken.(byKey := b.byKey - {k})
  }

  datatype Look = Missing | Cached(body: string) | Stored(error: LoadError) | WaitFor(ch: Chan) | Lead(ch: Chan)

  /** EnsureBody, one look at the entry; a caller that finds nothing becomes the loader. */
  function Inspect(b: Bodies, k: Key): (Bodies, Look) {
    if k !in b.byKey then (b, Missing)
    else
      var slot := b.byKey[k];
      if slot.body.Some? then (b, Cached(slot.body.value))
      else if slot.err.Some? then (b, Stored(slot.err.value))
      else if slot.wait.Some? then (b, WaitFor(slot.wait.value))
      else (b.(byKey := b.byKey[k := slot.(wait := Some(b.chans))], chans := b.chans + 1), Lead(b.chans))
  }

  /** The entry still waits for exactly this load. */
  predicate Current(b: Bodies, k: Key, ch: Chan) {
    k in b.byKey && b.byKey[k].wait == Some(ch)
  }

  /** The load leaves something behind. */
  predicate Publishes(b: Bodies, k: Key, ch: Chan, res: LoadResult) {
    Current(b, k, ch) && res != Err(ContextError)
  }

  /** finishBodyLoad. */
  function Finish(b: Bodies, k: Key, ch: Chan, res: LoadResult): Bodies {
    if !Current(b, k, ch) then b
    else
      var slot := b.byKey[k];
      var slot' := match res
        case Err(ContextError) => slot.(wait := None)
        case Err(e) => slot.(wait := None, err := Some(e))
        case Body(text) => slot.(wait := None, body := Some(text), err := None);
      CloseChan(b, ch).(byKey := b.byKey[k := slot'])
  }

  // ----- The interleaved system ------------------------------------------------------------

  datatype Answer =
    | NotFound
    | Cancelled
    | FromCache(reg: nat, res: LoadResult)
    | FromLoad(reg: nat, ch: Chan, res: LoadResult, published: bool)
    | GaveUp(waited: seq<Chan>, seen: seq<Slot>)

  /** `waited` lists the channels a call has waited on, `seen` the entries that sent it waiting. */
  datatype Call =
    | Entering(k: Key, waited: seq<Chan>, seen: seq<Slot>)
    | Waiting(k: Key, waited: seq<Chan>, seen: seq<Slot>, ch: Chan)
    | Loading(k: Key, ch: Chan, reg: nat)
    | Returned(k: Key, answer: Answer)

  datatype Origin = Origin(k: Key, reg: nat)

  datatype Publication = Publication(reg: nat, ch: Chan, res: LoadResult)

  /** `begun`, `pubs` and `stored` are bookkeeping: for every channel the load it was made for, the
      publications in order, and what each registration has come to hold.  A publication is filed
      under the registration of the entry it was written into, whatever the load believes. */
  datatype State = State(
    b: Bodies,
    calls: map<CallId, Call>,
    begun: map<Chan, Origin>,
    pubs: seq<Publication>,
    stored: map<nat, LoadResult>)

  const INIT := State(Bodies(map[], {}, false, 0, 0), map[], map[], [], map[])

  datatype Step =
    | AddSkill(k: Key, skillBody: string)
    | RemoveSkill(k: Key)
    | Start(c: CallId, k: Key)
    | LookAt(c: CallId)
    | Wake(c: CallId)
    | Cancel(c: CallId)
    | FinishLoad(c: CallId, res: LoadResult)

  ghost predicate Enabled(s: State, step: Step) {
    match step
    case AddSkill(k, _) => k !in s.b.byKey
    case RemoveSkill(k) => k in s.b.byKey
    case Start(c, _) => c !in s.calls
    case LookAt(c) => c in s.calls && s.calls[c].Entering?
    case Wake(c) => c in s.calls && s.calls[c].Waiting? && s.calls[c].ch in s.b.closed
    case Cancel(c) => c in s.calls && (s.calls[c].Entering? || s.calls[c].Waiting?)
    case FinishLoad(c, _) => c in s.calls && s.calls[c].Loading?
  }

  function SetCall(s: State, c: CallId, call: Call): State {
    s.(calls := s.calls[c := call])
  }

  function DoLook(s: State, c: CallId, k: Key, waited: seq<Chan>, seen: seq<Slot>): State {
    var (b, look) := Inspect(s.b, k);
    match look
    case Missing => SetCall(s, c, Returned(k, NotFound))
    case Cached(body) => SetCall(s, c, Returned(k, FromCache(if k in b.byKey then b.byKey[k].reg else 0, Body(body))))
    case Stored(e) => SetCall(s, c, Returned(k, FromCache(if k in b.byKey then b.byKey[k].reg else 0, Err(e))))
    case WaitFor(ch) => SetCall(s, c, Waiting(k, waited, seen + (if k in b.byKey then [b.byKey[k]] else []), ch))
    case Lead(ch) =>
      var reg := if k in b.byKey then b.byKey[k].reg else 0;
      SetCall(s.(b := b, begun := s.begun[ch := Origin(k, reg)]), c, Loading(k, ch, reg))
  }

  function DoWake(s: State, c: CallId, call: Call): State
    requires call.Waiting?
  {
    var waited := call.waited + [call.ch];
    if |waited| == MAX_ROUNDS then SetCall(s, c, Returned(call.k, GaveUp(waited, call.seen)))
    else SetCall(s, c, Entering(call.k, waited, call.seen))
  }

  function DoFinish(s: State, c: CallId, call: Call, res: LoadResult): State
    requires call.Loading?
  {
    var publishes := Publishes(s.b, call.k, call.ch, res);
    var written := if call.k in s.b.byKey then s.b.byKey[call.k].reg else 0;
    State(Finish(s.b, call.k, call.ch, res),
          s.calls[c := Returned(call.k, FromLoad(call.reg, call.ch, res, publishes))],
          s.begun,
          if publishes then s.pubs + [Publication(written, call.ch, res)] else s.pubs,
          if publishes then s.stored[written := res] else s.stored)
  }

  function Do(s: State, step: Step): State
    requires Enabled(s, step)
  {
    match step
    case AddSkill(k, skillBody) =>
      s.(b := AddEntry(s.b, k, skillBody),
         stored := if skillBody == "" then s.stored else s.stored[s.b.regs := Body(skillBody)])
    case RemoveSkill(k) => s.(b := RemoveEntry(s.b, k))
    case Start(c, k) => SetCall(s, c, Entering(k, [], []))
    case LookAt(c) => DoLook(s, c, s.calls[c].k, s.calls[c].waited, s.calls[c].seen)
    case Wake(c) => DoWake(s, c, s.calls[c])
    case Cancel(c) => SetCall(s, c, Returned(s.calls[c].k, Cancelled))
    case FinishLoad(c, res) => DoFinish(s, c, s.calls[c], res)
  }

  ghost predicate Feasible(steps: seq<Step>)
    decreases |steps|, 0
  {
    steps == [] || (Feasible(steps[..|steps|-1]) && Enabled(Exec(steps[..|steps|-1]), steps[|steps|-1]))
  }

  /** The state a run reaches from the empty catalog. */
  ghost function Exec(steps: seq<Step>): State
    requires Feasible(steps)
    decreases |steps|, 1
  {
    if steps == [] then INIT else Do(Exec(steps[..|steps|-1]), steps[|steps|-1])
  }
}
