/**
 The cross-process admin token cache: a lock file with owner ids and stale-lock recovery, guarding a
 cache file with targeted refresh.

 Any number of calls run as state machines over the shared lock file, cache file and clock. One step is
 one event; an event that its call is not ready for changes nothing, so every run is a list of events.
 */
module AdminAuthToken {
  import opened Options

  /** A bearer token and the expiry its JWT payload carries, if any. */
  datatype Token = Token(id: nat, jwtExpiresAt: Option<int>)

  datatype LockFile = NoLock | OwnedBy(owner: nat, createdAt: int) | Unreadable(modifiedAt: int)

  datatype Entry = Entry(token: Token, expiresAt: int, validatedUnder: Option<nat>)

  datatype Force = NoRefresh | RefreshCurrent | RefreshRejected(token: Token)

  /** policy is None when the caller validates nothing. */
  datatype Call =
    | GetOrCreate(force: Force, policy: Option<nat>, cacheDuration: int, skew: int)
    | Invalidate

  datatype Outcome = Got(token: Token, expiresAt: int) | Cleared | Failed

  /** Where the operation under the lock stands. */
  datatype Op =
    | Checking
    | Validating(entry: Entry)
    | Minting
    | Storing(token: Token)
    | Writing(entry: Entry)
    | Leaving(outcome: Outcome)

  datatype Phase =
    | Idle
    | Waiting(since: int)
    | Blocked(since: int)
    | Releasing(since: int, stale: nat)
    | Inside(owner: nat, acquiredAt: int, op: Op)
    | Done(outcome: Outcome)
    | Crashed

  /** target is the token a refreshing caller wants replaced. */
  datatype Caller = Caller(call: Call, staleAfter: int, waitTimeout: int, target: Option<Token>, phase: Phase)

  /** Which tokens were minted into the cache, in order, and which were found unusable and why. */
  datatype Ledger = Ledger(
    minted: seq<Token>,
    refreshed: set<Token>,
    lapsed: set<Token>,
    refused: set<Token>,
    invalidated: set<Token>)
  {
    function Dropped(): set<Token> {
      refreshed + lapsed + refused + invalidated
    }
  }

  /** seen holds every token that anyone has ever had. */
  datatype State = State(
    now: int,
    lock: LockFile,
    cache: Option<Entry>,
    nextOwner: nat,
    callers: seq<Caller>,
    seen: set<Token>,
    ledger: Ledger)

  datatype Verdict = Accepted | Rejected | Threw

  datatype Event =
    | Start(who: nat)
    | TryAcquire(who: nat)
    | Inspect(who: nat)
    | ReleaseStale(who: nat)
    | Check(who: nat)
    | Validate(who: nat, verdict: Verdict)
    | Create(who: nat, created: Option<Token>)
    | Judge(who: nat, verdict: Verdict)
    | Write(who: nat)
    | Leave(who: nat)
    | Crash(who: nat)
    | Tick(elapsed: nat)
    | LeaveUnreadableLock

  // ----- Expiration and targets

  function Min(a: int, b: int): int {
    if a < b then a else b
  }

  function Expiration(token: Token, configured: int, skew: int): int {
    match token.jwtExpiresAt
    case None => configured
    case Some(at) => Min(configured, at - skew)
  }

  /** The cache entry as a reader with this skew sees it. */
  function Cached(cache: Option<Entry>, now: int, skew: int): Option<Entry> {
    match cache
    case None => None
    case Some(entry) =>
      var expiresAt := Expiration(entry.token, entry.expiresAt, skew);
      if now >= expiresAt then None else Some(entry.(expiresAt := Min(entry.expiresAt, expiresAt)))
  }

  predicate NeedsValidation(entry: Entry, policy: Option<nat>) {
    policy.Some? && entry.validatedUnder != policy
  }

  function Target(force: Force, cached: Option<Entry>): Option<Token> {
    match force
    case NoRefresh => None
    case RefreshRejected(token) => Some(token)
    case RefreshCurrent => if cached.Some? then Some(cached.value.token) else None
  }

  predicate RefreshesCurrentEntry(force: Force, cached: Option<Entry>, target: Option<Token>) {
    && force != NoRefresh
    && (if cached.Some? then target == Some(cached.value.token) else target == None)
  }

  // ----- Steps

  function Moved(s: State, who: nat, phase: Phase): State
    requires who < |s.callers|
  {
    s.(callers := s.callers[who := s.callers[who].(phase := phase)])
  }

  /** The unlocked look at the cache, and the way to the lock. */
  function Started(s: State, who: nat): State
    requires who < |s.callers|
  {
    var c := s.callers[who];
    match c.call
    case Invalidate => Moved(s, who, Waiting(s.now))
    case GetOrCreate(force, policy, _, skew) =>
      var cached := if force.RefreshRejected? then None else Cached(s.cache, s.now, skew);
      if force == NoRefresh && cached.Some? && !NeedsValidation(cached.value, policy) then
        Moved(s, who, Done(Got(cached.value.token, cached.value.expiresAt)))
      else
        var target := Target(force, cached);
        var s' := s.(callers := s.callers[who := c.(target := target, phase := Waiting(s.now))]);
        if target.Some? then s'.(seen := s'.seen + {target.value}) else s'
  }

  /** One turn of the wait loop's guard and tryAcquireLock. */
  function Tried(s: State, who: nat, since: int): State
    requires who < |s.callers|
  {
    if s.now - since >= s.callers[who].waitTimeout then
      Moved(s, who, Done(Failed))
    else if s.lock == NoLock then
      Moved(s.(lock := OwnedBy(s.nextOwner, s.now), nextOwner := s.nextOwner + 1), who,
            Inside(s.nextOwner, s.now, Checking))
    else
      Moved(s, who, Blocked(since))
  }

  /** removeStaleLock up to its call of releaseLock. */
  function Inspected(s: State, who: nat, since: int): State
    requires who < |s.callers|
  {
    match s.lock
    case NoLock => Moved(s, who, Waiting(since))
    case OwnedBy(owner, createdAt) =>
      if s.now - createdAt < s.callers[who].staleAfter then Moved(s, who, Waiting(since))
      else Moved(s, who, Releasing(since, owner))
    case Unreadable(modifiedAt) =>
      if s.now - modifiedAt < s.callers[who].staleAfter then Moved(s, who, Waiting(since))
      else Moved(s.(lock := NoLock), who, Waiting(since))
  }

  function Released(lock: LockFile, owner: nat): LockFile {
    if lock.OwnedBy? && lock.owner == owner then NoLock else lock
  }

  function At(s: State, who: nat, op: Op): State
    requires who < |s.callers| && s.callers[who].phase.Inside?
  {
    Moved(s, who, s.callers[who].phase.(op := op))
  }

  function CurrentToken(cache: Option<Entry>): set<Token> {
    if cache.Some? then {cache.value.token} else {}
  }

  /** The operation's look at the cache. */
  function Checked(s: State, who: nat): State
    requires who < |s.callers| && s.callers[who].phase.Inside?
  {
    var c := s.callers[who];
    match c.call
    case Invalidate =>
      var ledger := s.ledger.(invalidated := s.ledger.invalidated + CurrentToken(s.cache));
      At(s.(cache := None, ledger := ledger), who, Leaving(Cleared))
    case GetOrCreate(force, policy, _, skew) =>
      var cached := Cached(s.cache, s.now, skew);
      var lapsed := if cached.None? then CurrentToken(s.cache) else {};
      var ledger := s.ledger.(lapsed := s.ledger.lapsed + lapsed);
      if RefreshesCurrentEntry(force, cached, c.target) then
        var ledger := ledger.(refreshed := ledger.refreshed + CurrentToken(cached));
        At(s.(cache := None, ledger := ledger), who, Minting)
      else if cached.Some? then
        At(s.(ledger := ledger), who, Validating(cached.value))
      else
        At(s.(ledger := ledger), who, Minting)
  }

  /** What becomes of the cached entry: returned, replaced, or the validator threw. */
  function Validated(s: State, who: nat, entry: Entry, verdict: Verdict): State
    requires who < |s.callers| && s.callers[who].phase.Inside? && s.callers[who].call.GetOrCreate?
  {
    var policy := s.callers[who].call.policy;
    var needed := NeedsValidation(entry, policy);
    if needed && verdict == Threw then
      At(s, who, Leaving(Failed))
    else if needed && verdict == Rejected then
      var ledger := s.ledger.(refused := s.ledger.refused + CurrentToken(s.cache));
      At(s.(cache := None, ledger := ledger), who, Minting)
    else if s.now >= entry.expiresAt then
      var ledger := s.ledger.(lapsed := s.ledger.lapsed + CurrentToken(s.cache));
      At(s.(cache := None, ledger := ledger), who, Minting)
    else
      var cache := if needed then Some(entry.(validatedUnder := policy)) else s.cache;
      At(s.(cache := cache), who, Leaving(Got(entry.token, entry.expiresAt)))
  }

  /** createToken gives a token nobody has had before, or fails. */
  function Created(s: State, who: nat, created: Option<Token>): State
    requires who < |s.callers| && s.callers[who].phase.Inside?
  {
    match created
    case None => At(s, who, Leaving(Failed))
    case Some(token) =>
      if token in s.seen then s else At(s.(seen := s.seen + {token}), who, Storing(token))
  }

  /** The new token's validation and expiration. */
  function Judged(s: State, who: nat, token: Token, verdict: Verdict): State
    requires who < |s.callers| && s.callers[who].phase.Inside? && s.callers[who].call.GetOrCreate?
  {
    var call := s.callers[who].call;
    var expiresAt := Expiration(token, s.now + call.cacheDuration, call.skew);
    if (call.policy.Some? && verdict != Accepted) || expiresAt <= s.now then At(s, who, Leaving(Failed))
    else At(s, who, Writing(Entry(token, expiresAt, call.policy)))
  }

  function Written(s: State, who: nat, entry: Entry): State
    requires who < |s.callers| && s.callers[who].phase.Inside?
  {
    var ledger := s.ledger.(minted := s.ledger.minted + [entry.token]);
    At(s.(cache := Some(entry), ledger := ledger), who, Leaving(Got(entry.token, entry.expiresAt)))
  }

  function CallerStep(s: State, e: Event): State
    requires !e.Tick? && !e.LeaveUnreadableLock? && e.who < |s.callers|
  {
    var phase := s.callers[e.who].phase;
    match (e, phase)
    case (Start(who), Idle) => Started(s, who)
    case (TryAcquire(who), Waiting(since)) => Tried(s, who, since)
    case (Inspect(who), Blocked(since)) => Inspected(s, who, since)
    case (ReleaseStale(who), Releasing(since, stale)) =>
      Moved(s.(lock := Released(s.lock, stale)), who, Waiting(since))
    case (Check(who), Inside(_, _, Checking)) => Checked(s, who)
    case (Validate(who, verdict), Inside(_, _, Validating(entry))) =>
      if s.callers[who].call.GetOrCreate? then Validated(s, who, entry, verdict) else s
    case (Create(who, created), Inside(_, _, Minting)) => Created(s, who, created)
    case (Judge(who, verdict), Inside(_, _, Storing(token))) =>
      if s.callers[who].call.GetOrCreate? then Judged(s, who, token, verdict) else s
    case (Write(who), Inside(_, _, Writing(entry))) => Written(s, who, entry)
    case (Leave(who), Inside(owner, _, Leaving(outcome))) =>
      Moved(s.(lock := Released(s.lock, owner)), who, Done(outcome))
    case (Crash(who), _) => Moved(s, who, Crashed)
    case _ => s
  }

  function Step(s: State, e: Event): State {
    match e
    case Tick(elapsed) => s.(now := s.now + elapsed)
    case LeaveUnreadableLock => if s.lock == NoLock then s.(lock := Unreadable(s.now)) else s
    case _ => if e.who < |s.callers| then CallerStep(s, e) else s
  }

  function Run(s: State, events: seq<Event>): State {
    if events == [] then s else Step(Run(s, events[..|events| - 1]), events[|events| - 1])
  }

  /** Nobody's call has begun; locks and tokens may be left over from before. */
  predicate Initial(s: State) {
    && (forall p {:trigger s.callers[p]} :: 0 <= p < |s.callers| ==>
          s.callers[p].phase == Idle && s.callers[p].target == None)
    && (s.lock.OwnedBy? ==> s.lock.owner < s.nextOwner)
    && CurrentToken(s.cache) <= s.seen
    && s.ledger == Ledger([], {}, {}, {}, {})
  }

  /** Whenever a caller looks whether the lock is stale, every live holder is younger than that caller's stale age. */
  predicate InspectsInTime(s: State, e: Event) {
    e.Inspect? && e.who < |s.callers| && s.callers[e.who].phase.Blocked? ==>
      forall p {:trigger s.callers[p]} :: 0 <= p < |s.callers| && s.callers[p].phase.Inside? ==>
        s.now - s.callers[p].phase.acquiredAt < s.callers[e.who].staleAfter
  }

  /** Live holders are in time all along the run, whenever it matters. */
  predicate InTime(s: State, events: seq<Event>) {
    forall n {:trigger events[n]} :: 0 <= n < |events| ==> InspectsInTime(Run(s, events[..n]), events[n])
  }

  /** A call that is not over and not in its operation may still come to look at the lock. */
  predicate MayInspect(phase: Phase) {
    phase.Idle? || phase.Waiting? || phase.Blocked? || phase.Releasing?
  }

  /** No live holder has held the lock for as long as a caller that may still look at it would wait. */
  predicate HoldersInTime(s: State) {
    forall p, q {:trigger s.callers[p], s.callers[q]} ::
      && 0 <= p < |s.callers| && 0 <= q < |s.callers|
      && s.callers[p].phase.Inside? && MayInspect(s.callers[q].phase) ==>
        s.now - s.callers[p].phase.acquiredAt < s.callers[q].staleAfter
  }

  /** Live holders that finish before any such caller's stale age are in time. */
  lemma FinishingInTimeIsEnough(s: State, events: seq<Event>)
    requires forall n :: 0 <= n <= |events| ==> HoldersInTime(Run(s, events[..n]))
    ensures InTime(s, events)
  {
    forall n | 0 <= n < |events| ensures InspectsInTime(Run(s, events[..n]), events[n]) {
      assert HoldersInTime(Run(s, events[..n]));
    }
  }

  // ----- Mutual exclusion

  /** What a live holder has, and what a caller that found a stale lock is about to remove. */
  predicate HolderOwnsLock(callers: seq<Caller>, lock: LockFile) {
    forall p {:trigger callers[p]} :: 0 <= p < |callers| && callers[p].phase.Inside? ==>
      lock == OwnedBy(callers[p].phase.owner, callers[p].phase.acquiredAt)
  }

  predicate OwnersDiffer(callers: seq<Caller>) {
    forall p, q {:trigger callers[p], callers[q]} ::
      0 <= p < q < |callers| && callers[p].phase.Inside? && callers[q].phase.Inside? ==>
        callers[p].phase.owner != callers[q].phase.owner
  }

  predicate StaleOwnersAreGone(callers: seq<Caller>) {
    forall p, q {:trigger callers[p], callers[q]} ::
      0 <= p < |callers| && 0 <= q < |callers| && callers[p].phase.Inside? && callers[q].phase.Releasing? ==>
        callers[p].phase.owner != callers[q].phase.stale
  }

  predicate OwnersAreOld(callers: seq<Caller>, lock: LockFile, nextOwner: nat) {
    && (lock.OwnedBy? ==> lock.owner < nextOwner)
    && forall p {:trigger callers[p]} :: 0 <= p < |callers| ==>
         && (callers[p].phase.Inside? ==> callers[p].phase.owner < nextOwner)
         && (callers[p].phase.Releasing? ==> callers[p].phase.stale < nextOwner)
  }

  predicate LockKept(callers: seq<Caller>, lock: LockFile, nextOwner: nat) {
    && HolderOwnsLock(callers, lock)
    && OwnersDiffer(callers)
    && StaleOwnersAreGone(callers)
    && OwnersAreOld(callers, lock, nextOwner)
  }

  /** c' holds what c held, if anything, and is not about to remove a lock. */
  predicate Quiet(c: Caller, c': Caller) {
    && (c'.phase.Inside? ==>
          c.phase.Inside? && c'.phase.owner == c.phase.owner && c'.phase.acquiredAt == c.phase.acquiredAt)
    && !c'.phase.Releasing?
  }

  lemma QuietKeepsLock(callers: seq<Caller>, lock: LockFile, nextOwner: nat, who: nat, c': Caller)
    requires LockKept(callers, lock, nextOwner)
    requires who < |callers| && Quiet(callers[who], c')
    ensures LockKept(callers[who := c'], lock, nextOwner)
  {
  }

  predicate IsOperation(e: Event) {
    e.Check? || e.Validate? || e.Create? || e.Judge? || e.Write?
  }

  /** A step of the operation touches the caller's place in it, the cache, the tokens and the ledger only. */
  lemma OperationFrame(s: State, e: Event)
    requires IsOperation(e)
    ensures
      var s' := Step(s, e);
      && s'.now == s.now && s'.lock == s.lock && s'.nextOwner == s.nextOwner
      && (if e.who < |s.callers| && s.callers[e.who].phase.Inside? then
            && |s'.callers| == |s.callers|
            && s'.callers[e.who].phase.Inside?
            && s'.callers == s.callers[e.who := s.callers[e.who].(phase :=
                 s.callers[e.who].phase.(op := s'.callers[e.who].phase.op))]
          else s' == s)
  {
    hide Cached, Expiration, RefreshesCurrentEntry, NeedsValidation;
  }

  lemma AcquiringKeepsLock(s: State, who: nat)
    requires LockKept(s.callers, s.lock, s.nextOwner) && who < |s.callers| && s.lock == NoLock
    ensures
      var acquired := s.callers[who].(phase := Inside(s.nextOwner, s.now, Checking));
      LockKept(s.callers[who := acquired], OwnedBy(s.nextOwner, s.now), s.nextOwner + 1)
  {
  }

  /** A lock found stale is nobody's: its owner is not a live holder. */
  lemma InspectingKeepsLock(s: State, who: nat)
    requires LockKept(s.callers, s.lock, s.nextOwner) && InspectsInTime(s, Inspect(who))
    requires who < |s.callers| && s.callers[who].phase.Blocked?
    ensures
      var s' := Step(s, Inspect(who));
      LockKept(s'.callers, s'.lock, s'.nextOwner)
  {
    hide OwnersDiffer;
    var c := s.callers[who];
    var s' := Step(s, Inspect(who));
    QuietKeepsLock(s.callers, s.lock, s.nextOwner, who, c.(phase := Waiting(c.phase.since)));
    if s.lock.OwnedBy? && s.now - s.lock.createdAt >= c.staleAfter {
      assert forall p :: 0 <= p < |s.callers| ==> !s.callers[p].phase.Inside?;
      assert s' == Moved(s, who, Releasing(c.phase.since, s.lock.owner));
      NoHolderKeepsLock(s'.callers, s'.lock, s'.nextOwner);
    } else if s.lock.Unreadable? && s.now - s.lock.modifiedAt >= c.staleAfter {
      assert forall p :: 0 <= p < |s.callers| ==> !s.callers[p].phase.Inside?;
      NoHolderKeepsLock(s'.callers, s'.lock, s'.nextOwner);
    }
  }

  lemma NoHolderKeepsLock(callers: seq<Caller>, lock: LockFile, nextOwner: nat)
    requires OwnersAreOld(callers, lock, nextOwner)
    requires forall p :: 0 <= p < |callers| ==> !callers[p].phase.Inside?
    ensures LockKept(callers, lock, nextOwner)
  {
  }

  lemma ReleasingKeepsLock(callers: seq<Caller>, lock: LockFile, nextOwner: nat, owner: nat)
    requires LockKept(callers, lock, nextOwner)
    requires forall p :: 0 <= p < |callers| && callers[p].phase.Inside? ==> callers[p].phase.owner != owner
    ensures LockKept(callers, Released(lock, owner), nextOwner)
  {
  }

  /** One step keeps the lock's invariant, as long as live holders are in time. */
  lemma StepKeepsLock(s: State, e: Event)
    requires LockKept(s.callers, s.lock, s.nextOwner) && InspectsInTime(s, e)
    ensures var s' := Step(s, e); LockKept(s'.callers, s'.lock, s'.nextOwner)
  {
    hide LockKept, InspectsInTime;
    var s' := Step(s, e);
    if e.Tick? {
    } else if e.LeaveUnreadableLock? {
      LeavingKeepsLock(s);
    } else if e.who < |s.callers| {
      CallerStepKeepsLock(s, e);
    }
  }

  lemma LeavingKeepsLock(s: State)
    requires LockKept(s.callers, s.lock, s.nextOwner)
    ensures var s' := Step(s, LeaveUnreadableLock); LockKept(s'.callers, s'.lock, s'.nextOwner)
  {
  }

  lemma StaleOwnerHoldsNothing(callers: seq<Caller>, lock: LockFile, nextOwner: nat, who: nat)
    requires LockKept(callers, lock, nextOwner) && who < |callers| && callers[who].phase.Releasing?
    ensures forall p :: 0 <= p < |callers| && callers[p].phase.Inside? ==>
      callers[p].phase.owner != callers[who].phase.stale
  {
  }

  lemma OtherOwnersDiffer(callers: seq<Caller>, lock: LockFile, nextOwner: nat, who: nat)
    requires LockKept(callers, lock, nextOwner) && who < |callers| && callers[who].phase.Inside?
    ensures forall p :: 0 <= p < |callers| && p != who && callers[p].phase.Inside? ==>
      callers[p].phase.owner != callers[who].phase.owner
  {
  }

  lemma CallerStepKeepsLock(s: State, e: Event)
    requires !e.Tick? && !e.LeaveUnreadableLock? && e.who < |s.callers|
    requires LockKept(s.callers, s.lock, s.nextOwner) && InspectsInTime(s, e)
    ensures var s' := Step(s, e); LockKept(s'.callers, s'.lock, s'.nextOwner)
  {
    hide LockKept, InspectsInTime, Checked, Validated, Created, Judged, Written, Inspected;
    var s', who, c := Step(s, e), e.who, s.callers[e.who];
    if IsOperation(e) {
      OperationFrame(s, e);
      if c.phase.Inside? {
        QuietKeepsLock(s.callers, s.lock, s.nextOwner, who, s'.callers[who]);
      }
    } else if e.Inspect? && c.phase.Blocked? {
      InspectingKeepsLock(s, who);
    } else if e.TryAcquire? && c.phase.Waiting? && s'.callers[who].phase.Inside? {
      AcquiringKeepsLock(s, who);
    } else if e.ReleaseStale? && c.phase.Releasing? {
      QuietKeepsLock(s.callers, s.lock, s.nextOwner, who, s'.callers[who]);
      StaleOwnerHoldsNothing(s.callers, s.lock, s.nextOwner, who);
      ReleasingKeepsLock(s'.callers, s.lock, s.nextOwner, c.phase.stale);
    } else if e.Leave? && c.phase.Inside? && c.phase.op.Leaving? {
      QuietKeepsLock(s.callers, s.lock, s.nextOwner, who, s'.callers[who]);
      OtherOwnersDiffer(s.callers, s.lock, s.nextOwner, who);
      ReleasingKeepsLock(s'.callers, s.lock, s.nextOwner, c.phase.owner);
    } else if s' != s {
      QuietKeepsLock(s.callers, s.lock, s.nextOwner, who, s'.callers[who]);
    }
  }

  lemma EarlierInTime(s: State, events: seq<Event>)
    requires events != [] && InTime(s, events)
    ensures InTime(s, events[..|events| - 1])
  {
    var earlier := events[..|events| - 1];
    forall n | 0 <= n < |earlier| ensures InspectsInTime(Run(s, earlier[..n]), earlier[n]) {
      assert earlier[..n] == events[..n] && earlier[n] == events[n];
    }
  }

  lemma {:induction false} RunKeepsLock(s: State, events: seq<Event>)
    requires Initial(s) && InTime(s, events)
    ensures var s' := Run(s, events); LockKept(s'.callers, s'.lock, s'.nextOwner)
  {
    assert events[..|events|] == events;
    if events != [] {
      var earlier := events[..|events| - 1];
      EarlierInTime(s, events);
      RunKeepsLock(s, earlier);
      StepKeepsLock(Run(s, earlier), events[|events| - 1]);
    }
  }

  /** At most one live caller runs its operation under the lock, in every state of every run. */
  lemma AtMostOneInside(s: State, events: seq<Event>, p: nat, q: nat)
    requires Initial(s) && InTime(s, events)
    requires p < |Run(s, events).callers| && Run(s, events).callers[p].phase.Inside?
    requires q < |Run(s, events).callers| && Run(s, events).callers[q].phase.Inside?
    ensures p == q
  {
    RunKeepsLock(s, events);
  }

  // ----- Tokens

  /** The token a caller would go on with, or has returned. */
  function Carried(phase: Phase): set<Token> {
    match phase
    case Inside(_, _, Validating(entry)) => {entry.token}
    case Inside(_, _, Storing(token)) => {token}
    case Inside(_, _, Writing(entry)) => {entry.token}
    case Inside(_, _, Leaving(Got(token, _))) => {token}
    case Done(Got(token, _)) => {token}
    case _ => {}
  }

  function Wanted(target: Option<Token>): set<Token> {
    if target.Some? then {target.value} else {}
  }

  /** Only a refreshing call has a target, and it does not go on with it. */
  predicate TokensKept(c: Caller, seen: set<Token>) {
    && Carried(c.phase) <= seen
    && Wanted(c.target) <= seen
    && Carried(c.phase) !! Wanted(c.target)
    && (c.target.Some? ==> c.call.GetOrCreate? && c.call.force != NoRefresh && !c.phase.Idle?)
    && (c.call.GetOrCreate? && c.call.force.RefreshRejected? && !c.phase.Idle? && !c.phase.Crashed? ==>
          c.target == Some(c.call.force.token))
  }

  /** What a caller in its operation knows of the cache and the ledger. */
  predicate OperationKept(phase: Phase, cache: Option<Entry>, ledger: Ledger) {
    phase.Inside? ==>
      match phase.op
      case Validating(entry) => CurrentToken(cache) == {entry.token}
      case Minting => CurrentToken(cache) <= ledger.Dropped()
      case Storing(token) => CurrentToken(cache) <= ledger.Dropped() && token !in ledger.minted
      case Writing(entry) => CurrentToken(cache) <= ledger.Dropped() && entry.token !in ledger.minted
      case Leaving(Got(token, _)) => CurrentToken(cache) == {token}
      case Leaving(Cleared) => cache == None
      case _ => true
  }

  predicate Distinct(tokens: seq<Token>) {
    forall i, j {:trigger tokens[i], tokens[j]} :: 0 <= i < j < |tokens| ==> tokens[i] != tokens[j]
  }

  /** Every minted token is in the cache or was dropped for a reason. */
  predicate LedgerKept(cache: Option<Entry>, seen: set<Token>, ledger: Ledger) {
    && CurrentToken(cache) <= seen
    && Distinct(ledger.minted)
    && forall t :: t in ledger.minted ==> t in seen && t in ledger.Dropped() + CurrentToken(cache)
  }

  function Targets(callers: seq<Caller>): set<Token> {
    set p | 0 <= p < |callers| && callers[p].target.Some? :: callers[p].target.value
  }

  predicate CacheKept(s: State) {
    && LedgerKept(s.cache, s.seen, s.ledger)
    && s.ledger.refreshed <= Targets(s.callers)
    && forall p {:trigger s.callers[p]} :: 0 <= p < |s.callers| ==>
         && TokensKept(s.callers[p], s.seen)
         && OperationKept(s.callers[p].phase, s.cache, s.ledger)
  }

  predicate OthersOutside(callers: seq<Caller>, who: nat) {
    forall q {:trigger callers[q]} :: 0 <= q < |callers| && q != who ==> !callers[q].phase.Inside?
  }

  /** A caller's step keeps the invariant when it keeps it for that caller and disturbs no other operation. */
  lemma CallerKeepsCache(s: State, s': State, who: nat)
    requires CacheKept(s) && who < |s.callers| == |s'.callers|
    requires s'.callers == s.callers[who := s'.callers[who]]
    requires s.seen <= s'.seen
    requires TokensKept(s'.callers[who], s'.seen) && OperationKept(s'.callers[who].phase, s'.cache, s'.ledger)
    requires LedgerKept(s'.cache, s'.seen, s'.ledger)
    requires (s'.cache == s.cache && s'.ledger == s.ledger) || OthersOutside(s.callers, who)
    requires s'.ledger.refreshed <= s.ledger.refreshed + Wanted(s'.callers[who].target)
    requires Wanted(s.callers[who].target) <= Wanted(s'.callers[who].target)
    ensures CacheKept(s')
  {
    hide LedgerKept;
    forall t | t in s'.ledger.refreshed ensures t in Targets(s'.callers) {
      if t in s.ledger.refreshed {
        assert t in Targets(s.callers);
        var p :| 0 <= p < |s.callers| && s.callers[p].target == Some(t);
        assert s'.callers[p].target == Some(t);
      } else {
        assert s'.callers[who].target == Some(t);
      }
    }
    forall q | 0 <= q < |s.callers|
      ensures TokensKept(s'.callers[q], s'.seen) && OperationKept(s'.callers[q].phase, s'.cache, s'.ledger)
    {
      assert q != who ==> s'.callers[q] == s.callers[q];
    }
  }

  lemma CheckedKeepsCache(s: State, who: nat)
    requires CacheKept(s) && who < |s.callers| && OthersOutside(s.callers, who)
    requires s.callers[who].phase.Inside? && s.callers[who].phase.op.Checking?
    ensures CacheKept(Checked(s, who))
  {
    var s' := Checked(s, who);
    CallerKeepsCache(s, s', who);
  }

  lemma ValidatedKeepsCache(s: State, who: nat, entry: Entry, verdict: Verdict)
    requires CacheKept(s) && who < |s.callers| && OthersOutside(s.callers, who)
    requires s.callers[who].phase.Inside? && s.callers[who].phase.op == Validating(entry)
    requires s.callers[who].call.GetOrCreate?
    ensures CacheKept(Validated(s, who, entry, verdict))
  {
    var s' := Validated(s, who, entry, verdict);
    CallerKeepsCache(s, s', who);
  }

  lemma CreatedKeepsCache(s: State, who: nat, created: Option<Token>)
    requires CacheKept(s) && who < |s.callers| && OthersOutside(s.callers, who)
    requires s.callers[who].phase.Inside? && s.callers[who].phase.op.Minting?
    ensures CacheKept(Created(s, who, created))
  {
    var s' := Created(s, who, created);
    if s' != s {
      CallerKeepsCache(s, s', who);
    }
  }

  lemma JudgedKeepsCache(s: State, who: nat, token: Token, verdict: Verdict)
    requires CacheKept(s) && who < |s.callers| && OthersOutside(s.callers, who)
    requires s.callers[who].phase.Inside? && s.callers[who].phase.op == Storing(token)
    requires s.callers[who].call.GetOrCreate?
    ensures CacheKept(Judged(s, who, token, verdict))
  {
    var s' := Judged(s, who, token, verdict);
    CallerKeepsCache(s, s', who);
  }

  lemma WrittenKeepsCache(s: State, who: nat, entry: Entry)
    requires CacheKept(s) && who < |s.callers| && OthersOutside(s.callers, who)
    requires s.callers[who].phase.Inside? && s.callers[who].phase.op == Writing(entry)
    ensures CacheKept(Written(s, who, entry))
  {
    var s' := Written(s, who, entry);
    CallerKeepsCache(s, s', who);
  }

  lemma StartedKeepsCache(s: State, who: nat)
    requires CacheKept(s) && who < |s.callers| && s.callers[who].phase.Idle?
    ensures CacheKept(Started(s, who))
  {
    var s' := Started(s, who);
    CallerKeepsCache(s, s', who);
  }

  /** Away from the operation, a step only moves its caller, and carries no new token. */
  lemma MovedKeepsCache(s: State, s': State, who: nat, phase: Phase)
    requires CacheKept(s) && who < |s.callers|
    requires s'.callers == s.callers[who := s.callers[who].(phase := phase)]
    requires s'.cache == s.cache && s'.seen == s.seen && s'.ledger == s.ledger
    requires !phase.Idle? && Carried(phase) <= Carried(s.callers[who].phase)
    requires phase.Crashed? || !(s.callers[who].phase.Idle? || s.callers[who].phase.Crashed?)
    requires phase.Inside? ==> phase.op.Checking?
    ensures CacheKept(s')
  {
    CallerKeepsCache(s, s', who);
  }

  lemma OperationKeepsCache(s: State, e: Event)
    requires CacheKept(s) && IsOperation(e) && e.who < |s.callers| && OthersOutside(s.callers, e.who)
    requires s.callers[e.who].phase.Inside?
    ensures CacheKept(Step(s, e))
  {
    hide CacheKept, OthersOutside, Checked, Validated, Created, Judged, Written;
    var who := e.who;
    match (e, s.callers[who].phase.op)
    case (Check(_), Checking) => CheckedKeepsCache(s, who);
    case (Validate(_, verdict), Validating(entry)) =>
      if s.callers[who].call.GetOrCreate? {
        ValidatedKeepsCache(s, who, entry, verdict);
      }
    case (Create(_, created), Minting) => CreatedKeepsCache(s, who, created);
    case (Judge(_, verdict), Storing(token)) =>
      if s.callers[who].call.GetOrCreate? {
        JudgedKeepsCache(s, who, token, verdict);
      }
    case (Write(_), Writing(entry)) => WrittenKeepsCache(s, who, entry);
    case _ =>
  }

  lemma WaitingKeepsCache(s: State, e: Event)
    requires CacheKept(s) && !e.Tick? && !e.LeaveUnreadableLock? && !IsOperation(e) && e.who < |s.callers|
    ensures CacheKept(Step(s, e))
  {
    hide CacheKept, Started;
    var who := e.who;
    var s' := Step(s, e);
    if e.Start? && s.callers[who].phase.Idle? {
      StartedKeepsCache(s, who);
    } else if s' != s {
      MovedKeepsCache(s, s', who, s'.callers[who].phase);
    }
  }

  lemma StepKeepsCache(s: State, e: Event)
    requires CacheKept(s) && LockKept(s.callers, s.lock, s.nextOwner)
    ensures CacheKept(Step(s, e))
  {
    hide LockKept;
    if e.Tick? || e.LeaveUnreadableLock? {
    } else {
      hide CacheKept, Checked, Validated, Created, Judged, Written;
      if e.who < |s.callers| && !IsOperation(e) {
        WaitingKeepsCache(s, e);
      } else if e.who < |s.callers| && s.callers[e.who].phase.Inside? {
        HolderIsAlone(s, e.who);
        OperationKeepsCache(s, e);
      }
    }
  }

  lemma HolderIsAlone(s: State, who: nat)
    requires LockKept(s.callers, s.lock, s.nextOwner) && who < |s.callers| && s.callers[who].phase.Inside?
    ensures OthersOutside(s.callers, who)
  {
  }

  lemma {:induction false} RunKeepsCache(s: State, events: seq<Event>)
    requires Initial(s) && InTime(s, events)
    ensures CacheKept(Run(s, events))
  {
    if events != [] {
      var earlier := events[..|events| - 1];
      EarlierInTime(s, events);
      RunKeepsCache(s, earlier);
      RunKeepsLock(s, earlier);
      StepKeepsCache(Run(s, earlier), events[|events| - 1]);
    }
  }

  lemma {:induction false} DistinctFit(tokens: seq<Token>, room: set<Token>)
    requires Distinct(tokens) && forall t :: t in tokens ==> t in room
    ensures |tokens| <= |room|
  {
    if tokens != [] {
      var last := tokens[|tokens| - 1];
      DistinctFit(tokens[..|tokens| - 1], room - {last});
    }
  }

  /**
   Tokens are minted no more often than they are dropped, and once more. Where none lapses, is refused by
   a validator or is invalidated, that is the number of distinct tokens callers wanted replaced, plus one.
   */
  lemma MintsAreBounded(s: State, events: seq<Event>)
    requires Initial(s) && InTime(s, events)
    ensures
      var s' := Run(s, events);
      var ledger := s'.ledger;
      && |ledger.minted| <= |Targets(s'.callers) + ledger.lapsed + ledger.refused + ledger.invalidated| + 1
      && (ledger.lapsed + ledger.refused + ledger.invalidated == {} ==>
            |ledger.minted| <= |Targets(s'.callers)| + 1)
  {
    RunKeepsCache(s, events);
    var s' := Run(s, events);
    var ledger := s'.ledger;
    var dropped := Targets(s'.callers) + ledger.lapsed + ledger.refused + ledger.invalidated;
    var current := CurrentToken(s'.cache);
    DistinctFit(ledger.minted, dropped + current);
    assert |dropped + current| <= |dropped| + |current|;
    if ledger.lapsed + ledger.refused + ledger.invalidated == {} {
      assert dropped == Targets(s'.callers);
    }
  }

  /** Nobody is given back the token it asked to have replaced. */
  lemma RejectedIsNotReturned(s: State, events: seq<Event>, p: nat, token: Token, expiresAt: int)
    requires Initial(s) && InTime(s, events) && p < |s.callers|
    requires |Run(s, events).callers| > p && Run(s, events).callers[p].phase == Done(Got(token, expiresAt))
    ensures
      var c := Run(s, events).callers[p];
      && c.target != Some(token)
      && (c.call.GetOrCreate? ==> c.call.force != RefreshRejected(token))
  {
    RunKeepsCache(s, events);
    assert TokensKept(Run(s, events).callers[p], Run(s, events).seen);
  }

  /** In every run in time, what a caller is about to return is what the cache holds, and a cleared cache is empty. */
  lemma LeavingMatchesTheCache(s: State, events: seq<Event>, p: nat)
    requires Initial(s) && InTime(s, events) && p < |Run(s, events).callers|
    requires Run(s, events).callers[p].phase.Inside? && Run(s, events).callers[p].phase.op.Leaving?
    ensures
      var t := Run(s, events);
      var outcome := t.callers[p].phase.op.outcome;
      && (outcome.Got? ==> t.cache.Some? && t.cache.value.token == outcome.token)
      && (outcome.Cleared? ==> t.cache == None)
  {
    RunKeepsCache(s, events);
    assert OperationKept(Run(s, events).callers[p].phase, Run(s, events).cache, Run(s, events).ledger);
  }

  /** In every run in time, a caller that leaves frees the lock, and its call is over with its outcome. */
  lemma LeavingFreesTheLock(s: State, events: seq<Event>, p: nat)
    requires Initial(s) && InTime(s, events) && p < |Run(s, events).callers|
    requires Run(s, events).callers[p].phase.Inside? && Run(s, events).callers[p].phase.op.Leaving?
    ensures
      var t, t' := Run(s, events), Run(s, events + [Leave(p)]);
      && t.lock != NoLock && t'.lock == NoLock
      && |t'.callers| == |t.callers| && t'.callers[p].phase == Done(t.callers[p].phase.op.outcome)
  {
    hide Run, InTime, Initial;
    RunKeepsLock(s, events);
    RunOneMore(s, events, Leave(p));
  }

  /** The callers' starts do not move a target again, and a call does not become idle again. */
  lemma StepKeepsTarget(s: State, e: Event, p: nat)
    requires p < |s.callers| && p < |Step(s, e).callers| && !s.callers[p].phase.Idle?
    ensures Step(s, e).callers[p].target == s.callers[p].target
    ensures Step(s, e).callers[p].call == s.callers[p].call && !Step(s, e).callers[p].phase.Idle?
  {
    hide Checked, Validated, Created, Judged, Written, Released, NeedsValidation, Cached, Expiration;
    if IsOperation(e) { OperationFrame(s, e); }
  }

  lemma {:induction false} RunKeepsTarget(s: State, events: seq<Event>, p: nat)
    requires p < |s.callers| && !s.callers[p].phase.Idle?
    ensures p < |Run(s, events).callers| && Run(s, events).callers[p].target == s.callers[p].target
    ensures Run(s, events).callers[p].call == s.callers[p].call && !Run(s, events).callers[p].phase.Idle?
  {
    hide Step;
    if events != [] {
      var earlier, e := events[..|events| - 1], events[|events| - 1];
      RunKeepsTarget(s, earlier, p);
      StepKeepsCount(Run(s, earlier), e);
      StepKeepsTarget(Run(s, earlier), e, p);
    }
  }

  /** The entry would still be taken by a caller with this skew. */
  predicate Usable(entry: Entry, now: int, skew: int) {
    now < entry.expiresAt && (entry.token.jwtExpiresAt.Some? ==> now < entry.token.jwtExpiresAt.value - skew)
  }

  /**
   A call starts by returning the cached token, with the lesser of its two expiries, exactly when nothing is to be
   refreshed, the token is usable and it needs no verdict; otherwise it waits for the lock.
   */
  lemma StartIsTold(s: State, who: nat, expiresAt: int)
    requires who < |s.callers| && s.callers[who].phase.Idle? && s.callers[who].call.GetOrCreate?
    requires s.cache.Some? ==> IsLeastExpiry(s.cache.value, s.callers[who].call.skew, expiresAt)
    ensures
      var call, s' := s.callers[who].call, Step(s, Start(who));
      && |s'.callers| == |s.callers| && s'.cache == s.cache && s'.lock == s.lock
      && s'.callers[who].phase ==
         if call.force == NoRefresh && s.cache.Some? && Usable(s.cache.value, s.now, call.skew)
            && (call.policy.Some? ==> s.cache.value.validatedUnder == call.policy)
         then Done(Got(s.cache.value.token, expiresAt))
         else Waiting(s.now)
  {
  }

  /** The lesser of the expiry the entry was stored with and the token's own less the skew. */
  predicate IsLeastExpiry(entry: Entry, skew: int, expiresAt: int) {
    && expiresAt <= entry.expiresAt
    && (entry.token.jwtExpiresAt.Some? ==> expiresAt <= entry.token.jwtExpiresAt.value - skew)
    && (expiresAt == entry.expiresAt
        || (entry.token.jwtExpiresAt.Some? && expiresAt == entry.token.jwtExpiresAt.value - skew))
  }

  /**
   Under the lock, a refresh takes the cache away exactly when it holds the token to be replaced, or nothing usable
   and nothing was to be replaced; a token that is usable and stays goes on to validation, and else one is made.
   */
  lemma CheckIsTold(s: State, who: nat, expiresAt: int)
    requires who < |s.callers| && s.callers[who].call.GetOrCreate?
    requires s.callers[who].phase.Inside? && s.callers[who].phase.op.Checking?
    requires s.cache.Some? ==> IsLeastExpiry(s.cache.value, s.callers[who].call.skew, expiresAt)
    ensures
      var c, s' := s.callers[who], Step(s, Check(who));
      var usable := s.cache.Some? && Usable(s.cache.value, s.now, c.call.skew);
      var refreshes := c.call.force != NoRefresh && c.target == if usable then Some(s.cache.value.token) else None;
      && |s'.callers| == |s.callers| && s'.callers[who].phase.Inside?
      && s'.cache == (if refreshes then None else s.cache)
      && s'.callers[who].phase.op ==
         if usable && !refreshes then Validating(s.cache.value.(expiresAt := expiresAt)) else Minting
  {
  }

  /** A call that refreshes the current token does not return the one it found usable when it started. */
  lemma CurrentIsReplaced(
      s: State, before: seq<Event>, after: seq<Event>, p: nat, entry: Entry, token: Token, expiresAt: int)
    requires Initial(s) && InTime(s, before + [Start(p)] + after)
    requires
      var t := Run(s, before);
      && p < |t.callers| && t.callers[p].phase.Idle?
      && t.callers[p].call.GetOrCreate? && t.callers[p].call.force == RefreshCurrent
      && t.cache == Some(entry) && Usable(entry, t.now, t.callers[p].call.skew)
    requires
      var t := Run(s, before + [Start(p)] + after);
      p < |t.callers| && t.callers[p].phase == Done(Got(token, expiresAt))
    ensures token != entry.token
  {
    var t := Run(s, before);
    var t' := Step(t, Start(p));
    assert t'.callers[p].target == Some(entry.token) && !t'.callers[p].phase.Idle?;
    hide Run, InTime, Initial, Step;
    RunOneMore(s, before, Start(p));
    RunConcat(s, before + [Start(p)], after);
    RunKeepsTarget(t', after, p);
    CallersStay(s, before + [Start(p)] + after);
    RejectedIsNotReturned(s, before + [Start(p)] + after, p, token, expiresAt);
  }

  // ----- Expiry

  /** The token and expiry a caller would go on with, or has returned. */
  function Promised(phase: Phase): Option<(Token, int)> {
    match phase
    case Inside(_, _, Validating(entry)) => Some((entry.token, entry.expiresAt))
    case Inside(_, _, Writing(entry)) => Some((entry.token, entry.expiresAt))
    case Inside(_, _, Leaving(Got(token, expiresAt))) => Some((token, expiresAt))
    case Done(Got(token, expiresAt)) => Some((token, expiresAt))
    case _ => None
  }

  /** The expiry given with a token leaves the caller's safety skew before the token's own. */
  predicate ExpiryKept(c: Caller) {
    c.call.GetOrCreate? && Promised(c.phase).Some? && Promised(c.phase).value.0.jwtExpiresAt.Some? ==>
      Promised(c.phase).value.1 <= Promised(c.phase).value.0.jwtExpiresAt.value - c.call.skew
  }

  predicate AllExpiryKept(callers: seq<Caller>) {
    forall p {:trigger callers[p]} :: 0 <= p < |callers| ==> ExpiryKept(callers[p])
  }

  lemma CallerStepKeepsExpiry(s: State, e: Event)
    requires !e.Tick? && !e.LeaveUnreadableLock? && e.who < |s.callers| && ExpiryKept(s.callers[e.who])
    ensures
      var s' := Step(s, e);
      && |s'.callers| == |s.callers| && s'.callers[e.who].call == s.callers[e.who].call
      && ExpiryKept(s'.callers[e.who])
      && s'.callers == s.callers[e.who := s'.callers[e.who]]
  {
    hide Released, CurrentToken, RefreshesCurrentEntry, NeedsValidation;
  }

  lemma {:induction false} RunKeepsExpiry(s: State, events: seq<Event>)
    requires Initial(s)
    ensures AllExpiryKept(Run(s, events).callers)
  {
    hide Step;
    if events != [] {
      var earlier, e := events[..|events| - 1], events[|events| - 1];
      RunKeepsExpiry(s, earlier);
      StepKeepsExpiry(Run(s, earlier), e);
    }
  }

  lemma StepKeepsExpiry(s: State, e: Event)
    requires AllExpiryKept(s.callers)
    ensures AllExpiryKept(Step(s, e).callers)
  {
    hide CallerStep, ExpiryKept;
    if !e.Tick? && !e.LeaveUnreadableLock? && e.who < |s.callers| {
      CallerStepKeepsExpiry(s, e);
    }
  }

  /** In every run, the expiry returned with a token is at least the caller's skew before the token's own. */
  lemma ReturnedInTime(s: State, events: seq<Event>, p: nat, token: Token, expiresAt: int)
    requires Initial(s) && p < |Run(s, events).callers|
    requires Run(s, events).callers[p].phase == Done(Got(token, expiresAt))
    requires Run(s, events).callers[p].call.GetOrCreate?
    ensures token.jwtExpiresAt.Some? ==> expiresAt <= token.jwtExpiresAt.value - Run(s, events).callers[p].call.skew
  {
    hide Run;
    RunKeepsExpiry(s, events);
    assert ExpiryKept(Run(s, events).callers[p]);
  }

  /**
   A new token is stored exactly when its validation lets it and it does not expire at once; its expiry is the
   lesser of the configured one and its own less the skew.
   */
  lemma NewExpiryIsTheLeast(s: State, who: nat, token: Token, verdict: Verdict, expiresAt: int)
    requires who < |s.callers| && s.callers[who].call.GetOrCreate?
    requires s.callers[who].phase.Inside? && s.callers[who].phase.op == Storing(token)
    requires
      var call := s.callers[who].call;
      && expiresAt <= s.now + call.cacheDuration
      && (token.jwtExpiresAt.Some? ==> expiresAt <= token.jwtExpiresAt.value - call.skew)
      && (expiresAt == s.now + call.cacheDuration
          || (token.jwtExpiresAt.Some? && expiresAt == token.jwtExpiresAt.value - call.skew))
    ensures
      var call, s' := s.callers[who].call, Step(s, Judge(who, verdict));
      && |s'.callers| == |s.callers| && s'.callers[who].phase.Inside?
      && s'.callers[who].phase.op ==
         if s.now < expiresAt && (call.policy.Some? ==> verdict == Accepted) then Writing(Entry(token, expiresAt, call.policy))
         else Leaving(Failed)
  {
  }

  /** The token and expiry a caller has settled on: about to be written, or handed out. */
  function Settled(phase: Phase): Option<(Token, int)> {
    if phase.Inside? && phase.op.Validating? then None else Promised(phase)
  }

  /** The steps that settle: the unlocked hit, the re-check after validation, and the judgement of a new token. */
  predicate Settles(e: Event, who: nat) {
    (e.Start? || e.Validate? || e.Judge?) && e.who == who
  }

  /** A caller settles on a token only in such a step, and only while the clock is before its expiry. */
  lemma SettlesBeforeExpiry(s: State, e: Event, p: nat)
    requires p < |s.callers| && p < |Step(s, e).callers|
    requires Settled(Step(s, e).callers[p].phase).Some?
    requires Settled(Step(s, e).callers[p].phase) != Settled(s.callers[p].phase)
    ensures Settles(e, p) && s.now < Settled(Step(s, e).callers[p].phase).value.1
  {
    hide Released, CurrentToken, RefreshesCurrentEntry, NeedsValidation;
  }

  lemma {:induction false} CallersStay(s: State, events: seq<Event>)
    ensures |Run(s, events).callers| == |s.callers|
  {
    if events != [] {
      var earlier := events[..|events| - 1];
      CallersStay(s, earlier);
      StepKeepsCount(Run(s, earlier), events[|events| - 1]);
    }
  }

  lemma StepKeepsCount(s: State, e: Event)
    ensures |Step(s, e).callers| == |s.callers|
  {
    hide Released, CurrentToken, RefreshesCurrentEntry, NeedsValidation, Cached, Expiration;
  }

  /**
   In every run, a token that a call has returned, or is about to write, was settled on by a step of that
   very call, at a time before the expiry it is returned with: a hit is re-checked after validation.
   */
  lemma {:induction false} TakenBeforeExpiry(s: State, events: seq<Event>, p: nat) returns (n: nat)
    requires Initial(s) && p < |Run(s, events).callers| && Settled(Run(s, events).callers[p].phase).Some?
    ensures n < |events| && Settles(events[n], p)
    ensures Run(s, events[..n]).now < Settled(Run(s, events).callers[p].phase).value.1
    ensures p < |Run(s, events[..n + 1]).callers|
    ensures Settled(Run(s, events[..n + 1]).callers[p].phase) == Settled(Run(s, events).callers[p].phase)
  {
    hide Step, Settled, Settles;
    CallersStay(s, events);
    if events == [] {
      NothingSettled(s, p);
    } else {
      n := |events| - 1;
      var earlier := events[..n];
      CallersStay(s, earlier);
      var before, after := Run(s, earlier), Run(s, events);
      if Settled(after.callers[p].phase) == Settled(before.callers[p].phase) {
        n := TakenBeforeExpiry(s, earlier, p);
        assert earlier[..n] == events[..n] && earlier[n] == events[n] && earlier[..n + 1] == events[..n + 1];
      } else {
        SettlesBeforeExpiry(before, events[n], p);
        assert events[..n + 1] == events;
      }
    }
  }

  lemma NothingSettled(s: State, p: nat)
    requires Initial(s) && p < |s.callers|
    ensures Settled(s.callers[p].phase) == None
  {
  }

  // ----- Validation

  /** An accepting verdict of a validator under the policy, on the token its caller has in hand. */
  predicate Vouches(s: State, e: Event, token: Token, policy: nat) {
    && (e.Validate? || e.Judge?) && e.verdict == Accepted && e.who < |s.callers|
    && s.callers[e.who].call.GetOrCreate? && s.callers[e.who].call.policy == Some(policy)
    && s.callers[e.who].phase.Inside?
    && if e.Validate? then
         s.callers[e.who].phase.op.Validating? && s.callers[e.who].phase.op.entry.token == token
       else
         s.callers[e.who].phase.op == Storing(token)
  }

  /** The token came with the policy's mark in the cache, or some event of the run vouches for it. */
  predicate Vouched(s: State, events: seq<Event>, token: Token, policy: nat) {
    || (s.cache.Some? && s.cache.value.token == token && s.cache.value.validatedUnder == Some(policy))
    || exists n {:trigger events[n]} :: 0 <= n < |events| && Vouches(Run(s, events[..n]), events[n], token, policy)
  }

  lemma StaysVouched(s: State, events: seq<Event>, token: Token, policy: nat)
    requires events != []
    requires
      || Vouched(s, events[..|events| - 1], token, policy)
      || Vouches(Run(s, events[..|events| - 1]), events[|events| - 1], token, policy)
    ensures Vouched(s, events, token, policy)
  {
    hide Vouches, Run;
    var earlier := events[..|events| - 1];
    if n :| 0 <= n < |earlier| && Vouches(Run(s, earlier[..n]), earlier[n], token, policy) {
      assert earlier[..n] == events[..n] && earlier[n] == events[n];
    }
  }

  /** A set of tokens and policies that have been vouched for covers an entry's mark. */
  predicate MarkCovered(entry: Entry, vouched: iset<(Token, nat)>) {
    entry.validatedUnder.Some? ==> (entry.token, entry.validatedUnder.value) in vouched
  }

  /** What a caller goes on with, or has returned, is covered by what has been vouched for. */
  predicate CallerCovered(c: Caller, vouched: iset<(Token, nat)>) {
    match c.phase
    case Inside(_, _, Validating(entry)) => MarkCovered(entry, vouched)
    case Inside(_, _, Writing(entry)) =>
      MarkCovered(entry, vouched) && (c.call.GetOrCreate? ==> entry.validatedUnder == c.call.policy)
    case Inside(_, _, Leaving(Got(token, _))) => TokenCovered(c.call, token, vouched)
    case Done(Got(token, _)) => TokenCovered(c.call, token, vouched)
    case _ => true
  }

  predicate TokenCovered(call: Call, token: Token, vouched: iset<(Token, nat)>) {
    call.GetOrCreate? && call.policy.Some? ==> (token, call.policy.value) in vouched
  }

  predicate Covered(s: State, vouched: iset<(Token, nat)>) {
    && (s.cache.Some? ==> MarkCovered(s.cache.value, vouched))
    && forall p {:trigger s.callers[p]} :: 0 <= p < |s.callers| ==> CallerCovered(s.callers[p], vouched)
  }

  lemma CoveredGrows(s: State, a: iset<(Token, nat)>, b: iset<(Token, nat)>)
    requires Covered(s, a) && a <= b
    ensures Covered(s, b)
  {
  }

  /** A caller's step leaves what it has and what the cache holds covered. */
  predicate StaysCovered(s: State, s': State, who: nat, vouched: iset<(Token, nat)>)
    requires who < |s.callers|
  {
    && |s'.callers| == |s.callers| && s'.callers == s.callers[who := s'.callers[who]]
    && CallerCovered(s'.callers[who], vouched)
    && (s'.cache.Some? ==> MarkCovered(s'.cache.value, vouched))
  }

  lemma VerdictKeepsCover(s: State, e: Event, vouched: iset<(Token, nat)>)
    requires (e.Validate? || e.Judge?) && e.who < |s.callers|
    requires CallerCovered(s.callers[e.who], vouched) && (s.cache.Some? ==> MarkCovered(s.cache.value, vouched))
    requires forall token, policy: nat :: Vouches(s, e, token, policy) ==> (token, policy) in vouched
    ensures StaysCovered(s, Step(s, e), e.who, vouched)
  {
    hide CurrentToken, Expiration;
    var c := s.callers[e.who];
    if c.call.GetOrCreate? && c.call.policy.Some? && c.phase.Inside? && e.verdict == Accepted {
      if e.Validate? && c.phase.op.Validating? {
        assert Vouches(s, e, c.phase.op.entry.token, c.call.policy.value);
      } else if e.Judge? && c.phase.op.Storing? {
        assert Vouches(s, e, c.phase.op.token, c.call.policy.value);
      }
    }
  }

  lemma OtherStepKeepsCover(s: State, e: Event, vouched: iset<(Token, nat)>)
    requires !e.Tick? && !e.LeaveUnreadableLock? && !e.Validate? && !e.Judge? && e.who < |s.callers|
    requires CallerCovered(s.callers[e.who], vouched) && (s.cache.Some? ==> MarkCovered(s.cache.value, vouched))
    ensures StaysCovered(s, Step(s, e), e.who, vouched)
  {
    hide Released, CurrentToken, RefreshesCurrentEntry, Expiration;
  }

  lemma StepKeepsCover(s: State, e: Event, vouched: iset<(Token, nat)>)
    requires Covered(s, vouched)
    requires forall token, policy: nat :: Vouches(s, e, token, policy) ==> (token, policy) in vouched
    ensures Covered(Step(s, e), vouched)
  {
    hide CallerStep, CallerCovered, MarkCovered, Vouches;
    if !e.Tick? && !e.LeaveUnreadableLock? && e.who < |s.callers| {
      if e.Validate? || e.Judge? { VerdictKeepsCover(s, e, vouched); } else { OtherStepKeepsCover(s, e, vouched); }
    }
  }

  ghost function AllVouched(s: State, events: seq<Event>): iset<(Token, nat)> {
    iset token, policy: nat | Vouched(s, events, token, policy) :: (token, policy)
  }

  lemma {:induction false} RunIsCovered(s: State, events: seq<Event>)
    requires Initial(s)
    ensures Covered(Run(s, events), AllVouched(s, events))
  {
    if events != [] {
      var earlier, e := events[..|events| - 1], events[|events| - 1];
      RunIsCovered(s, earlier);
      hide Initial, Step, Covered, Vouches, Vouched;
      forall token, policy: nat | Vouched(s, earlier, token, policy) || Vouches(Run(s, earlier), e, token, policy)
        ensures Vouched(s, events, token, policy)
      {
        StaysVouched(s, events, token, policy);
      }
      CoveredGrows(Run(s, earlier), AllVouched(s, earlier), AllVouched(s, events));
      StepKeepsCover(Run(s, earlier), e, AllVouched(s, events));
    }
  }

  /**
   In every run, in time or not, a token returned to a caller with a validation policy was accepted under that
   very policy: by the mark it had in the cache from the start, or by a verdict given in the run with it in hand.
   */
  lemma ReturnedIsVouched(s: State, events: seq<Event>, p: nat, token: Token, expiresAt: int, policy: nat)
    requires Initial(s) && p < |Run(s, events).callers|
    requires Run(s, events).callers[p].phase == Done(Got(token, expiresAt))
    requires Run(s, events).callers[p].call.GetOrCreate? && Run(s, events).callers[p].call.policy == Some(policy)
    ensures Vouched(s, events, token, policy)
  {
    hide Run, Vouched;
    RunIsCovered(s, events);
    assert CallerCovered(Run(s, events).callers[p], AllVouched(s, events));
  }

  /** So is a token that is marked in the cache at the end of a run. */
  lemma MarkedIsVouched(s: State, events: seq<Event>, policy: nat)
    requires Initial(s) && Run(s, events).cache.Some? && Run(s, events).cache.value.validatedUnder == Some(policy)
    ensures Vouched(s, events, Run(s, events).cache.value.token, policy)
  {
    hide Run, Vouched;
    RunIsCovered(s, events);
  }

  /** The caller has a cached token in hand that is not marked with its policy. */
  predicate AwaitsVerdict(s: State, who: nat) {
    && who < |s.callers| && s.callers[who].call.GetOrCreate? && s.callers[who].call.policy.Some?
    && s.callers[who].phase.Inside? && s.callers[who].phase.op.Validating?
    && s.callers[who].phase.op.entry.validatedUnder != s.callers[who].call.policy
  }

  /**
   What a verdict on a cached token does: rejected, the token leaves the cache and a new one is made; a validator
   that throws leaves the cache alone; accepted and not expired, the token is marked and returned.
   */
  lemma VerdictsDecide(s: State, who: nat, verdict: Verdict)
    requires AwaitsVerdict(s, who)
    ensures
      var entry, s' := s.callers[who].phase.op.entry, Step(s, Validate(who, verdict));
      && |s'.callers| == |s.callers| && s'.callers[who].phase.Inside?
      && (verdict == Rejected ==> s'.cache == None && s'.callers[who].phase.op == Minting)
      && (verdict == Threw ==> s'.cache == s.cache && s'.callers[who].phase.op == Leaving(Failed))
      && (verdict == Accepted && s.now >= entry.expiresAt ==> s'.cache == None && s'.callers[who].phase.op == Minting)
      && (verdict == Accepted && s.now < entry.expiresAt ==>
            && s'.cache == Some(Entry(entry.token, entry.expiresAt, s.callers[who].call.policy))
            && s'.callers[who].phase.op == Leaving(Got(entry.token, entry.expiresAt)))
  {
  }

  // ----- Why live holders must finish in time

  // ----- Why live holders must finish in time

  lemma RunOneMore(s: State, events: seq<Event>, e: Event)
    ensures Run(s, events + [e]) == Step(Run(s, events), e)
  {
    assert (events + [e])[..|events|] == events;
  }

  lemma RunNothing(s: State)
    ensures Run(s, []) == s
  {
  }

  /** The four steps in which a waiting caller finds the lock taken, and stale, removes it and takes it. */
  function TakeOver(q: nat): seq<Event> {
    [TryAcquire(q), Inspect(q), ReleaseStale(q), TryAcquire(q)]
  }

  /**
   The boundary is exact, in every state where holders own their lock: another caller that has not run out of
   time gets in beside a live holder, in those four steps, exactly when the holder has reached its stale age.
   */
  lemma TakeOverBoundary(s: State, p: nat, q: nat)
    requires HolderOwnsLock(s.callers, s.lock) && p < |s.callers| && q < |s.callers| && p != q
    requires s.callers[p].phase.Inside? && s.callers[q].phase.Waiting?
    requires s.now - s.callers[q].phase.since < s.callers[q].waitTimeout
    ensures
      var s' := Run(s, TakeOver(q));
      && |s'.callers| == |s.callers| && s'.callers[p] == s.callers[p]
      && (s'.callers[q].phase.Inside? <==> s.now - s.callers[p].phase.acquiredAt >= s.callers[q].staleAfter)
  {
    var since := s.callers[q].phase.since;
    var s1 := Step(s, TryAcquire(q));
    var s2 := Step(s1, Inspect(q));
    var s3 := Step(s2, ReleaseStale(q));
    assert s1 == Moved(s, q, Blocked(since));
    if s.now - s.callers[p].phase.acquiredAt >= s.callers[q].staleAfter {
      assert s2 == Moved(s1, q, Releasing(since, s.callers[p].phase.owner));
      assert s3.lock == NoLock && s3.callers[q].phase == Waiting(since);
    } else {
      assert s3 == s2 == Moved(s1, q, Waiting(since));
    }
    RunFour(s, TryAcquire(q), Inspect(q), ReleaseStale(q), TryAcquire(q));
  }

  /** A waiting caller gives up at its next try exactly when its time has run out, and fails only then. */
  lemma WaitingEndsInTime(s: State, q: nat)
    requires q < |s.callers| && s.callers[q].phase.Waiting?
    ensures
      var s' := Step(s, TryAcquire(q));
      && |s'.callers| == |s.callers|
      && (s'.callers[q].phase == Done(Failed) <==> s.now - s.callers[q].phase.since >= s.callers[q].waitTimeout)
      && (s'.callers[q].phase == Done(Failed) ==> s'.lock == s.lock)
  {
  }

  /**
   Recovery is exact, whatever is there in place of a lock: a waiting caller with time left gets in, in those
   steps, exactly when there is none, or one whose time of making or of last change is its stale age past.
   */
  lemma RecoveryIsExact(s: State, q: nat)
    requires q < |s.callers| && s.callers[q].phase.Waiting?
    requires s.now - s.callers[q].phase.since < s.callers[q].waitTimeout
    ensures
      var s' := Run(s, TakeOver(q));
      && |s'.callers| == |s.callers|
      && (s'.callers[q].phase.Inside? <==>
            match s.lock
            case NoLock => true
            case OwnedBy(_, createdAt) => s.now - createdAt >= s.callers[q].staleAfter
            case Unreadable(modifiedAt) => s.now - modifiedAt >= s.callers[q].staleAfter)
  {
    var since := s.callers[q].phase.since;
    RunFour(s, TryAcquire(q), Inspect(q), ReleaseStale(q), TryAcquire(q));
    hide Run;
    var s1 := Step(s, TryAcquire(q));
    var s2 := Step(s1, Inspect(q));
    var s3 := Step(s2, ReleaseStale(q));
    if s.lock == NoLock {
      assert Step(s3, TryAcquire(q)) == s3 == s2 == s1;
    } else {
      assert s1 == Moved(s, q, Blocked(since));
      match s.lock
      case OwnedBy(owner, createdAt) =>
        if s.now - createdAt >= s.callers[q].staleAfter {
          assert s2 == Moved(s1, q, Releasing(since, owner));
          assert s3.lock == NoLock && s3.callers[q].phase == Waiting(since);
        } else {
          assert s3 == s2 == Moved(s1, q, Waiting(since));
        }
      case Unreadable(modifiedAt) =>
        if s.now - modifiedAt >= s.callers[q].staleAfter {
          assert s3 == s2 && s3.lock == NoLock && s3.callers[q].phase == Waiting(since);
        } else {
          assert s3 == s2 == Moved(s1, q, Waiting(since));
        }
    }
  }

  lemma RunFour(s: State, a: Event, b: Event, c: Event, d: Event)
    ensures Run(s, [a, b, c, d]) == Step(Step(Step(Step(s, a), b), c), d)
  {
    hide Run, Step;
    RunNothing(s);
    RunOneMore(s, [], a);
    RunOneMore(s, [a], b);
    RunOneMore(s, [a, b], c);
    RunOneMore(s, [a, b, c], d);
    assert [] + [a] == [a] && [a] + [b] == [a, b] && [a, b] + [c] == [a, b, c] && [a, b, c] + [d] == [a, b, c, d];
  }

  lemma {:induction false} RunConcat(s: State, events: seq<Event>, more: seq<Event>)
    ensures Run(s, events + more) == Run(Run(s, events), more)
  {
    if more == [] {
      assert events + more == events;
    } else {
      RunConcat(s, events, more[..|more| - 1]);
      assert (events + more)[..|events + more| - 1] == events + more[..|more| - 1];
    }
  }

  /**
   For every run in time so far: the next take-over puts two live callers inside exactly when the holder has
   reached the waiting caller's stale age.
   */
  lemma OverrunBreaksExclusion(s: State, events: seq<Event>, p: nat, q: nat)
    requires Initial(s) && InTime(s, events) && p != q
    requires p < |Run(s, events).callers| && Run(s, events).callers[p].phase.Inside?
    requires q < |Run(s, events).callers| && Run(s, events).callers[q].phase.Waiting?
    requires Run(s, events).now - Run(s, events).callers[q].phase.since < Run(s, events).callers[q].waitTimeout
    ensures
      var t, t' := Run(s, events), Run(s, events + TakeOver(q));
      && |t'.callers| == |t.callers| && t'.callers[p].phase.Inside?
      && (t'.callers[q].phase.Inside? <==> t.now - t.callers[p].phase.acquiredAt >= t.callers[q].staleAfter)
  {
    hide Run, InTime;
    RunKeepsLock(s, events);
    RunConcat(s, events, TakeOver(q));
    TakeOverBoundary(Run(s, events), p, q);
  }

  /** It happens: a run in time so far, with a holder that has reached a waiting caller's stale age. */
  lemma OverrunHappens() returns (s: State, events: seq<Event>)
    ensures Initial(s) && InTime(s, events)
    ensures
      var t := Run(s, events);
      && |t.callers| == 2 && t.callers[0].phase.Inside? && t.callers[1].phase.Waiting?
      && t.now - t.callers[1].phase.since < t.callers[1].waitTimeout
      && t.now - t.callers[0].phase.acquiredAt >= t.callers[1].staleAfter
  {
    hide Run;
    var c := Caller(GetOrCreate(NoRefresh, None, 1000, 0), 5, 100, None, Idle);
    s := State(0, NoLock, None, 0, [c, c], {}, Ledger([], {}, {}, {}, {}));
    var first := [Start(0), TryAcquire(0)];
    FirstGoesIn(s, c);
    RunOneMore(s, first, Tick(5));
    RunOneMore(s, first + [Tick(5)], Start(1));
    events := first + [Tick(5)] + [Start(1)];
  }

  lemma FirstGoesIn(s: State, c: Caller)
    requires c == Caller(GetOrCreate(NoRefresh, None, 1000, 0), 5, 100, None, Idle)
    requires s == State(0, NoLock, None, 0, [c, c], {}, Ledger([], {}, {}, {}, {}))
    ensures
      var first := c.(phase := Inside(0, 0, Checking));
      Run(s, [Start(0), TryAcquire(0)]) == s.(lock := OwnedBy(0, 0), nextOwner := 1, callers := [first, c])
  {
    hide Run;
    RunNothing(s);
    assert [Start(0)] == [] + [Start(0)] && [Start(0), TryAcquire(0)] == [Start(0)] + [TryAcquire(0)];
    RunOneMore(s, [], Start(0));
    RunOneMore(s, [Start(0)], TryAcquire(0));
    assert Run(s, [Start(0)]) == s.(callers := [c.(phase := Waiting(0)), c]);
  }
}
