/**
 Chunked triggering with idempotency keys: recipients are split into numbered chunks, each sent in order
 under its own key, stopping at the first failure; a job runner tries again against a provider that
 delivers each key once.
 */
module Notifications {
  import opened JsText
  import opened Options

  const MAXIMUM_RECIPIENTS_COUNT: int := 1000

  // ----- Chunks

  function Flatten<T>(parts: seq<seq<T>>): seq<T> {
    if parts == [] then [] else parts[0] + Flatten(parts[1..])
  }

  function Ceil(n: nat, size: nat): (r: nat)
    requires size > 0
    ensures (r - 1) * size < n <= r * size
  {
    (n + size - 1) / size
  }

  function Least(a: nat, b: nat): nat {
    if a < b then a else b
  }

  /** slice with both ends given and not negative. */
  function Slice<T>(elements: seq<T>, start: nat, end: nat): seq<T>
    requires start <= end
  {
    elements[Least(start, |elements|)..Least(end, |elements|)]
  }

  function Chunk<T>(elements: seq<T>, size: int): Result<seq<seq<T>>, string> {
    if size <= 0 then Err("size must be a positive integer")
    else if |elements| == 0 then Ok([])
    else
      Ok(seq(Ceil(|elements|, size), index requires 0 <= index =>
        (TimesGrows(index, index + 1, size); Slice(elements, index * size, (index + 1) * size))))
  }

  lemma {:induction false} FlattenOneMore<T>(parts: seq<seq<T>>, last: seq<T>)
    ensures Flatten(parts + [last]) == Flatten(parts) + last
  {
    if parts == [] {
      assert [last][1..] == [];
    } else {
      assert (parts + [last])[1..] == parts[1..] + [last];
      FlattenOneMore(parts[1..], last);
    }
  }

  lemma TimesGrows(i: nat, j: nat, size: nat)
    requires i <= j
    ensures i * size <= j * size
  {
    assert j * size == i * size + (j - i) * size;
  }

  lemma ChunkBounds(n: nat, size: nat, i: nat)
    requires size > 0 && i < Ceil(n, size)
    ensures i * size < n
    ensures i + 1 < Ceil(n, size) ==> (i + 1) * size < n
    ensures i + 1 == Ceil(n, size) ==> n <= (i + 1) * size
  {
    var count := Ceil(n, size);
    hide Ceil;
    TimesGrows(i, count - 1, size);
    if i + 1 < count {
      TimesGrows(i + 1, count - 1, size);
    }
  }

  /** Every chunk is full but perhaps the last, and none is empty. */
  lemma ChunkSizes<T>(elements: seq<T>, size: int, i: nat)
    requires size > 0 && i < |Chunk(elements, size).value|
    ensures
      var chunks := Chunk(elements, size).value;
      && 0 < |chunks[i]| <= size
      && (i < |chunks| - 1 ==> |chunks[i]| == size)
      && Least(i * size, |elements|) <= Least((i + 1) * size, |elements|) <= |elements|
      && chunks[i] == elements[Least(i * size, |elements|)..Least((i + 1) * size, |elements|)]
  {
    ChunkBounds(|elements|, size, i);
    assert (i + 1) * size == i * size + size;
  }

  lemma OneMorePart<T>(elements: seq<T>, parts: seq<seq<T>>, i: nat, start: nat, end: nat)
    requires i < |parts| && start <= end <= |elements| && parts[i] == elements[start..end]
    requires Flatten(parts[..i]) == elements[..start]
    ensures Flatten(parts[..i + 1]) == elements[..end]
  {
    hide Flatten;
    FlattenOneMore(parts[..i], parts[i]);
    assert parts[..i + 1] == parts[..i] + [parts[i]];
    assert elements[..end] == elements[..start] + elements[start..end];
  }

  /** The first k chunks are the elements up to there. */
  lemma {:induction false} ChunksAreThePrefix<T>(elements: seq<T>, size: int, k: nat)
    requires size > 0 && k <= |Chunk(elements, size).value|
    ensures Flatten(Chunk(elements, size).value[..k]) == elements[..Least(k * size, |elements|)]
  {
    var chunks := Chunk(elements, size).value;
    if k == 0 {
      assert chunks[..k] == [];
    } else {
      hide Chunk, Flatten, Slice, Ceil, Least;
      var i := k - 1;
      var start, end := Least(i * size, |elements|), Least((i + 1) * size, |elements|);
      ChunksAreThePrefix(elements, size, i);
      ChunkSizes(elements, size, i);
      OneMorePart(elements, chunks, i, start, end);
    }
  }

  /** The chunks are the elements in pieces: all of them, in order. */
  lemma ChunksPartition<T>(elements: seq<T>, size: int)
    requires size > 0
    ensures Flatten(Chunk(elements, size).value) == elements
  {
    var chunks := Chunk(elements, size).value;
    ChunksAreThePrefix(elements, size, |chunks|);
    assert chunks[..|chunks|] == chunks;
  }

  datatype RecipientChunk<T> = RecipientChunk(number: nat, recipients: seq<T>)

  function ChunkRecipients<T>(recipients: seq<T>): seq<RecipientChunk<T>> {
    if |recipients| == 0 then [RecipientChunk(1, [])]
    else
      var chunks := Chunk(recipients, MAXIMUM_RECIPIENTS_COUNT).value;
      seq(|chunks|, index requires 0 <= index < |chunks| => RecipientChunk(index + 1, chunks[index]))
  }

  // ----- Idempotency keys

  lemma {:induction false} DecimalIsInjective(m: nat, n: nat)
    requires Decimal(m) == Decimal(n)
    ensures m == n
    decreases m + n
  {
    var digits := Decimal(m);
    assert m % 10 == digits[|digits| - 1] as int - '0' as int == n % 10;
    if m < 10 && n < 10 {
    } else if m >= 10 && n >= 10 {
      assert Decimal(m / 10) == digits[..|digits| - 1] == Decimal(n / 10);
      DecimalIsInjective(m / 10, n / 10);
    }
  }

  /** The number that digits stand for, by place value. */
  function Numeral(digits: string): int {
    if digits == "" then 0
    else 10 * Numeral(digits[..|digits| - 1]) + (digits[|digits| - 1] as int - '0' as int)
  }

  /** A decimal stands for its number and has no zero in front, but for zero itself. */
  lemma {:induction false} DecimalReads(n: nat)
    ensures Numeral(Decimal(n)) == n && (Decimal(n)[0] == '0' ==> n == 0)
  {
    var digits := Decimal(n);
    if n >= 10 {
      DecimalReads(n / 10);
      assert digits[..|digits| - 1] == Decimal(n / 10);
    } else {
      assert digits[..0] == "";
    }
  }

  function Key(idempotencyKey: string, number: nat): string {
    idempotencyKey + "-" + Decimal(number)
  }

  /** Whatever the base key contains, the last dash is the one before the number. */
  lemma LastDash(base: string, number: nat)
    ensures Key(base, number)[|base|] == '-'
    ensures forall i {:trigger Key(base, number)[i]} ::
      |base| < i < |Key(base, number)| ==> Key(base, number)[i] != '-'
  {
    forall i | |base| < i < |Key(base, number)| ensures Key(base, number)[i] != '-' {
      assert Key(base, number)[i] == Decimal(number)[i - |base| - 1];
      assert Decimal(number)[i - |base| - 1] in Decimal(number);
    }
  }

  /** Keys never collide. */
  lemma KeysNeverCollide(base1: string, number1: nat, base2: string, number2: nat)
    ensures Key(base1, number1) == Key(base2, number2) <==> base1 == base2 && number1 == number2
  {
    if Key(base1, number1) == Key(base2, number2) {
      var key := Key(base1, number1);
      LastDash(base1, number1);
      LastDash(base2, number2);
      assert |base1| == |base2|;
      assert key[..|base1|] == base1 && key[..|base2|] == base2;
      assert key[|base1| + 1..] == Decimal(number1) && key[|base2| + 1..] == Decimal(number2);
      DecimalIsInjective(number1, number2);
    }
  }

  // ----- The provider

  /** A call may fail before the provider acts, or after it has, with an HTTP status or without. */
  datatype Fault = NoFault | FailsBefore(status: Option<int>) | FailsAfter(status: Option<int>)

  datatype Delivery<T> = Delivery(key: string, recipients: seq<T>)

  predicate Knows<T>(log: seq<Delivery<T>>, key: string) {
    exists i :: 0 <= i < |log| && log[i].key == key
  }

  /** The provider's deliveries after one call: it delivers a key it does not know. */
  function Triggered<T>(log: seq<Delivery<T>>, key: string, recipients: seq<T>, fault: Fault): seq<Delivery<T>> {
    if fault.FailsBefore? || Knows(log, key) then log else log + [Delivery(key, recipients)]
  }

  /** key is one of the base key's. */
  ghost predicate BelongsTo(key: string, idempotencyKey: string) {
    exists n: nat :: key == Key(idempotencyKey, n)
  }

  /** The deliveries made under the base key, in order. */
  ghost function Sent<T>(log: seq<Delivery<T>>, idempotencyKey: string): seq<Delivery<T>> {
    if log == [] then []
    else
      var last := log[|log| - 1];
      var earlier := Sent(log[..|log| - 1], idempotencyKey);
      if BelongsTo(last.key, idempotencyKey) then earlier + [last] else earlier
  }

  /** One job: what its triggerChunked calls are given, every time. */
  datatype Job<T> = Job(idempotencyKey: string, recipients: seq<T>)

  /** What the job is to deliver: each chunk once, under its own key. */
  function Planned<T>(job: Job<T>): seq<Delivery<T>> {
    var chunks := ChunkRecipients(job.recipients);
    seq(|chunks|, i requires 0 <= i < |chunks| =>
      Delivery(Key(job.idempotencyKey, chunks[i].number), chunks[i].recipients))
  }

  lemma SentOneMore<T>(log: seq<Delivery<T>>, d: Delivery<T>, idempotencyKey: string)
    ensures Sent(log + [d], idempotencyKey)
      == Sent(log, idempotencyKey) + if BelongsTo(d.key, idempotencyKey) then [d] else []
  {
    assert (log + [d])[..|log|] == log;
  }

  lemma {:induction false} KnownIsSent<T>(log: seq<Delivery<T>>, idempotencyKey: string, n: nat)
    ensures Knows(log, Key(idempotencyKey, n)) <==> Knows(Sent(log, idempotencyKey), Key(idempotencyKey, n))
  {
    if log != [] {
      var earlier, last := log[..|log| - 1], log[|log| - 1];
      KnownIsSent(earlier, idempotencyKey, n);
      assert log == earlier + [last];
      KnowsOneMore(earlier, last, Key(idempotencyKey, n));
      if BelongsTo(last.key, idempotencyKey) {
        KnowsOneMore(Sent(earlier, idempotencyKey), last, Key(idempotencyKey, n));
      }
    }
  }

  lemma KnowsOneMore<T>(log: seq<Delivery<T>>, d: Delivery<T>, key: string)
    ensures Knows(log + [d], key) <==> Knows(log, key) || d.key == key
  {
    if Knows(log, key) {
      var i :| 0 <= i < |log| && log[i].key == key;
      assert (log + [d])[i].key == key;
    }
    assert (log + [d])[|log|] == d;
  }

  lemma PlannedKeys<T>(job: Job<T>, i: nat)
    requires i < |Planned(job)|
    ensures Planned(job)[i].key == Key(job.idempotencyKey, i + 1)
    ensures Planned(job)[i].recipients == ChunkRecipients(job.recipients)[i].recipients
  {
  }

  /** A call for chunk c + 1, made when the first c are delivered, delivers in order and nothing twice. */
  lemma CallKeepsPrefix<T>(job: Job<T>, log: seq<Delivery<T>>, c: nat, fault: Fault)
    requires Sent(log, job.idempotencyKey) <= Planned(job)
    requires c <= |Sent(log, job.idempotencyKey)| && c < |Planned(job)|
    ensures
      var chunk := ChunkRecipients(job.recipients)[c];
      var log' := Triggered(log, Key(job.idempotencyKey, chunk.number), chunk.recipients, fault);
      && |Sent(log, job.idempotencyKey)| <= |Sent(log', job.idempotencyKey)|
      && Sent(log', job.idempotencyKey) <= Planned(job)
      && (fault == NoFault ==> c + 1 <= |Sent(log', job.idempotencyKey)|)
  {
    hide Key, ChunkRecipients;
    var base := job.idempotencyKey;
    var sent, planned := Sent(log, base), Planned(job);
    PlannedKeys(job, c);
    KnownIsSent(log, base, c + 1);
    SentOneMore(log, planned[c], base);
    assert BelongsTo(planned[c].key, base);
    if c < |sent| {
      assert sent[c] == planned[c];
    } else if Knows(sent, Key(base, c + 1)) {
      var i :| 0 <= i < |sent| && sent[i].key == Key(base, c + 1);
      PlannedKeys(job, i);
      KeysNeverCollide(base, i + 1, base, c + 1);
      assert false;
    } else {
      assert sent + [planned[c]] == planned[..c + 1];
    }
  }

  /** A call under another job's base key leaves this job's deliveries as they are. */
  lemma OtherCallKeepsSent<T>(log: seq<Delivery<T>>, base: string, other: string, n: nat, recipients: seq<T>, fault: Fault)
    requires base != other
    ensures Sent(Triggered(log, Key(other, n), recipients, fault), base) == Sent(log, base)
  {
    forall m: nat ensures Key(other, n) != Key(base, m) {
      KeysNeverCollide(other, n, base, m);
    }
    SentOneMore(log, Delivery(Key(other, n), recipients), base);
  }

  // ----- Any number of attempts of any number of jobs

  datatype Status = Sending(completed: nat) | Stopped(completed: nat) | Succeeded

  /** One call of triggerChunked for a job, past its validation. */
  datatype Attempt = Attempt(job: nat, status: Status)

  datatype State<T> = State(log: seq<Delivery<T>>, attempts: seq<Attempt>)

  /** One provider call of one attempt; an attempt that is over does nothing. */
  datatype Event = Send(attempt: nat, fault: Fault)

  function Step<T>(jobs: seq<Job<T>>, s: State<T>, e: Event): State<T> {
    if e.attempt < |s.attempts| && s.attempts[e.attempt].job < |jobs| && s.attempts[e.attempt].status.Sending? then
      var job := jobs[s.attempts[e.attempt].job];
      var chunks := ChunkRecipients(job.recipients);
      var completed := s.attempts[e.attempt].status.completed;
      if completed < |chunks| then
        var log := Triggered(s.log, Key(job.idempotencyKey, chunks[completed].number), chunks[completed].recipients, e.fault);
        var status :=
          if e.fault != NoFault then Stopped(completed)
          else if completed + 1 == |chunks| then Succeeded
          else Sending(completed + 1);
        State(log, s.attempts[e.attempt := s.attempts[e.attempt].(status := status)])
      else s
    else s
  }

  function Run<T>(jobs: seq<Job<T>>, s: State<T>, events: seq<Event>): State<T> {
    if events == [] then s else Step(jobs, Run(jobs, s, events[..|events| - 1]), events[|events| - 1])
  }

  predicate OwnKeys<T>(jobs: seq<Job<T>>) {
    forall i, j {:trigger jobs[i], jobs[j]} :: 0 <= i < j < |jobs| ==> jobs[i].idempotencyKey != jobs[j].idempotencyKey
  }

  /** Nothing is sent, and attempts begin at the first chunk, retries included. */
  predicate Initial<T>(s: State<T>) {
    s.log == [] && forall i :: 0 <= i < |s.attempts| ==> s.attempts[i].status == Sending(0)
  }

  ghost predicate JobKept<T>(s: State<T>, j: nat, job: Job<T>) {
    var sent := |Sent(s.log, job.idempotencyKey)|;
    && Sent(s.log, job.idempotencyKey) <= Planned(job)
    && forall i {:trigger s.attempts[i]} :: 0 <= i < |s.attempts| && s.attempts[i].job == j ==>
         match s.attempts[i].status
         case Sending(completed) => completed <= sent
         case Stopped(completed) => completed <= sent
         case Succeeded => sent == |Planned(job)|
  }

  lemma StepKeepsJob<T>(jobs: seq<Job<T>>, s: State<T>, e: Event, j: nat)
    requires OwnKeys(jobs) && j < |jobs| && JobKept(s, j, jobs[j])
    ensures JobKept(Step(jobs, s, e), j, jobs[j])
  {
    hide Planned, ChunkRecipients, Triggered, Key;
    var s' := Step(jobs, s, e);
    if s' != s {
      var attempt := s.attempts[e.attempt];
      var c := attempt.status.completed;
      var chunk := ChunkRecipients(jobs[attempt.job].recipients)[c];
      if attempt.job == j {
        PlannedLength(jobs[j]);
        CallKeepsPrefix(jobs[j], s.log, c, e.fault);
      } else {
        OtherCallKeepsSent(s.log, jobs[j].idempotencyKey, jobs[attempt.job].idempotencyKey, chunk.number,
                           chunk.recipients, e.fault);
      }
    }
  }

  lemma PlannedLength<T>(job: Job<T>)
    ensures |Planned(job)| == |ChunkRecipients(job.recipients)| > 0
  {
  }

  lemma {:induction false} RunKeepsJob<T>(jobs: seq<Job<T>>, s: State<T>, events: seq<Event>, j: nat)
    requires OwnKeys(jobs) && Initial(s) && j < |jobs|
    ensures JobKept(Run(jobs, s, events), j, jobs[j])
  {
    if events != [] {
      var earlier := events[..|events| - 1];
      RunKeepsJob(jobs, s, earlier, j);
      StepKeepsJob(jobs, Run(jobs, s, earlier), events[|events| - 1], j);
    }
  }

  function Parts<T>(deliveries: seq<Delivery<T>>): seq<seq<T>> {
    seq(|deliveries|, i requires 0 <= i < |deliveries| => deliveries[i].recipients)
  }

  /** The recipients of the deliveries, position by position. */
  function Positions<T>(deliveries: seq<Delivery<T>>): seq<T> {
    Flatten(Parts(deliveries))
  }

  /** The first k planned deliveries reach the recipients up to there, each position once. */
  lemma PlannedPositions<T>(job: Job<T>, k: nat)
    requires k <= |Planned(job)|
    ensures Positions(Planned(job)[..k]) == job.recipients[..Least(k * MAXIMUM_RECIPIENTS_COUNT, |job.recipients|)]
    ensures k == |Planned(job)| ==> Positions(Planned(job)[..k]) == job.recipients
  {
    var deliveries := Planned(job)[..k];
    var parts := Parts(deliveries);
    if |job.recipients| == 0 {
      assert job.recipients == [];
      assert parts == if k == 1 then [[]] else [];
      assert parts != [] ==> parts[1..] == [];
      assert Flatten(parts) == [];
    } else {
      var chunks := Chunk(job.recipients, MAXIMUM_RECIPIENTS_COUNT).value;
      assert parts == chunks[..k];
      ChunksAreThePrefix(job.recipients, MAXIMUM_RECIPIENTS_COUNT, k);
      ChunksPartition(job.recipients, MAXIMUM_RECIPIENTS_COUNT);
      assert k == |chunks| ==> chunks[..k] == chunks;
    }
  }

  /**
   Over any interleaving of any attempts of any jobs, what a job has delivered is a prefix of its chunks
   and reaches a prefix of its recipients, no position twice.
   */
  lemma DeliveredIsAPrefix<T>(jobs: seq<Job<T>>, s: State<T>, events: seq<Event>, j: nat)
    requires OwnKeys(jobs) && Initial(s) && j < |jobs|
    ensures
      var sent := Sent(Run(jobs, s, events).log, jobs[j].idempotencyKey);
      && sent <= Planned(jobs[j])
      && Positions(sent) == jobs[j].recipients[..Least(|sent| * MAXIMUM_RECIPIENTS_COUNT, |jobs[j].recipients|)]
  {
    hide Positions, Planned, Run, Sent;
    RunKeepsJob(jobs, s, events, j);
    var sent := Sent(Run(jobs, s, events).log, jobs[j].idempotencyKey);
    assert sent == Planned(jobs[j])[..|sent|];
    PlannedPositions(jobs[j], |sent|);
  }

  /** Once an attempt has succeeded, every recipient of its job has been reached exactly once, for good. */
  lemma SuccessIsComplete<T>(jobs: seq<Job<T>>, s: State<T>, events: seq<Event>, i: nat)
    requires OwnKeys(jobs) && Initial(s)
    requires i < |Run(jobs, s, events).attempts| && Run(jobs, s, events).attempts[i].status == Succeeded
    requires Run(jobs, s, events).attempts[i].job < |jobs|
    ensures
      var job := jobs[Run(jobs, s, events).attempts[i].job];
      var sent := Sent(Run(jobs, s, events).log, job.idempotencyKey);
      sent == Planned(job) && Positions(sent) == job.recipients
  {
    var j := Run(jobs, s, events).attempts[i].job;
    RunKeepsJob(jobs, s, events, j);
    var sent := Sent(Run(jobs, s, events).log, jobs[j].idempotencyKey);
    assert sent == Planned(jobs[j])[..|sent|] == Planned(jobs[j]);
    PlannedPositions(jobs[j], |sent|);
  }

  // ----- One call of triggerChunked

  /** The provider remembers what it delivered; a run is named by where its delivery stands. */
  class Provider<T(==)> {
    var log: seq<Delivery<T>>

    /** None when the call fails, before the provider acts or after. */
    method Trigger(key: string, recipients: seq<T>, fault: Fault) returns (runId: Option<nat>)
      modifies this
      ensures log == Triggered(old(log), key, recipients, fault)
      ensures runId.Some? <==> fault == NoFault
      ensures runId.Some? ==> runId.value < |log| && log[runId.value].key == key
    {
      if fault.FailsBefore? {
        return None;
      }
      var i := 0;
      while i < |log| && log[i].key != key
        invariant 0 <= i <= |log|
        invariant forall k :: 0 <= k < i ==> log[k].key != key
      {
        i := i + 1;
      }
      if i == |log| {
        log := log + [Delivery(key, recipients)];
      }
      return if fault == NoFault then Some(i) else None;
    }
  }

  /** expiresAt is None for an invalid date. */
  datatype TriggerChunkedRequest<T> =
    TriggerChunkedRequest(job: Job<T>, expiresAt: Option<int>, dryRun: bool)

  datatype NotificationError =
    | RecipientCountBelowMinimum
    | InvalidExpiresAt
    | Expired
    | ChunkFailed(code: Code, chunkNumber: nat, completedChunks: nat)

  datatype Code = RateLimited | ClientError | Unknown

  function CodeOf(status: Option<int>): Code {
    match status
    case None => Unknown
    case Some(number) =>
      if number == 429 then RateLimited else if 400 <= number <= 499 then ClientError else Unknown
  }

  datatype Response = DryRun | Response(chunkNumber: nat, id: nat)

  function Validation<T>(params: TriggerChunkedRequest<T>, now: int): Option<NotificationError> {
    if |params.job.recipients| == 0 then Some(RecipientCountBelowMinimum)
    else if params.expiresAt == None then Some(InvalidExpiresAt)
    else if now > params.expiresAt.value then Some(Expired)
    else None
  }

  /** The first n calls meet no fault. */
  ghost predicate NoFaultUpTo(faults: nat -> Fault, n: nat) {
    forall c: nat :: c < n ==> faults(c) == NoFault
  }

  /** The chunk, counted from 0, whose call is the first to meet a fault; n if none of the first n does. */
  function FirstFault(faults: nat -> Fault, n: nat): (c: nat)
    ensures c <= n && NoFaultUpTo(faults, c) && (c < n ==> faults(c) != NoFault)
  {
    if n == 0 then 0
    else
      var earlier := FirstFault(faults, n - 1);
      if earlier == n - 1 && faults(n - 1) == NoFault then n else earlier
  }

  /** When a call is made, and what befalls its provider calls, by chunk. */
  datatype Try = Try(now: int, faults: nat -> Fault)

  /** What stops a call, if anything does. */
  function Stop<T>(params: TriggerChunkedRequest<T>, t: Try): Option<NotificationError> {
    var n := |ChunkRecipients(params.job.recipients)|;
    var c := FirstFault(t.faults, n);
    if Validation(params, t.now).Some? then Validation(params, t.now)
    else if params.dryRun || c == n then None
    else
      var fault := t.faults(c);
      Some(ChunkFailed(CodeOf(if fault == NoFault then None else fault.status), c + 1, c))
  }

  /** The provider's deliveries after the calls for the first n chunks, whatever they were before. */
  function LogAfter<T>(log: seq<Delivery<T>>, job: Job<T>, faults: nat -> Fault, n: nat): seq<Delivery<T>>
    requires n <= |ChunkRecipients(job.recipients)|
  {
    if n == 0 then log
    else
      var chunk := ChunkRecipients(job.recipients)[n - 1];
      Triggered(LogAfter(log, job, faults, n - 1), Key(job.idempotencyKey, chunk.number), chunk.recipients, faults(n - 1))
  }

  /** How many provider calls a call makes: up to the first fault, that one included. */
  function Calls<T>(params: TriggerChunkedRequest<T>, t: Try): (n: nat)
    ensures n <= |ChunkRecipients(params.job.recipients)|
  {
    if Validation(params, t.now).Some? || params.dryRun then 0 else Sends(params.job, t.faults)
  }

  function Sends<T>(job: Job<T>, faults: nat -> Fault): (n: nat)
    ensures n <= |ChunkRecipients(job.recipients)|
  {
    var n := |ChunkRecipients(job.recipients)|;
    var c := FirstFault(faults, n);
    if c == n then n else c + 1
  }

  /** One response for each chunk, naming the run that its key has. */
  ghost predicate Answers<T>(responses: seq<Response>, n: nat, log: seq<Delivery<T>>, job: Job<T>) {
    && |responses| == n
    && forall c {:trigger responses[c]} :: 0 <= c < n ==>
         && responses[c].Response? && responses[c].chunkNumber == c + 1
         && responses[c].id < |log| && log[responses[c].id].key == Key(job.idempotencyKey, c + 1)
  }

  ghost predicate KeysDiffer<T>(log: seq<Delivery<T>>) {
    forall i, j {:trigger log[i], log[j]} :: 0 <= i < j < |log| ==> log[i].key != log[j].key
  }

  /** Whatever the provider has delivered before, it delivers nothing twice and forgets nothing. */
  lemma {:induction false} NothingTwice<T>(log: seq<Delivery<T>>, job: Job<T>, faults: nat -> Fault, n: nat)
    requires n <= |ChunkRecipients(job.recipients)|
    ensures log <= LogAfter(log, job, faults, n)
    ensures KeysDiffer(log) ==> KeysDiffer(LogAfter(log, job, faults, n))
    ensures NoFaultUpTo(faults, n) ==> forall c {:trigger Key(job.idempotencyKey, c + 1)} :: 0 <= c < n ==>
      Knows(LogAfter(log, job, faults, n), Key(job.idempotencyKey, c + 1))
  {
    hide ChunkRecipients, Key;
    if n > 0 {
      NothingTwice(log, job, faults, n - 1);
      ChunkNumbers(job.recipients, n - 1);
      var before := LogAfter(log, job, faults, n - 1);
      var d := Delivery(Key(job.idempotencyKey, n), ChunkRecipients(job.recipients)[n - 1].recipients);
      forall key: string ensures Knows(before + [d], key) <==> Knows(before, key) || d.key == key {
        KnowsOneMore(before, d, key);
      }
    }
  }

  /** Where the provider knows nothing else under the base key, the deliveries stay a prefix of the plan. */
  lemma {:induction false} PrefixAfter<T>(log: seq<Delivery<T>>, job: Job<T>, faults: nat -> Fault, n: nat)
    requires n <= |ChunkRecipients(job.recipients)| && Sent(log, job.idempotencyKey) <= Planned(job)
    requires NoFaultUpTo(faults, if n == 0 then 0 else n - 1)
    ensures
      var sent := Sent(LogAfter(log, job, faults, n), job.idempotencyKey);
      && sent <= Planned(job) && |Sent(log, job.idempotencyKey)| <= |sent|
      && (if n > 0 && faults(n - 1) != NoFault then n - 1 else n) <= |sent|
  {
    hide Sent, Planned, Triggered;
    if n > 0 {
      PrefixAfter(log, job, faults, n - 1);
      PlannedLength(job);
      CallKeepsPrefix(job, LogAfter(log, job, faults, n - 1), n - 1, faults(n - 1));
    }
  }

  lemma AnswersOneMore<T>(
      responses: seq<Response>, log: seq<Delivery<T>>, after: seq<Delivery<T>>, job: Job<T>, id: nat)
    requires Answers(responses, |responses|, log, job) && log <= after
    requires id < |after| && after[id].key == Key(job.idempotencyKey, |responses| + 1)
    ensures Answers(responses + [Response(|responses| + 1, id)], |responses| + 1, after, job)
  {
    hide Key;
  }

  /** The sequential loop over the chunks, which stops at the first call that fails. */
  method SendChunks<T>(provider: Provider<T>, job: Job<T>, faults: nat -> Fault)
      returns (r: Result<seq<Response>, NotificationError>)
    modifies provider
    ensures provider.log == LogAfter(old(provider.log), job, faults, Sends(job, faults))
    ensures
      var n := |ChunkRecipients(job.recipients)|;
      var c := FirstFault(faults, n);
      && (r.Ok? <==> c == n)
      && (r.Ok? ==> Answers(r.value, n, provider.log, job))
      && (r.Err? ==> faults(c) != NoFault && r.error == ChunkFailed(CodeOf(faults(c).status), c + 1, c))
  {
    hide Key, ChunkRecipients, Answers, Triggered;
    var chunks := ChunkRecipients(job.recipients);
    var responses: seq<Response> := [];
    NothingAnswered(provider.log, job);
    for c := 0 to |chunks|
      invariant NoFaultUpTo(faults, c) && |responses| == c
      invariant provider.log == LogAfter(old(provider.log), job, faults, c)
      invariant Answers(responses, c, provider.log, job)
    {
      ghost var before := provider.log;
      ChunkNumbers(job.recipients, c);
      var response := provider.Trigger(Key(job.idempotencyKey, chunks[c].number), chunks[c].recipients, faults(c));
      match response
      case None =>
        FirstFaultIs(faults, |chunks|, c);
        return Err(ChunkFailed(CodeOf(faults(c).status), chunks[c].number, |responses|));
      case Some(id) =>
        TriggeredKeeps(before, Key(job.idempotencyKey, chunks[c].number), chunks[c].recipients, faults(c));
        AnswersOneMore(responses, before, provider.log, job, id);
        responses := responses + [Response(chunks[c].number, id)];
    }
    FirstFaultIs(faults, |chunks|, |chunks|);
    return Ok(responses);
  }

  lemma NothingAnswered<T>(log: seq<Delivery<T>>, job: Job<T>)
    ensures Answers([], 0, log, job)
  {
  }

  lemma TriggeredKeeps<T>(log: seq<Delivery<T>>, key: string, recipients: seq<T>, fault: Fault)
    ensures log <= Triggered(log, key, recipients, fault)
  {
  }

  /** All the calls were made without a fault, or the last one met the first. */
  lemma PrefixAfterSends<T>(log: seq<Delivery<T>>, job: Job<T>, faults: nat -> Fault)
    requires Sent(log, job.idempotencyKey) <= Planned(job)
    ensures
      var sent := Sent(LogAfter(log, job, faults, Sends(job, faults)), job.idempotencyKey);
      && sent <= Planned(job)
      && (FirstFault(faults, |ChunkRecipients(job.recipients)|) == |ChunkRecipients(job.recipients)| ==>
            sent == Planned(job))
  {
    hide Sent, Planned, LogAfter, ChunkRecipients;
    PlannedLength(job);
    PrefixAfter(log, job, faults, Sends(job, faults));
  }

  /**
   The call fails or succeeds exactly as its validation and the first fault say; the provider's deliveries
   are those of the calls up to it, whatever they were before. Where they were a prefix of the plan they
   still are, and a success that is not a dry run leaves everything delivered.
   */
  method TriggerChunked<T>(provider: Provider<T>, params: TriggerChunkedRequest<T>, t: Try)
      returns (r: Result<seq<Response>, NotificationError>)
    modifies provider
    ensures r.Err? <==> Stop(params, t).Some?
    ensures r.Err? ==> r.error == Stop(params, t).value
    ensures provider.log == LogAfter(old(provider.log), params.job, t.faults, Calls(params, t))
    ensures params.dryRun || (r.Err? && !r.error.ChunkFailed?) ==> provider.log == old(provider.log)
    ensures r.Ok? && params.dryRun ==> r.value == [DryRun]
    ensures r.Ok? && !params.dryRun ==> Answers(r.value, |Planned(params.job)|, provider.log, params.job)
    ensures Sent(old(provider.log), params.job.idempotencyKey) <= Planned(params.job) ==>
      && Sent(provider.log, params.job.idempotencyKey) <= Planned(params.job)
      && (r.Ok? && !params.dryRun ==> Sent(provider.log, params.job.idempotencyKey) == Planned(params.job))
  {
    hide Sent, Planned, Key, ChunkRecipients, Answers;
    var validated := Validation(params, t.now);
    if validated.Some? {
      return Err(validated.value);
    }
    if params.dryRun {
      return Ok([DryRun]);
    }
    ghost var before := provider.log;
    PlannedLength(params.job);
    r := SendChunks(provider, params.job, t.faults);
    if Sent(before, params.job.idempotencyKey) <= Planned(params.job) {
      PrefixAfterSends(before, params.job, t.faults);
    }
  }

  lemma {:induction false} FirstFaultIs(faults: nat -> Fault, n: nat, c: nat)
    requires c <= n && NoFaultUpTo(faults, c) && (c < n ==> faults(c) != NoFault)
    ensures FirstFault(faults, n) == c
  {
    if n > 0 {
      FirstFaultIs(faults, n - 1, if c < n then c else n - 1);
    }
  }

  lemma ChunkNumbers<T>(recipients: seq<T>, c: nat)
    requires c < |ChunkRecipients(recipients)|
    ensures ChunkRecipients(recipients)[c].number == c + 1
  {
  }

  // ----- The job that makes the call

  predicate IsClientError(error: NotificationError) {
    error.RecipientCountBelowMinimum? || error.InvalidExpiresAt? || (error.ChunkFailed? && error.code == ClientError)
  }

  /** The handler throws, so that the job is tried again. */
  predicate TriesAgain(error: NotificationError) {
    error != Expired && !IsClientError(error)
  }

  /** The first call to fail is the one for chunk c + 1, with this status. */
  ghost predicate FailsFirstAt(faults: nat -> Fault, c: nat, status: Option<int>) {
    && (faults(c) == FailsBefore(status) || faults(c) == FailsAfter(status))
    && forall k: nat :: k < c ==> faults(k) == NoFault
  }

  predicate IsCodeOf(code: Code, status: Option<int>) {
    match code
    case RateLimited => status == Some(429)
    case ClientError => status.Some? && 400 <= status.value <= 499 && status.value != 429
    case Unknown => status.None? || status.value < 400 || status.value > 499
  }

  /**
   What stops a call, in the order it is looked for, and whether the job tries again: never for what is wrong with
   the request or too late, and for a failed chunk unless its status is a client error other than 429.
   */
  lemma StopIsTold<T>(params: TriggerChunkedRequest<T>, t: Try) returns (n: nat)
    requires |params.job.recipients| > 0
    ensures (n - 1) * 1000 < |params.job.recipients| <= n * 1000
    ensures
      var stop := Stop(params, t);
      if params.expiresAt == None then stop == Some(InvalidExpiresAt) && !TriesAgain(InvalidExpiresAt)
      else if t.now > params.expiresAt.value then stop == Some(Expired) && !TriesAgain(Expired)
      else if params.dryRun then stop == None
      else
        && (stop == None <==> forall c: nat :: c < n ==> t.faults(c) == NoFault)
        && (stop.Some? ==> exists c: nat, status, code ::
              && c < n && FailsFirstAt(t.faults, c, status)
              && IsCodeOf(code, status) && stop == Some(ChunkFailed(code, c + 1, c))
              && (TriesAgain(stop.value) <==>
                    status.None? || status.value == 429 || status.value < 400 || status.value > 499))
  {
    n := |ChunkRecipients(params.job.recipients)|;
    hide ChunkRecipients;
    var c := FirstFault(t.faults, n);
    if params.expiresAt.Some? && t.now <= params.expiresAt.value && !params.dryRun && c < n {
      var status := t.faults(c).status;
      assert FailsFirstAt(t.faults, c, status) && IsCodeOf(CodeOf(status), status);
    }
  }

  /** Without recipients nothing else is looked at. */
  lemma NobodyStops<T>(params: TriggerChunkedRequest<T>, t: Try)
    requires params.job.recipients == []
    ensures Stop(params, t) == Some(RecipientCountBelowMinimum) && !TriesAgain(RecipientCountBelowMinimum)
  {
  }

  datatype JobOutcome = Done | Skipped(error: NotificationError) | Exhausted

  /** The i-th try is made, and ends with this. */
  ghost predicate EndsAt<T>(params: TriggerChunkedRequest<T>, tries: seq<Try>, i: nat, stop: Option<NotificationError>) {
    && i < |tries| && Stop(params, tries[i]) == stop
    && forall j {:trigger tries[j]} :: 0 <= j < i ==>
         Stop(params, tries[j]).Some? && TriesAgain(Stop(params, tries[j]).value)
  }

  /**
   Tried until a call succeeds, or fails for good, or the tries run out: the job is done exactly when the
   first call that is not tried again succeeds, and then everything is delivered, once.
   */
  method RunJob<T>(provider: Provider<T>, params: TriggerChunkedRequest<T>, tries: seq<Try>) returns (r: JobOutcome)
    modifies provider
    ensures r == Done ==> exists i :: EndsAt(params, tries, i, None)
    ensures r.Skipped? ==> !TriesAgain(r.error) && exists i :: EndsAt(params, tries, i, Some(r.error))
    ensures r == Exhausted ==> forall i {:trigger tries[i]} :: 0 <= i < |tries| ==>
      Stop(params, tries[i]).Some? && TriesAgain(Stop(params, tries[i]).value)
    ensures Sent(old(provider.log), params.job.idempotencyKey) <= Planned(params.job) ==>
      && Sent(provider.log, params.job.idempotencyKey) <= Planned(params.job)
      && (r == Done && !params.dryRun ==>
            Positions(Sent(provider.log, params.job.idempotencyKey)) == params.job.recipients)
  {
    hide Sent, Planned, Positions, Stop, LogAfter;
    for i := 0 to |tries|
      invariant Sent(old(provider.log), params.job.idempotencyKey) <= Planned(params.job) ==>
        Sent(provider.log, params.job.idempotencyKey) <= Planned(params.job)
      invariant forall j {:trigger tries[j]} :: 0 <= j < i ==>
        Stop(params, tries[j]).Some? && TriesAgain(Stop(params, tries[j]).value)
    {
      var result := TriggerChunked(provider, params, tries[i]);
      match result
      case Ok(_) =>
        PlannedPositions(params.job, |Planned(params.job)|);
        assert Planned(params.job)[..|Planned(params.job)|] == Planned(params.job);
        assert EndsAt(params, tries, i, None);
        return Done;
      case Err(error) =>
        if !TriesAgain(error) {
          assert EndsAt(params, tries, i, Some(error));
          return Skipped(error);
        }
    }
    return Exhausted;
  }

  /** A job ends in one way only: its outcome is told by its tries. */
  lemma EndsOnce<T>(params: TriggerChunkedRequest<T>, tries: seq<Try>, i: nat, j: nat,
                    a: Option<NotificationError>, b: Option<NotificationError>)
    requires EndsAt(params, tries, i, a) && EndsAt(params, tries, j, b)
    requires (a.Some? ==> !TriesAgain(a.value)) && (b.Some? ==> !TriesAgain(b.value))
    ensures i == j && a == b
  {
  }
}
