/** The reconnect loop of a sub-bot session (reconnectSession in
    features/jadibot.go), driven by what each attempt observes. Nothing
    else runs during the loop's waits, so the session is still registered
    at every attempt unless the loop itself removed it. */
module JadibotReconnect {
  import opened Wrappers
  import opened Clock
  import opened JadibotRegistry

  const MaxRetries := 5

  /** The wait before each attempt, in seconds. */
  const RetryDelays: seq<nat> := [5, 10, 20, 30, 60]

  /** The wait before attempt `attempt` (from 1): the table entry, or a
      minute past the end of the table. */
  function RetryDelay(attempt: nat): (d: nat)
    requires attempt >= 1
    ensures attempt <= |RetryDelays| ==> d == RetryDelays[attempt - 1]
    ensures 5 <= d <= 60
  {
    if attempt <= |RetryDelays| then RetryDelays[attempt - 1] else 60
  }

  /** The fallback past the end of the table is never used: the table has
      an entry for every attempt the loop makes. */
  lemma FallbackDelayUnreachable(attempt: nat)
    requires 1 <= attempt <= MaxRetries
    ensures attempt <= |RetryDelays|
  {
  }

  /** What one attempt finds after its wait: whether the client is already
      connected, whether it has a device ID, whether `Connect` succeeds,
      whether the client is connected three seconds later, and the time of
      a failure. */
  datatype AttemptObs = AttemptObs(
    alreadyConnected: bool,
    hasDeviceID: bool,
    connectOk: bool,
    connectedAfterWait: bool,
    now: Millis)

  /** An attempt that neither finds the client connected, nor finds it
      without device ID, nor reconnects. */
  predicate Fails(o: AttemptObs) {
    !o.alreadyConnected && o.hasDeviceID && !(o.connectOk && o.connectedAfterWait)
  }

  datatype ReconnectEnd =
    | NotActive
    | AlreadyReconnecting
    | FoundConnected(attempt: nat)
    | NoDeviceID(attempt: nat)
    | Reconnected(attempt: nat)
    | GaveUp

  /** The registry after the loop, how it ended and the waits it made. */
  datatype Attempts = Attempts(next: Registry, end: ReconnectEnd, waits: seq<nat>)

  /** The outcome of one attempt: the loop stops, or it goes on to the next
      attempt with the given registry. */
  datatype Step = Stop(next: Registry, end: ReconnectEnd) | Retry(next: Registry)

  /** The session of `n` after a failed attempt at time `now`. */
  function RecordFailure(r: Registry, n: string, now: Millis): (r': Registry)
    requires n in r.sessions
    ensures n in r'.sessions && r'.sessions[n] == r.sessions[n].(failCount := r.sessions[n].failCount + 1, lastFailTime := now)
    ensures OthersUnchanged(r, r', n) && r'.pending == r.pending && r'.folders == r.folders
  {
    var s := r.sessions[n];
    r.(sessions := r.sessions[n := s.(failCount := s.failCount + 1, lastFailTime := now)])
  }

  /** How one attempt ends the loop, decided by what it finds alone:
      `None` when it fails before the last attempt and the loop goes on. */
  function StepEnd(o: AttemptObs, attempt: nat): (e: Option<ReconnectEnd>)
    ensures e == None <==> Fails(o) && attempt != MaxRetries
    ensures e == Some(GaveUp) <==> Fails(o) && attempt == MaxRetries
  {
    if o.alreadyConnected then Some(FoundConnected(attempt))
    else if !o.hasDeviceID then Some(NoDeviceID(attempt))
    else if !o.connectOk || !o.connectedAfterWait then
      if attempt == MaxRetries then Some(GaveUp) else None
    else Some(Reconnected(attempt))
  }

  /** One attempt of the loop, after its wait: a client found connected
      has its failure count reset; a client without device ID is removed;
      a failure is counted, and removes the session on the last attempt;
      a successful reconnect resets the count and marks it connected. */
  function AttemptStep(r: Registry, n: string, o: AttemptObs, attempt: nat): (st: Step)
    requires n in r.sessions
    ensures st.Retry? <==> Fails(o) && attempt != MaxRetries
    ensures st.Stop? ==> StepEnd(o, attempt) == Some(st.end)
    ensures st.Retry? ==> st.next == RecordFailure(r, n, o.now)
    ensures st.Stop? && Fails(o) ==> st.end == GaveUp && st.next == RemoveSession(RecordFailure(r, n, o.now), n).next
    ensures o.alreadyConnected ==> st == Stop(r.(sessions := r.sessions[n := r.sessions[n].(failCount := 0)]), FoundConnected(attempt))
    ensures !o.alreadyConnected && !o.hasDeviceID ==> st == Stop(RemoveSession(r, n).next, NoDeviceID(attempt))
    ensures !Fails(o) && !o.alreadyConnected && o.hasDeviceID ==>
      st == Stop(r.(sessions := r.sessions[n := r.sessions[n].(failCount := 0, connected := true)]), Reconnected(attempt))
  {
    var s := r.sessions[n];
    if o.alreadyConnected then
      Stop(r.(sessions := r.sessions[n := s.(failCount := 0)]), FoundConnected(attempt))
    else if !o.hasDeviceID then
      Stop(RemoveSession(r, n).next, NoDeviceID(attempt))
    else if !o.connectOk || !o.connectedAfterWait then
      var failed := RecordFailure(r, n, o.now);
      if attempt == MaxRetries then Stop(RemoveSession(failed, n).next, GaveUp) else Retry(failed)
    else
      Stop(r.(sessions := r.sessions[n := s.(failCount := 0, connected := true)]), Reconnected(attempt))
  }

  /** One attempt leaves every other number and the pending map alone. */
  lemma AttemptStepOthers(r: Registry, n: string, o: AttemptObs, attempt: nat)
    requires n in r.sessions
    ensures var r' := AttemptStep(r, n, o, attempt).next;
      OthersUnchanged(r, r', n) && r'.pending == r.pending
  {
  }

  /** One attempt keeps the session's reconnect flag, and its connected
      flag once set, while the session stays registered. */
  lemma AttemptStepFlags(r: Registry, n: string, o: AttemptObs, attempt: nat)
    requires n in r.sessions
    ensures var r' := AttemptStep(r, n, o, attempt).next;
      && (n in r'.sessions ==> r'.sessions[n].reconnecting == r.sessions[n].reconnecting)
      && (n in r'.sessions && r.sessions[n].connected ==> r'.sessions[n].connected)
  {
  }

  /** One attempt deletes a folder only by removing the session, and
      removes it exactly when it gives up or finds no device ID. */
  lemma AttemptStepRemoval(r: Registry, n: string, o: AttemptObs, attempt: nat)
    requires n in r.sessions
    ensures var st := AttemptStep(r, n, o, attempt);
      && st.next.folders == (if n in st.next.sessions then r.folders else RemoveFolder(r.folders, n))
      && (n !in st.next.sessions <==> st.Stop? && (st.end.GaveUp? || st.end.NoDeviceID?))
  {
  }

  /** The registry after the attempts from `attempt` on; `obs[0]` is what
      this attempt finds. */
  function RunRegistry(r: Registry, n: string, obs: seq<AttemptObs>, attempt: nat): (r': Registry)
    requires n in r.sessions
    requires 1 <= attempt <= MaxRetries && |obs| == MaxRetries - attempt + 1
    decreases MaxRetries - attempt
  {
    var st := AttemptStep(r, n, obs[0], attempt);
    if st.Retry? then RunRegistry(st.next, n, obs[1..], attempt + 1) else st.next
  }

  /** How the attempts from `attempt` on end the loop. */
  function RunEnd(obs: seq<AttemptObs>, attempt: nat): (e: ReconnectEnd)
    requires 1 <= attempt <= MaxRetries && |obs| == MaxRetries - attempt + 1
    ensures e.GaveUp? <==> forall i :: 0 <= i < |obs| ==> Fails(obs[i])
    decreases MaxRetries - attempt
  {
    AllFailCons(obs);
    match StepEnd(obs[0], attempt)
    case None => RunEnd(obs[1..], attempt + 1)
    case Some(e) => e
  }

  /** The waits of the attempts from `attempt` on: each attempt waits first,
      so the loop waits at least once, along the delay table, and waits
      for every attempt when it gives up. */
  function RunWaits(obs: seq<AttemptObs>, attempt: nat): (ws: seq<nat>)
    requires 1 <= attempt <= MaxRetries && |obs| == MaxRetries - attempt + 1
    ensures 1 <= |ws| <= |obs|
    ensures forall i :: 0 <= i < |ws| ==> ws[i] == RetryDelays[attempt - 1 + i]
    ensures RunEnd(obs, attempt).GaveUp? ==> |ws| == |obs|
    decreases MaxRetries - attempt
  {
    var first := RetryDelay(attempt);
    match StepEnd(obs[0], attempt)
    case None =>
      var rest := RunWaits(obs[1..], attempt + 1);
      assert forall i :: 1 <= i < |rest| + 1 ==> ([first] + rest)[i] == rest[i - 1];
      [first] + rest
    case Some(_) => [first]
  }

  /** From the first attempt, the waits are a prefix of the delay table,
      all of it when the loop gives up. */
  lemma WaitsFromFirst(obs: seq<AttemptObs>)
    requires |obs| == MaxRetries
    ensures var ws := RunWaits(obs, 1);
      && ws == RetryDelays[..|ws|]
      && (RunEnd(obs, 1).GaveUp? ==> ws == RetryDelays)
  {
  }

  /** Every observation fails exactly when the first does and every later
      one does. */
  lemma AllFailCons(obs: seq<AttemptObs>)
    requires obs != []
    ensures (forall i :: 0 <= i < |obs| ==> Fails(obs[i])) <==> Fails(obs[0]) && forall i :: 0 <= i < |obs| - 1 ==> Fails(obs[1..][i])
  {
    assert forall i :: 1 <= i < |obs| ==> obs[i] == obs[1..][i - 1];
  }

  /** The attempts leave other numbers and the pending map alone. */
  lemma {:induction false} RunAttemptsFrame(r: Registry, n: string, obs: seq<AttemptObs>, attempt: nat)
    requires n in r.sessions
    requires 1 <= attempt <= MaxRetries && |obs| == MaxRetries - attempt + 1
    ensures var r' := RunRegistry(r, n, obs, attempt);
      OthersUnchanged(r, r', n) && r'.pending == r.pending
    decreases MaxRetries - attempt
  {
    AttemptStepOthers(r, n, obs[0], attempt);
    var st := AttemptStep(r, n, obs[0], attempt);
    if st.Retry? {
      RunAttemptsFrame(st.next, n, obs[1..], attempt + 1);
      OthersUnchangedTrans(r, st.next, RunRegistry(st.next, n, obs[1..], attempt + 1), n);
    }
  }

  /** The attempts delete the session's folder exactly when they remove
      the session, and no other folder. */
  lemma {:induction false} RunAttemptsFolders(r: Registry, n: string, obs: seq<AttemptObs>, attempt: nat)
    requires n in r.sessions
    requires 1 <= attempt <= MaxRetries && |obs| == MaxRetries - attempt + 1
    ensures var r' := RunRegistry(r, n, obs, attempt);
      r'.folders == (if n in r'.sessions then r.folders else RemoveFolder(r.folders, n))
    decreases MaxRetries - attempt
  {
    AttemptStepRemoval(r, n, obs[0], attempt);
    var st := AttemptStep(r, n, obs[0], attempt);
    if st.Retry? {
      RunAttemptsFolders(st.next, n, obs[1..], attempt + 1);
    }
  }

  /** The session is unregistered by the attempts exactly when the loop
      gives up or finds no device ID. */
  lemma {:induction false} RunAttemptsRemoval(r: Registry, n: string, obs: seq<AttemptObs>, attempt: nat)
    requires n in r.sessions
    requires 1 <= attempt <= MaxRetries && |obs| == MaxRetries - attempt + 1
    ensures var e := RunEnd(obs, attempt);
      e.GaveUp? || e.NoDeviceID? <==> n !in RunRegistry(r, n, obs, attempt).sessions
    decreases MaxRetries - attempt
  {
    AttemptStepRemoval(r, n, obs[0], attempt);
    var st := AttemptStep(r, n, obs[0], attempt);
    if st.Retry? {
      RunAttemptsRemoval(st.next, n, obs[1..], attempt + 1);
    }
  }

  /** What the attempts do to the session while it stays registered: its
      flags are kept, and a successful end leaves the count at zero. */
  lemma {:induction false} RunAttemptsRecord(r: Registry, n: string, obs: seq<AttemptObs>, attempt: nat)
    requires n in r.sessions
    requires 1 <= attempt <= MaxRetries && |obs| == MaxRetries - attempt + 1
    ensures var r', e := RunRegistry(r, n, obs, attempt), RunEnd(obs, attempt);
      && (n in r'.sessions ==> r'.sessions[n].reconnecting == r.sessions[n].reconnecting)
      && (n in r'.sessions && r.sessions[n].connected ==> r'.sessions[n].connected)
      && (e.Reconnected? ==> n in r'.sessions && r'.sessions[n].connected && r'.sessions[n].failCount == 0)
      && (e.FoundConnected? ==> n in r'.sessions && r'.sessions[n].failCount == 0)
    decreases MaxRetries - attempt
  {
    AttemptStepFlags(r, n, obs[0], attempt);
    var st := AttemptStep(r, n, obs[0], attempt);
    if st.Retry? {
      RunAttemptsRecord(st.next, n, obs[1..], attempt + 1);
    }
  }

  /** The active record of `n` with its reconnect flag set to `flag`. */
  function WithFlag(r: Registry, n: string, flag: bool): (r': Registry)
    requires n in r.sessions
    ensures n in r'.sessions && r'.sessions[n] == r.sessions[n].(reconnecting := flag)
    ensures OthersUnchanged(r, r', n) && r'.pending == r.pending && r'.folders == r.folders
  {
    r.(sessions := r.sessions[n := r.sessions[n].(reconnecting := flag)])
  }

  /** The body of reconnectSession past its guard: flag the session, run
      the attempts, clear the flag if the session is still registered. */
  function FlaggedRun(r: Registry, n: string, obs: seq<AttemptObs>): (a: Attempts)
    requires n in r.sessions && |obs| == MaxRetries
    ensures OthersUnchanged(r, a.next, n) && a.next.pending == r.pending
    ensures n in a.next.sessions ==> !a.next.sessions[n].reconnecting
    ensures n in a.next.sessions && r.sessions[n].connected ==> a.next.sessions[n].connected
    ensures a.next.folders == (if n in a.next.sessions then r.folders else RemoveFolder(r.folders, n))
    ensures a.end.GaveUp? || a.end.NoDeviceID? <==> n !in a.next.sessions
    ensures a.end.Reconnected? ==> n in a.next.sessions && a.next.sessions[n].connected && a.next.sessions[n].failCount == 0
    ensures a.end.FoundConnected? ==> n in a.next.sessions && a.next.sessions[n].failCount == 0
    ensures a.end.GaveUp? <==> forall i :: 0 <= i < |obs| ==> Fails(obs[i])
    ensures 1 <= |a.waits| <= MaxRetries && a.waits == RetryDelays[..|a.waits|]
    ensures a.end.GaveUp? ==> a.waits == RetryDelays
  {
    var flagged := WithFlag(r, n, true);
    var after := RunRegistry(flagged, n, obs, 1);
    RunAttemptsFrame(flagged, n, obs, 1);
    RunAttemptsFolders(flagged, n, obs, 1);
    RunAttemptsRemoval(flagged, n, obs, 1);
    RunAttemptsRecord(flagged, n, obs, 1);
    WaitsFromFirst(obs);
    OthersUnchangedTrans(r, flagged, after, n);
    if n in after.sessions then
      var cleared := WithFlag(after, n, false);
      OthersUnchangedTrans(r, after, cleared, n);
      Attempts(cleared, RunEnd(obs, 1), RunWaits(obs, 1))
    else
      Attempts(after, RunEnd(obs, 1), RunWaits(obs, 1))
  }

  /** reconnectSession: nothing happens for a number that is not active or
      is already reconnecting; otherwise the session is flagged, the
      attempts run, and the flag is cleared if the session is still
      registered. `obs` holds what each of the five attempts would find;
      only those the loop reaches matter. */
  function ReconnectSession(r: Registry, n: string, obs: seq<AttemptObs>): (a: Attempts)
    requires |obs| == MaxRetries
    ensures n !in r.sessions ==> a == Attempts(r, NotActive, [])
    ensures n in r.sessions && r.sessions[n].reconnecting ==> a == Attempts(r, AlreadyReconnecting, [])
    ensures OthersUnchanged(r, a.next, n) && a.next.pending == r.pending
    ensures n in a.next.sessions ==> !a.next.sessions[n].reconnecting || a.end == AlreadyReconnecting
    ensures a.end.GaveUp? <==> n in r.sessions && !r.sessions[n].reconnecting && forall i :: 0 <= i < |obs| ==> Fails(obs[i])
    ensures a.end.GaveUp? || a.end.NoDeviceID? ==> n !in a.next.sessions
    ensures a.end.Reconnected? ==> n in a.next.sessions && a.next.sessions[n].connected && a.next.sessions[n].failCount == 0
    ensures a.end.FoundConnected? ==> n in a.next.sessions && a.next.sessions[n].failCount == 0
    ensures |a.waits| <= MaxRetries && a.waits == RetryDelays[..|a.waits|]
    ensures a.end.GaveUp? ==> a.waits == RetryDelays
    ensures n in a.next.sessions && r.sessions[n].connected ==> a.next.sessions[n].connected
    ensures a.next.folders == (if n in a.next.sessions || n !in r.sessions then r.folders else RemoveFolder(r.folders, n))
  {
    if n !in r.sessions then Attempts(r, NotActive, [])
    else if r.sessions[n].reconnecting then Attempts(r, AlreadyReconnecting, [])
    else
      FlaggedRun(r, n, obs)
  }

  /** A reconnect keeps the registry invariant. */
  lemma ReconnectPreservesValid(r: Registry, n: string, obs: seq<AttemptObs>)
    requires Valid(r) && |obs| == MaxRetries
    ensures Valid(ReconnectSession(r, n, obs).next)
  {
    if n in r.sessions {
      ActiveStepPreservesValid(r, ReconnectSession(r, n, obs).next, n);
    }
  }
}
