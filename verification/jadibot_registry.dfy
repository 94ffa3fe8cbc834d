/** The sub-bot ("jadibot") session manager of features/jadibot.go, as a
    sequential state machine: each locked section of the manager is one
    transition over an immutable registry, and every outcome of the
    network, the session store or the clock is a parameter. */
module JadibotRegistry {
  import opened Wrappers
  import opened Clock

  /** The bookkeeping part of a session record. The client, the store
      handle and the owner chat are not modelled; whether the client has a
      device ID is an input wherever the source asks. */
  datatype Session = Session(
    connected: bool,
    reconnecting: bool,
    failCount: nat,
    lastFailTime: Millis,
    startTime: Millis)

  /** A fresh record as pairing creates it. */
  function NewSession(now: Millis): Session {
    Session(connected := false, reconnecting := false, failCount := 0, lastFailTime := 0, startTime := now)
  }

  /** The two maps of the manager, keyed by phone number, and the numbers
      whose folder exists under the jadibot directory. */
  datatype Registry = Registry(
    sessions: map<string, Session>,
    pending: map<string, Session>,
    folders: set<string>)

  const Empty := Registry(map[], map[], {})

  /** Deleting the folder of `n` (`os.RemoveAll` of the directory joined
      with `n`): the empty name denotes the jadibot directory itself, so
      every folder goes. */
  function RemoveFolder(folders: set<string>, n: string): (f: set<string>)
    ensures n == "" ==> f == {}
    ensures n != "" ==> f == folders - {n}
  {
    if n == "" then {} else folders - {n}
  }

  /** The registry invariant: no number is both active and pending, the
      empty number is never registered, every registered number has its
      folder, active records are connected and pending ones are not. */
  predicate Valid(r: Registry) {
    && r.sessions.Keys !! r.pending.Keys
    && "" !in r.sessions && "" !in r.pending
    && (forall n :: n in r.sessions ==> n in r.folders && r.sessions[n].connected)
    && (forall n :: n in r.pending ==> n in r.folders && !r.pending[n].connected)
  }

  lemma EmptyIsValid()
    ensures Valid(Empty)
  {
  }

  /** A transition's next registry together with what it returns. */
  datatype Transition<T> = Transition(next: Registry, result: T)

  /** Registries that agree on every number except `n`. */
  ghost predicate OthersUnchanged(r: Registry, r': Registry, n: string) {
    && (forall m :: m != n ==> (m in r'.sessions <==> m in r.sessions))
    && (forall m :: m != n && m in r.sessions ==> r'.sessions[m] == r.sessions[m])
    && (forall m :: m != n ==> (m in r'.pending <==> m in r.pending))
    && (forall m :: m != n && m in r.pending ==> r'.pending[m] == r.pending[m])
  }

  /** Agreeing on every number but `n` is transitive. */
  lemma OthersUnchangedTrans(r1: Registry, r2: Registry, r3: Registry, n: string)
    requires OthersUnchanged(r1, r2, n) && OthersUnchanged(r2, r3, n)
    ensures OthersUnchanged(r1, r3, n)
  {
  }

  /** A step that changes only the active record of `n` keeps the
      invariant, provided the record stays connected and its folder goes
      only when the record does. */
  lemma ActiveStepPreservesValid(r: Registry, r': Registry, n: string)
    requires Valid(r) && OthersUnchanged(r, r', n) && r'.pending == r.pending
    requires n in r'.sessions ==> n in r.sessions && r'.sessions[n].connected && n in r'.folders
    requires n in r.sessions
    requires r.folders - {n} <= r'.folders
    ensures Valid(r')
  {
    assert forall m :: m in r'.sessions ==> m in r.sessions;
  }

  /** IsSessionExists: looks at the active map only, so a number still
      waiting for its pairing is not reported. */
  function IsSessionExists(r: Registry, n: string): (b: bool)
    ensures b <==> n in r.sessions
    ensures b ==> n !in r.pending || !Valid(r)
  {
    n in r.sessions
  }

  /** What the folder, the store, the connection and the pair-code request
      do when pairing is attempted. `pairCode` is `None` when the code
      request fails. */
  datatype SetupOutcome = SetupOutcome(folderOk: bool, storeOk: bool, connectOk: bool, pairCode: Option<string>)

  datatype CreateError = AlreadyActive | AlreadyPending | FolderError | StoreError | ConnectError | PairCodeError

  /** CreatePairingSession: refuses a number that is active or pending;
      otherwise creates its folder, opens its store, records it as pending
      and connects. A failed connection or code request withdraws the
      pending record and deletes the folder; a failed store open returns
      leaving the new folder behind. */
  function CreatePairingSession(r: Registry, n: string, now: Millis, out: SetupOutcome): (t: Transition<Result<string, CreateError>>)
    ensures n in r.sessions ==> t == Transition(r, Err(AlreadyActive))
    ensures n !in r.sessions && n in r.pending ==> t == Transition(r, Err(AlreadyPending))
    ensures t.result.Ok? <==> n !in r.sessions && n !in r.pending && out.folderOk && out.storeOk && out.connectOk && out.pairCode.Some?
    ensures t.result.Ok? ==>
      && t.result.value == out.pairCode.value
      && t.next.sessions == r.sessions
      && t.next.pending == r.pending[n := NewSession(now)]
      && t.next.folders == r.folders + {n}
    ensures t.result.Err? ==> t.next.sessions == r.sessions && t.next.pending == r.pending
    ensures t.result == Err(StoreError) ==> t.next.folders == r.folders + {n}
    ensures t.result == Err(ConnectError) || t.result == Err(PairCodeError) ==> n !in t.next.folders
    ensures n != "" && (t.result == Err(ConnectError) || t.result == Err(PairCodeError)) ==>
      t.next.folders == r.folders - {n}
    ensures t.result == Err(FolderError) ==> t.next == r
  {
    if n in r.sessions then Transition(r, Err(AlreadyActive))
    else if n in r.pending then Transition(r, Err(AlreadyPending))
    else if !out.folderOk then Transition(r, Err(FolderError))
    else
      var withFolder := r.(folders := r.folders + {n});
      if !out.storeOk then Transition(withFolder, Err(StoreError))
      else
        var recorded := withFolder.(pending := r.pending[n := NewSession(now)]);
        var withdrawn := r.(folders := RemoveFolder(withFolder.folders, n));
        if !out.connectOk then Transition(withdrawn, Err(ConnectError))
        else if out.pairCode.None? then Transition(withdrawn, Err(PairCodeError))
        else Transition(recorded, Ok(out.pairCode.value))
  }

  /** Pairing keeps the invariant for any non-empty number. */
  lemma CreatePreservesValid(r: Registry, n: string, now: Millis, out: SetupOutcome)
    requires Valid(r) && n != ""
    ensures Valid(CreatePairingSession(r, n, now, out).next)
  {
  }

  /** A pending number is not "existing" to the command handler, yet a
      second pairing attempt for it is refused and changes nothing. */
  lemma PendingNumberIsRefused(r: Registry, n: string, now: Millis, out: SetupOutcome)
    requires Valid(r) && n in r.pending
    ensures !IsSessionExists(r, n)
    ensures CreatePairingSession(r, n, now, out) == Transition(r, Err(AlreadyPending))
  {
  }

  /** The pending record of `n`, marked connected, moved to the active map. */
  function Promote(r: Registry, n: string): (r': Registry)
    requires n in r.pending
    ensures n in r'.sessions && n !in r'.pending && r'.sessions[n] == r.pending[n].(connected := true)
    ensures OthersUnchanged(r, r', n) && r'.folders == r.folders
  {
    Registry(r.sessions[n := r.pending[n].(connected := true)], r.pending - {n}, r.folders)
  }

  datatype Removal = Removed | NotFound

  /** RemoveSession: drops `n` from the active map if it is there, else
      from the pending map; either way its folder is deleted. A number in
      neither map is reported and nothing changes. */
  function RemoveSession(r: Registry, n: string): (t: Transition<Removal>)
    ensures t.result == NotFound <==> n !in r.sessions && n !in r.pending
    ensures t.result == NotFound ==> t.next == r
    ensures n in r.sessions ==> t.next == Registry(r.sessions - {n}, r.pending, RemoveFolder(r.folders, n))
    ensures n !in r.sessions && n in r.pending ==> t.next == Registry(r.sessions, r.pending - {n}, RemoveFolder(r.folders, n))
    ensures OthersUnchanged(r, t.next, n)
  {
    if n in r.sessions then Transition(r.(sessions := r.sessions - {n}, folders := RemoveFolder(r.folders, n)), Removed)
    else if n in r.pending then Transition(r.(pending := r.pending - {n}, folders := RemoveFolder(r.folders, n)), Removed)
    else Transition(r, NotFound)
  }

  /** After a removal the number is in neither map, and a registered
      number has lost its folder. */
  lemma RemoveSessionForgets(r: Registry, n: string)
    requires Valid(r)
    ensures var r' := RemoveSession(r, n).next; n !in r'.sessions && n !in r'.pending
    ensures n in r.sessions || n in r.pending ==> n !in RemoveSession(r, n).next.folders
    ensures Valid(RemoveSession(r, n).next)
  {
  }

  /** The events the manager reacts to. */
  datatype Event = PairSuccess | Connected | LoggedOut | Disconnected | Message(fromStatusBroadcast: bool)

  /** What the handler starts after its locked section. */
  datatype Followup = NoFollowup | StartReconnect | HandleStory

  /** handleJadibotEvent for the session of `n`. A successful pairing
      promotes a pending record; a connection does so only when the client
      has a device ID; a log-out removes the session; a disconnection
      starts a reconnect; a status message goes to the story handler. */
  function HandleEvent(r: Registry, n: string, ev: Event, hasDeviceID: bool): (t: Transition<Followup>)
    ensures ev.PairSuccess? && n in r.pending ==> t.next == Promote(r, n)
    ensures ev.Connected? && n in r.pending && hasDeviceID ==> t.next == Promote(r, n)
    ensures (ev.PairSuccess? || ev.Connected?) && (n !in r.pending || (ev.Connected? && !hasDeviceID)) ==> t.next == r
    ensures ev.LoggedOut? ==> t.next == RemoveSession(r, n).next
    ensures t.result == StartReconnect <==> ev.Disconnected?
    ensures t.result == HandleStory <==> ev == Message(true)
    ensures !ev.LoggedOut? && !ev.PairSuccess? && !ev.Connected? ==> t.next == r
  {
    match ev
    case PairSuccess => Transition(if n in r.pending then Promote(r, n) else r, NoFollowup)
    case Connected => Transition(if n in r.pending && hasDeviceID then Promote(r, n) else r, NoFollowup)
    case LoggedOut => Transition(RemoveSession(r, n).next, NoFollowup)
    case Disconnected => Transition(r, StartReconnect)
    case Message(b) => Transition(r, if b then HandleStory else NoFollowup)
  }

  /** Every event keeps the invariant. */
  lemma HandleEventPreservesValid(r: Registry, n: string, ev: Event, hasDeviceID: bool)
    requires Valid(r)
    ensures Valid(HandleEvent(r, n, ev, hasDeviceID).next)
  {
    if n in r.pending && (ev.PairSuccess? || (ev.Connected? && hasDeviceID)) {
      var r' := Promote(r, n);
      assert r'.sessions.Keys == r.sessions.Keys + {n};
      assert r'.pending.Keys == r.pending.Keys - {n};
    }
  }

  /** The time a pairing code stays valid, and the poll interval. */
  const PairingTimeout: Millis := 180 * Second
  const PairingPoll: Millis := 1 * Second

  /** Whether the pairing wait of `n` keeps polling: the number is still
      pending and not connected. */
  predicate StillWaiting(r: Registry, n: string) {
    n in r.pending && !r.pending[n].connected
  }

  /** The timer branch of waitForPairing: a number still pending and not
      connected is withdrawn and its folder deleted; anything else is left
      as it is. */
  function PairingTimeoutStep(r: Registry, n: string): (r': Registry)
    ensures StillWaiting(r, n) ==> n !in r'.pending && r'.sessions == r.sessions && r'.folders == RemoveFolder(r.folders, n)
    ensures !StillWaiting(r, n) ==> r' == r
    ensures OthersUnchanged(r, r', n)
  {
    if StillWaiting(r, n) then r.(pending := r.pending - {n}, folders := RemoveFolder(r.folders, n)) else r
  }

  /** A number that was promoted before the timer fired is untouched. */
  lemma TimeoutSparesPromoted(r: Registry, n: string)
    requires Valid(r) && n in r.sessions
    ensures PairingTimeoutStep(r, n) == r
  {
  }

  lemma TimeoutPreservesValid(r: Registry, n: string)
    requires Valid(r)
    ensures Valid(PairingTimeoutStep(r, n))
  {
  }

  /** waitForPairing: `ticks[i]` is the registry as the poll finds it at
      the i-th second, `atTimer` the registry when the timer fires after
      the last poll. The wait ends at the first poll that finds the number
      no longer waiting; if there is none, the timer step runs. Returns
      the registry it leaves and the index of the ending poll (`|ticks|`
      for the timer). */
  method WaitForPairing(n: string, ticks: seq<Registry>, atTimer: Registry) returns (r: Registry, ended: nat)
    ensures ended <= |ticks|
    ensures forall i :: 0 <= i < ended ==> StillWaiting(ticks[i], n)
    ensures ended < |ticks| ==> !StillWaiting(ticks[ended], n) && r == ticks[ended]
    ensures ended == |ticks| ==> r == PairingTimeoutStep(atTimer, n)
  {
    var i := 0;
    while i < |ticks|
      invariant 0 <= i <= |ticks|
      invariant forall j :: 0 <= j < i ==> StillWaiting(ticks[j], n)
    {
      if !StillWaiting(ticks[i], n) {
        return ticks[i], i;
      }
      i := i + 1;
    }
    return PairingTimeoutStep(atTimer, n), |ticks|;
  }
}
