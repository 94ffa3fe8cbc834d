/** The periodic health sweep of the sub-bot manager (validateAllSessions
    and cleanupOrphanedFiles in features/jadibot.go). What the sweep finds
    about each client, the directory listing and what opening a store
    reports are inputs; the whole sweep happens at one instant `now`. */
module JadibotHealth {
  import opened Wrappers
  import opened Clock
  import opened Text
  import opened Files
  import opened JadibotRegistry

  /** A session is dropped once it has failed this many checks in a row. */
  const MaxConsecutiveFails: nat := 10

  /** A failure count older than this is forgotten. */
  const FailResetDuration: Millis := 5 * Minute

  /** What the sweep finds about the client of one active number. */
  datatype Probe = Probe(number: string, hasClient: bool, hasDeviceID: bool, isConnected: bool)

  /** What the sweep decides for one number. */
  datatype Verdict = Invalid | Skip | Reconnect | Healthy

  /** The record after the check and the decision. */
  datatype Check = Check(session: Session, verdict: Verdict)

  /** Whether the last failure of `s` is too old to count. */
  predicate Stale(s: Session, now: Millis) {
    now - s.lastFailTime > FailResetDuration
  }

  /** The check of one session: no client or no device ID makes it
      invalid; a reconnecting session is skipped; otherwise a stale count
      is first reset, then a disconnected client counts one more failure
      at `now` (invalid at the threshold, reconnected below it) and a
      connected one has its count cleared. */
  function CheckSession(s: Session, p: Probe, now: Millis): (c: Check)
    ensures c.verdict == Invalid <==>
      !p.hasClient || !p.hasDeviceID ||
      (!s.reconnecting && !p.isConnected && c.session.failCount >= MaxConsecutiveFails)
    ensures c.verdict == Skip <==> p.hasClient && p.hasDeviceID && s.reconnecting
    ensures c.verdict == Healthy <==> p.hasClient && p.hasDeviceID && !s.reconnecting && p.isConnected
    ensures c.verdict == Healthy ==> c.session == s.(failCount := 0)
    ensures c.session == s.(failCount := c.session.failCount, lastFailTime := c.session.lastFailTime)
    ensures !p.isConnected && c.verdict != Skip && p.hasClient && p.hasDeviceID ==>
      c.session.lastFailTime == now &&
      c.session.failCount == (if Stale(s, now) then 1 else s.failCount + 1)
    ensures !p.hasClient || !p.hasDeviceID || s.reconnecting ==> c.session == s
  {
    if !p.hasClient || !p.hasDeviceID then Check(s, Invalid)
    else if s.reconnecting then Check(s, Skip)
    else
      var count := if Stale(s, now) && s.failCount > 0 then 0 else s.failCount;
      if !p.isConnected then
        var failed := s.(failCount := count + 1, lastFailTime := now);
        Check(failed, if failed.failCount >= MaxConsecutiveFails then Invalid else Reconnect)
      else
        Check(s.(failCount := 0), Healthy)
  }

  /** A disconnected session whose last failure is stale ends the check
      with a count of one and a reconnect, whatever its count was. */
  lemma StaleDisconnectEndsAtOne(s: Session, p: Probe, now: Millis)
    requires p.hasClient && p.hasDeviceID && !p.isConnected && !s.reconnecting
    requires Stale(s, now)
    ensures CheckSession(s, p, now).session.failCount == 1
    ensures CheckSession(s, p, now).verdict == Reconnect
  {
  }

  /** The sessions after `k` checks at the given times that each find the
      client disconnected. */
  function Failures(s: Session, p: Probe, times: seq<Millis>): (s': Session)
    decreases |times|
  {
    if times == [] then s
    else Failures(CheckSession(s, p, times[0]).session, p, times[1..])
  }

  /** Checks no more than five minutes apart, the first within five
      minutes of the last failure. */
  predicate Frequent(last: Millis, times: seq<Millis>) {
    && (times != [] ==> times[0] - last <= FailResetDuration)
    && forall i :: 0 < i < |times| ==> times[i] - times[i - 1] <= FailResetDuration
  }

  /** Escalation: a reachable, non-reconnecting session whose client stays
      disconnected through checks no more than five minutes apart counts
      one failure per check, and the `k`-th of them is the one that marks
      it invalid exactly when its count reaches the threshold. */
  lemma {:induction false} FailuresAccumulate(s: Session, p: Probe, times: seq<Millis>)
    requires p.hasClient && p.hasDeviceID && !p.isConnected && !s.reconnecting
    requires Frequent(s.lastFailTime, times)
    ensures Failures(s, p, times).failCount == s.failCount + |times|
    ensures times != [] ==> Failures(s, p, times).lastFailTime == times[|times| - 1]
    ensures !Failures(s, p, times).reconnecting
    decreases |times|
  {
    if times != [] {
      var c := CheckSession(s, p, times[0]);
      assert c.session.failCount == s.failCount + 1;
      assert Frequent(c.session.lastFailTime, times[1..]) by {
        forall i | 0 < i < |times[1..]|
          ensures times[1..][i] - times[1..][i - 1] <= FailResetDuration
        {
          assert times[1..][i] == times[i + 1] && times[1..][i - 1] == times[i];
        }
      }
      FailuresAccumulate(c.session, p, times[1..]);
      if |times| > 1 {
        assert times[1..][|times[1..]| - 1] == times[|times| - 1];
      }
    }
  }

  /** A session that starts with a clean count survives nine disconnected
      checks in quick succession and is dropped at the tenth. */
  lemma TenthFailureIsFatal(s: Session, p: Probe, times: seq<Millis>, now: Millis)
    requires p.hasClient && p.hasDeviceID && !p.isConnected && !s.reconnecting
    requires s.failCount == 0 && |times| == MaxConsecutiveFails - 1
    requires Frequent(s.lastFailTime, times + [now])
    ensures CheckSession(Failures(s, p, times), p, now).verdict == Invalid
    ensures forall k :: 0 <= k < |times| ==> CheckSession(Failures(s, p, times[..k]), p, times[k]).verdict == Reconnect
  {
    var all := times + [now];
    assert Frequent(s.lastFailTime, times) by {
      forall i | 0 < i < |times| ensures times[i] - times[i - 1] <= FailResetDuration {
        assert all[i] == times[i] && all[i - 1] == times[i - 1];
      }
      if times != [] { assert all[0] == times[0]; }
    }
    FailuresAccumulate(s, p, times);
    assert now - times[|times| - 1] <= FailResetDuration by {
      assert all[|times|] == now && all[|times| - 1] == times[|times| - 1];
    }
    forall k | 0 <= k < |times|
      ensures CheckSession(Failures(s, p, times[..k]), p, times[k]).verdict == Reconnect
    {
      assert Frequent(s.lastFailTime, times[..k]) by {
        forall i | 0 < i < |times[..k]| ensures times[..k][i] - times[..k][i - 1] <= FailResetDuration {
          assert times[..k][i] == times[i] && times[..k][i - 1] == times[i - 1];
        }
        if k > 0 { assert times[..k][0] == times[0]; }
      }
      FailuresAccumulate(s, p, times[..k]);
      var before := Failures(s, p, times[..k]);
      if k > 0 {
        assert times[..k][k - 1] == times[k - 1];
        assert times[k] - before.lastFailTime <= FailResetDuration;
      } else {
        assert times[k] - before.lastFailTime <= FailResetDuration by {
          assert before == s;
        }
      }
    }
  }

  /** Each number at most once. */
  predicate Distinct(ns: seq<string>) {
    forall i, j :: 0 <= i < j < |ns| ==> ns[i] != ns[j]
  }

  /** The tail of a list of distinct numbers is distinct and lacks the
      head. */
  lemma DistinctTail(ns: seq<string>)
    requires Distinct(ns) && ns != []
    ensures Distinct(ns[1..]) && ns[0] !in ns[1..]
    ensures forall m :: m in ns <==> m == ns[0] || m in ns[1..]
  {
    forall m | m in ns[1..] ensures m != ns[0] {
      var i :| 0 <= i < |ns[1..]| && ns[1..][i] == m;
      assert ns[i + 1] == m;
    }
    assert ns == [ns[0]] + ns[1..];
  }

  /** A snapshot of the active map: every active number once, in the
      map's iteration order, each with what the sweep finds about it. */
  predicate Snapshot(sessions: map<string, Session>, findings: map<string, Probe>, order: seq<string>) {
    && Distinct(order)
    && (forall n :: n in order ==> n in sessions)
    && (forall n :: n in sessions ==> n in order)
    && (forall n :: n in order ==> n in findings)
  }

  /** The check of number `n` against the record it finds. */
  function Outcome(sessions: map<string, Session>, findings: map<string, Probe>, n: string, now: Millis): Check
    requires n in sessions && n in findings
  {
    CheckSession(sessions[n], findings[n], now)
  }

  /** The checks applied in order: the updated records, the numbers marked
      invalid and the numbers to reconnect, each in snapshot order. */
  datatype Checked = Checked(sessions: map<string, Session>, invalid: seq<string>, reconnect: seq<string>)

  /** The per-snapshot loop of validateAllSessions. Each check changes only
      the record of its own number, so each sees the record as the sweep
      found it. */
  function CheckAll(sessions: map<string, Session>, findings: map<string, Probe>, order: seq<string>, now: Millis): (c: Checked)
    requires forall n :: n in order ==> n in sessions && n in findings
    requires Distinct(order)
    ensures c.sessions.Keys == sessions.Keys
    ensures forall m :: m in sessions && m !in order ==> c.sessions[m] == sessions[m]
    ensures forall m :: m in order ==> c.sessions[m] == Outcome(sessions, findings, m, now).session
    decreases |order|
  {
    if order == [] then Checked(sessions, [], [])
    else
      var n := order[0];
      var c := Outcome(sessions, findings, n, now);
      var rest := order[1..];
      DistinctTail(order);
      var tail := CheckAll(sessions[n := c.session], findings, rest, now);
      Checked(
        tail.sessions,
        (if c.verdict == Invalid then [n] else []) + tail.invalid,
        (if c.verdict == Reconnect then [n] else []) + tail.reconnect)
  }

  /** The list of numbers the loop collects for verdict `v`. */
  function Marked(c: Checked, v: Verdict): seq<string> {
    if v == Invalid then c.invalid else if v == Reconnect then c.reconnect else []
  }

  /** The numbers the loop marks invalid, and those it sends to reconnect,
      are exactly the numbers whose check says so. */
  lemma {:induction false} CheckAllMarks(sessions: map<string, Session>, findings: map<string, Probe>, order: seq<string>, now: Millis, v: Verdict)
    requires forall n :: n in order ==> n in sessions && n in findings
    requires Distinct(order)
    requires v == Invalid || v == Reconnect
    ensures forall m :: m in Marked(CheckAll(sessions, findings, order, now), v) <==>
      m in order && Outcome(sessions, findings, m, now).verdict == v
    decreases |order|
  {
    if order != [] {
      var n := order[0];
      var c := Outcome(sessions, findings, n, now);
      var rest := order[1..];
      var s1 := sessions[n := c.session];
      DistinctTail(order);
      CheckAllMarks(s1, findings, rest, now, v);
      var tail := Marked(CheckAll(s1, findings, rest, now), v);
      assert Marked(CheckAll(sessions, findings, order, now), v) == (if c.verdict == v then [n] else []) + tail;
      forall m | m in rest ensures Outcome(s1, findings, m, now) == Outcome(sessions, findings, m, now) {
      }
    }
  }

  /** The same findings taken in any order give the same records and the
      same sets of numbers: Go's map iteration order does not matter. */
  lemma CheckOrderIrrelevant(sessions: map<string, Session>, findings: map<string, Probe>, order: seq<string>, order': seq<string>, now: Millis)
    requires Snapshot(sessions, findings, order) && Snapshot(sessions, findings, order')
    ensures CheckAll(sessions, findings, order, now).sessions == CheckAll(sessions, findings, order', now).sessions
    ensures forall m :: m in CheckAll(sessions, findings, order, now).invalid <==> m in CheckAll(sessions, findings, order', now).invalid
    ensures forall m :: m in CheckAll(sessions, findings, order, now).reconnect <==> m in CheckAll(sessions, findings, order', now).reconnect
  {
    var a, b := CheckAll(sessions, findings, order, now), CheckAll(sessions, findings, order', now);
    forall m | m in a.sessions ensures a.sessions[m] == b.sessions[m] {
      assert m in order && m in order';
    }
    MarksOrderIrrelevant(sessions, findings, order, order', now, Invalid);
    assert Marked(a, Invalid) == a.invalid && Marked(b, Invalid) == b.invalid;
    MarksOrderIrrelevant(sessions, findings, order, order', now, Reconnect);
    assert Marked(a, Reconnect) == a.reconnect && Marked(b, Reconnect) == b.reconnect;
  }

  /** The numbers collected for one verdict do not depend on the order. */
  lemma MarksOrderIrrelevant(sessions: map<string, Session>, findings: map<string, Probe>, order: seq<string>, order': seq<string>, now: Millis, v: Verdict)
    requires Snapshot(sessions, findings, order) && Snapshot(sessions, findings, order')
    requires v == Invalid || v == Reconnect
    ensures forall m :: m in Marked(CheckAll(sessions, findings, order, now), v) <==> m in Marked(CheckAll(sessions, findings, order', now), v)
  {
    CheckAllMarks(sessions, findings, order, now, v);
    CheckAllMarks(sessions, findings, order', now, v);
  }

  /** The removals at the end of the sweep, in order. */
  function RemoveAll(r: Registry, ns: seq<string>): (r': Registry)
    ensures forall m :: m in ns ==> m !in r'.sessions
    ensures forall m :: m !in ns ==> (m in r'.sessions <==> m in r.sessions)
    ensures forall m :: m !in ns && m in r.sessions ==> r'.sessions[m] == r.sessions[m]
    ensures forall m :: m !in ns ==> (m in r'.pending <==> m in r.pending)
    ensures forall m :: m !in ns && m in r.pending ==> r'.pending[m] == r.pending[m]
    ensures (forall m :: m in ns ==> m !in r.pending) ==> r'.pending == r.pending
    ensures forall m :: m in r'.folders ==> m in r.folders
    ensures r'.folders <= r.folders
    ensures "" !in ns ==> forall m :: m !in ns && m in r.folders ==> m in r'.folders
    ensures forall m :: m in ns && m !in r.sessions ==> m !in r'.pending
    ensures forall m :: m in ns && (m in r.sessions || m in r.pending) ==> m !in r'.folders
    decreases |ns|
  {
    if ns == [] then r
    else
      var r1 := RemoveSession(r, ns[0]).next;
      assert forall m :: m in ns[1..] ==> m in ns;
      RemoveAll(r1, ns[1..])
  }

  /** Removing numbers one after another keeps the invariant. */
  lemma {:induction false} RemoveAllPreservesValid(r: Registry, ns: seq<string>)
    requires Valid(r)
    ensures Valid(RemoveAll(r, ns))
    decreases |ns|
  {
    if ns != [] {
      RemoveSessionForgets(r, ns[0]);
      RemoveAllPreservesValid(RemoveSession(r, ns[0]).next, ns[1..]);
    }
  }

  /** What opening the store of a number reports. */
  datatype StoreProbe = OpenFailed | NoDevice | HasDevice

  /** A top-level entry the orphan sweep looks at: a plain `.db` file that
      is not a write-ahead-log or shared-memory companion. */
  predicate IsCandidate(e: DirEntry) {
    IsDbFile(e) && !HasSuffix(e.name, "-shm") && !HasSuffix(e.name, "-wal")
  }

  /** The companion test is redundant: every plain `.db` file is a
      candidate. */
  lemma CandidatesAreDbFiles(e: DirEntry)
    ensures IsCandidate(e) <==> IsDbFile(e)
  {
    if HasSuffix(e.name, "-shm") || HasSuffix(e.name, "-wal") {
      CompanionFilesAreNotDb(e);
    }
  }

  /** An entry whose number's folder the sweep deletes: a candidate whose
      number is neither active nor pending and whose store cannot be
      opened or holds no device. */
  predicate Doomed(registered: set<string>, store: string -> StoreProbe, e: DirEntry) {
    IsCandidate(e) && Stem(e) !in registered && store(Stem(e)) != HasDevice
  }

  /** Whether some entry of the listing has its folder `m` deleted. */
  predicate Deletes(registered: set<string>, store: string -> StoreProbe, entries: seq<DirEntry>, m: string) {
    exists e :: e in entries && Doomed(registered, store, e) && Stem(e) == m
  }

  /** The folder deletions of the orphan sweep, entry by entry. A doomed
      entry named just `.db` has the empty number, whose folder is the
      jadibot directory itself, so every folder goes; otherwise exactly
      the doomed numbers lose their folder. */
  function RemoveOrphans(folders: set<string>, registered: set<string>, store: string -> StoreProbe, entries: seq<DirEntry>): (f: set<string>)
    ensures Deletes(registered, store, entries, "") ==> f == {}
    ensures !Deletes(registered, store, entries, "") ==>
      forall m :: m in f <==> m in folders && !Deletes(registered, store, entries, m)
    decreases |entries|
  {
    if entries == [] then folders
    else
      var e := entries[0];
      var next := if Doomed(registered, store, e) then RemoveFolder(folders, Stem(e)) else folders;
      var f := RemoveOrphans(next, registered, store, entries[1..]);
      assert forall m :: Deletes(registered, store, entries, m) <==>
        (Doomed(registered, store, e) && Stem(e) == m) || Deletes(registered, store, entries[1..], m) by {
        assert forall x :: x in entries <==> x == e || x in entries[1..];
      }
      f
  }

  /** cleanupOrphanedFiles: an unreadable directory changes nothing;
      otherwise the numbers active or pending when the sweep starts are
      spared and every other doomed entry's folder is deleted. */
  function CleanupOrphanedFiles(r: Registry, listing: Option<seq<DirEntry>>, store: string -> StoreProbe): (r': Registry)
    ensures r'.sessions == r.sessions && r'.pending == r.pending
    ensures listing.None? ==> r' == r
    ensures listing.Some? && !Deletes(r.sessions.Keys + r.pending.Keys, store, listing.value, "") ==>
      forall m :: m in r'.folders <==> m in r.folders && !Deletes(r.sessions.Keys + r.pending.Keys, store, listing.value, m)
    ensures listing.Some? && Deletes(r.sessions.Keys + r.pending.Keys, store, listing.value, "") ==> r'.folders == {}
  {
    match listing
    case None => r
    case Some(entries) => r.(folders := RemoveOrphans(r.folders, r.sessions.Keys + r.pending.Keys, store, entries))
  }

  /** Without a plain file named just `.db`, the folders of active and
      pending numbers survive the orphan sweep and so does the invariant. */
  lemma OrphanSweepSparesRegistered(r: Registry, listing: Option<seq<DirEntry>>, store: string -> StoreProbe)
    requires listing.Some? ==> forall e :: e in listing.value ==> e.isDir || e.name != DbSuffix
    ensures forall m :: m in r.sessions || m in r.pending ==>
      (m in CleanupOrphanedFiles(r, listing, store).folders <==> m in r.folders)
    ensures Valid(r) ==> Valid(CleanupOrphanedFiles(r, listing, store))
  {
    if listing.Some? {
      forall e | e in listing.value && IsDbFile(e) ensures Stem(e) != "" {
        assert Stem(e) + DbSuffix == e.name;
      }
    }
  }

  /** A plain file named just `.db` that no store backs makes the orphan
      sweep delete the whole jadibot directory, active sessions' folders
      included. */
  lemma EmptyStemWipesAll(r: Registry, entries: seq<DirEntry>, store: string -> StoreProbe)
    requires "" !in r.sessions && "" !in r.pending
    requires DirEntry(DbSuffix, false) in entries && store("") != HasDevice
    ensures CleanupOrphanedFiles(r, Some(entries), store).folders == {}
  {
    var e := DirEntry(DbSuffix, false);
    assert Stem(e) == "" by {
      assert Stem(e) + DbSuffix == e.name;
    }
    CandidatesAreDbFiles(e);
  }

  /** The sweep's result: the registry it leaves, the numbers it removed
      and the numbers it starts a reconnect for, in snapshot order. */
  datatype Sweep = Sweep(next: Registry, removed: seq<string>, reconnect: seq<string>)

  /** validateAllSessions: check every active number, remove the invalid
      ones, then sweep orphaned files. */
  function ValidateAllSessions(
    r: Registry, findings: map<string, Probe>, order: seq<string>, now: Millis,
    listing: Option<seq<DirEntry>>, store: string -> StoreProbe): (w: Sweep)
    requires Snapshot(r.sessions, findings, order)
    ensures forall m :: m in r.sessions ==>
      (m in w.next.sessions <==> Outcome(r.sessions, findings, m, now).verdict != Invalid)
    ensures forall m :: m in w.next.sessions ==>
      m in r.sessions && w.next.sessions[m] == Outcome(r.sessions, findings, m, now).session
    ensures forall m :: m in w.removed <==> m in r.sessions && Outcome(r.sessions, findings, m, now).verdict == Invalid
    ensures forall m :: m in w.reconnect <==> m in r.sessions && Outcome(r.sessions, findings, m, now).verdict == Reconnect
    ensures r.sessions.Keys !! r.pending.Keys ==> w.next.pending == r.pending
    ensures w.next.folders <= r.folders
    ensures forall m :: m in w.removed ==> m !in w.next.sessions && m !in w.next.folders
    ensures "" !in r.sessions && listing.None? ==>
      forall m :: m in w.next.folders <==> m in r.folders && m !in w.removed
    ensures ("" !in r.sessions && listing.Some? &&
      !Deletes(w.next.sessions.Keys + w.next.pending.Keys, store, listing.value, "")) ==>
      forall m :: m in w.next.folders <==>
        m in r.folders && m !in w.removed && !Deletes(w.next.sessions.Keys + w.next.pending.Keys, store, listing.value, m)
  {
    var c := CheckAll(r.sessions, findings, order, now);
    CheckAllMarks(r.sessions, findings, order, now, Invalid);
    CheckAllMarks(r.sessions, findings, order, now, Reconnect);
    var removed := RemoveAll(r.(sessions := c.sessions), c.invalid);
    Sweep(CleanupOrphanedFiles(removed, listing, store), c.invalid, c.reconnect)
  }

  /** The sweep keeps the registry invariant, unless the listing holds a
      plain file named just `.db`. */
  lemma SweepPreservesValid(
    r: Registry, findings: map<string, Probe>, order: seq<string>, now: Millis,
    listing: Option<seq<DirEntry>>, store: string -> StoreProbe)
    requires Valid(r) && Snapshot(r.sessions, findings, order)
    requires listing.Some? ==> forall e :: e in listing.value ==> e.isDir || e.name != DbSuffix
    ensures Valid(ValidateAllSessions(r, findings, order, now, listing, store).next)
  {
    var c := CheckAll(r.sessions, findings, order, now);
    var checked := r.(sessions := c.sessions);
    assert Valid(checked) by {
      forall m | m in c.sessions ensures c.sessions[m].connected {
        if m in order {
          assert c.sessions[m] == Outcome(r.sessions, findings, m, now).session;
        }
      }
    }
    RemoveAllPreservesValid(checked, c.invalid);
    OrphanSweepSparesRegistered(RemoveAll(checked, c.invalid), listing, store);
  }
}
