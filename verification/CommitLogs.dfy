/**
 The log that group commit writes, against the history it makes: what a recovery from it brings back.
 */
module CommitLogs {
  import opened Basics
  import opened Histories
  import opened GroupCommit

  // ----- The history a log gives

  function Init(log: seq<Record>): seq<Record>
    requires log != []
  {
    log[..|log| - 1]
  }

  function Last(log: seq<Record>): Record
    requires log != []
  {
    log[|log| - 1]
  }

  function LogEnd(start: nat, log: seq<Record>): int {
    if log == [] then start else log[|log| - 1].sequence - 1 + |log[|log| - 1].ops|
  }

  /** Records come in ascending order of their sequence numbers; failed groups may have left gaps. */
  ghost predicate Linked(start: nat, log: seq<Record>) {
    log == [] ||
      var init, r := log[..|log| - 1], log[|log| - 1];
      Linked(start, init) && LogEnd(start, init) < r.sequence
  }

  /** h0, and then every logged write at its number. */
  ghost function LogHistory(h0: seq<Option<Op>>, log: seq<Record>): (h: seq<Option<Op>>)
    requires Linked(|h0|, log)
    ensures |h| == LogEnd(|h0|, log)
  {
    if log == [] then h0
    else
      var init, r := log[..|log| - 1], log[|log| - 1];
      var h := LogHistory(h0, init);
      h + Nones(r.sequence - 1 - |h|) + Somes(r.ops)
  }

  /** h is what the log gives, and after it only numbers of writes that failed. */
  ghost predicate Accounted(h0: seq<Option<Op>>, log: seq<Record>, h: seq<Option<Op>>) {
    && Linked(|h0|, log)
    && LogHistory(h0, log) <= h
    && forall p :: |LogHistory(h0, log)| <= p < |h| ==> h[p].None?
  }

  lemma LastLinked(start: nat, log: seq<Record>)
    requires log != [] && Linked(start, Init(log)) && LogEnd(start, Init(log)) < Last(log).sequence
    ensures Linked(start, log)
  {
  }

  lemma LastLogged(h0: seq<Option<Op>>, log: seq<Record>)
    requires log != [] && Linked(|h0|, log)
    ensures Linked(|h0|, Init(log)) && LogEnd(|h0|, Init(log)) < Last(log).sequence
    ensures LogHistory(h0, log)
         == LogHistory(h0, Init(log)) + Nones(Last(log).sequence - 1 - |LogHistory(h0, Init(log))|)
           + Somes(Last(log).ops)
  {
  }

  lemma LogHistoryMore(h0: seq<Option<Op>>, log: seq<Record>, r: Record)
    requires Linked(|h0|, log) && LogEnd(|h0|, log) < r.sequence
    ensures Linked(|h0|, log + [r])
    ensures LogHistory(h0, log + [r])
      == LogHistory(h0, log) + Nones(r.sequence - 1 - |LogHistory(h0, log)|) + Somes(r.ops)
  {
    hide Linked, LogHistory;
    assert Init(log + [r]) == log;
    LastLinked(|h0|, log + [r]);
    LastLogged(h0, log + [r]);
  }

  lemma AccountedMore(h0: seq<Option<Op>>, log: seq<Record>, h: seq<Option<Op>>, r: Record)
    requires Accounted(h0, log, h) && r.sequence == |h| + 1
    ensures Accounted(h0, log + [r], h + Somes(r.ops))
    ensures Linked(|h0|, log + [r]) && LogHistory(h0, log + [r]) == h + Somes(r.ops)
  {
    LogHistoryMore(h0, log, r);
    hide LogHistory, Linked, LogEnd;
    var l := LogHistory(h0, log);
    assert h == l + Nones(|h| - |l|);
  }

  lemma AccountedGap(h0: seq<Option<Op>>, log: seq<Record>, h: seq<Option<Op>>, n: nat)
    requires Accounted(h0, log, h)
    ensures Accounted(h0, log, h + Nones(n))
  {
  }

  // ----- Every run

  ghost predicate NobodyIsWriting(c: State) {
    forall w :: w in c.phase ==> !c.phase[w].Writing?
  }

  /** The published history is what the log gives.  The last record's group is not part of it while it is
      being inserted, nor, ever, if its sync failed; in that case nothing is written any more. */
  ghost predicate LogMatches(h0: seq<Option<Op>>, c: State) {
    && c.lastSequence <= |c.history| && (c.unsynced ==> c.backgroundError)
    && (!c.unsynced && !Unpublished(c) ==> Accounted(h0, c.log, c.history[..c.lastSequence]))
    && (!c.unsynced && Unpublished(c) ==> c.log != [] && Accounted(h0, Init(c.log), c.history[..c.lastSequence]))
    && (c.unsynced ==> NobodyIsWriting(c) && UnsyncedLast(h0, c))
  }

  /** The last record is that of a group whose numbers the history holds as failed. */
  ghost predicate UnsyncedLast(h0: seq<Option<Op>>, c: State) {
    && c.log != [] && Linked(|h0|, c.log)
    && Accounted(h0, Init(c.log), c.history)
    && LogEnd(|h0|, c.log) <= |c.history|
  }

  /** Events that change neither the log nor the published history, nor who has logged. */
  lemma OthersMatch(h0: seq<Option<Op>>, c: State, c': State)
    requires LogMatches(h0, c) && c'.history == c.history && c'.log == c.log && c'.lastSequence == c.lastSequence
    requires c'.unsynced == c.unsynced && (c.backgroundError ==> c'.backgroundError)
    requires Unpublished(c) <==> Unpublished(c')
    requires c.unsynced ==> NobodyIsWriting(c')
    ensures LogMatches(h0, c')
  {
  }

  lemma LeaveMatches(h0: seq<Option<Op>>, c: State, w: WriterId, ok: bool)
    requires CommitInv(c) && LogMatches(h0, c) && Leads(c, w)
    ensures LogMatches(h0, Pop(c, 1, ok))
  {
    NobodyWrites(c, w);
    OthersMatch(h0, c, Pop(c, 1, ok));
  }

  lemma QuietMatches(h0: seq<Option<Op>>, c: State, e: Event)
    requires CommitInv(c) && LogMatches(h0, c) && Can(c, e)
    requires e.Arrive? || e.Sleep? || e.Form? || e.SyncLog? || e.BackgroundFails? || e.TakeSnapshot?
             || e.ReleaseSnapshot?
    ensures LogMatches(h0, Next(c, e))
  {
    var c' := Next(c, e);
    if e.Form? {
      NobodyWrites(c, e.w);
      assert !Unpublished(c) && !Unpublished(c');
    } else {
      SamePhases(c, e);
    }
    hide CommitInv, Can, Next, LogMatches;
    OthersMatch(h0, c, c');
  }

  lemma SamePhases(c: State, e: Event)
    requires Can(c, e)
    requires e.Arrive? || e.Sleep? || e.SyncLog? || e.BackgroundFails? || e.TakeSnapshot? || e.ReleaseSnapshot?
    ensures Unpublished(c) <==> Unpublished(Next(c, e))
  {
    var c' := Next(c, e);
    assert forall x :: x in c.phase ==> x in c'.phase && c'.phase[x] == c.phase[x];
    assert forall x :: x in c'.phase && c'.phase[x].Writing? ==> x in c.phase;
  }

  lemma AppendMatches(h0: seq<Option<Op>>, c: State, w: WriterId)
    requires CommitInv(c) && LogMatches(h0, c) && Can(c, AppendRecord(w))
    ensures LogMatches(h0, Next(c, AppendRecord(w)))
  {
    OnlyWriter(c, w);
    var c' := Next(c, AppendRecord(w));
    assert c'.phase[w].Writing? && c'.phase[w].logged;
    assert Unpublished(c');
    assert Init(c'.log) == c.log;
  }

  lemma InsertMatches(h0: seq<Option<Op>>, c: State, w: WriterId)
    requires CommitInv(c) && LogMatches(h0, c) && Can(c, InsertNext(w))
    ensures LogMatches(h0, Next(c, InsertNext(w)))
  {
    OnlyWriter(c, w);
    var c' := Next(c, InsertNext(w));
    assert c'.phase[w].Writing? && c'.phase[w].logged;
    assert Unpublished(c');
    assert c'.history[..c.lastSequence] == c.history[..c.lastSequence];
  }

  lemma PoppedIsPublished(c: State, count: nat, ok: bool, w: WriterId)
    requires 1 <= count <= |c.queue| && c.queue[0] == w
    requires forall x :: x in c.phase && c.phase[x].Writing? ==> x == w
    ensures !Unpublished(Pop(c, count, ok)) && NobodyIsWriting(Pop(c, count, ok))
  {
    assert w in c.queue[..count];
  }

  lemma CommittedHistory(c: State, w: WriterId)
    requires CommitInv(c) && Can(c, Commit(w))
    ensures c.log != [] && Last(c.log) == Record(c.lastSequence + 1, c.phase[w].ops) && Unpublished(c)
    ensures c.lastSequence <= |c.history| && c.history == c.history[..c.lastSequence] + Somes(c.phase[w].ops)
  {
    OnlyWriter(c, w);
    var p := c.phase[w];
    assert p.ops[..p.inserted] == p.ops;
    assert c.history == c.history[..c.lastSequence] + c.history[c.lastSequence..];
  }

  lemma CommitMatches(h0: seq<Option<Op>>, c: State, w: WriterId)
    requires CommitInv(c) && LogMatches(h0, c) && Can(c, Commit(w))
    ensures LogMatches(h0, Next(c, Commit(w)))
  {
    OnlyWriter(c, w);
    CommittedHistory(c, w);
    hide CommitInv, Accounted, LogHistory, Linked, InFlight, UnsyncedLast;
    var p := c.phase[w];
    AccountedMore(h0, Init(c.log), c.history[..c.lastSequence], Last(c.log));
    assert Init(c.log) + [Last(c.log)] == c.log;
    PoppedIsPublished(Published(c, w), p.count, true, w);
    assert !c.unsynced;
    hide LogMatches, Unpublished, SpansOf, AllOps, Members;
    QuietlyMatches(h0, Next(c, Commit(w)));
  }

  /** When nothing logged is in flight, the published history is all of it. */
  lemma QuietlyMatches(h0: seq<Option<Op>>, c: State)
    requires !c.unsynced && !Unpublished(c) && c.lastSequence == |c.history| && Accounted(h0, c.log, c.history)
    ensures LogMatches(h0, c)
  {
    assert c.history[..c.lastSequence] == c.history;
  }

  lemma LostHistory(c: State, w: WriterId)
    requires GroupOk(c) && IsWriting(c, w) && c.phase[w].inserted == 0 && Room(c, |c.phase[w].ops|)
    ensures c.history == c.history[..c.lastSequence] && |c.history| == c.lastSequence
    ensures Lost(c, |c.phase[w].ops|).history == c.history + Nones(|c.phase[w].ops|)
  {
    OnlyWriter(c, w);
    assert |c.history[c.lastSequence..]| == 0;
  }

  lemma LogFailsMatches(h0: seq<Option<Op>>, c: State, w: WriterId)
    requires CommitInv(c) && LogMatches(h0, c) && Can(c, LogFails(w))
    ensures LogMatches(h0, Next(c, LogFails(w)))
  {
    OnlyWriter(c, w);
    LostHistory(c, w);
    var n := |c.phase[w].ops|;
    assert !c.unsynced && !Unpublished(c);
    hide CommitInv, InFlight, Accounted, UnsyncedLast;
    AccountedGap(h0, c.log, c.history, n);
    PoppedIsPublished(Lost(c, n), c.phase[w].count, false, w);
    assert (c.history + Nones(n))[..c.lastSequence + n] == c.history + Nones(n);
  }

  lemma SyncFailsMatches(h0: seq<Option<Op>>, c: State, w: WriterId)
    requires CommitInv(c) && LogMatches(h0, c) && Can(c, SyncFails(w))
    ensures LogMatches(h0, Next(c, SyncFails(w)))
  {
    OnlyWriter(c, w);
    LostHistory(c, w);
    assert c.phase[w].Writing? && c.phase[w].logged;
    assert c.log != [] && Last(c.log) == Record(c.lastSequence + 1, c.phase[w].ops) && Unpublished(c);
    hide CommitInv, InFlight, Accounted, LogHistory;
    var n := |c.phase[w].ops|;
    AccountedGap(h0, Init(c.log), c.history, n);
    AccountedMore(h0, Init(c.log), c.history, Last(c.log));
    assert Init(c.log) + [Last(c.log)] == c.log;
    PoppedIsPublished(Lost(c, n).(backgroundError := true, unsynced := true), c.phase[w].count, false, w);
  }

  lemma NextMatches(h0: seq<Option<Op>>, c: State, e: Event)
    requires CommitInv(c) && LogMatches(h0, c) && Can(c, e)
    ensures LogMatches(h0, Next(c, e))
  {
    hide LogMatches, CommitInv, Can, Next;
    match e
    case GiveUp(w) => LeaveStepMatches(h0, c, e);
    case PassNull(w) => LeaveStepMatches(h0, c, e);
    case AppendRecord(w) => AppendMatches(h0, c, w);
    case InsertNext(w) => InsertMatches(h0, c, w);
    case Commit(w) => CommitMatches(h0, c, w);
    case LogFails(w) => LogFailsMatches(h0, c, w);
    case SyncFails(w) => SyncFailsMatches(h0, c, w);
    case _ => QuietMatches(h0, c, e);
  }

  lemma LeaveStepMatches(h0: seq<Option<Op>>, c: State, e: Event)
    requires CommitInv(c) && LogMatches(h0, c) && Can(c, e) && (e.GiveUp? || e.PassNull?)
    ensures LogMatches(h0, Next(c, e))
  {
    LeaveMatches(h0, c, e.w, e.PassNull?);
  }

  /** In every interleaving the log accounts for the history. */
  lemma {:induction false} RunsMatch(run: seq<State>, events: seq<Event>)
    requires IsRun(run, events)
    ensures CommitInv(run[|events|]) && LogMatches(run[0].history, run[|events|])
  {
    RunsKeepInv(run, events);
    if events == [] {
      var c := run[0];
      assert c.history[..c.lastSequence] == c.history && !Unpublished(c);
    } else {
      var n := |events| - 1;
      RunsMatch(run[..n + 1], events[..n]);
      NextMatches(run[0].history, run[n], events[n]);
    }
  }

  // ----- What the log holds

  /** The history with the logged group in flight inserted to its end. */
  ghost function Completed(c: State): seq<Option<Op>>
    requires c.lastSequence <= |c.history| && (Unpublished(c) ==> c.log != [])
  {
    if Unpublished(c) then c.history[..c.lastSequence] + Somes(Last(c.log).ops) else c.history
  }

  lemma AllPublished(c: State)
    requires CommitInv(c) && !Unpublished(c)
    ensures c.history[..c.lastSequence] == c.history
  {
    forall w | w in c.phase && c.phase[w].Writing? ensures c.phase[w].inserted == 0 {
      assert InFlight(c, w, c.phase[w]);
    }
    if w :| w in c.phase && c.phase[w].Writing? {
      assert InFlight(c, w, c.phase[w]);
      assert |c.history[c.lastSequence..]| == 0;
    }
  }

  /**
   The log gives back exactly the history, up to a group still being inserted, if and only if no group
   of one or more writes failed to sync.
   */
  lemma LogGivesHistory(run: seq<State>, events: seq<Event>)
    requires IsRun(run, events)
    ensures var h0, c := run[0].history, run[|events|];
            && c.lastSequence <= |c.history| && (Unpublished(c) || c.unsynced ==> c.log != [])
            && (Accounted(h0, c.log, Completed(c)) <==> !c.unsynced || Last(c.log).ops == [])
  {
    RunsMatch(run, events);
    hide IsRun, CommitInv, LogMatches, Accounted;
    MatchGivesHistory(run[0].history, run[|events|]);
  }

  lemma MatchGivesHistory(h0: seq<Option<Op>>, c: State)
    requires CommitInv(c) && LogMatches(h0, c)
    ensures c.lastSequence <= |c.history| && (Unpublished(c) || c.unsynced ==> c.log != [])
    ensures Accounted(h0, c.log, Completed(c)) <==> !c.unsynced || Last(c.log).ops == []
  {
    if !c.unsynced && Unpublished(c) {
      LoggedInFlight(c);
      hide CommitInv, Accounted, LogHistory;
      AccountedMore(h0, Init(c.log), c.history[..c.lastSequence], Last(c.log));
      assert Init(c.log) + [Last(c.log)] == c.log;
    } else {
      assert c.unsynced ==> !Unpublished(c);
      AllPublished(c);
      hide CommitInv, Accounted, LogHistory;
      if c.unsynced {
        UnsyncedDiffers(h0, c);
      }
    }
  }

  lemma LoggedInFlight(c: State)
    requires CommitInv(c) && Unpublished(c)
    ensures c.log != [] && Last(c.log).sequence == c.lastSequence + 1
  {
    var w :| w in c.phase && c.phase[w].Writing? && c.phase[w].logged;
    assert InFlight(c, w, c.phase[w]);
  }

  lemma LastWrites(h0: seq<Option<Op>>, log: seq<Record>, i: nat)
    requires Linked(|h0|, log) && log != [] && i < |Last(log).ops|
    ensures var p := Last(log).sequence - 1 + i;
            0 <= p < |LogHistory(h0, log)| && LogHistory(h0, log)[p] == Some(Last(log).ops[i])
  {
    var h, r := LogHistory(h0, Init(log)), Last(log);
    assert LogHistory(h0, log) == h + Nones(r.sequence - 1 - |h|) + Somes(r.ops);
  }

  /** The writes of the unsynced group are in the log, and not in the history. */
  lemma UnsyncedWrite(h0: seq<Option<Op>>, c: State, i: nat)
    requires UnsyncedLast(h0, c) && i < |Last(c.log).ops|
    ensures var p := Last(c.log).sequence - 1 + i;
            && 0 <= p < |c.history| && p < |LogHistory(h0, c.log)|
            && c.history[p].None? && LogHistory(h0, c.log)[p] == Some(Last(c.log).ops[i])
  {
    LastWrites(h0, c.log, i);
    hide LogHistory;
  }

  lemma UnsyncedDiffers(h0: seq<Option<Op>>, c: State)
    requires UnsyncedLast(h0, c)
    ensures Accounted(h0, c.log, c.history) <==> Last(c.log).ops == []
  {
    if Last(c.log).ops == [] {
      EmptyLast(h0, c);
    } else {
      UnsyncedWrite(h0, c, 0);
      hide LogHistory;
    }
  }

  lemma EmptyLast(h0: seq<Option<Op>>, c: State)
    requires UnsyncedLast(h0, c) && Last(c.log).ops == []
    ensures Accounted(h0, c.log, c.history)
  {
    var h, r := LogHistory(h0, Init(c.log)), Last(c.log);
    assert LogHistory(h0, c.log) == h + Nones(r.sequence - 1 - |h|);
  }

  /**
   After a failed sync every write of that group is in the log, at numbers that the history holds as
   failed: its writers were told so, yet a recovery from the whole log brings the writes back.
   */
  lemma UnsyncedGroupComesBack(run: seq<State>, events: seq<Event>, i: nat)
    requires IsRun(run, events) && run[|events|].unsynced
    requires run[|events|].log != [] && i < |Last(run[|events|].log).ops|
    ensures var h0, c := run[0].history, run[|events|];
            var p := Last(c.log).sequence - 1 + i;
            && 0 <= p < |c.history| && Linked(|h0|, c.log) && p < |LogHistory(h0, c.log)|
            && c.history[p].None? && LogHistory(h0, c.log)[p] == Some(Last(c.log).ops[i])
  {
    RunsMatch(run, events);
    hide IsRun, CommitInv, LogHistory, Linked, Accounted;
    UnsyncedWrite(run[0].history, run[|events|], i);
  }

  lemma ErrorStep(c: State, e: Event)
    requires Can(c, e)
    ensures Next(c, e).unsynced <==> c.unsynced || e.SyncFails?
    ensures Next(c, e).backgroundError <==> c.backgroundError || e.SyncFails? || e.BackgroundFails?
  {
  }

  /** The writers are stopped by a failed sync or by a failed flush or compaction; the log holds an unsynced group
      after a failed sync only. */
  lemma {:induction false} ErrorIsFailedSync(run: seq<State>, events: seq<Event>)
    requires IsRun(run, events)
    ensures run[|events|].unsynced <==> exists i :: 0 <= i < |events| && events[i].SyncFails?
    ensures run[|events|].backgroundError <==>
      exists i :: 0 <= i < |events| && (events[i].SyncFails? || events[i].BackgroundFails?)
  {
    if events != [] {
      var n := |events| - 1;
      ErrorIsFailedSync(run[..n + 1], events[..n]);
      ErrorStep(run[n], events[n]);
      hide Can, Next;
      assert forall i :: 0 <= i < n ==> events[..n][i] == events[i];
    }
  }
}
