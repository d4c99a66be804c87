/** Sequential runs of the journal service, in which an entity is only created when it has no history. */
module JournalHistory {
  import opened Wrappers
  import opened Clock
  import opened JournalData
  import opened Journals

  datatype Call =
    | Create(entity: Entity, userId: int, data: Snapshot, notes: Option<string>)
    | Update(entity: Entity, userId: int, data: Snapshot, notes: Option<string>, cause: CauseType)
    | Delete(entity: Entity)

  /** What one call does to the service, whenever it is made. */
  ghost predicate Performs(log: Log, call: Call, now: Time, after: Log) {
    match call
    case Create(entity, userId, data, notes) => after == AfterCreation(log, entity, userId, data, notes, now)
    case Update(entity, userId, data, notes, cause) => Updates(log, entity, userId, data, notes, cause, now, after)
    case Delete(entity) => after == AfterDeletion(log, entity)
  }

  /** Creation is for entities without history. */
  ghost predicate Disciplined(log: Log, call: Call) {
    call.Create? ==> History(log.entries, call.entity) == []
  }

  ghost predicate IsRun(logs: seq<Log>, calls: seq<Call>, times: seq<Time>) {
    && |logs| == |calls| + 1 && |times| == |calls|
    && logs[0] == Log([], 1, [])
    && forall i :: 0 <= i < |calls| ==>
         Disciplined(logs[i], calls[i]) && Performs(logs[i], calls[i], times[i], logs[i + 1])
  }

  // ---------- the invariant ----------

  ghost predicate IsNumbered(history: seq<Entry>) {
    forall i :: 0 <= i < |history| ==> history[i].journal.version == i + 1
  }

  /** Stored ids and event ids are all distinct and below the counter. */
  ghost predicate IdsFresh(log: Log) {
    && (forall i :: 0 <= i < |log.entries| ==>
          && log.entries[i].journal.id.Some?
          && log.entries[i].journal.id == log.entries[i].journal.dataId
          && log.entries[i].journal.id.value < log.nextId)
    && (forall i, j :: 0 <= i < j < |log.entries| ==> log.entries[i].journal.id != log.entries[j].journal.id)
    && (forall i :: 0 <= i < |log.events| ==>
          log.events[i].journal.id.Some? && log.events[i].journal.id.value < log.nextId)
    && (forall i, j :: 0 <= i < j < |log.events| ==> log.events[i].journal.id != log.events[j].journal.id)
  }

  /** The event tells of the entry, and of its difference from the entry before it. */
  ghost predicate Tells(event: JournalEvent, before: Option<Entry>, entry: Entry) {
    && event.journal == entry.journal.(dataId := None)
    && event.data == entry.data
    && match before
       case None => event.diff.None?
       case Some(b) => event.diff.Some? && IsDiff(b.data.fields, entry.data.fields, event.diff.value)
  }

  function Before(history: seq<Entry>, i: nat): Option<Entry>
    requires i < |history|
  {
    if i == 0 then None else Some(history[i - 1])
  }

  ghost predicate IsTold(events: seq<JournalEvent>, history: seq<Entry>, i: nat)
    requires i < |history|
  {
    exists k :: 0 <= k < |events| && Tells(events[k], Before(history, i), history[i])
  }

  /** Every entry of a history has been told. */
  ghost predicate AllTold(events: seq<JournalEvent>, history: seq<Entry>) {
    forall i :: 0 <= i < |history| ==> IsTold(events, history, i)
  }

  ghost predicate Sound(log: Log, entity: Entity) {
    IsNumbered(History(log.entries, entity)) && AllTold(log.events, History(log.entries, entity))
  }

  ghost predicate Inv(log: Log) {
    IdsFresh(log) && forall entity :: Sound(log, entity)
  }

  // ---------- histories under the three calls ----------

  lemma HistoryAppend(entries: seq<Entry>, entry: Entry, entity: Entity)
    ensures History(entries + [entry], entity)
            == History(entries, entity) + if IsAbout(entry, entity) then [entry] else []
  {
    assert (entries + [entry])[..|entries|] == entries;
  }

  lemma {:induction false} HistoryWithoutOthers(entries: seq<Entry>, deleted: Entity, entity: Entity)
    ensures History(Others(entries, deleted), entity) == if entity == deleted then [] else History(entries, entity)
  {
    if entries != [] {
      var last := |entries| - 1;
      HistoryWithoutOthers(entries[..last], deleted, entity);
      if !IsAbout(entries[last], deleted) {
        HistoryAppend(Others(entries[..last], deleted), entries[last], entity);
      } else {
        assert Others(entries, deleted) == Others(entries[..last], deleted);
      }
    }
  }

  lemma {:induction false} HistoryIn(entries: seq<Entry>, entity: Entity)
    ensures forall e :: e in History(entries, entity) <==> e in entries && IsAbout(e, entity)
  {
    if entries != [] {
      var last := |entries| - 1;
      HistoryIn(entries[..last], entity);
      assert entries == entries[..last] + [entries[last]];
    }
  }

  lemma {:induction false} OthersIn(entries: seq<Entry>, entity: Entity)
    ensures forall e :: e in Others(entries, entity) <==> e in entries && !IsAbout(e, entity)
    ensures (forall i, j :: 0 <= i < j < |entries| ==> entries[i].journal.id != entries[j].journal.id) ==>
              forall i, j :: 0 <= i < j < |Others(entries, entity)| ==>
                               Others(entries, entity)[i].journal.id != Others(entries, entity)[j].journal.id
  {
    if entries != [] {
      var last := |entries| - 1;
      OthersIn(entries[..last], entity);
      assert entries == entries[..last] + [entries[last]];
      if forall i, j :: 0 <= i < j < |entries| ==> entries[i].journal.id != entries[j].journal.id {
        var others := Others(entries, entity);
        var front := Others(entries[..last], entity);
        forall i, j | 0 <= i < j < |others|
          ensures others[i].journal.id != others[j].journal.id
        {
          if j == |front| {
            assert front[i] in entries[..last];
          }
        }
      }
    }
  }

  lemma {:induction false} LatestOfNumbered(history: seq<Entry>)
    requires IsNumbered(history)
    ensures Latest(history) == if history == [] then None else Some(history[|history| - 1])
  {
    if history != [] {
      LatestOfNumbered(history[..|history| - 1]);
    }
  }

  ghost predicate IsLatestAt(history: seq<Entry>, i: nat)
    requires i < |history|
  {
    && (forall k :: 0 <= k < i ==> history[k].journal.version <= history[i].journal.version)
    && (forall k :: i < k < |history| ==> history[k].journal.version < history[i].journal.version)
  }

  /** The latest entry is the one of highest version, and of several such the last recorded. */
  lemma {:induction false} LatestIsHighest(history: seq<Entry>) returns (i: nat)
    requires history != []
    ensures i < |history| && IsLatestAt(history, i) && Latest(history) == Some(history[i])
    decreases |history|
  {
    var last := |history| - 1;
    var front := history[..last];
    i := last;
    if front != [] {
      var best := LatestIsHighest(front);
      if front[best].journal.version > history[last].journal.version {
        i := best;
      } else {
        assert forall k :: 0 <= k < last ==> front[k].journal.version <= front[best].journal.version;
      }
    }
  }

  /** What a call that records something appends, if it follows the discipline. */
  ghost predicate Appends(log: Log, entity: Entity, entry: Entry, event: JournalEvent, after: Log) {
    var history := History(log.entries, entity);
    && after == Log(log.entries + [entry], log.nextId + 1, log.events + [event])
    && IsAbout(entry, entity)
    && entry.journal.id == entry.journal.dataId == Some(log.nextId)
    && entry.journal.version == |history| + 1
    && Tells(event, if history == [] then None else Some(history[|history| - 1]), entry)
  }

  lemma AppendingKeepsIds(log: Log, entity: Entity, entry: Entry, event: JournalEvent, after: Log)
    requires Inv(log) && Appends(log, entity, entry, event, after)
    ensures IdsFresh(after)
  {
    hide History, IsDiff;
  }

  lemma AppendingKeepsSound(log: Log, entity: Entity, entry: Entry, event: JournalEvent, after: Log, other: Entity)
    requires Inv(log) && Appends(log, entity, entry, event, after)
    ensures Sound(after, other)
  {
    hide History, Tells, IdsFresh;
    var earlier, later := History(log.entries, other), History(after.entries, other);
    HistoryAppend(log.entries, entry, other);
    assert Sound(log, other);
    assert IsAbout(entry, other) <==> other == entity;
    forall i | 0 <= i < |later|
      ensures IsTold(after.events, later, i)
    {
      if i < |earlier| {
        assert IsTold(log.events, earlier, i);
        var k :| 0 <= k < |log.events| && Tells(log.events[k], Before(earlier, i), earlier[i]);
        assert after.events[k] == log.events[k] && Before(later, i) == Before(earlier, i);
      } else {
        assert after.events[|log.events|] == event;
      }
    }
  }

  lemma CallAppends(log: Log, call: Call, now: Time, after: Log)
    requires Inv(log) && Disciplined(log, call) && Performs(log, call, now, after)
    requires !call.Delete? && after != log
    ensures exists entry, event :: Appends(log, call.entity, entry, event, after)
  {
    hide History, IsDiff, IdsFresh;
    var history := History(log.entries, call.entity);
    assert Sound(log, call.entity);
    LatestOfNumbered(history);
    var entry := after.entries[|log.entries|];
    var event := after.events[|log.events|];
    if call.Update? && history != [] {
      var previous := history[|history| - 1];
      var diff :|
        && IsDiff(previous.data.fields, call.data.fields, diff)
        && after == Recorded(
                      log, UpdateJournal(previous.journal, call.entity, call.userId, call.notes, call.cause, now),
                      call.data, Some(diff), now);
    }
    assert Appends(log, call.entity, entry, event, after);
  }

  lemma DeletionKeepsInv(log: Log, entity: Entity)
    requires Inv(log)
    ensures Inv(AfterDeletion(log, entity))
  {
    var after := AfterDeletion(log, entity);
    OthersIn(log.entries, entity);
    forall i | 0 <= i < |after.entries|
      ensures after.entries[i] in log.entries
    {
    }
    forall other
      ensures Sound(after, other)
    {
      HistoryWithoutOthers(log.entries, entity, other);
      assert Sound(log, other);
    }
  }

  lemma CallKeepsInv(log: Log, call: Call, now: Time, after: Log)
    requires Inv(log) && Disciplined(log, call) && Performs(log, call, now, after)
    ensures Inv(after)
  {
    hide Inv, Disciplined;
    if call.Delete? {
      DeletionKeepsInv(log, call.entity);
    } else if after != log {
      CallAppends(log, call, now, after);
      var entry, event :| Appends(log, call.entity, entry, event, after);
      InvAfterAppending(log, call.entity, entry, event, after);
    }
  }

  lemma InvAfterAppending(log: Log, entity: Entity, entry: Entry, event: JournalEvent, after: Log)
    requires Inv(log) && Appends(log, entity, entry, event, after)
    ensures Inv(after)
  {
    hide Appends, Sound, IdsFresh;
    AppendingKeepsIds(log, entity, entry, event, after);
    forall other
      ensures Sound(after, other)
    {
      AppendingKeepsSound(log, entity, entry, event, after, other);
    }
  }

  lemma {:induction false} RunKeepsInv(logs: seq<Log>, calls: seq<Call>, times: seq<Time>, i: nat)
    requires IsRun(logs, calls, times) && i < |logs|
    ensures Inv(logs[i])
  {
    hide Inv, Performs, Disciplined;
    if i == 0 {
      EmptyLogIsSound();
    } else {
      RunKeepsInv(logs, calls, times, i - 1);
      CallKeepsInv(logs[i - 1], calls[i - 1], times[i - 1], logs[i]);
    }
  }

  lemma EmptyLogIsSound()
    ensures Inv(Log([], 1, []))
  {
  }

  // ---------- the promises ----------

  /** In every state of every run, an entity's stored versions are 1, 2, ..., n in the order of insertion, ids
      are globally distinct, and the latest journal is the last one recorded. */
  lemma VersionsAreConsecutive(logs: seq<Log>, calls: seq<Call>, times: seq<Time>, k: nat, entity: Entity)
    requires IsRun(logs, calls, times) && k < |logs|
    ensures var history := History(logs[k].entries, entity);
            && (forall i :: 0 <= i < |history| ==> history[i].journal.version == i + 1)
            && Latest(history) == if history == [] then None else Some(history[|history| - 1])
    ensures forall i, j :: 0 <= i < j < |logs[k].entries| ==>
                             logs[k].entries[i].journal.id != logs[k].entries[j].journal.id
  {
    hide History, Performs;
    RunKeepsInv(logs, calls, times, k);
    assert Sound(logs[k], entity);
    LatestOfNumbered(History(logs[k].entries, entity));
  }

  /** No call about one entity touches another's history. */
  lemma OtherHistoriesUntouched(log: Log, call: Call, now: Time, after: Log, other: Entity)
    requires Performs(log, call, now, after) && other != call.entity
    ensures History(after.entries, other) == History(log.entries, other)
  {
    hide History, IsDiff;
    match call {
      case Create(entity, userId, data, notes) =>
        HistoryAppend(log.entries, after.entries[|log.entries|], other);
      case Update(entity, userId, data, notes, cause) =>
        if after != log {
          HistoryAppend(log.entries, after.entries[|log.entries|], other);
        }
      case Delete(entity) =>
        HistoryWithoutOthers(log.entries, entity, other);
    }
  }

  /** After any update the latest snapshot has the submitted fields, even when nothing was recorded; and
      something is recorded exactly when the fields changed, or there are notes, or there was no history. */
  lemma UpdateStoresSubmittedFields(log: Log, call: Call, now: Time, after: Log)
    requires call.Update? && Performs(log, call, now, after)
    ensures var latest := Latest(History(after.entries, call.entity));
            latest.Some? && latest.value.data.fields == call.data.fields
    ensures after == log <==> var before := Latest(History(log.entries, call.entity));
                              before.Some? && before.value.data.fields == call.data.fields && call.notes == None
  {
    hide History, IsDiff;
    var history := History(log.entries, call.entity);
    if after != log {
      var entry := after.entries[|log.entries|];
      HistoryAppend(log.entries, entry, call.entity);
      assert IsAbout(entry, call.entity) && entry.data == call.data;
      assert (history + [entry])[..|history|] == history;
    }
  }

  /** What is recorded is what was submitted, by whom, with the notes and at the time given, one version above
      the latest. The cause of an update is kept unless there was no history: then it counts as a creation. */
  lemma RecordingIsFaithful(log: Log, call: Call, now: Time, after: Log)
    requires !call.Delete? && Performs(log, call, now, after) && after != log
    ensures |after.entries| == |log.entries| + 1 && after.entries[..|log.entries|] == log.entries
    ensures var entry := after.entries[|log.entries|];
            var latest := Latest(History(log.entries, call.entity));
            && entry.data == call.data
            && entry.journal.About() == call.entity
            && entry.journal.userId == call.userId
            && entry.journal.notes == call.notes
            && entry.journal.createdAt == entry.journal.updatedAt == now
            && entry.journal.id == entry.journal.dataId == Some(log.nextId) && after.nextId == log.nextId + 1
            && entry.journal.cause.causeType == (if call.Update? && latest.Some? then call.cause else UserAction)
            && entry.journal.cause.context == None
            && entry.journal.activityId == None
            && entry.journal.version == (if call.Update? && latest.Some? then latest.value.journal.version + 1 else 1)
            && after.events == log.events + [after.events[|log.events|]]
            && after.events[|log.events|].journal == entry.journal.(dataId := None)
            && after.events[|log.events|].data == call.data
            && after.events[|log.events|].timestamp == now
            && (after.events[|log.events|].diff.Some? <==> call.Update? && latest.Some?)
  {
    hide History, IsDiff;
  }

  /** As long as it is not deleted, an entity's history is only added to. */
  lemma {:induction false} HistoryOnlyGrows(
    logs: seq<Log>, calls: seq<Call>, times: seq<Time>, i: nat, j: nat, entity: Entity)
    requires IsRun(logs, calls, times) && i <= j < |logs|
    requires forall k :: i <= k < j ==> !(calls[k].Delete? && calls[k].entity == entity)
    ensures History(logs[i].entries, entity) <= History(logs[j].entries, entity)
    decreases j
  {
    hide History, Inv, Performs, Disciplined;
    if i < j {
      var before, call, after := logs[j - 1], calls[j - 1], logs[j];
      HistoryOnlyGrows(logs, calls, times, i, j - 1, entity);
      assert Performs(before, call, times[j - 1], after);
      if call.entity != entity {
        OtherHistoriesUntouched(before, call, times[j - 1], after, entity);
      } else if after != before {
        RunKeepsInv(logs, calls, times, j - 1);
        CallAppends(before, call, times[j - 1], after);
        var entry, event :| Appends(before, entity, entry, event, after);
        HistoryAppend(before.entries, entry, entity);
      }
    }
  }

  /** What a call recorded is read under its version ever after, until the entity is deleted. */
  lemma VersionReadsBack(logs: seq<Log>, calls: seq<Call>, times: seq<Time>, i: nat, j: nat)
    requires IsRun(logs, calls, times) && i < j < |logs|
    requires !calls[i].Delete? && logs[i + 1] != logs[i]
    requires forall k :: i < k < j ==> !(calls[k].Delete? && calls[k].entity == calls[i].entity)
    ensures var call := calls[i];
            var version := |History(logs[i].entries, call.entity)| + 1;
            match WithVersion(History(logs[j].entries, call.entity), version)
            case None => false
            case Some(entry) =>
              && entry.data == call.data && DataOf(logs[j].entries, entry) == Some(call.data)
              && entry.journal.userId == call.userId && entry.journal.notes == call.notes
              && entry.journal.createdAt == times[i]
  {
    hide History, Inv, Performs, Disciplined, WithVersion, DataOf, Latest;
    var log, call, after := logs[i], calls[i], logs[i + 1];
    assert Performs(log, call, times[i], after);
    RunKeepsInv(logs, calls, times, i);
    CallAppends(log, call, times[i], after);
    var entry, event :| Appends(log, call.entity, entry, event, after);
    RecordingIsFaithful(log, call, times[i], after);
    HistoryAppend(log.entries, entry, call.entity);
    HistoryOnlyGrows(logs, calls, times, i + 1, j, call.entity);
    RunKeepsInv(logs, calls, times, j);
    VersionFound(logs[j], call.entity, |History(log.entries, call.entity)| + 1);
  }

  /** A creation keeps an entity's versions consecutive exactly when the entity had no history. */
  lemma CreationKeepsVersionsIff(
    log: Log, entity: Entity, userId: int, data: Snapshot, notes: Option<string>, now: Time)
    requires Inv(log)
    ensures IsNumbered(History(AfterCreation(log, entity, userId, data, notes, now).entries, entity))
            <==> History(log.entries, entity) == []
  {
    hide History, IdsFresh;
    var history := History(log.entries, entity);
    var entry := Stored(CreationJournal(entity, userId, notes, now), log.nextId, data);
    HistoryAppend(log.entries, entry, entity);
    assert (history + [entry])[|history|].journal.version == 1;
  }

  // ---------- replay ----------

  /** `diffs` are the diffs that were emitted for versions from+1 to from+|diffs| of a history. */
  ghost predicate AreEmitted(events: seq<JournalEvent>, history: seq<Entry>, from: int, diffs: seq<JournalDiff>) {
    && 1 <= from && from + |diffs| <= |history|
    && forall j :: 0 <= j < |diffs| ==> IsEmitted(events, history[from + j].journal.id, diffs[j])
  }

  ghost predicate IsEmitted(events: seq<JournalEvent>, id: Option<int>, diff: JournalDiff) {
    exists k :: 0 <= k < |events| && events[k].journal.id == id && events[k].diff == Some(diff)
  }

  function ApplyAll(fields: Fields, diffs: seq<JournalDiff>): Fields {
    if diffs == [] then fields
    else Apply(ApplyAll(fields, diffs[..|diffs| - 1]), diffs[|diffs| - 1])
  }

  /** The diff emitted for a version is a diff from the version before it. */
  lemma EmittedIsDiff(log: Log, entity: Entity, i: nat, diff: JournalDiff)
    requires Inv(log)
    requires 1 <= i < |History(log.entries, entity)|
    requires IsEmitted(log.events, History(log.entries, entity)[i].journal.id, diff)
    ensures var history := History(log.entries, entity);
            IsDiff(history[i - 1].data.fields, history[i].data.fields, diff)
  {
    hide History, IsDiff;
    var history := History(log.entries, entity);
    assert Sound(log, entity);
    assert IsTold(log.events, history, i);
    var k :| 0 <= k < |log.events| && Tells(log.events[k], Before(history, i), history[i]);
    var m :|
      && 0 <= m < |log.events|
      && log.events[m].journal.id == history[i].journal.id
      && log.events[m].diff == Some(diff);
    assert k == m by {
      assert log.events[k].journal.id == log.events[m].journal.id;
      assert IdsFresh(log);
    }
  }

  lemma {:induction false} ReplayFrom(log: Log, entity: Entity, from: int, diffs: seq<JournalDiff>)
    requires Inv(log)
    requires AreEmitted(log.events, History(log.entries, entity), from, diffs)
    ensures var history := History(log.entries, entity);
            ApplyAll(history[from - 1].data.fields, diffs) == history[from + |diffs| - 1].data.fields
    decreases |diffs|
  {
    hide History, Inv, IsEmitted, IsDiff, Apply;
    if diffs != [] {
      var last := |diffs| - 1;
      var history := History(log.entries, entity);
      ReplayFrom(log, entity, from, diffs[..last]);
      EmittedIsDiff(log, entity, from + last, diffs[last]);
      ApplyDiff(history[from + last - 1].data.fields, history[from + last].data.fields, diffs[last]);
    }
  }

  /** The versions of a numbered history are found where they belong, with their own data. */
  lemma VersionFound(log: Log, entity: Entity, version: int)
    requires Inv(log)
    ensures var history := History(log.entries, entity);
            if 1 <= version <= |history|
            then WithVersion(history, version) == Some(history[version - 1])
                 && DataOf(log.entries, history[version - 1]) == Some(history[version - 1].data)
            else WithVersion(history, version) == None
  {
    hide History;
    var history := History(log.entries, entity);
    assert Sound(log, entity);
    var test := (entry: Entry) => entry.journal.version == version;
    if 1 <= version <= |history| {
      FirstFrom(history, test, version - 1);
      var entry := history[version - 1];
      HistoryIn(log.entries, entity);
      assert entry in log.entries;
      var k :| 0 <= k < |log.entries| && log.entries[k] == entry;
      FirstFrom(log.entries, (e: Entry) => e.journal.dataId == Some(entry.journal.dataId.value), k);
    } else {
      FirstFrom(history, test, |history|);
    }
  }

  /** Replay. In every state of every run, applying the emitted diffs of versions a+1 to b, in order, to the fields at
      version a gives the fields at version b; so does the one diff that `get_diff` answers, and it answers
      one for all versions up to the present. */
  lemma ReplayRebuildsState(
    logs: seq<Log>, calls: seq<Call>, times: seq<Time>, k: nat, entity: Entity, a: int, b: int,
    diffs: seq<JournalDiff>, answer: Result<JournalDiff, JournalError>)
    requires IsRun(logs, calls, times) && k < |logs|
    requires 1 <= a <= b <= |History(logs[k].entries, entity)|
    requires |diffs| == b - a && AreEmitted(logs[k].events, History(logs[k].entries, entity), a, diffs)
    requires Diffs(logs[k].entries, entity, a, b, answer)
    ensures var history := History(logs[k].entries, entity);
            && ApplyAll(history[a - 1].data.fields, diffs) == history[b - 1].data.fields
            && answer.Ok?
            && Apply(history[a - 1].data.fields, answer.value) == history[b - 1].data.fields
  {
    hide History, Inv, IsRun, AreEmitted, WithVersion, DataOf, IsDiff, Apply;
    RunKeepsInv(logs, calls, times, k);
    var log := logs[k];
    var history := History(log.entries, entity);
    ReplayFrom(log, entity, a, diffs);
    VersionFound(log, entity, a);
    VersionFound(log, entity, b);
    ApplyDiff(history[a - 1].data.fields, history[b - 1].data.fields, answer.value);
  }

  /** The emitted diffs of all later versions do exist. */
  lemma {:induction false} DiffsWereEmitted(log: Log, entity: Entity, a: int, b: int) returns (diffs: seq<JournalDiff>)
    requires Inv(log) && 1 <= a <= b <= |History(log.entries, entity)|
    ensures |diffs| == b - a && AreEmitted(log.events, History(log.entries, entity), a, diffs)
    decreases b - a
  {
    hide History, IsDiff, IdsFresh;
    if a == b {
      diffs := [];
    } else {
      var history := History(log.entries, entity);
      diffs := DiffsWereEmitted(log, entity, a, b - 1);
      assert Sound(log, entity);
      assert IsTold(log.events, history, b - 1);
      var m :| 0 <= m < |log.events| && Tells(log.events[m], Before(history, b - 1), history[b - 1]);
      assert IsEmitted(log.events, history[b - 1].journal.id, log.events[m].diff.value);
      diffs := diffs + [log.events[m].diff.value];
    }
  }

  /** `get_diff` fails exactly for versions that are not stored, naming the first of them. */
  lemma DiffFailsIffMissing(log: Log, entity: Entity, a: int, b: int, answer: Result<JournalDiff, JournalError>)
    requires Inv(log) && Diffs(log.entries, entity, a, b, answer)
    ensures var n := |History(log.entries, entity)|;
            && (answer.Ok? <==> 1 <= a <= n && 1 <= b <= n)
            && (answer.Err? ==> answer.error == NotFound(if 1 <= a <= n then b else a))
  {
    hide History, Inv, WithVersion, DataOf, IsDiff;
    VersionFound(log, entity, a);
    VersionFound(log, entity, b);
  }
}
