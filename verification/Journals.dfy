/** The journal store and the journal service: an append-only log of versioned snapshots. */
module Journals {
  import opened Wrappers
  import opened Clock
  import opened JournalData

  datatype JournalType =
    | WorkPackage | Project | User | Wiki | Meeting | Budget | Document | TimeEntry | News | Message

  datatype CauseType = UserAction | SystemChange | Workflow | Import | Api | BulkUpdate

  datatype JournalCause = JournalCause(causeType: CauseType, context: Option<string>)

  /** What a journal is about. */
  datatype Entity = Entity(journableType: JournalType, journableId: int)

  datatype Journal = Journal(
    id: Option<int>,
    journableType: JournalType,
    journableId: int,
    version: int,
    userId: int,
    notes: Option<string>,
    activityId: Option<int>,
    createdAt: Time,
    updatedAt: Time,
    dataId: Option<int>,
    cause: JournalCause
  ) {

    static function New(entity: Entity, version: int, userId: int, now: Time): Journal {
      Journal(None, entity.journableType, entity.journableId, version, userId, None, None, now, now, None,
              JournalCause(UserAction, None))
    }

    static function Initial(entity: Entity, userId: int, now: Time): Journal {
      New(entity, 1, userId, now)
    }

    function WithNotes(notes: Option<string>): Journal {
      if notes.Some? then this.(notes := notes) else this
    }

    function WithCause(causeType: CauseType, context: Option<string>): Journal {
      this.(cause := JournalCause(causeType, context))
    }

    function About(): Entity {
      Entity(journableType, journableId)
    }
  }

  /** A stored journal with its snapshot. */
  datatype Entry = Entry(journal: Journal, data: Snapshot)

  /** What event handlers are told. */
  datatype JournalEvent = JournalEvent(journal: Journal, data: Snapshot, diff: Option<JournalDiff>, timestamp: Time)

  datatype JournalError = NotFound(id: int) | InvalidData(message: string)

  // ---------- specification of the store's searches ----------

  predicate IsAbout(entry: Entry, entity: Entity) {
    entry.journal.About() == entity
  }

  /** The entries about an entity, in insertion order. */
  function History(entries: seq<Entry>, entity: Entity): seq<Entry> {
    if entries == [] then []
    else
      var last := |entries| - 1;
      History(entries[..last], entity) + if IsAbout(entries[last], entity) then [entries[last]] else []
  }

  function Others(entries: seq<Entry>, entity: Entity): seq<Entry> {
    if entries == [] then []
    else
      var last := |entries| - 1;
      Others(entries[..last], entity) + if IsAbout(entries[last], entity) then [] else [entries[last]]
  }

  /** The entry of the highest version, the last of them if there are several. */
  function Latest(history: seq<Entry>): Option<Entry> {
    if history == [] then None
    else
      var last := history[|history| - 1];
      var best := Latest(history[..|history| - 1]);
      if best.Some? && best.value.journal.version > last.journal.version then best else Some(last)
  }

  /** The first entry that satisfies a test. */
  function First(entries: seq<Entry>, test: Entry -> bool): Option<Entry> {
    if entries == [] then None
    else if test(entries[0]) then Some(entries[0])
    else First(entries[1..], test)
  }

  function WithVersion(history: seq<Entry>, version: int): Option<Entry> {
    First(history, (entry: Entry) => entry.journal.version == version)
  }

  function WithDataId(entries: seq<Entry>, dataId: int): Option<Entry> {
    First(entries, (entry: Entry) => entry.journal.dataId == Some(dataId))
  }

  /** The entry the store makes of a journal. */
  function Stored(journal: Journal, id: int, data: Snapshot): Entry {
    Entry(journal.(id := Some(id), dataId := Some(id)), data)
  }

  lemma {:induction false} FirstFrom(entries: seq<Entry>, test: Entry -> bool, i: nat)
    requires i <= |entries| && forall k :: 0 <= k < i ==> !test(entries[k])
    ensures First(entries, test) == First(entries[i..], test)
    decreases i
  {
    if i > 0 {
      FirstFrom(entries[1..], test, i - 1);
      assert entries[1..][i - 1..] == entries[i..];
    }
  }

  class MemoryJournalStore {
    var journals: seq<Entry>
    var nextId: int

    constructor ()
      ensures journals == [] && nextId == 1
    {
      journals, nextId := [], 1;
    }

    method Create(journal: Journal, data: Snapshot) returns (id: int)
      modifies this
      ensures id == old(nextId) && nextId == old(nextId) + 1
      ensures journals == old(journals) + [Stored(journal, id, data)]
    {
      id := nextId;
      nextId := nextId + 1;
      journals := journals + [Entry(journal.(id := Some(id), dataId := Some(id)), data)];
    }

    method Get(id: int) returns (found: Option<Entry>)
      ensures found == First(journals, (entry: Entry) => entry.journal.id == Some(id))
    {
      ghost var test := (entry: Entry) => entry.journal.id == Some(id);
      for i := 0 to |journals|
        invariant forall k :: 0 <= k < i ==> journals[k].journal.id != Some(id)
      {
        if journals[i].journal.id == Some(id) {
          FirstFrom(journals, test, i);
          return Some(journals[i]);
        }
      }
      FirstFrom(journals, test, |journals|);
      return None;
    }

    /** The journals of an entity, here together with their snapshots. */
    method GetForEntity(entity: Entity) returns (history: seq<Entry>)
      ensures history == History(journals, entity)
    {
      history := [];
      for i := 0 to |journals|
        invariant history == History(journals[..i], entity)
      {
        assert journals[..i + 1][..i] == journals[..i];
        if IsAbout(journals[i], entity) {
          history := history + [journals[i]];
        }
      }
      assert journals[..|journals|] == journals;
    }

    method GetLatest(entity: Entity) returns (latest: Option<Entry>)
      ensures latest == Latest(History(journals, entity))
    {
      latest := None;
      for i := 0 to |journals|
        invariant latest == Latest(History(journals[..i], entity))
      {
        assert journals[..i + 1][..i] == journals[..i];
        ghost var before := History(journals[..i], entity);
        if !IsAbout(journals[i], entity) {
          assert History(journals[..i + 1], entity) == before;
        } else {
          assert History(journals[..i + 1], entity) == before + [journals[i]];
          assert (before + [journals[i]])[..|before|] == before;
          if latest == None || latest.value.journal.version <= journals[i].journal.version {
            latest := Some(journals[i]);
          }
        }
      }
      assert journals[..|journals|] == journals;
    }

    method GetCurrentVersion(entity: Entity) returns (version: int)
      ensures version == match Latest(History(journals, entity)) { case Some(e) => e.journal.version case None => 0 }
    {
      var latest := GetLatest(entity);
      version := match latest { case Some(e) => e.journal.version case None => 0 };
    }

    method GetData(dataId: int) returns (data: Option<Snapshot>)
      ensures data == match WithDataId(journals, dataId) { case Some(e) => Some(e.data) case None => None }
    {
      ghost var test := (entry: Entry) => entry.journal.dataId == Some(dataId);
      for i := 0 to |journals|
        invariant forall k :: 0 <= k < i ==> journals[k].journal.dataId != Some(dataId)
      {
        if journals[i].journal.dataId == Some(dataId) {
          FirstFrom(journals, test, i);
          return Some(journals[i].data);
        }
      }
      FirstFrom(journals, test, |journals|);
      return None;
    }

    method DeleteForEntity(entity: Entity) returns (count: nat)
      modifies this`journals
      ensures journals == Others(old(journals), entity)
      ensures count == |old(journals)| - |journals|
    {
      var before := journals;
      var kept := [];
      for i := 0 to |before|
        invariant kept == Others(before[..i], entity) && |kept| <= i
      {
        assert before[..i + 1][..i] == before[..i];
        if !IsAbout(before[i], entity) {
          kept := kept + [before[i]];
        }
      }
      assert before[..|before|] == before;
      journals := kept;
      count := |before| - |journals|;
    }
  }

  // ---------- the service ----------

  /** The state of the service: the store, and what the handlers have been told so far. */
  datatype Log = Log(entries: seq<Entry>, nextId: int, events: seq<JournalEvent>)

  /** A journal and its event go in together; the event carries the id but not the data id. */
  function Recorded(log: Log, journal: Journal, data: Snapshot, diff: Option<JournalDiff>, now: Time): Log {
    Log(
      log.entries + [Stored(journal, log.nextId, data)],
      log.nextId + 1,
      log.events + [JournalEvent(journal.(id := Some(log.nextId)), data, diff, now)])
  }

  function CreationJournal(entity: Entity, userId: int, notes: Option<string>, now: Time): Journal {
    Journal.Initial(entity, userId, now).WithNotes(notes)
  }

  function UpdateJournal(
    previous: Journal, entity: Entity, userId: int, notes: Option<string>, cause: CauseType, now: Time): Journal
  {
    Journal.New(entity, previous.version + 1, userId, now).WithCause(cause, None).WithNotes(notes)
  }

  function AfterCreation(log: Log, entity: Entity, userId: int, data: Snapshot, notes: Option<string>, now: Time): Log {
    Recorded(log, CreationJournal(entity, userId, notes, now), data, None, now)
  }

  /** What an update does. The order of the diff's changes is open. */
  ghost predicate Updates(
    log: Log, entity: Entity, userId: int, data: Snapshot, notes: Option<string>, cause: CauseType, now: Time,
    after: Log)
  {
    match Latest(History(log.entries, entity))
    case None => after == AfterCreation(log, entity, userId, data, notes, now)
    case Some(previous) =>
      if previous.data.fields == data.fields && notes.None? then after == log
      else
        exists diff ::
          && IsDiff(previous.data.fields, data.fields, diff)
          && after == Recorded(
                        log, UpdateJournal(previous.journal, entity, userId, notes, cause, now), data, Some(diff), now)
  }

  function AfterDeletion(log: Log, entity: Entity): Log {
    log.(entries := Others(log.entries, entity))
  }

  /** The diff between two stored versions, or why there is none. */
  ghost predicate Diffs(
    entries: seq<Entry>, entity: Entity, from: int, to: int, result: Result<JournalDiff, JournalError>)
  {
    var history := History(entries, entity);
    match (WithVersion(history, from), WithVersion(history, to))
    case (None, _) => result == Err(NotFound(from))
    case (Some(_), None) => result == Err(NotFound(to))
    case (Some(a), Some(b)) =>
      match (DataOf(entries, a), DataOf(entries, b))
      case (Some(fromData), Some(toData)) => result.Ok? && IsDiff(fromData.fields, toData.fields, result.value)
      case (_, _) => result == Err(InvalidData("Missing journal data"))
  }

  /** The snapshot an entry points to. */
  function DataOf(entries: seq<Entry>, entry: Entry): Option<Snapshot> {
    match entry.journal.dataId
    case None => None
    case Some(id) => match WithDataId(entries, id) { case Some(e) => Some(e.data) case None => None }
  }

  class JournalService {
    const store: MemoryJournalStore
    var emitted: seq<JournalEvent>

    ghost function State(): Log
      reads this, store
    {
      Log(store.journals, store.nextId, emitted)
    }

    constructor (store: MemoryJournalStore)
      ensures this.store == store && emitted == []
    {
      this.store, this.emitted := store, [];
    }

    method EmitEvent(event: JournalEvent)
      modifies this`emitted
      ensures emitted == old(emitted) + [event]
    {
      emitted := emitted + [event];
    }

    method RecordCreation(entity: Entity, userId: int, data: Snapshot, notes: Option<string>, now: Time)
      returns (journal: Journal)
      modifies this, store
      ensures State() == AfterCreation(old(State()), entity, userId, data, notes, now)
      ensures journal == CreationJournal(entity, userId, notes, now).(id := Some(old(store.nextId)))
    {
      journal := Journal.Initial(entity, userId, now);
      if notes.Some? {
        journal := journal.WithNotes(notes);
      }
      var id := store.Create(journal, data);
      journal := journal.(id := Some(id));
      EmitEvent(JournalEvent(journal, data, None, now));
    }

    method RecordUpdate(
      entity: Entity, userId: int, data: Snapshot, notes: Option<string>, cause: CauseType, now: Time)
      returns (journal: Option<Journal>)
      modifies this, store
      ensures Updates(old(State()), entity, userId, data, notes, cause, now, State())
      ensures journal.None? <==> State() == old(State())
      ensures journal.Some? ==>
                && |State().entries| == |old(State()).entries| + 1
                && journal.value == State().entries[|old(State()).entries|].journal.(dataId := None)
    {
      var latest := store.GetLatest(entity);
      if latest == None {
        var created := RecordCreation(entity, userId, data, notes, now);
        return Some(created);
      }
      var previous := latest.value;
      var diff := Compute(previous.data, data);
      EmptyIffEqual(previous.data.fields, data.fields, diff);
      if diff == [] && notes.None? {
        return None;
      }
      var next := Journal.New(entity, previous.journal.version + 1, userId, now).WithCause(cause, None);
      if notes.Some? {
        next := next.WithNotes(notes);
      }
      var id := store.Create(next, data);
      next := next.(id := Some(id));
      EmitEvent(JournalEvent(next, data, Some(diff), now));
      return Some(next);
    }

    method GetDiff(entity: Entity, from: int, to: int) returns (result: Result<JournalDiff, JournalError>)
      ensures Diffs(store.journals, entity, from, to, result)
    {
      var journals := store.GetForEntity(entity);
      var a := FindVersion(journals, from);
      if a == None {
        return Err(NotFound(from));
      }
      var b := FindVersion(journals, to);
      if b == None {
        return Err(NotFound(to));
      }
      var fromData, toData := None, None;
      if a.value.journal.dataId.Some? {
        fromData := store.GetData(a.value.journal.dataId.value);
      }
      if fromData == None {
        return Err(InvalidData("Missing journal data"));
      }
      if b.value.journal.dataId.Some? {
        toData := store.GetData(b.value.journal.dataId.value);
      }
      if toData == None {
        return Err(InvalidData("Missing journal data"));
      }
      var diff := Compute(fromData.value, toData.value);
      return Ok(diff);
    }

    method FindVersion(journals: seq<Entry>, version: int) returns (found: Option<Entry>)
      ensures found == WithVersion(journals, version)
    {
      ghost var test := (entry: Entry) => entry.journal.version == version;
      for i := 0 to |journals|
        invariant forall k :: 0 <= k < i ==> journals[k].journal.version != version
      {
        if journals[i].journal.version == version {
          FirstFrom(journals, test, i);
          return Some(journals[i]);
        }
      }
      FirstFrom(journals, test, |journals|);
      return None;
    }

    method DeleteHistory(entity: Entity) returns (count: nat)
      modifies store`journals
      ensures State() == AfterDeletion(old(State()), entity)
      ensures count == |old(store.journals)| - |store.journals|
    {
      count := store.DeleteForEntity(entity);
    }
  }
}
