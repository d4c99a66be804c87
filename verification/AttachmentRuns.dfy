/** Sequential runs of the attachment service: the records and the blobs agree after every call. */
module AttachmentRuns {
  import opened Wrappers
  import opened Clock
  import opened Storage
  import opened Attachments

  function Uuids(call: Call): set<string> {
    match call
    case Create(_, _, _, uuid) => {uuid}
    case CopyTo(_, _, _, _, uuid) => {uuid}
    case _ => {}
  }

  /** The vault together with the UUIDs generated so far. */
  datatype World = World(vault: Vault, used: set<string>)

  ghost predicate Next(setting: Setting, w: World, call: Call, now: Time, v: World) {
    && (forall uuid :: uuid in Uuids(call) ==> |uuid| == UUID_LENGTH && uuid !in w.used)
    && v == World(Performed(setting, w.vault, call, now), w.used + Uuids(call))
  }

  ghost predicate IsRun(setting: Setting, worlds: seq<World>, calls: seq<Call>, times: seq<Time>) {
    && |worlds| == |calls| + 1 && |times| == |calls|
    && worlds[0] == World(Vault([], 1, map[]), {})
    && forall i :: 0 <= i < |calls| ==> Next(setting, worlds[i], calls[i], times[i], worlds[i + 1])
  }

  // ---------- the invariant ----------

  ghost predicate Distinct(records: Records) {
    forall i, j :: 0 <= i < j < |records| ==>
                     records[i].id != records[j].id && records[i].diskFilename != records[j].diskFilename
  }

  ghost predicate IdsBelow(records: Records, nextId: int) {
    forall a :: a in records ==> a.id.Some? && a.id.value < nextId
  }

  /** The record's blob is there, and size and digest are true of it. */
  predicate IsStocked(platform: Platform, a: Attachment, files: Files) {
    && a.diskFilename in files
    && a.filesize == |files[a.diskFilename].data|
    && a.digest == platform.digest(files[a.diskFilename].data)
  }

  predicate IsPermitted(config: AttachmentConfig, a: Attachment) {
    a.filesize <= config.allowedTypes.maxFileSize && config.allowedTypes.IsAllowed(a.contentType)
  }

  predicate IsAcceptable(setting: Setting, a: Attachment, files: Files) {
    IsStocked(setting.platform, a, files) && IsPermitted(setting.config, a)
  }

  ghost predicate HasKey(records: Records, key: string) {
    exists a :: a in records && a.diskFilename == key
  }

  /** No blob without a record, and every key made from a UUID already used. */
  ghost predicate NothingLeaks(records: Records, files: Files, used: set<string>) {
    forall key :: key in files ==> HasKey(records, key) && UuidOf(key) in used
  }

  ghost predicate Inv(setting: Setting, w: World) {
    && Distinct(w.vault.records)
    && IdsBelow(w.vault.records, w.vault.nextId)
    && (forall a :: a in w.vault.records ==> IsAcceptable(setting, a, w.vault.files))
    && NothingLeaks(w.vault.records, w.vault.files, w.used)
  }

  // ---------- searching and filtering ----------

  lemma {:induction false} FindIn(records: Records, id: int)
    ensures match Find(records, id)
            case Some(a) => a in records && a.id == Some(id)
            case None => forall a :: a in records ==> a.id != Some(id)
  {
    if records != [] {
      FindIn(records[1..], id);
      assert records == [records[0]] + records[1..];
    }
  }

  lemma {:induction false} RetainIn(records: Records, keep: Attachment -> bool)
    ensures forall a :: a in Retain(records, keep) <==> a in records && keep(a)
    ensures Distinct(records) ==> Distinct(Retain(records, keep))
  {
    if records != [] {
      var last := |records| - 1;
      var front := Retain(records[..last], keep);
      RetainIn(records[..last], keep);
      assert records == records[..last] + [records[last]];
      if Distinct(records) && keep(records[last]) {
        assert Distinct(records[..last]);
        forall i | 0 <= i < |front|
          ensures front[i].id != records[last].id && front[i].diskFilename != records[last].diskFilename
        {
          assert front[i] in records[..last];
          var k :| 0 <= k < last && records[k] == front[i];
        }
      }
    }
  }

  /** Two records of a distinct list that share an id or a storage name are the same. */
  lemma SameRecord(records: Records, a: Attachment, b: Attachment)
    requires Distinct(records) && a in records && b in records
    requires a.id == b.id || a.diskFilename == b.diskFilename
    ensures a == b
  {
    var i :| 0 <= i < |records| && records[i] == a;
    var j :| 0 <= j < |records| && records[j] == b;
  }

  lemma {:induction false} OverwriteFound(records: Records, a: Attachment, b: Attachment)
    requires Distinct(records) && a in records && b.id == a.id
    ensures exists i :: 0 <= i < |records| && records[i] == a && Overwrite(records, b) == records[i := b]
  {
    var i :| 0 <= i < |records| && records[i] == a;
    OverwriteAt(records, b, i);
  }

  // ---------- each call keeps the invariant ----------

  lemma AddKeepsInv(setting: Setting, w: World, record: Attachment, uuid: string, blob: Blob)
    requires Inv(setting, w)
    requires UuidOf(record.diskFilename) == uuid && uuid !in w.used
    requires record.filesize == |blob.data| && record.digest == setting.platform.digest(blob.data)
    requires IsPermitted(setting.config, record)
    ensures Inv(setting, World(Add(w.vault, record, record.diskFilename, blob), w.used + {uuid}))
  {
    hide UuidOf, IsPermitted;
    var key := record.diskFilename;
    var after := Add(w.vault, record, key, blob);
    assert key !in w.vault.files;
    forall a | a in w.vault.records
      ensures a.diskFilename != key && a.id != Some(w.vault.nextId)
      ensures IsAcceptable(setting, a, after.files)
    {
      assert IsAcceptable(setting, a, w.vault.files);
    }
    assert IsAcceptable(setting, record.(id := Some(w.vault.nextId)), after.files) by {
      PermissionIgnoresId(setting.config, record, Some(w.vault.nextId));
    }
    forall k | k in after.files
      ensures HasKey(after.records, k) && UuidOf(k) in w.used + {uuid}
    {
      if k == key {
        assert after.records[|w.vault.records|].diskFilename == key;
      } else {
        assert HasKey(w.vault.records, k);
        var a :| a in w.vault.records && a.diskFilename == k;
        assert a in after.records;
      }
    }
  }

  lemma PermissionIgnoresId(config: AttachmentConfig, a: Attachment, id: Option<int>)
    ensures IsPermitted(config, a.(id := id)) == IsPermitted(config, a)
  {
  }

  /** A change of a record that leaves alone its identity, its blob's description and its content type. */
  predicate SameFile(a: Attachment, b: Attachment) {
    && a.id == b.id && a.diskFilename == b.diskFilename
    && a.filesize == b.filesize && a.digest == b.digest && a.contentType == b.contentType
  }

  lemma UpdateKeepsDistinct(records: Records, i: nat, b: Attachment, nextId: int)
    requires Distinct(records) && IdsBelow(records, nextId) && i < |records| && SameFile(records[i], b)
    ensures Distinct(records[i := b]) && IdsBelow(records[i := b], nextId)
  {
  }

  lemma UpdateKeepsKeys(records: Records, i: nat, b: Attachment, key: string)
    requires i < |records| && SameFile(records[i], b) && HasKey(records, key)
    ensures HasKey(records[i := b], key)
  {
    var c :| c in records && c.diskFilename == key;
    var j :| 0 <= j < |records| && records[j] == c;
    assert records[i := b][j] in records[i := b] && records[i := b][j].diskFilename == key;
  }

  lemma UpdateKeepsInv(setting: Setting, w: World, a: Attachment, b: Attachment)
    requires Inv(setting, w) && a in w.vault.records && SameFile(a, b)
    ensures Inv(setting, w.(vault := AfterUpdate(w.vault, b)))
  {
    hide Distinct, IdsBelow, HasKey;
    var records := w.vault.records;
    OverwriteFound(records, a, b);
    var i :| 0 <= i < |records| && records[i] == a && Overwrite(records, b) == records[i := b];
    UpdateKeepsDistinct(records, i, b, w.vault.nextId);
    forall c | c in records[i := b]
      ensures IsAcceptable(setting, c, w.vault.files)
    {
      assert IsAcceptable(setting, a, w.vault.files);
    }
    forall key | key in w.vault.files
      ensures HasKey(records[i := b], key)
    {
      UpdateKeepsKeys(records, i, b, key);
    }
  }

  lemma DeleteKeepsInv(setting: Setting, w: World, id: int)
    requires Inv(setting, w)
    ensures Inv(setting, w.(vault := AfterDelete(w.vault, id)))
    ensures forall a :: a in AfterDelete(w.vault, id).records <==> a in w.vault.records && a.id != Some(id)
    ensures forall key :: key in AfterDelete(w.vault, id).files ==>
                            key in w.vault.files && AfterDelete(w.vault, id).files[key] == w.vault.files[key]
  {
    var records := w.vault.records;
    FindIn(records, id);
    RetainIn(records, (a: Attachment) => a.id != Some(id));
    var found := Find(records, id);
    if found.Some? {
      var after := AfterDelete(w.vault, id);
      forall a | a in after.records
        ensures IsAcceptable(setting, a, after.files)
      {
        if a.diskFilename == found.value.diskFilename {
          SameRecord(records, a, found.value);
        }
      }
      forall key | key in after.files
        ensures HasKey(after.records, key)
      {
        assert HasKey(records, key);
        var a :| a in records && a.diskFilename == key;
        if a.id == Some(id) {
          SameRecord(records, a, found.value);
        }
      }
    }
  }

  lemma {:induction false} DeletesKeepInv(setting: Setting, w: World, doomed: Records)
    requires Inv(setting, w) && forall a :: a in doomed ==> a in w.vault.records
    ensures Inv(setting, w.(vault := AfterDeletes(w.vault, doomed)))
    ensures forall a :: a in AfterDeletes(w.vault, doomed).records <==> a in w.vault.records && a !in doomed
    ensures forall key :: key in AfterDeletes(w.vault, doomed).files ==>
                            key in w.vault.files && AfterDeletes(w.vault, doomed).files[key] == w.vault.files[key]
    decreases |doomed|
  {
    hide AfterDelete, IsAcceptable, NothingLeaks;
    if doomed != [] {
      var last := |doomed| - 1;
      assert doomed == doomed[..last] + [doomed[last]];
      assert doomed[last] in doomed;
      DeletesKeepInv(setting, w, doomed[..last]);
      var before := w.(vault := AfterDeletes(w.vault, doomed[..last]));
      DeleteKeepsInv(setting, before, doomed[last].id.value);
      forall a | a in w.vault.records && a.id == doomed[last].id
        ensures a == doomed[last]
      {
        SameRecord(w.vault.records, a, doomed[last]);
      }
    }
  }

  lemma CreateKeepsInv(setting: Setting, w: World, call: Call, now: Time, v: World)
    requires Inv(setting, w) && call.Create? && Next(setting, w, call, now, v)
    ensures Inv(setting, v)
  {
    if Rejection(setting.config, setting.platform, call.params, call.data).None? {
      var key := GenerateDiskFilename(setting.platform, call.uuid, call.params.filename);
      var blob := MakeBlob(setting.platform, key, call.data, now);
      DiskFilenameKeepsUuid(setting.platform, call.uuid, call.params.filename);
      var record := UploadRecord(setting.platform, call.params, key, blob, call.authorId, now);
      AddKeepsInv(setting, w, record, call.uuid, blob);
    }
  }

  lemma CopyKeepsInv(setting: Setting, w: World, call: Call, now: Time, v: World)
    requires Inv(setting, w) && call.CopyTo? && Next(setting, w, call, now, v)
    ensures Inv(setting, v)
  {
    FindIn(w.vault.records, call.id);
    var found := Find(w.vault.records, call.id);
    if found.Some? {
      var source := found.value;
      assert IsAcceptable(setting, source, w.vault.files);
      var key := GenerateDiskFilename(setting.platform, call.uuid, source.filename);
      DiskFilenameKeepsUuid(setting.platform, call.uuid, source.filename);
      AddKeepsInv(
        setting, w, CopyRecord(source, key, call.containerType, call.containerId, call.authorId, now), call.uuid,
        w.vault.files[source.diskFilename]);
    }
  }

  lemma CallKeepsInv(setting: Setting, w: World, call: Call, now: Time, v: World)
    requires Inv(setting, w) && Next(setting, w, call, now, v)
    ensures Inv(setting, v)
  {
    hide Inv, Overwrite, AfterDelete, AfterDeletes;
    match call {
      case Create(_, _, _, _) => CreateKeepsInv(setting, w, call, now, v);
      case CopyTo(_, _, _, _, _) => CopyKeepsInv(setting, w, call, now, v);
      case Download(id) =>
        FindIn(w.vault.records, id);
        var found := Find(w.vault.records, id);
        if found.Some? {
          UpdateKeepsInv(setting, w, found.value, found.value.IncrementDownloads(now));
        }
      case AttachTo(id, containerType, containerId) =>
        FindIn(w.vault.records, id);
        var found := Find(w.vault.records, id);
        if found.Some? {
          var attached := found.value.ForContainer(containerType, containerId).(updatedAt := now);
          UpdateKeepsInv(setting, w, found.value, attached);
        }
      case Delete(id) => DeleteKeepsInv(setting, w, id);
      case CleanupOrphans =>
        var cutoff := now - setting.config.cleanupOrphansAfter;
        RetainIn(w.vault.records, (a: Attachment) => a.IsOrphan(cutoff));
        DeletesKeepInv(setting, w, Orphans(w.vault.records, cutoff));
    }
    assert w.used + {} == w.used;
  }

  lemma {:induction false} RunKeepsInv(setting: Setting, worlds: seq<World>, calls: seq<Call>, times: seq<Time>, i: nat)
    requires IsRun(setting, worlds, calls, times) && i < |worlds|
    ensures Inv(setting, worlds[i])
  {
    hide Performed;
    if i > 0 {
      RunKeepsInv(setting, worlds, calls, times, i - 1);
      CallKeepsInv(setting, worlds[i - 1], calls[i - 1], times[i - 1], worlds[i]);
    }
  }

  // ---------- the promises ----------

  /** After every call of every run the records and the blobs correspond one to one: each record's storage name is a
      stored key that no other record has, and each stored key is some record's. Each record's size and
      digest are those of its blob, and size limit and content type hold of every record, copies included. */
  lemma RecordsMatchBlobs(setting: Setting, worlds: seq<World>, calls: seq<Call>, times: seq<Time>, i: nat)
    requires IsRun(setting, worlds, calls, times) && i < |worlds|
    ensures var vault := worlds[i].vault;
            && (forall key :: key in vault.files <==> exists a :: a in vault.records && a.diskFilename == key)
            && (forall j, k :: 0 <= j < k < |vault.records| ==>
                  vault.records[j].id != vault.records[k].id
                  && vault.records[j].diskFilename != vault.records[k].diskFilename)
            && (forall a :: a in vault.records ==>
                  && a.diskFilename in vault.files
                  && a.filesize == |vault.files[a.diskFilename].data| <= setting.config.allowedTypes.maxFileSize
                  && a.digest == setting.platform.digest(vault.files[a.diskFilename].data)
                  && a.contentType !in setting.config.allowedTypes.blocked
                  && (setting.config.allowedTypes.allowed != [] ==>
                        a.contentType in setting.config.allowedTypes.allowed))
  {
    RunKeepsInv(setting, worlds, calls, times, i);
    var vault := worlds[i].vault;
    forall a | a in vault.records
      ensures IsAcceptable(setting, a, vault.files)
    {
    }
    forall key | key in vault.files
      ensures exists a :: a in vault.records && a.diskFilename == key
    {
      assert HasKey(vault.records, key);
    }
  }

  /** Cleaning up removes exactly the unattached records older than the cutoff, and exactly their blobs. */
  lemma CleanupIsExact(setting: Setting, w: World, now: Time)
    requires Inv(setting, w)
    ensures var after := Performed(setting, w.vault, CleanupOrphans, now);
            var cutoff := now - setting.config.cleanupOrphansAfter;
            && (forall a :: a in after.records <==>
                              a in w.vault.records && !(a.containerId.None? && a.createdAt < cutoff))
            && (forall a :: a in w.vault.records ==>
                  (a.diskFilename in after.files <==> !(a.containerId.None? && a.createdAt < cutoff)))
            && (forall key :: key in after.files ==> key in w.vault.files && after.files[key] == w.vault.files[key])
  {
    hide IsAcceptable, AfterDeletes, Retain, IdsBelow, UuidOf;
    var cutoff := now - setting.config.cleanupOrphansAfter;
    var orphans := Orphans(w.vault.records, cutoff);
    var after := Performed(setting, w.vault, CleanupOrphans, now);
    RetainIn(w.vault.records, (a: Attachment) => a.IsOrphan(cutoff));
    DeletesKeepInv(setting, w, orphans);
    forall a | a in w.vault.records
      ensures a.diskFilename in after.files <==> a in after.records
    {
      if a.diskFilename in after.files {
        assert HasKey(after.records, a.diskFilename);
        var b :| b in after.records && b.diskFilename == a.diskFilename;
        SameRecord(w.vault.records, a, b);
      }
      if a in after.records {
        AcceptableIsStored(setting, a, after.files);
      }
    }
  }

  lemma AcceptableIsStored(setting: Setting, a: Attachment, files: Files)
    requires IsAcceptable(setting, a, files)
    ensures a.diskFilename in files
  {
  }

  /** An upload is turned down for its size, or else for its type, which is the one given or else guessed. */
  lemma UploadIsAcceptedIff(config: AttachmentConfig, platform: Platform, params: CreateParams, data: Bytes)
    ensures var limits := config.allowedTypes;
            var contentType := if params.contentType.Some? then params.contentType.value
                               else platform.guessType(params.filename);
            Rejection(config, platform, params, data)
            == if |data| > limits.maxFileSize then Some(FileTooLarge(|data|, limits.maxFileSize))
               else if contentType !in limits.blocked && (limits.allowed == [] || contentType in limits.allowed)
               then None
               else Some(InvalidContentType(contentType))
  {
  }

  /** The key under which a file is stored: its UUID, and the extension of its name if that has one. */
  predicate IsKeyFor(platform: Platform, key: string, uuid: string, filename: string) {
    var ext := platform.extension(filename);
    uuid <= key && key[|uuid|..] == if ext == "" then "" else "." + ext
  }

  /** An accepted upload is recorded as requested: attached exactly if both container type and id were given, never
      downloaded yet, and stored with the very bytes sent. */
  lemma UploadsAreRecordedAsRequested(setting: Setting, w: World, call: Call, now: Time, v: World)
    requires call.Create? && Next(setting, w, call, now, v)
    requires Rejection(setting.config, setting.platform, call.params, call.data).None?
    ensures |v.vault.records| == |w.vault.records| + 1 && v.vault.records[..|w.vault.records|] == w.vault.records
    ensures v.vault.nextId == w.vault.nextId + 1
    ensures var a := v.vault.records[|w.vault.records|];
            var params, key := call.params, a.diskFilename;
            && a.id == Some(w.vault.nextId)
            && a.filename == params.filename && a.authorId == call.authorId && a.description == params.description
            && (a.containerId.Some? <==> params.containerType.Some? && params.containerId.Some?)
            && (a.containerId.Some? ==>
                  a.containerId == params.containerId && a.containerType == params.containerType.value.AsStr())
            && (a.containerId.None? ==> a.containerType == "")
            && a.contentType == (if params.contentType.Some? then params.contentType.value
                                 else setting.platform.guessType(params.filename))
            && a.filesize == |call.data| && a.digest == setting.platform.digest(call.data)
            && a.downloads == 0 && a.createdAt == a.updatedAt == now
            && IsKeyFor(setting.platform, key, call.uuid, params.filename)
            && v.vault.files == w.vault.files[key := Blob(
                 call.data,
                 FileMetadata(
                   |call.data|, setting.platform.guessType(key), setting.platform.digest(call.data), Some(now)))]
  {
    hide ContainerType.AsStr;
    var key := GenerateDiskFilename(setting.platform, call.uuid, call.params.filename);
    assert call.uuid <= key;
  }

  /** An accepted upload comes back: downloading the id it was given answers its record and the very bytes sent. */
  lemma UploadComesBack(setting: Setting, w: World, call: Call, now: Time, v: World)
    requires Inv(setting, w) && call.Create? && Next(setting, w, call, now, v)
    requires Rejection(setting.config, setting.platform, call.params, call.data).None?
    ensures match Find(v.vault.records, w.vault.nextId)
            case None => false
            case Some(a) =>
              && a == v.vault.records[|v.vault.records| - 1]
              && a.filename == call.params.filename && a.description == call.params.description
              && StillHolds(v.vault, a, call.data)
  {
    hide Inv, Find, GenerateDiskFilename, UploadRecord, IsKeyFor;
    CallKeepsInv(setting, w, call, now, v);
    var last := v.vault.records[|w.vault.records|];
    assert v.vault.records == w.vault.records + [last];
    UploadsAreRecordedAsRequested(setting, w, call, now, v);
    assert last.id == Some(w.vault.nextId);
    FindIn(v.vault.records, w.vault.nextId);
    var found := Find(v.vault.records, w.vault.nextId);
    assert Distinct(v.vault.records) by {
      InvIsDistinct(setting, v);
    }
    SameRecord(v.vault.records, found.value, last);
  }

  lemma InvIsDistinct(setting: Setting, w: World)
    requires Inv(setting, w)
    ensures Distinct(w.vault.records)
  {
  }

  /** Overwriting a record changes it where it stands and no other. */
  lemma OverwriteMeans(records: Records, a: Attachment, b: Attachment)
    requires Distinct(records) && a in records && b.id == a.id && a.id.Some?
    ensures var after := Overwrite(records, b);
            && |after| == |records|
            && (forall i :: 0 <= i < |records| ==> after[i] == if records[i].id == a.id then b else records[i])
            && Find(after, a.id.value) == Some(b)
  {
    var i :| 0 <= i < |records| && records[i] == a;
    OverwriteAt(records, b, i);
    var after := records[i := b];
    FindSkips(after, a.id.value, i);
  }

  /** Attaching a file sets its container and its time where the record stands, in the store and not only in the answer.
      Every other record and all blobs stay. The file then shows in that container and in no other, and no later
      clean-up takes it away. */
  lemma AttachingLasts(
    setting: Setting, w: World, id: int, containerType: ContainerType, containerId: int, now: Time, later: Time,
    a: Attachment)
    requires Inv(setting, w) && Find(w.vault.records, id) == Some(a)
    ensures var after := Performed(setting, w.vault, AttachTo(id, containerType, containerId), now);
            var b := a.(containerType := containerType.AsStr(), containerId := Some(containerId), updatedAt := now);
            && Find(after.records, id) == Some(b)
            && |after.records| == |w.vault.records| && after.files == w.vault.files && after.nextId == w.vault.nextId
            && (forall i :: 0 <= i < |after.records| ==>
                  after.records[i] == if w.vault.records[i].id == Some(id) then b else w.vault.records[i])
            && (forall t, n :: b in InContainer(after.records, t, n) <==> t == containerType && n == containerId)
            && var cleaned := Performed(setting, after, CleanupOrphans, later);
               && b in cleaned.records && b.diskFilename in cleaned.files && b.diskFilename in w.vault.files
               && cleaned.files[b.diskFilename] == w.vault.files[b.diskFilename]
  {
    hide Inv, Find, Overwrite, ContainerType.AsStr, AfterDeletes, Retain;
    var b := a.(containerType := containerType.AsStr(), containerId := Some(containerId), updatedAt := now);
    var after := Performed(setting, w.vault, AttachTo(id, containerType, containerId), now);
    FindIn(w.vault.records, id);
    InvIsDistinct(setting, w);
    OverwriteMeans(w.vault.records, a, b);
    var next := w.(vault := after);
    assert w.used + {} == w.used;
    CallKeepsInv(setting, w, AttachTo(id, containerType, containerId), now, next);
    FindIn(after.records, id);
    forall t, n
      ensures b in InContainer(after.records, t, n) <==> t == containerType && n == containerId
    {
      RetainIn(after.records, (x: Attachment) => x.containerType == t.AsStr() && x.containerId == Some(n));
      ContainerNamesReadBack(t.AsStr(), t);
      ContainerNamesReadBack(t.AsStr(), containerType);
    }
    CleanupIsExact(setting, next, later);
  }

  /** A download adds one to the count of its record and nothing else changes. */
  lemma DownloadCounts(setting: Setting, w: World, id: int, now: Time, a: Attachment)
    requires Inv(setting, w) && Find(w.vault.records, id) == Some(a)
    ensures var after := Performed(setting, w.vault, Download(id), now);
            var b := a.(downloads := a.downloads + 1, updatedAt := now);
            && Find(after.records, id) == Some(b)
            && |after.records| == |w.vault.records| && after.files == w.vault.files && after.nextId == w.vault.nextId
            && forall i :: 0 <= i < |after.records| ==>
                 after.records[i] == if w.vault.records[i].id == Some(id) then b else w.vault.records[i]
  {
    hide Find, Overwrite;
    FindIn(w.vault.records, id);
    assert IsAcceptable(setting, a, w.vault.files);
    OverwriteMeans(w.vault.records, a, a.(downloads := a.downloads + 1, updatedAt := now));
  }

  /** Deleting takes away the record and its blob, and no other. */
  lemma DeletingMeans(setting: Setting, w: World, id: int, now: Time)
    requires Inv(setting, w)
    ensures var after := Performed(setting, w.vault, Delete(id), now);
            && (forall a :: a in after.records <==> a in w.vault.records && a.id != Some(id))
            && (forall a :: a in w.vault.records ==> (a.diskFilename in after.files <==> a.id != Some(id)))
            && (forall key :: key in after.files ==> key in w.vault.files && after.files[key] == w.vault.files[key])
            && after.nextId == w.vault.nextId
  {
    hide Find, Without;
    DeleteKeepsInv(setting, w, id);
    FindIn(w.vault.records, id);
    var after := AfterDelete(w.vault, id);
    forall a | a in w.vault.records
      ensures a.diskFilename in after.files <==> a.id != Some(id)
    {
      if a.id != Some(id) {
        AcceptableIsStored(setting, a, after.files);
      } else {
        SameRecord(w.vault.records, a, Find(w.vault.records, id).value);
      }
    }
  }

  /** A copy is a new record in the wanted container, with the source's name, content and description, the copier as its
      author and a count of its own, beside a blob equal to the source's. */
  lemma CopyingMeans(setting: Setting, w: World, copy: Call, now: Time, v: World, source: Attachment)
    requires Inv(setting, w) && copy.CopyTo? && Next(setting, w, copy, now, v)
    requires Find(w.vault.records, copy.id) == Some(source)
    ensures |v.vault.records| == |w.vault.records| + 1
    ensures var made := v.vault.records[|w.vault.records|];
            && v.vault.records == w.vault.records + [made] && v.vault.nextId == w.vault.nextId + 1
            && made == Attachment(
                         Some(w.vault.nextId), copy.containerType.AsStr(), Some(copy.containerId), source.filename,
                         made.diskFilename, source.filesize, source.contentType, source.digest, 0, copy.authorId,
                         source.description, now, now)
            && IsKeyFor(setting.platform, made.diskFilename, copy.uuid, source.filename)
            && source.diskFilename in w.vault.files
            && v.vault.files == w.vault.files[made.diskFilename := w.vault.files[source.diskFilename]]
  {
    hide Find, ContainerType.AsStr;
    FindIn(w.vault.records, copy.id);
    assert IsAcceptable(setting, source, w.vault.files);
    var key := GenerateDiskFilename(setting.platform, copy.uuid, source.filename);
    assert copy.uuid <= key;
  }

  /** What is recorded can always be downloaded, with the bytes that its digest was taken from, and the
      download only counts itself. */
  lemma DownloadsNeverMiss(setting: Setting, w: World, id: int, now: Time)
    requires Inv(setting, w)
    ensures match Find(w.vault.records, id)
            case None => Performed(setting, w.vault, Download(id), now) == w.vault
            case Some(a) =>
              && a.diskFilename in w.vault.files
              && setting.platform.digest(w.vault.files[a.diskFilename].data) == a.digest
              && Performed(setting, w.vault, Download(id), now).files == w.vault.files
              && |Performed(setting, w.vault, Download(id), now).records| == |w.vault.records|
  {
    FindIn(w.vault.records, id);
    var found := Find(w.vault.records, id);
    if found.Some? {
      OverwriteFound(w.vault.records, found.value, found.value.IncrementDownloads(now));
    }
  }

  /** A copy has its own blob with the source's bytes, so deleting either leaves the other downloadable. */
  lemma CopiesAreIndependent(
    setting: Setting, w: World, copy: Call, now: Time, v: World, source: Attachment, made: Attachment, later: Time)
    requires Inv(setting, w) && copy.CopyTo? && Next(setting, w, copy, now, v)
    requires Find(w.vault.records, copy.id) == Some(source)
    requires made in v.vault.records && made.id == Some(w.vault.nextId)
    ensures source.diskFilename in w.vault.files
    ensures StillHolds(Performed(setting, v.vault, Delete(copy.id), later), made,
                       w.vault.files[source.diskFilename].data)
    ensures StillHolds(Performed(setting, v.vault, Delete(w.vault.nextId), later), source,
                       w.vault.files[source.diskFilename].data)
  {
    hide IsPermitted, GenerateDiskFilename, UuidOf, Distinct, NothingLeaks, AfterDelete, Find;
    FindIn(w.vault.records, copy.id);
    assert IsAcceptable(setting, source, w.vault.files);
    CallKeepsInv(setting, w, copy, now, v);
    assert source in v.vault.records && source.id != made.id;
    CopySharesData(setting, w, copy, now, v, source, made);
    DeleteKeepsInv(setting, v, copy.id);
    DeleteKeepsInv(setting, v, w.vault.nextId);
    assert IsAcceptable(setting, made, AfterDelete(v.vault, copy.id).files);
    assert IsAcceptable(setting, source, AfterDelete(v.vault, w.vault.nextId).files);
  }

  predicate StillHolds(vault: Vault, a: Attachment, data: Bytes) {
    a in vault.records && a.diskFilename in vault.files && vault.files[a.diskFilename].data == data
  }

  lemma CopySharesData(
    setting: Setting, w: World, copy: Call, now: Time, v: World, source: Attachment, made: Attachment)
    requires Inv(setting, w) && Inv(setting, v) && copy.CopyTo? && Next(setting, w, copy, now, v)
    requires Find(w.vault.records, copy.id) == Some(source) && source in w.vault.records
    requires made in v.vault.records && made.id == Some(w.vault.nextId)
    ensures source.diskFilename in w.vault.files
    ensures StillHolds(v.vault, source, w.vault.files[source.diskFilename].data)
    ensures StillHolds(v.vault, made, w.vault.files[source.diskFilename].data)
  {
    hide IsPermitted, Find;
    assert IsAcceptable(setting, source, w.vault.files);
    var last := v.vault.records[|w.vault.records|];
    assert last.id == Some(w.vault.nextId);
    SameRecord(v.vault.records, made, last);
    DiskFilenameKeepsUuid(setting.platform, copy.uuid, source.filename);
    assert UuidOf(source.diskFilename) in w.used;
  }
}
