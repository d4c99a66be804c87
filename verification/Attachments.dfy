/** Attachment records, their store, and the service that keeps records and blobs together. */
module Attachments {
  import opened Wrappers
  import opened Clock
  import opened Storage

  datatype ContainerType =
    | WorkPackage | WikiPage | Document | Message | News | Project | Meeting | MeetingContent | Version | User
  {
    function AsStr(): string {
      match this
      case WorkPackage => "WorkPackage"
      case WikiPage => "WikiPage"
      case Document => "Document"
      case Message => "Message"
      case News => "News"
      case Project => "Project"
      case Meeting => "Meeting"
      case MeetingContent => "MeetingContent"
      case Version => "Version"
      case User => "User"
    }

    static function FromStr(s: string): Option<ContainerType> {
      match s
      case "WorkPackage" => Some(WorkPackage)
      case "WikiPage" => Some(WikiPage)
      case "Document" => Some(Document)
      case "Message" => Some(Message)
      case "News" => Some(News)
      case "Project" => Some(Project)
      case "Meeting" => Some(Meeting)
      case "MeetingContent" => Some(MeetingContent)
      case "Version" => Some(Version)
      case "User" => Some(User)
      case _ => None
    }
  }

  /** The stored name of a container type is read back as that type, and nothing else is. */
  lemma ContainerNamesReadBack(s: string, containerType: ContainerType)
    ensures ContainerType.FromStr(s) == Some(containerType) <==> s == containerType.AsStr()
  {
  }

  datatype Attachment = Attachment(
    id: Option<int>,
    containerType: string,
    containerId: Option<int>,
    filename: string,
    diskFilename: string,
    filesize: int,
    contentType: string,
    digest: string,
    downloads: int,
    authorId: int,
    description: Option<string>,
    createdAt: Time,
    updatedAt: Time
  ) {

    static function New(
      filename: string, diskFilename: string, filesize: int, contentType: string, digest: string, authorId: int,
      now: Time): Attachment
    {
      Attachment(None, "", None, filename, diskFilename, filesize, contentType, digest, 0, authorId, None, now, now)
    }

    function ForContainer(containerType: ContainerType, containerId: int): Attachment {
      this.(containerType := containerType.AsStr(), containerId := Some(containerId))
    }

    function IncrementDownloads(now: Time): Attachment {
      this.(downloads := downloads + 1, updatedAt := now)
    }

    predicate IsOrphan(olderThan: Time) {
      containerId.None? && createdAt < olderThan
    }
  }

  type Records = seq<Attachment>

  datatype CreateParams = CreateParams(
    filename: string,
    contentType: Option<string>,
    description: Option<string>,
    containerType: Option<ContainerType>,
    containerId: Option<int>
  )

  datatype AllowedFileTypes = AllowedFileTypes(allowed: seq<string>, blocked: seq<string>, maxFileSize: int) {
    predicate IsAllowed(contentType: string) {
      if contentType in blocked then false
      else if allowed == [] then true
      else contentType in allowed
    }
  }

  datatype AttachmentConfig = AttachmentConfig(allowedTypes: AllowedFileTypes, cleanupOrphansAfter: int)

  datatype AttachmentError =
    | NotFound(id: int)
    | FileTooLarge(size: int, max: int)
    | InvalidContentType(contentType: string)
    | StorageFailed(error: StorageError)

  datatype AttachmentWithUrl = AttachmentWithUrl(attachment: Attachment, downloadUrl: string)

  // ---------- the record store ----------

  function Find(records: Records, id: int): Option<Attachment> {
    if records == [] then None
    else if records[0].id == Some(id) then Some(records[0])
    else Find(records[1..], id)
  }

  /** The first record with the same id, overwritten. */
  function Overwrite(records: Records, attachment: Attachment): Records {
    if records == [] then []
    else if records[0].id == attachment.id then [attachment] + records[1..]
    else [records[0]] + Overwrite(records[1..], attachment)
  }

  function Retain(records: Records, keep: Attachment -> bool): Records {
    if records == [] then []
    else
      var last := |records| - 1;
      Retain(records[..last], keep) + if keep(records[last]) then [records[last]] else []
  }

  function Without(records: Records, id: int): Records {
    Retain(records, (a: Attachment) => a.id != Some(id))
  }

  function Orphans(records: Records, olderThan: Time): Records {
    Retain(records, (a: Attachment) => a.IsOrphan(olderThan))
  }

  /** What a container shows. */
  function InContainer(records: Records, containerType: ContainerType, containerId: int): Records {
    Retain(
      records,
      (a: Attachment) => a.containerType == containerType.AsStr() && a.containerId == Some(containerId))
  }

  lemma {:induction false} FindSkips(records: Records, id: int, i: nat)
    requires i <= |records| && forall k :: 0 <= k < i ==> records[k].id != Some(id)
    ensures Find(records, id) == if i < |records| && records[i].id == Some(id) then Some(records[i])
                                 else Find(records[i..], id)
    decreases i
  {
    if i > 0 {
      FindSkips(records[1..], id, i - 1);
      assert records[1..][i - 1..] == records[i..];
    }
  }

  lemma {:induction false} OverwriteAt(records: Records, attachment: Attachment, i: nat)
    requires i <= |records| && forall k :: 0 <= k < i ==> records[k].id != attachment.id
    requires i < |records| ==> records[i].id == attachment.id
    ensures Overwrite(records, attachment) == if i < |records| then records[i := attachment] else records
    decreases i
  {
    if i > 0 {
      OverwriteAt(records[1..], attachment, i - 1);
    }
  }

  class MemoryAttachmentStore {
    var attachments: Records
    var nextId: int

    constructor ()
      ensures attachments == [] && nextId == 1
    {
      attachments, nextId := [], 1;
    }

    method Create(attachment: Attachment) returns (stored: Attachment)
      modifies this
      ensures stored == attachment.(id := Some(old(nextId))) && nextId == old(nextId) + 1
      ensures attachments == old(attachments) + [stored]
    {
      stored := attachment.(id := Some(nextId));
      nextId := nextId + 1;
      attachments := attachments + [stored];
    }

    method Get(id: int) returns (found: Option<Attachment>)
      ensures found == Find(attachments, id)
    {
      for i := 0 to |attachments|
        invariant forall k :: 0 <= k < i ==> attachments[k].id != Some(id)
      {
        if attachments[i].id == Some(id) {
          FindSkips(attachments, id, i);
          return Some(attachments[i]);
        }
      }
      FindSkips(attachments, id, |attachments|);
      return None;
    }

    method GetForContainer(containerType: ContainerType, containerId: int) returns (found: Records)
      ensures found == InContainer(attachments, containerType, containerId)
    {
      found := [];
      for i := 0 to |attachments|
        invariant found == InContainer(attachments[..i], containerType, containerId)
      {
        assert attachments[..i + 1][..i] == attachments[..i];
        if attachments[i].containerType == containerType.AsStr() && attachments[i].containerId == Some(containerId) {
          found := found + [attachments[i]];
        }
      }
      assert attachments[..|attachments|] == attachments;
    }

    method Update(attachment: Attachment)
      modifies this`attachments
      ensures attachments == Overwrite(old(attachments), attachment)
    {
      for i := 0 to |attachments|
        invariant attachments == old(attachments)
        invariant forall k :: 0 <= k < i ==> attachments[k].id != attachment.id
      {
        if attachments[i].id == attachment.id {
          OverwriteAt(attachments, attachment, i);
          attachments := attachments[i := attachment];
          return;
        }
      }
      OverwriteAt(attachments, attachment, |attachments|);
    }

    method Delete(id: int)
      modifies this`attachments
      ensures attachments == Without(old(attachments), id)
    {
      var before := attachments;
      var kept := [];
      for i := 0 to |before|
        invariant kept == Without(before[..i], id)
      {
        assert before[..i + 1][..i] == before[..i];
        if before[i].id != Some(id) {
          kept := kept + [before[i]];
        }
      }
      assert before[..|before|] == before;
      attachments := kept;
    }

    method GetOrphaned(olderThan: Time) returns (orphans: Records)
      ensures orphans == Orphans(attachments, olderThan)
    {
      orphans := [];
      for i := 0 to |attachments|
        invariant orphans == Orphans(attachments[..i], olderThan)
      {
        assert attachments[..i + 1][..i] == attachments[..i];
        if attachments[i].containerId.None? && attachments[i].createdAt < olderThan {
          orphans := orphans + [attachments[i]];
        }
      }
      assert attachments[..|attachments|] == attachments;
    }
  }

  // ---------- what the service does ----------

  /** Both stores together. */
  datatype Vault = Vault(records: Records, nextId: int, files: Files)

  function ContentTypeOf(platform: Platform, params: CreateParams): string {
    if params.contentType.Some? then params.contentType.value else platform.guessType(params.filename)
  }

  /** Why an upload is turned down, if it is. The size is looked at first. */
  function Rejection(
    config: AttachmentConfig, platform: Platform, params: CreateParams, data: Bytes): Option<AttachmentError>
  {
    if |data| > config.allowedTypes.maxFileSize then Some(FileTooLarge(|data|, config.allowedTypes.maxFileSize))
    else if !config.allowedTypes.IsAllowed(ContentTypeOf(platform, params))
    then Some(InvalidContentType(ContentTypeOf(platform, params)))
    else None
  }

  function UploadRecord(
    platform: Platform, params: CreateParams, key: string, blob: Blob, authorId: int, now: Time): Attachment
  {
    var plain := Attachment.New(
                   params.filename, key, blob.meta.size, ContentTypeOf(platform, params), blob.meta.digest,
                   authorId, now);
    var described := plain.(description := params.description);
    if params.containerType.Some? && params.containerId.Some?
    then described.ForContainer(params.containerType.value, params.containerId.value)
    else described
  }

  function Add(vault: Vault, record: Attachment, key: string, blob: Blob): Vault {
    Vault(vault.records + [record.(id := Some(vault.nextId))], vault.nextId + 1, vault.files[key := blob])
  }

  function AfterCreate(
    vault: Vault, platform: Platform, params: CreateParams, data: Bytes, authorId: int, uuid: string, now: Time): Vault
  {
    var key := GenerateDiskFilename(platform, uuid, params.filename);
    var blob := MakeBlob(platform, key, data, now);
    Add(vault, UploadRecord(platform, params, key, blob, authorId, now), key, blob)
  }

  function AfterUpdate(vault: Vault, attachment: Attachment): Vault {
    vault.(records := Overwrite(vault.records, attachment))
  }

  function AfterDelete(vault: Vault, id: int): Vault {
    match Find(vault.records, id)
    case None => vault
    case Some(attachment) =>
      Vault(Without(vault.records, id), vault.nextId, vault.files - {attachment.diskFilename})
  }

  /** Deleting the given records one by one. */
  function AfterDeletes(vault: Vault, doomed: Records): Vault {
    if doomed == [] then vault
    else
      var last := |doomed| - 1;
      var before := AfterDeletes(vault, doomed[..last]);
      match doomed[last].id
      case Some(id) => AfterDelete(before, id)
      case None => before
  }

  function CopyRecord(
    source: Attachment, key: string, containerType: ContainerType, containerId: int, authorId: int, now: Time)
    : Attachment
  {
    Attachment.New(source.filename, key, source.filesize, source.contentType, source.digest, authorId, now)
      .ForContainer(containerType, containerId).(description := source.description)
  }

  datatype Call =
    | Create(params: CreateParams, data: Bytes, authorId: int, uuid: string)
    | Download(id: int)
    | AttachTo(id: int, containerType: ContainerType, containerId: int)
    | Delete(id: int)
    | CleanupOrphans
    | CopyTo(id: int, containerType: ContainerType, containerId: int, authorId: int, uuid: string)

  /** What a service is set up with, and what its libraries compute. */
  datatype Setting = Setting(config: AttachmentConfig, platform: Platform)

  /** The vault after a call: what each method of the service does to the two stores. */
  function Performed(setting: Setting, vault: Vault, call: Call, now: Time): Vault {
    match call
    case Create(params, data, authorId, uuid) =>
      if Rejection(setting.config, setting.platform, params, data).Some? then vault
      else AfterCreate(vault, setting.platform, params, data, authorId, uuid, now)
    case Download(id) =>
      (match Find(vault.records, id)
       case None => vault
       case Some(a) =>
         if a.diskFilename in vault.files then AfterUpdate(vault, a.IncrementDownloads(now)) else vault)
    case AttachTo(id, containerType, containerId) =>
      (match Find(vault.records, id)
       case None => vault
       case Some(a) => AfterUpdate(vault, a.ForContainer(containerType, containerId).(updatedAt := now)))
    case Delete(id) => AfterDelete(vault, id)
    case CleanupOrphans => AfterDeletes(vault, Orphans(vault.records, now - setting.config.cleanupOrphansAfter))
    case CopyTo(id, containerType, containerId, authorId, uuid) =>
      (match Find(vault.records, id)
       case None => vault
       case Some(source) =>
         var key := GenerateDiskFilename(setting.platform, uuid, source.filename);
         if source.diskFilename in vault.files then
           Add(vault, CopyRecord(source, key, containerType, containerId, authorId, now), key,
               vault.files[source.diskFilename])
         else vault)
  }

  class AttachmentService {
    const store: MemoryAttachmentStore
    const storage: MemoryStorage
    const config: AttachmentConfig

    constructor (store: MemoryAttachmentStore, storage: MemoryStorage, config: AttachmentConfig)
      ensures this.store == store && this.storage == storage && this.config == config
    {
      this.store, this.storage, this.config := store, storage, config;
    }

    ghost function State(): Vault
      reads store, storage
    {
      Vault(store.attachments, store.nextId, storage.files)
    }

    ghost function Configured(): Setting {
      Setting(config, storage.platform)
    }

    /** `uuid` is the freshly generated one. */
    method Create(params: CreateParams, data: Bytes, authorId: int, uuid: string, now: Time)
      returns (r: Result<AttachmentWithUrl, AttachmentError>)
      modifies store, storage
      ensures State() == Performed(Configured(), old(State()), Call.Create(params, data, authorId, uuid), now)
      ensures match Rejection(config, storage.platform, params, data)
              case Some(error) => r == Err(error) && State() == old(State())
              case None =>
                && r.Ok? && |State().records| == |old(State()).records| + 1
                && r.value.attachment == State().records[|old(State()).records|]
                && r.value.downloadUrl == "/memory/" + r.value.attachment.diskFilename
    {
      var size := |data|;
      if size > config.allowedTypes.maxFileSize {
        return Err(FileTooLarge(size, config.allowedTypes.maxFileSize));
      }
      var contentType := if params.contentType.Some? then params.contentType.value
                         else storage.platform.guessType(params.filename);
      if !config.allowedTypes.IsAllowed(contentType) {
        return Err(InvalidContentType(contentType));
      }
      var diskFilename := GenerateDiskFilename(storage.platform, uuid, params.filename);
      var metadata := storage.Put(diskFilename, data, now);
      var attachment := Attachment.New(
        params.filename, diskFilename, metadata.size, contentType, metadata.digest, authorId, now);
      if params.description.Some? {
        attachment := attachment.(description := params.description);
      }
      if params.containerType.Some? && params.containerId.Some? {
        attachment := attachment.ForContainer(params.containerType.value, params.containerId.value);
      }
      attachment := store.Create(attachment);
      return Ok(AttachmentWithUrl(attachment, storage.Url(diskFilename)));
    }

    method Download(id: int, now: Time) returns (r: Result<(Attachment, Bytes), AttachmentError>)
      modifies store
      ensures State() == Performed(Configured(), old(State()), Call.Download(id), now)
      ensures r == match Find(old(State()).records, id)
                   case None => Err(NotFound(id))
                   case Some(a) =>
                     if a.diskFilename in old(State()).files then Ok((a, old(State()).files[a.diskFilename].data))
                     else Err(StorageFailed(MissingFile(a.diskFilename)))
      ensures r.Err? ==> State() == old(State())
    {
      var found := store.Get(id);
      if found == None {
        return Err(NotFound(id));
      }
      var data := storage.Get(found.value.diskFilename);
      if data.Err? {
        return Err(StorageFailed(data.error));
      }
      store.Update(found.value.IncrementDownloads(now));
      return Ok((found.value, data.value));
    }

    method AttachTo(id: int, containerType: ContainerType, containerId: int, now: Time)
      returns (r: Result<Attachment, AttachmentError>)
      modifies store
      ensures State() == Performed(Configured(), old(State()), Call.AttachTo(id, containerType, containerId), now)
      ensures r == match Find(old(State()).records, id)
                   case None => Err(NotFound(id))
                   case Some(a) => Ok(a.ForContainer(containerType, containerId).(updatedAt := now))
    {
      var found := store.Get(id);
      if found == None {
        return Err(NotFound(id));
      }
      var attachment := found.value.(
        containerType := containerType.AsStr(), containerId := Some(containerId), updatedAt := now);
      store.Update(attachment);
      return Ok(attachment);
    }

    method Delete(id: int) returns (r: Result<(), AttachmentError>)
      modifies store`attachments, storage
      ensures forall now :: State() == Performed(Configured(), old(State()), Call.Delete(id), now)
      ensures r == if Find(old(State()).records, id).Some? then Ok(()) else Err(NotFound(id))
    {
      var found := store.Get(id);
      if found == None {
        return Err(NotFound(id));
      }
      storage.Delete(found.value.diskFilename);
      store.Delete(id);
      return Ok(());
    }

    method CleanupOrphans(now: Time) returns (count: nat)
      modifies store`attachments, storage
      ensures State() == Performed(Configured(), old(State()), Call.CleanupOrphans, now)
      ensures count == |Orphans(old(State()).records, now - config.cleanupOrphansAfter)|
    {
      hide AfterDelete, Retain, Find;
      var cutoff := now - config.cleanupOrphansAfter;
      var orphans := store.GetOrphaned(cutoff);
      count := |orphans|;
      for i := 0 to |orphans|
        invariant State() == AfterDeletes(old(State()), orphans[..i])
      {
        assert orphans[..i + 1][..i] == orphans[..i];
        if orphans[i].id.Some? {
          ghost var before := State();
          var _ := Delete(orphans[i].id.value);
          assert State() == Performed(Configured(), before, Call.Delete(orphans[i].id.value), now);
        }
      }
      assert orphans[..|orphans|] == orphans;
    }

    method CopyTo(id: int, containerType: ContainerType, containerId: int, authorId: int, uuid: string, now: Time)
      returns (r: Result<AttachmentWithUrl, AttachmentError>)
      modifies store, storage
      ensures State() == Performed(
                           Configured(), old(State()), Call.CopyTo(id, containerType, containerId, authorId, uuid), now)
      ensures match Find(old(State()).records, id)
              case None => r == Err(NotFound(id)) && State() == old(State())
              case Some(source) =>
                if source.diskFilename in old(State()).files then
                  && r.Ok? && |State().records| == |old(State()).records| + 1
                  && r.value.attachment == State().records[|old(State()).records|]
                  && r.value.downloadUrl == "/memory/" + GenerateDiskFilename(storage.platform, uuid, source.filename)
                else r == Err(StorageFailed(MissingFile(source.diskFilename))) && State() == old(State())
    {
      var found := store.Get(id);
      if found == None {
        return Err(NotFound(id));
      }
      var source := found.value;
      var key := GenerateDiskFilename(storage.platform, uuid, source.filename);
      var copied := storage.Copy(source.diskFilename, key);
      if copied.Err? {
        return Err(StorageFailed(copied.error));
      }
      var attachment := Attachment.New(
        source.filename, key, source.filesize, source.contentType, source.digest, authorId, now)
        .ForContainer(containerType, containerId);
      attachment := attachment.(description := source.description);
      attachment := store.Create(attachment);
      return Ok(AttachmentWithUrl(attachment, storage.Url(key)));
    }
  }
}
