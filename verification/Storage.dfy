/** The in-memory blob storage and the names under which attachments are stored. */
module Storage {
  import opened Wrappers
  import opened Clock

  type Byte = b: int | 0 <= b < 256

  type Bytes = seq<Byte>

  datatype FileMetadata = FileMetadata(size: nat, contentType: string, digest: string, lastModified: Option<Time>)

  datatype Blob = Blob(data: Bytes, meta: FileMetadata)

  type Files = map<string, Blob>

  /** The digest, MIME guessing and path parsing of the libraries. */
  datatype Platform = Platform(digest: Bytes -> string, guessType: string -> string, extension: string -> string)

  datatype StorageError = MissingFile(key: string)

  const UUID_LENGTH := 36

  /** The storage name of an upload: a UUID and the extension of the original name, if it has one. */
  function GenerateDiskFilename(platform: Platform, uuid: string, filename: string): string {
    var ext := platform.extension(filename);
    if ext == "" then uuid else uuid + "." + ext
  }

  /** The UUID a storage name was made from. */
  function UuidOf(key: string): string {
    if |key| < UUID_LENGTH then key else key[..UUID_LENGTH]
  }

  lemma DiskFilenameKeepsUuid(platform: Platform, uuid: string, filename: string)
    requires |uuid| == UUID_LENGTH
    ensures UuidOf(GenerateDiskFilename(platform, uuid, filename)) == uuid
  {
  }

  function MakeBlob(platform: Platform, key: string, data: Bytes, now: Time): Blob {
    Blob(data, FileMetadata(|data|, platform.guessType(key), platform.digest(data), Some(now)))
  }

  class MemoryStorage {
    const platform: Platform
    var files: Files

    constructor (platform: Platform)
      ensures this.platform == platform && files == map[]
    {
      this.platform, this.files := platform, map[];
    }

    method Put(key: string, data: Bytes, now: Time) returns (metadata: FileMetadata)
      modifies this
      ensures files == old(files)[key := MakeBlob(platform, key, data, now)]
      ensures metadata == MakeBlob(platform, key, data, now).meta
    {
      metadata := FileMetadata(|data|, platform.guessType(key), platform.digest(data), Some(now));
      files := files[key := Blob(data, metadata)];
    }

    method Get(key: string) returns (r: Result<Bytes, StorageError>)
      ensures r == if key in files then Ok(files[key].data) else Err(MissingFile(key))
    {
      r := if key in files then Ok(files[key].data) else Err(MissingFile(key));
    }

    method Delete(key: string)
      modifies this
      ensures files == old(files) - {key}
    {
      files := files - {key};
    }

    method Copy(from: string, to: string) returns (r: Result<(), StorageError>)
      modifies this
      ensures r == if from in old(files) then Ok(()) else Err(MissingFile(from))
      ensures files == if from in old(files) then old(files)[to := old(files)[from]] else old(files)
    {
      if from !in files {
        return Err(MissingFile(from));
      }
      files := files[to := files[from]];
      return Ok(());
    }

    function Url(key: string): string {
      "/memory/" + key
    }
  }
}
