/**
 * The upload gate of app/api/upload/route.ts. The `file` entry of the form
 * data is `Some(entry)` when `request.formData()` succeeds and `None` when it
 * throws (a body that is not form data), which Next.js answers with 500.
 * `crypto.randomUUID()` is the parameter `uuid`.
 */
module Upload {
  import opened Wrappers

  const MaxFileSizeMb: int := 5
  const AllowedTypes: seq<string> := ["image/jpeg", "image/png", "application/pdf"]

  /** `MAX_FILE_SIZE_MB * 1024 * 1024` (line 19). */
  const MaxBytes: int := MaxFileSizeMb * 1024 * 1024

  /** `formData.get("file")`: absent (`null`), a plain text entry, or a `File`. */
  datatype FormEntry = Absent | TextEntry(text: string) | FileEntry(name: string, size: int, mime: string)

  datatype UploadReply =
    | NotAFile
    | InvalidType
    | TooLarge
    | Uploaded(fileId: string, filename: string, size: int, mime: string)
    | ServerError

  function Status(r: UploadReply): int {
    match r
    case NotAFile => 400
    case InvalidType => 415
    case TooLarge => 413
    case Uploaded(_, _, _, _) => 200
    case ServerError => 500
  }

  /** The `message` each refusal carries (lines 16, 21). */
  function Message(r: UploadReply): string {
    match r
    case InvalidType => "invalid_type"
    case TooLarge => "file_too_large"
    case _ => ""
  }

  /** `POST` (lines 7-31). */
  function Post(entry: Option<FormEntry>, uuid: string): UploadReply {
    if entry.None? then ServerError
    else if !entry.value.FileEntry? then NotAFile
    else
      var file := entry.value;
      if file.mime !in AllowedTypes then InvalidType
      else if file.size > MaxBytes then TooLarge
      else Uploaded(uuid, file.name, file.size, file.mime)
  }

  // ---------------------------------------------------------------------------
  // Properties

  /** Anything but a `File` is a 400. */
  lemma NonFileRefused(entry: FormEntry, uuid: string)
    requires !entry.FileEntry?
    ensures Status(Post(Some(entry), uuid)) == 400
  {
  }

  /** The type is checked before the size: a wrong type is a 415 however large the file. */
  lemma TypeCheckedFirst(name: string, size: int, mime: string, uuid: string)
    requires mime !in AllowedTypes
    ensures Post(Some(FileEntry(name, size, mime)), uuid) == InvalidType
    ensures Message(InvalidType) == "invalid_type" && Status(InvalidType) == 415
  {
  }

  /** A file of an allowed type is refused with 413 exactly when it exceeds 5 MiB; exactly 5 MiB is accepted. */
  lemma SizeLimit(name: string, size: int, mime: string, uuid: string)
    requires mime in AllowedTypes
    ensures MaxBytes == 5242880
    ensures Post(Some(FileEntry(name, size, mime)), uuid) == TooLarge <==> size > 5242880
    ensures Post(Some(FileEntry(name, 5242880, mime)), uuid).Uploaded?
  {
  }

  /** An accepted file is echoed back with its name, size and type under the fresh id. */
  lemma AcceptedEchoes(entry: Option<FormEntry>, uuid: string)
    requires Post(entry, uuid).Uploaded?
    ensures entry.Some? && entry.value.FileEntry?
    ensures var r := Post(entry, uuid);
      entry.value.mime in AllowedTypes && entry.value.size <= MaxBytes &&
      r == Uploaded(uuid, entry.value.name, entry.value.size, entry.value.mime)
  {
  }
}
