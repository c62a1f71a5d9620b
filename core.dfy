/** The note entity and the values shared by the repository and the service:
    byte strings (Go strings, whose `len` counts bytes), an abstract clock
    reading, and the typed failures the core reports. */
module Core {

  newtype byte = x: int | 0 <= x < 256

  /** A Go string: a sequence of bytes. */
  type Bytes = seq<byte>

  /** A clock reading. The repository receives it from its caller instead of
      reading the wall clock. */
  type Time = int

  /** The zero value of a Go `time.Time`. */
  const ZeroTime: Time := 0

  datatype Option<T> = None | Some(value: T)

  /** The four failures of the core. Each carries the message the Go code
      builds with `errors.New`. */
  datatype Error = NotFound | EmptyTitle | TitleTooLong | ContentTooLong

  function Message(e: Error): string
  {
    match e
    case NotFound => "note not found"
    case EmptyTitle => "title cannot be empty"
    case TitleTooLong => "title too long"
    case ContentTooLong => "content too long"
  }

  /** The transport layer tells failures apart by their message only, so no
      two failures may share one. */
  lemma MessagesIdentifyErrors(e: Error, f: Error)
    ensures Message(e) == Message(f) <==> e == f
  {
  }

  /** A value or the failure that replaced it: Go's `(T, error)` pair. */
  datatype Result<T> = Ok(value: T) | Err(error: Error)

  /** Success or failure of an operation without a value: Go's bare `error`. */
  datatype Outcome = Pass | Fail(error: Error)

  /** A note record. `UpdatedAt` is a Go pointer, absent until the first
      update. */
  datatype Note = Note(ID: int, Title: Bytes, Content: Bytes, CreatedAt: Time, UpdatedAt: Option<Time>)

  /** The zero value `core.Note{}`. */
  function Blank(): Note
  {
    Note(0, [], [], ZeroTime, None)
  }
}
