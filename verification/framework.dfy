/**
 The small slice of the host framework that every component of the provider
 touches: three-state attribute values, diagnostics, optional (pointer) values
 and the answers of the remote object store.

 Strings throughout the model are `seq<char>` in which each char stands for
 one byte of the Go string, so `|s|` is Go's `len(s)` and `s[i]` is `s[i]`.
 */
module Framework {

  /** A framework attribute value: null, not yet known, or known. */
  datatype Value<+T> = Null | Unknown | Known(v: T)

  /** Go's optional field: a nil pointer or a pointer to a value. */
  datatype Option<+T> = None | Some(value: T)

  /** `types.String.ValueString()`: the held string, or "" when null or unknown. */
  function ValueString(s: Value<string>): (r: string)
    ensures s.Known? ==> r == s.v
    ensures !s.Known? ==> r == ""
  {
    if s.Known? then s.v else ""
  }

  /** `types.Bool.ValueBool()`: the held boolean, or false when null or unknown. */
  function ValueBool(b: Value<bool>): (r: bool)
    ensures r <==> b == Known(true)
  {
    if b.Known? then b.v else false
  }

  /** A diagnostic added to a framework response. */
  datatype Diagnostic =
    | Error(summary: string, detail: string)
    | AttributeError(path: string, summary: string, detail: string)

  /** A failed remote call: the error's text, and whether `isNotFoundError`
      recognises it as the store reporting that the record does not exist. */
  datatype RemoteError = RemoteError(message: string, notFound: bool)

  /** What the remote store answers to an insert: the new record's ID, or an error. */
  datatype InsertAnswer = Inserted(id: string) | InsertFailed(err: RemoteError)

  /** What the remote store answers to a get: the record, or an error. */
  datatype GetAnswer<+R> = Fetched(record: R) | GetFailed(err: RemoteError)

  /** What the remote store answers to an update or a delete. */
  datatype WriteAnswer = Written | WriteFailed(err: RemoteError)

  /** What an operation leaves in the framework's state for the resource. */
  datatype StateChange<+S> = Untouched | SetTo(state: S) | Removed

  /** A framework response: the state change and the diagnostics added. */
  datatype Response<+S> = Response(change: StateChange<S>, diagnostics: seq<Diagnostic>)
}
