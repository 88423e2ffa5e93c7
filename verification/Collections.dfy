/** Values that may be absent, and single-place edits of a sequence. */
module Collections {

  datatype Option<T> = None | Some(value: T)

  function InsertAt<T>(s: seq<T>, x: T, i: nat): seq<T>
    requires i <= |s|
  {
    s[..i] + [x] + s[i..]
  }

  function RemoveAt<T>(s: seq<T>, i: nat): seq<T>
    requires i < |s|
  {
    s[..i] + s[i + 1..]
  }
}
