/** Values shared by every part of the model: bytes, the errors the code raises, and
    the Result/Option wrappers that stand for Python's exceptions and `None`. */
module Common {

  type Byte = b: int | 0 <= b < 256
  type Bytes = seq<Byte>

  /** A hash function rendered as a hex digest (`hashlib.md5(data).hexdigest()` in the
      source). It is a parameter of every member that hashes: the model never looks inside it. */
  type Digest = Bytes -> string

  /** The exceptions raised by the modelled code, by kind. */
  datatype Error =
    | ValueError(what: string)                               // partition_hash on a short key; read(size) below -1
    | IntegrityError(objectName: string, digest: string, key: string)  // IntegrityVerificationError
    | FileNotFound(path: string)                             // open/rename of a missing file
    | IsADirectory(path: string)                             // open of a directory for reading
    | KeyNotFound(name: string)                              // ArmadilloKeyNotFound
    | NetworkError(path: string)                             // non-200 response
    | StructError                                            // struct.unpack on a buffer of the wrong size
    | InvalidSeek                                            // seek before the start of a real file (OSError)
    | Unseekable                                             // seek on an HTTP body (io.UnsupportedOperation)
    | NotImplemented                                         // a base-class method the subclass does not override
    | MissingKey(key: string)                                // KeyError
    | BlteError(key: string)                                 // BLTE verification or decoding failed

  datatype Result<T> = Ok(value: T) | Err(error: Error) {
    predicate IsFailure() { Err? }
    function PropagateFailure<U>(): Result<U> requires Err? { Err(error) }
    function Extract(): T requires Ok? { value }
  }

  datatype Option<T> = None | Some(value: T)

  function Min(a: int, b: int): int { if a <= b then a else b }
  function Max(a: int, b: int): int { if a <= b then b else a }

  /** Python's `s[-n:]` for n > 0: the last n elements, or all of `s` when it is shorter. */
  function Tail<T>(s: seq<T>, n: nat): (r: seq<T>)
    ensures |r| == Min(n, |s|)
    ensures forall i :: 0 <= i < |r| ==> r[i] == s[|s| - |r| + i]
  {
    if |s| <= n then s else s[|s| - n..]
  }
}
