// Values shared by every module: bytes and the ways a Rust call can end.
module Common {

  type Byte = b: int | 0 <= b < 0x100

  // A Vec<u8>, a &[u8], or a Rust String seen as its UTF-8 bytes.
  type Bytes = seq<Byte>

  datatype Option<+T> = None | Some(value: T)

  // Why a Rust call panicked.
  datatype PanicReason =
    | CompressionNotImplemented
    | UnknownCompressionFlag
    | UnknownMethod(name: Bytes)
    | InvalidUtf8
    | MarshallerFailed
    | HandlerFailed
    | SendFailed
    | UnwrapFailed
    | Poisoned

  // A call either returns or panics.
  datatype Outcome<+T> = Done(value: T) | Panic(reason: PanicReason)

  function Concat(parts: seq<Bytes>): Bytes {
    if parts == [] then [] else parts[0] + Concat(parts[1..])
  }

  lemma Assoc<T>(a: seq<T>, b: seq<T>, c: seq<T>)
    ensures (a + b) + c == a + (b + c)
  {
  }

  // The bytes of an ASCII text.
  function Ascii(text: string): Bytes {
    seq(|text|, i requires 0 <= i < |text| => if text[i] < 128 as char then text[i] as int else 0x3F)
  }
}
