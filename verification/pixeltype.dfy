/** Pixel words of the framebuffer: PIXEL32, PIXEL24, PIXEL16 and PIXEL8.
    A word is an opaque run of bytes tagged with its depth; how a colour is
    packed into those bytes is not part of this model. */
module PixelType {

  newtype byte = x: int | 0 <= x < 256

  /** The four word types, by depth. */
  datatype Kind = K32 | K24 | K16 | K8 {

    /** Bytes in one word of this kind. */
    function Size(): (n: nat)
      ensures 1 <= n <= 4
    {
      match this
      case K32 => 4
      case K24 => 3
      case K16 => 2
      case K8 => 1
    }

    /** Bits per pixel of this kind. */
    function Bits(): nat {
      8 * Size()
    }
  }

  /** One pixel word, as a fixed-length byte array of its kind. */
  datatype Pixel =
    | Pixel32(b0: byte, b1: byte, b2: byte, b3: byte)
    | Pixel24(b0: byte, b1: byte, b2: byte)
    | Pixel16(b0: byte, b1: byte)
    | Pixel8(b0: byte)
  {
    function Kind(): Kind {
      match this
      case Pixel32(_, _, _, _) => K32
      case Pixel24(_, _, _) => K24
      case Pixel16(_, _) => K16
      case Pixel8(_) => K8
    }

    /** The bytes of the word, in memory order. */
    function Bytes(): (bs: seq<byte>)
      ensures |bs| == Kind().Size()
    {
      match this
      case Pixel32(a, b, c, d) => [a, b, c, d]
      case Pixel24(a, b, c) => [a, b, c]
      case Pixel16(a, b) => [a, b]
      case Pixel8(a) => [a]
    }
  }

  /** The all-zero word of a kind, as Go's zero value of the array type. */
  function Zero(k: Kind): (p: Pixel)
    ensures p.Kind() == k
    ensures forall i :: 0 <= i < |p.Bytes()| ==> p.Bytes()[i] == 0
  {
    match k
    case K32 => Pixel32(0, 0, 0, 0)
    case K24 => Pixel24(0, 0, 0)
    case K16 => Pixel16(0, 0)
    case K8 => Pixel8(0)
  }
}
