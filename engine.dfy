/** The part of the ebiten runtime that the virtual machine relies on: the mapping
    between keyboard keys and CHIP-8 key nibbles, and the 64x32 pixel plane the
    interpreter draws on. A pixel is `true` when it is white (lit). */
module Engine {
  import opened Bytes

  const Width := 64
  const Height := 32
  const PlaneSize := Width * Height

  predicate InPlane(col: int, row: int)
  {
    0 <= col < Width && 0 <= row < Height
  }

  /** Position of pixel (col, row) in the row-major pixel buffer. */
  function Index(col: int, row: int): int
  {
    row * Width + col
  }

  lemma IndexInPlane(col: int, row: int)
    requires InPlane(col, row)
    ensures 0 <= Index(col, row) < PlaneSize
    ensures Index(col, row) % Width == col && Index(col, row) / Width == row
  {
  }

  lemma CoordsOfIndex(k: int)
    requires 0 <= k < PlaneSize
    ensures InPlane(k % Width, k / Width) && Index(k % Width, k / Width) == k
  {
  }

  /** The plane with every pixel dark. */
  function Blank(): seq<bool>
  {
    seq(PlaneSize, _ => false)
  }

  /** The sixteen keys the interpreter listens to, and every other key. */
  datatype Key =
    | KeyDigit1 | KeyDigit2 | KeyDigit3 | KeyDigit4
    | KeyQ | KeyW | KeyE | KeyR
    | KeyA | KeyS | KeyD | KeyF
    | KeyZ | KeyX | KeyC | KeyV
    | KeyOther

  /** CHIP-8 key value of a keyboard key; a key outside the sixteen yields Go's zero byte. */
  function KeyToByte(key: Key): (b: byte)
    ensures b < 0x10
    ensures key == KeyOther ==> b == 0x0
  {
    match key
    case KeyDigit1 => 0x0
    case KeyDigit2 => 0x1
    case KeyDigit3 => 0x2
    case KeyDigit4 => 0x3
    case KeyQ => 0x4
    case KeyW => 0x5
    case KeyE => 0x6
    case KeyR => 0x7
    case KeyA => 0x8
    case KeyS => 0x9
    case KeyD => 0xA
    case KeyF => 0xB
    case KeyZ => 0xC
    case KeyX => 0xD
    case KeyC => 0xE
    case KeyV => 0xF
    case KeyOther => 0x0
  }

  /** Keyboard key of a CHIP-8 key value; a value above 0xF yields the zero key,
      which this model represents by `KeyOther`. */
  function ByteToKey(b: byte): (key: Key)
    ensures key == KeyOther <==> b > 0xF
  {
    match b
    case 0x0 => KeyDigit1
    case 0x1 => KeyDigit2
    case 0x2 => KeyDigit3
    case 0x3 => KeyDigit4
    case 0x4 => KeyQ
    case 0x5 => KeyW
    case 0x6 => KeyE
    case 0x7 => KeyR
    case 0x8 => KeyA
    case 0x9 => KeyS
    case 0xA => KeyD
    case 0xB => KeyF
    case 0xC => KeyZ
    case 0xD => KeyX
    case 0xE => KeyC
    case 0xF => KeyV
    case _ => KeyOther
  }

  /** Every key value 0x0-0xF survives the trip to a key and back. */
  lemma ByteToKeyRoundTrip(b: byte)
    requires b <= 0xF
    ensures KeyToByte(ByteToKey(b)) == b
  {
  }

  /** Every one of the sixteen keys survives the trip to a key value and back. */
  lemma KeyToByteRoundTrip(key: Key)
    requires key != KeyOther
    ensures ByteToKey(KeyToByte(key)) == key
  {
  }

  /** Distinct key values 0x0-0xF name distinct keys. */
  lemma ByteToKeyInjective(a: byte, b: byte)
    requires a <= 0xF && b <= 0xF
    requires ByteToKey(a) == ByteToKey(b)
    ensures a == b
  {
    ByteToKeyRoundTrip(a);
    ByteToKeyRoundTrip(b);
  }

  /** Over all keys the mapping to key values is not injective: an unlisted key
      reads as the key value of `KeyDigit1`. */
  lemma KeyToByteNotInjective()
    ensures KeyOther != KeyDigit1 && KeyToByte(KeyOther) == KeyToByte(KeyDigit1)
  {
  }

  /** The display: a 64x32 buffer of pixels, each white (true) or black (false). */
  class Runtime {
    const image: array<bool>

    ghost predicate Valid()
      reads this
    {
      image.Length == PlaneSize
    }

    /** The image part of `NewRuntime`: a fresh buffer, then `ClearScreen`. */
    constructor ()
      ensures Valid() && fresh(image)
      ensures image[..] == Blank()
    {
      image := new bool[PlaneSize];
      new;
      ClearScreen();
    }

    /** Whether pixel (col, row) is white; a point outside the image is never white. */
    function IsPixelSet(col: int, row: int): (lit: bool)
      requires Valid()
      reads this, image
      ensures lit ==> InPlane(col, row)
      ensures InPlane(col, row) ==> lit == image[Index(col, row)]
    {
      InPlane(col, row) && image[Index(col, row)]
    }

    /** Paints pixel (col, row) white when `on`, black otherwise; a point outside
        the image is ignored. */
    method Set(col: int, row: int, on: bool)
      requires Valid()
      modifies image
      ensures InPlane(col, row) ==> image[..] == old(image[..])[Index(col, row) := on]
      ensures !InPlane(col, row) ==> image[..] == old(image[..])
      ensures InPlane(col, row) ==> IsPixelSet(col, row) == on
      ensures forall c, r :: (c, r) != (col, row) ==> IsPixelSet(c, r) == old(IsPixelSet(c, r))
    {
      if InPlane(col, row) {
        IndexInPlane(col, row);
        image[Index(col, row)] := on;
      }
    }

    /** Paints every pixel black, column by column. */
    method ClearScreen()
      requires Valid()
      modifies image
      ensures image[..] == Blank()
      ensures forall c, r :: !IsPixelSet(c, r)
    {
      for x := 0 to Width
        invariant forall c, r :: InPlane(c, r) && c < x ==> !image[Index(c, r)]
      {
        for y := 0 to Height
          invariant forall c, r :: InPlane(c, r) && (c < x || (c == x && r < y)) ==> !image[Index(c, r)]
        {
          IndexInPlane(x, y);
          image[Index(x, y)] := false;
        }
      }
      forall k | 0 <= k < PlaneSize
        ensures !image[k]
      {
        CoordsOfIndex(k);
      }
    }
  }
}
