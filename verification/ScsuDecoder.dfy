/** A decoder for the Standard Compression Scheme for Unicode, written from UTS #6 and not from
    the compressor, with which it shares no table and no tag. It takes one octet at a time; `pending`
    says what an unfinished tag awaits. */
module ScsuDecoder {
  import opened Bytes
  import opened ScsuWindows

  datatype Pending =
    | Ready
    | QuoteFrom(window: Window)
    | Define(window: Window)
    | QuoteHigh
    | QuoteLow(high: Byte)
    | ExtendHigh
    | ExtendLow(high: Byte)
    | UnicodeLow(high: Byte)

  datatype Decoder =
    | Illegal
    | Decoder(unicodeMode: bool, active: Window, windows: Windows, pending: Pending, text: seq<CodeUnit>)

  /** Single-byte mode, with the initial positions of the dynamic windows. */
  const INITIAL := Decoder(false, 0, [0x0080, 0x00C0, 0x0400, 0x0600, 0x0900, 0x3040, 0x30A0, 0xFF00], Ready, [])

  function StaticPosition(window: Window): Base {
    match window
    case 0 => 0x0000
    case 1 => 0x0080
    case 2 => 0x0100
    case 3 => 0x0300
    case 4 => 0x2000
    case 5 => 0x2080
    case 6 => 0x2100
    case 7 => 0x3000
  }

  /** The position that an offset octet gives a dynamic window, unless it is reserved. */
  function Position(offset: Byte): Option<Base> {
    if 0x01 <= offset <= 0x67 then Some(offset * 0x80)
    else if 0x68 <= offset <= 0xA7 then Some(offset * 0x80 + 0xAC00)
    else
      match offset
      case 0xF9 => Some(0x00C0)
      case 0xFA => Some(0x0250)
      case 0xFB => Some(0x0370)
      case 0xFC => Some(0x0530)
      case 0xFD => Some(0x3040)
      case 0xFE => Some(0x30A0)
      case 0xFF => Some(0xFF60)
      case _ => None
  }

  function Emit(d: Decoder, code: int): Decoder
    requires d.Decoder? && 0 <= code < 0x11_0000
  {
    d.(text := d.text + Utf16(code), pending := Ready)
  }

  function Select(d: Decoder, window: Window): Decoder
    requires d.Decoder?
  {
    d.(unicodeMode := false, active := window, pending := Ready)
  }

  function Redefine(d: Decoder, window: Window, base: Base): Decoder
    requires d.Decoder?
  {
    Select(d.(windows := d.windows[window := base]), window)
  }

  function SingleByteModeTag(d: Decoder, b: Byte): Decoder
    requires d.Decoder?
  {
    if b >= 0x80 then Emit(d, d.windows[d.active] + (b - 0x80))
    else if b >= 0x20 || b == 0x00 || b == 0x09 || b == 0x0A || b == 0x0D then Emit(d, b)
    else if b <= 0x08 then d.(pending := QuoteFrom(b - 0x01))
    else if b == 0x0B then d.(pending := ExtendHigh)
    else if b == 0x0C then Illegal
    else if b == 0x0E then d.(pending := QuoteHigh)
    else if b == 0x0F then d.(unicodeMode := true)
    else if b <= 0x17 then Select(d, b - 0x10)
    else d.(pending := Define(b - 0x18))
  }

  function UnicodeModeTag(d: Decoder, b: Byte): Decoder
    requires d.Decoder?
  {
    if 0xE0 <= b <= 0xE7 then Select(d, b - 0xE0)
    else if 0xE8 <= b <= 0xEF then d.(pending := Define(b - 0xE8))
    else if b == 0xF0 then d.(pending := QuoteHigh)
    else if b == 0xF1 then d.(pending := ExtendHigh)
    else if b == 0xF2 then Illegal
    else d.(pending := UnicodeLow(b))
  }

  function Step(d: Decoder, b: Byte): Decoder {
    if d.Illegal? then Illegal
    else match d.pending
      case Ready => if d.unicodeMode then UnicodeModeTag(d, b) else SingleByteModeTag(d, b)
      case QuoteFrom(n) => Emit(d, if b < 0x80 then StaticPosition(n) + b else d.windows[n] + (b - 0x80))
      case Define(n) =>
        var position := Position(b);
        if position.Some? then Redefine(d, n, position.value) else Illegal
      case QuoteHigh => d.(pending := QuoteLow(b))
      case QuoteLow(high) => Emit(d, high * 0x100 + b)
      case ExtendHigh => d.(pending := ExtendLow(b))
      case ExtendLow(high) => Redefine(d, high / 0x20, 0x1_0000 + 0x80 * (high % 0x20 * 0x100 + b))
      case UnicodeLow(high) => Emit(d, high * 0x100 + b)
  }

  function Run(d: Decoder, bytes: seq<Byte>): Decoder
    decreases |bytes|
  {
    if bytes == [] then d else Run(Step(d, bytes[0]), bytes[1..])
  }

  /** The text of a compressed sequence, when it is legal and ends between tags. */
  function Decompress(bytes: seq<Byte>): Option<seq<CodeUnit>> {
    var d := Run(INITIAL, bytes);
    if d.Decoder? && d.pending == Ready then Some(d.text) else None
  }

  lemma {:induction false} RunConcat(d: Decoder, a: seq<Byte>, b: seq<Byte>)
    ensures Run(d, a + b) == Run(Run(d, a), b)
    decreases |a|
  {
    if a == [] {
      assert a + b == b;
    } else {
      RunConcat(Step(d, a[0]), a[1..], b);
      assert (a + b)[1..] == a[1..] + b;
    }
  }
}
