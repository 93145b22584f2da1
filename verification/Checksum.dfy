/** The checksums of images: tables of 256 entries, for a byte at a time, against division by the
    polynomial, a bit at a time. */
module Checksum {

  // CRC-CCITT

  /** One step of the division by x^16 + x^12 + x^5 + 1, the highest bit first. */
  function Shift16(crc: bv16): bv16 {
    Plus16(Next16(crc), Reduce16(crc))
  }

  /** The bit that comes out next. */
  predicate Out16(crc: bv16) {
    crc & 0x8000 != 0
  }

  function Next16(crc: bv16): bv16 {
    crc << 1
  }

  /** Addition of remainders. */
  function Plus16(a: bv16, b: bv16): bv16 {
    a ^ b
  }

  function Reduce16(crc: bv16): bv16 {
    if Out16(crc) then 0x1021 else 0
  }

  function Shift16By8(crc: bv16): bv16 {
    Shift16(Shift16(Shift16(Shift16(Shift16(Shift16(Shift16(Shift16(crc))))))))
  }

  function CrcTabRow0(i: bv8): (r: bv16)
    requires i < 0x20
    ensures r == Shift16By8((i as bv16) << 8)
  {
    match i
    case 0x00 => 0x0000 case 0x01 => 0x1021 case 0x02 => 0x2042 case 0x03 => 0x3063
    case 0x04 => 0x4084 case 0x05 => 0x50a5 case 0x06 => 0x60c6 case 0x07 => 0x70e7
    case 0x08 => 0x8108 case 0x09 => 0x9129 case 0x0a => 0xa14a case 0x0b => 0xb16b
    case 0x0c => 0xc18c case 0x0d => 0xd1ad case 0x0e => 0xe1ce case 0x0f => 0xf1ef
    case 0x10 => 0x1231 case 0x11 => 0x0210 case 0x12 => 0x3273 case 0x13 => 0x2252
    case 0x14 => 0x52b5 case 0x15 => 0x4294 case 0x16 => 0x72f7 case 0x17 => 0x62d6
    case 0x18 => 0x9339 case 0x19 => 0x8318 case 0x1a => 0xb37b case 0x1b => 0xa35a
    case 0x1c => 0xd3bd case 0x1d => 0xc39c case 0x1e => 0xf3ff case _ => 0xe3de
  }

  function CrcTabRow1(i: bv8): (r: bv16)
    requires 0x20 <= i < 0x40
    ensures r == Shift16By8((i as bv16) << 8)
  {
    match i
    case 0x20 => 0x2462 case 0x21 => 0x3443 case 0x22 => 0x0420 case 0x23 => 0x1401
    case 0x24 => 0x64e6 case 0x25 => 0x74c7 case 0x26 => 0x44a4 case 0x27 => 0x5485
    case 0x28 => 0xa56a case 0x29 => 0xb54b case 0x2a => 0x8528 case 0x2b => 0x9509
    case 0x2c => 0xe5ee case 0x2d => 0xf5cf case 0x2e => 0xc5ac case 0x2f => 0xd58d
    case 0x30 => 0x3653 case 0x31 => 0x2672 case 0x32 => 0x1611 case 0x33 => 0x0630
    case 0x34 => 0x76d7 case 0x35 => 0x66f6 case 0x36 => 0x5695 case 0x37 => 0x46b4
    case 0x38 => 0xb75b case 0x39 => 0xa77a case 0x3a => 0x9719 case 0x3b => 0x8738
    case 0x3c => 0xf7df case 0x3d => 0xe7fe case 0x3e => 0xd79d case _ => 0xc7bc
  }

  function CrcTabRow2(i: bv8): (r: bv16)
    requires 0x40 <= i < 0x60
    ensures r == Shift16By8((i as bv16) << 8)
  {
    match i
    case 0x40 => 0x48c4 case 0x41 => 0x58e5 case 0x42 => 0x6886 case 0x43 => 0x78a7
    case 0x44 => 0x0840 case 0x45 => 0x1861 case 0x46 => 0x2802 case 0x47 => 0x3823
    case 0x48 => 0xc9cc case 0x49 => 0xd9ed case 0x4a => 0xe98e case 0x4b => 0xf9af
    case 0x4c => 0x8948 case 0x4d => 0x9969 case 0x4e => 0xa90a case 0x4f => 0xb92b
    case 0x50 => 0x5af5 case 0x51 => 0x4ad4 case 0x52 => 0x7ab7 case 0x53 => 0x6a96
    case 0x54 => 0x1a71 case 0x55 => 0x0a50 case 0x56 => 0x3a33 case 0x57 => 0x2a12
    case 0x58 => 0xdbfd case 0x59 => 0xcbdc case 0x5a => 0xfbbf case 0x5b => 0xeb9e
    case 0x5c => 0x9b79 case 0x5d => 0x8b58 case 0x5e => 0xbb3b case _ => 0xab1a
  }

  function CrcTabRow3(i: bv8): (r: bv16)
    requires 0x60 <= i < 0x80
    ensures r == Shift16By8((i as bv16) << 8)
  {
    match i
    case 0x60 => 0x6ca6 case 0x61 => 0x7c87 case 0x62 => 0x4ce4 case 0x63 => 0x5cc5
    case 0x64 => 0x2c22 case 0x65 => 0x3c03 case 0x66 => 0x0c60 case 0x67 => 0x1c41
    case 0x68 => 0xedae case 0x69 => 0xfd8f case 0x6a => 0xcdec case 0x6b => 0xddcd
    case 0x6c => 0xad2a case 0x6d => 0xbd0b case 0x6e => 0x8d68 case 0x6f => 0x9d49
    case 0x70 => 0x7e97 case 0x71 => 0x6eb6 case 0x72 => 0x5ed5 case 0x73 => 0x4ef4
    case 0x74 => 0x3e13 case 0x75 => 0x2e32 case 0x76 => 0x1e51 case 0x77 => 0x0e70
    case 0x78 => 0xff9f case 0x79 => 0xefbe case 0x7a => 0xdfdd case 0x7b => 0xcffc
    case 0x7c => 0xbf1b case 0x7d => 0xaf3a case 0x7e => 0x9f59 case _ => 0x8f78
  }

  function CrcTabRow4(i: bv8): (r: bv16)
    requires 0x80 <= i < 0xA0
    ensures r == Shift16By8((i as bv16) << 8)
  {
    match i
    case 0x80 => 0x9188 case 0x81 => 0x81a9 case 0x82 => 0xb1ca case 0x83 => 0xa1eb
    case 0x84 => 0xd10c case 0x85 => 0xc12d case 0x86 => 0xf14e case 0x87 => 0xe16f
    case 0x88 => 0x1080 case 0x89 => 0x00a1 case 0x8a => 0x30c2 case 0x8b => 0x20e3
    case 0x8c => 0x5004 case 0x8d => 0x4025 case 0x8e => 0x7046 case 0x8f => 0x6067
    case 0x90 => 0x83b9 case 0x91 => 0x9398 case 0x92 => 0xa3fb case 0x93 => 0xb3da
    case 0x94 => 0xc33d case 0x95 => 0xd31c case 0x96 => 0xe37f case 0x97 => 0xf35e
    case 0x98 => 0x02b1 case 0x99 => 0x1290 case 0x9a => 0x22f3 case 0x9b => 0x32d2
    case 0x9c => 0x4235 case 0x9d => 0x5214 case 0x9e => 0x6277 case _ => 0x7256
  }

  function CrcTabRow5(i: bv8): (r: bv16)
    requires 0xA0 <= i < 0xC0
    ensures r == Shift16By8((i as bv16) << 8)
  {
    match i
    case 0xa0 => 0xb5ea case 0xa1 => 0xa5cb case 0xa2 => 0x95a8 case 0xa3 => 0x8589
    case 0xa4 => 0xf56e case 0xa5 => 0xe54f case 0xa6 => 0xd52c case 0xa7 => 0xc50d
    case 0xa8 => 0x34e2 case 0xa9 => 0x24c3 case 0xaa => 0x14a0 case 0xab => 0x0481
    case 0xac => 0x7466 case 0xad => 0x6447 case 0xae => 0x5424 case 0xaf => 0x4405
    case 0xb0 => 0xa7db case 0xb1 => 0xb7fa case 0xb2 => 0x8799 case 0xb3 => 0x97b8
    case 0xb4 => 0xe75f case 0xb5 => 0xf77e case 0xb6 => 0xc71d case 0xb7 => 0xd73c
    case 0xb8 => 0x26d3 case 0xb9 => 0x36f2 case 0xba => 0x0691 case 0xbb => 0x16b0
    case 0xbc => 0x6657 case 0xbd => 0x7676 case 0xbe => 0x4615 case _ => 0x5634
  }

  function CrcTabRow6(i: bv8): (r: bv16)
    requires 0xC0 <= i < 0xE0
    ensures r == Shift16By8((i as bv16) << 8)
  {
    match i
    case 0xc0 => 0xd94c case 0xc1 => 0xc96d case 0xc2 => 0xf90e case 0xc3 => 0xe92f
    case 0xc4 => 0x99c8 case 0xc5 => 0x89e9 case 0xc6 => 0xb98a case 0xc7 => 0xa9ab
    case 0xc8 => 0x5844 case 0xc9 => 0x4865 case 0xca => 0x7806 case 0xcb => 0x6827
    case 0xcc => 0x18c0 case 0xcd => 0x08e1 case 0xce => 0x3882 case 0xcf => 0x28a3
    case 0xd0 => 0xcb7d case 0xd1 => 0xdb5c case 0xd2 => 0xeb3f case 0xd3 => 0xfb1e
    case 0xd4 => 0x8bf9 case 0xd5 => 0x9bd8 case 0xd6 => 0xabbb case 0xd7 => 0xbb9a
    case 0xd8 => 0x4a75 case 0xd9 => 0x5a54 case 0xda => 0x6a37 case 0xdb => 0x7a16
    case 0xdc => 0x0af1 case 0xdd => 0x1ad0 case 0xde => 0x2ab3 case _ => 0x3a92
  }

  function CrcTabRow7(i: bv8): (r: bv16)
    requires 0xE0 <= i
    ensures r == Shift16By8((i as bv16) << 8)
  {
    match i
    case 0xe0 => 0xfd2e case 0xe1 => 0xed0f case 0xe2 => 0xdd6c case 0xe3 => 0xcd4d
    case 0xe4 => 0xbdaa case 0xe5 => 0xad8b case 0xe6 => 0x9de8 case 0xe7 => 0x8dc9
    case 0xe8 => 0x7c26 case 0xe9 => 0x6c07 case 0xea => 0x5c64 case 0xeb => 0x4c45
    case 0xec => 0x3ca2 case 0xed => 0x2c83 case 0xee => 0x1ce0 case 0xef => 0x0cc1
    case 0xf0 => 0xef1f case 0xf1 => 0xff3e case 0xf2 => 0xcf5d case 0xf3 => 0xdf7c
    case 0xf4 => 0xaf9b case 0xf5 => 0xbfba case 0xf6 => 0x8fd9 case 0xf7 => 0x9ff8
    case 0xf8 => 0x6e17 case 0xf9 => 0x7e36 case 0xfa => 0x4e55 case 0xfb => 0x5e74
    case 0xfc => 0x2e93 case 0xfd => 0x3eb2 case 0xfe => 0x0ed1 case _ => 0x1ef0
  }

  /** The table, thirty-two entries a row: each entry is what the division leaves of its index. */
  function CrcTab(i: bv8): (r: bv16)
    ensures r == Shift16By8((i as bv16) << 8)
  {
    if i < 0x20 then CrcTabRow0(i)
    else if i < 0x40 then CrcTabRow1(i)
    else if i < 0x60 then CrcTabRow2(i)
    else if i < 0x80 then CrcTabRow3(i)
    else if i < 0xA0 then CrcTabRow4(i)
    else if i < 0xC0 then CrcTabRow5(i)
    else if i < 0xE0 then CrcTabRow6(i)
    else CrcTabRow7(i)
  }

  lemma Out16Xor(a: bv16, b: bv16)
    ensures Out16(Plus16(a, b)) <==> Out16(a) != Out16(b)
  {
  }

  lemma Plus16Nothing(a: bv16)
    ensures Plus16(a, 0) == a && Plus16(0, a) == a && Plus16(a, a) == 0
  {
  }

  lemma Reduce16Xor(a: bv16, b: bv16)
    ensures Reduce16(Plus16(a, b)) == Plus16(Reduce16(a), Reduce16(b))
  {
    hide Out16, Plus16;
    Out16Xor(a, b);
    Plus16Nothing(0x1021);
    Plus16Nothing(0);
  }

  lemma Exchange16(a: bv16, b: bv16, c: bv16, d: bv16)
    ensures Plus16(Plus16(a, b), Plus16(c, d)) == Plus16(Plus16(a, c), Plus16(b, d))
  {
    hide Plus16;
    Regroup16(Plus16(a, b), c, d);
    Regroup16(a, b, c);
    Regroup16(a, c, b);
    Regroup16(Plus16(a, c), b, d);
    Turned16(b, c);
  }

  lemma Regroup16(a: bv16, b: bv16, c: bv16)
    ensures Plus16(Plus16(a, b), c) == Plus16(a, Plus16(b, c))
  {
  }

  lemma Turned16(a: bv16, b: bv16)
    ensures Plus16(a, b) == Plus16(b, a)
  {
  }

  lemma Next16Xor(a: bv16, b: bv16)
    ensures Next16(Plus16(a, b)) == Plus16(Next16(a), Next16(b))
  {
  }

  /** The division is linear. */
  lemma Shift16Xor(a: bv16, b: bv16)
    ensures Shift16(Plus16(a, b)) == Plus16(Shift16(a), Shift16(b))
  {
    hide Reduce16, Next16, Plus16;
    Next16Xor(a, b);
    Reduce16Xor(a, b);
    Exchange16(Next16(a), Next16(b), Reduce16(a), Reduce16(b));
  }

  lemma Shift16By8Xor(a: bv16, b: bv16)
    ensures Shift16By8(Plus16(a, b)) == Plus16(Shift16By8(a), Shift16By8(b))
  {
    hide Shift16, Plus16;
    Shift16Xor(a, b);
    var a1, b1 := Shift16(a), Shift16(b);
    Shift16Xor(a1, b1);
    var a2, b2 := Shift16(a1), Shift16(b1);
    Shift16Xor(a2, b2);
    var a3, b3 := Shift16(a2), Shift16(b2);
    Shift16Xor(a3, b3);
    var a4, b4 := Shift16(a3), Shift16(b3);
    Shift16Xor(a4, b4);
    var a5, b5 := Shift16(a4), Shift16(b4);
    Shift16Xor(a5, b5);
    var a6, b6 := Shift16(a5), Shift16(b5);
    Shift16Xor(a6, b6);
    Shift16Xor(Shift16(a6), Shift16(b6));
  }

  lemma Shift16Moves(crc: bv16)
    requires !Out16(crc)
    ensures Shift16(crc) == Next16(crc)
  {
    hide Out16, Next16, Plus16;
    Plus16Nothing(Next16(crc));
  }

  function Byte16(crc: bv16): bv16 {
    crc << 8
  }

  lemma FreeBits16(crc: bv16)
    requires crc & 0xFF00 == 0
    ensures var c1 := Next16(crc); var c2 := Next16(c1); var c3 := Next16(c2); var c4 := Next16(c3);
            var c5 := Next16(c4); var c6 := Next16(c5); var c7 := Next16(c6);
            && !Out16(crc) && !Out16(c1) && !Out16(c2) && !Out16(c3) && !Out16(c4) && !Out16(c5)
            && !Out16(c6) && !Out16(c7) && Next16(c7) == Byte16(crc)
  {
  }

  /** The bits that do not reach the end are only moved. */
  lemma Shift16Free(crc: bv16)
    requires crc & 0xFF00 == 0
    ensures Shift16By8(crc) == Byte16(crc)
  {
    hide Shift16, Next16, Out16, Byte16;
    FreeBits16(crc);
    Shift16Moves(crc);
    var c1 := Next16(crc);
    Shift16Moves(c1);
    var c2 := Next16(c1);
    Shift16Moves(c2);
    var c3 := Next16(c2);
    Shift16Moves(c3);
    var c4 := Next16(c3);
    Shift16Moves(c4);
    var c5 := Next16(c4);
    Shift16Moves(c5);
    var c6 := Next16(c5);
    Shift16Moves(c6);
    Shift16Moves(Next16(c6));
  }

  /** The bits that reach the end within eight steps, and the others. */
  function Head16(crc: bv16): bv16 {
    crc & 0xFF00
  }

  function Rest16(crc: bv16): bv16 {
    crc & 0x00FF
  }

  lemma Parts16(crc: bv16)
    ensures crc == Plus16(Head16(crc), Rest16(crc))
    ensures Rest16(crc) & 0xFF00 == 0 && Byte16(Rest16(crc)) == Byte16(crc)
  {
  }

  lemma Shift16Splits(crc: bv16)
    ensures Shift16By8(crc) == Plus16(Shift16By8(Head16(crc)), Byte16(crc))
  {
    hide Shift16By8, Plus16, Head16, Rest16, Byte16;
    Parts16(crc);
    Shift16By8Xor(Head16(crc), Rest16(crc));
    Shift16Free(Rest16(crc));
  }

  // CRC-32

  /** One step of the division by the polynomial of RFC 1952, section 8, the lowest bit first. */
  function Shift32(crc: bv32): bv32 {
    Plus32(Next32(crc), Reduce32(crc))
  }

  /** The bit that comes out next. */
  predicate Out32(crc: bv32) {
    crc & 0x0000_0001 != 0
  }

  function Next32(crc: bv32): bv32 {
    crc >> 1
  }

  /** Addition of remainders. */
  function Plus32(a: bv32, b: bv32): bv32 {
    a ^ b
  }

  function Reduce32(crc: bv32): bv32 {
    if Out32(crc) then 0xEDB8_8320 else 0
  }

  function Shift32By8(crc: bv32): bv32 {
    Shift32(Shift32(Shift32(Shift32(Shift32(Shift32(Shift32(Shift32(crc))))))))
  }

  function CrcTab32Row0(i: bv8): (r: bv32)
    requires i < 0x20
    ensures r == Shift32By8(i as bv32)
  {
    match i
    case 0x00 => 0x00000000 case 0x01 => 0x77073096 case 0x02 => 0xee0e612c case 0x03 => 0x990951ba
    case 0x04 => 0x076dc419 case 0x05 => 0x706af48f case 0x06 => 0xe963a535 case 0x07 => 0x9e6495a3
    case 0x08 => 0x0edb8832 case 0x09 => 0x79dcb8a4 case 0x0a => 0xe0d5e91e case 0x0b => 0x97d2d988
    case 0x0c => 0x09b64c2b case 0x0d => 0x7eb17cbd case 0x0e => 0xe7b82d07 case 0x0f => 0x90bf1d91
    case 0x10 => 0x1db71064 case 0x11 => 0x6ab020f2 case 0x12 => 0xf3b97148 case 0x13 => 0x84be41de
    case 0x14 => 0x1adad47d case 0x15 => 0x6ddde4eb case 0x16 => 0xf4d4b551 case 0x17 => 0x83d385c7
    case 0x18 => 0x136c9856 case 0x19 => 0x646ba8c0 case 0x1a => 0xfd62f97a case 0x1b => 0x8a65c9ec
    case 0x1c => 0x14015c4f case 0x1d => 0x63066cd9 case 0x1e => 0xfa0f3d63 case _ => 0x8d080df5
  }

  function CrcTab32Row1(i: bv8): (r: bv32)
    requires 0x20 <= i < 0x40
    ensures r == Shift32By8(i as bv32)
  {
    match i
    case 0x20 => 0x3b6e20c8 case 0x21 => 0x4c69105e case 0x22 => 0xd56041e4 case 0x23 => 0xa2677172
    case 0x24 => 0x3c03e4d1 case 0x25 => 0x4b04d447 case 0x26 => 0xd20d85fd case 0x27 => 0xa50ab56b
    case 0x28 => 0x35b5a8fa case 0x29 => 0x42b2986c case 0x2a => 0xdbbbc9d6 case 0x2b => 0xacbcf940
    case 0x2c => 0x32d86ce3 case 0x2d => 0x45df5c75 case 0x2e => 0xdcd60dcf case 0x2f => 0xabd13d59
    case 0x30 => 0x26d930ac case 0x31 => 0x51de003a case 0x32 => 0xc8d75180 case 0x33 => 0xbfd06116
    case 0x34 => 0x21b4f4b5 case 0x35 => 0x56b3c423 case 0x36 => 0xcfba9599 case 0x37 => 0xb8bda50f
    case 0x38 => 0x2802b89e case 0x39 => 0x5f058808 case 0x3a => 0xc60cd9b2 case 0x3b => 0xb10be924
    case 0x3c => 0x2f6f7c87 case 0x3d => 0x58684c11 case 0x3e => 0xc1611dab case _ => 0xb6662d3d
  }

  function CrcTab32Row2(i: bv8): (r: bv32)
    requires 0x40 <= i < 0x60
    ensures r == Shift32By8(i as bv32)
  {
    match i
    case 0x40 => 0x76dc4190 case 0x41 => 0x01db7106 case 0x42 => 0x98d220bc case 0x43 => 0xefd5102a
    case 0x44 => 0x71b18589 case 0x45 => 0x06b6b51f case 0x46 => 0x9fbfe4a5 case 0x47 => 0xe8b8d433
    case 0x48 => 0x7807c9a2 case 0x49 => 0x0f00f934 case 0x4a => 0x9609a88e case 0x4b => 0xe10e9818
    case 0x4c => 0x7f6a0dbb case 0x4d => 0x086d3d2d case 0x4e => 0x91646c97 case 0x4f => 0xe6635c01
    case 0x50 => 0x6b6b51f4 case 0x51 => 0x1c6c6162 case 0x52 => 0x856530d8 case 0x53 => 0xf262004e
    case 0x54 => 0x6c0695ed case 0x55 => 0x1b01a57b case 0x56 => 0x8208f4c1 case 0x57 => 0xf50fc457
    case 0x58 => 0x65b0d9c6 case 0x59 => 0x12b7e950 case 0x5a => 0x8bbeb8ea case 0x5b => 0xfcb9887c
    case 0x5c => 0x62dd1ddf case 0x5d => 0x15da2d49 case 0x5e => 0x8cd37cf3 case _ => 0xfbd44c65
  }

  function CrcTab32Row3(i: bv8): (r: bv32)
    requires 0x60 <= i < 0x80
    ensures r == Shift32By8(i as bv32)
  {
    match i
    case 0x60 => 0x4db26158 case 0x61 => 0x3ab551ce case 0x62 => 0xa3bc0074 case 0x63 => 0xd4bb30e2
    case 0x64 => 0x4adfa541 case 0x65 => 0x3dd895d7 case 0x66 => 0xa4d1c46d case 0x67 => 0xd3d6f4fb
    case 0x68 => 0x4369e96a case 0x69 => 0x346ed9fc case 0x6a => 0xad678846 case 0x6b => 0xda60b8d0
    case 0x6c => 0x44042d73 case 0x6d => 0x33031de5 case 0x6e => 0xaa0a4c5f case 0x6f => 0xdd0d7cc9
    case 0x70 => 0x5005713c case 0x71 => 0x270241aa case 0x72 => 0xbe0b1010 case 0x73 => 0xc90c2086
    case 0x74 => 0x5768b525 case 0x75 => 0x206f85b3 case 0x76 => 0xb966d409 case 0x77 => 0xce61e49f
    case 0x78 => 0x5edef90e case 0x79 => 0x29d9c998 case 0x7a => 0xb0d09822 case 0x7b => 0xc7d7a8b4
    case 0x7c => 0x59b33d17 case 0x7d => 0x2eb40d81 case 0x7e => 0xb7bd5c3b case _ => 0xc0ba6cad
  }

  function CrcTab32Row4(i: bv8): (r: bv32)
    requires 0x80 <= i < 0xA0
    ensures r == Shift32By8(i as bv32)
  {
    match i
    case 0x80 => 0xedb88320 case 0x81 => 0x9abfb3b6 case 0x82 => 0x03b6e20c case 0x83 => 0x74b1d29a
    case 0x84 => 0xead54739 case 0x85 => 0x9dd277af case 0x86 => 0x04db2615 case 0x87 => 0x73dc1683
    case 0x88 => 0xe3630b12 case 0x89 => 0x94643b84 case 0x8a => 0x0d6d6a3e case 0x8b => 0x7a6a5aa8
    case 0x8c => 0xe40ecf0b case 0x8d => 0x9309ff9d case 0x8e => 0x0a00ae27 case 0x8f => 0x7d079eb1
    case 0x90 => 0xf00f9344 case 0x91 => 0x8708a3d2 case 0x92 => 0x1e01f268 case 0x93 => 0x6906c2fe
    case 0x94 => 0xf762575d case 0x95 => 0x806567cb case 0x96 => 0x196c3671 case 0x97 => 0x6e6b06e7
    case 0x98 => 0xfed41b76 case 0x99 => 0x89d32be0 case 0x9a => 0x10da7a5a case 0x9b => 0x67dd4acc
    case 0x9c => 0xf9b9df6f case 0x9d => 0x8ebeeff9 case 0x9e => 0x17b7be43 case _ => 0x60b08ed5
  }

  function CrcTab32Row5(i: bv8): (r: bv32)
    requires 0xA0 <= i < 0xC0
    ensures r == Shift32By8(i as bv32)
  {
    match i
    case 0xa0 => 0xd6d6a3e8 case 0xa1 => 0xa1d1937e case 0xa2 => 0x38d8c2c4 case 0xa3 => 0x4fdff252
    case 0xa4 => 0xd1bb67f1 case 0xa5 => 0xa6bc5767 case 0xa6 => 0x3fb506dd case 0xa7 => 0x48b2364b
    case 0xa8 => 0xd80d2bda case 0xa9 => 0xaf0a1b4c case 0xaa => 0x36034af6 case 0xab => 0x41047a60
    case 0xac => 0xdf60efc3 case 0xad => 0xa867df55 case 0xae => 0x316e8eef case 0xaf => 0x4669be79
    case 0xb0 => 0xcb61b38c case 0xb1 => 0xbc66831a case 0xb2 => 0x256fd2a0 case 0xb3 => 0x5268e236
    case 0xb4 => 0xcc0c7795 case 0xb5 => 0xbb0b4703 case 0xb6 => 0x220216b9 case 0xb7 => 0x5505262f
    case 0xb8 => 0xc5ba3bbe case 0xb9 => 0xb2bd0b28 case 0xba => 0x2bb45a92 case 0xbb => 0x5cb36a04
    case 0xbc => 0xc2d7ffa7 case 0xbd => 0xb5d0cf31 case 0xbe => 0x2cd99e8b case _ => 0x5bdeae1d
  }

  function CrcTab32Row6(i: bv8): (r: bv32)
    requires 0xC0 <= i < 0xE0
    ensures r == Shift32By8(i as bv32)
  {
    match i
    case 0xc0 => 0x9b64c2b0 case 0xc1 => 0xec63f226 case 0xc2 => 0x756aa39c case 0xc3 => 0x026d930a
    case 0xc4 => 0x9c0906a9 case 0xc5 => 0xeb0e363f case 0xc6 => 0x72076785 case 0xc7 => 0x05005713
    case 0xc8 => 0x95bf4a82 case 0xc9 => 0xe2b87a14 case 0xca => 0x7bb12bae case 0xcb => 0x0cb61b38
    case 0xcc => 0x92d28e9b case 0xcd => 0xe5d5be0d case 0xce => 0x7cdcefb7 case 0xcf => 0x0bdbdf21
    case 0xd0 => 0x86d3d2d4 case 0xd1 => 0xf1d4e242 case 0xd2 => 0x68ddb3f8 case 0xd3 => 0x1fda836e
    case 0xd4 => 0x81be16cd case 0xd5 => 0xf6b9265b case 0xd6 => 0x6fb077e1 case 0xd7 => 0x18b74777
    case 0xd8 => 0x88085ae6 case 0xd9 => 0xff0f6a70 case 0xda => 0x66063bca case 0xdb => 0x11010b5c
    case 0xdc => 0x8f659eff case 0xdd => 0xf862ae69 case 0xde => 0x616bffd3 case _ => 0x166ccf45
  }

  function CrcTab32Row7(i: bv8): (r: bv32)
    requires 0xE0 <= i
    ensures r == Shift32By8(i as bv32)
  {
    match i
    case 0xe0 => 0xa00ae278 case 0xe1 => 0xd70dd2ee case 0xe2 => 0x4e048354 case 0xe3 => 0x3903b3c2
    case 0xe4 => 0xa7672661 case 0xe5 => 0xd06016f7 case 0xe6 => 0x4969474d case 0xe7 => 0x3e6e77db
    case 0xe8 => 0xaed16a4a case 0xe9 => 0xd9d65adc case 0xea => 0x40df0b66 case 0xeb => 0x37d83bf0
    case 0xec => 0xa9bcae53 case 0xed => 0xdebb9ec5 case 0xee => 0x47b2cf7f case 0xef => 0x30b5ffe9
    case 0xf0 => 0xbdbdf21c case 0xf1 => 0xcabac28a case 0xf2 => 0x53b39330 case 0xf3 => 0x24b4a3a6
    case 0xf4 => 0xbad03605 case 0xf5 => 0xcdd70693 case 0xf6 => 0x54de5729 case 0xf7 => 0x23d967bf
    case 0xf8 => 0xb3667a2e case 0xf9 => 0xc4614ab8 case 0xfa => 0x5d681b02 case 0xfb => 0x2a6f2b94
    case 0xfc => 0xb40bbe37 case 0xfd => 0xc30c8ea1 case 0xfe => 0x5a05df1b case _ => 0x2d02ef8d
  }

  /** The table, thirty-two entries a row: each entry is what the division leaves of its index. */
  function CrcTab32(i: bv8): (r: bv32)
    ensures r == Shift32By8(i as bv32)
  {
    if i < 0x20 then CrcTab32Row0(i)
    else if i < 0x40 then CrcTab32Row1(i)
    else if i < 0x60 then CrcTab32Row2(i)
    else if i < 0x80 then CrcTab32Row3(i)
    else if i < 0xA0 then CrcTab32Row4(i)
    else if i < 0xC0 then CrcTab32Row5(i)
    else if i < 0xE0 then CrcTab32Row6(i)
    else CrcTab32Row7(i)
  }

  lemma Out32Xor(a: bv32, b: bv32)
    ensures Out32(Plus32(a, b)) <==> Out32(a) != Out32(b)
  {
  }

  lemma Plus32Nothing(a: bv32)
    ensures Plus32(a, 0) == a && Plus32(0, a) == a && Plus32(a, a) == 0
  {
  }

  lemma Reduce32Xor(a: bv32, b: bv32)
    ensures Reduce32(Plus32(a, b)) == Plus32(Reduce32(a), Reduce32(b))
  {
    hide Out32, Plus32;
    Out32Xor(a, b);
    Plus32Nothing(0xEDB8_8320);
    Plus32Nothing(0);
  }

  lemma Exchange32(a: bv32, b: bv32, c: bv32, d: bv32)
    ensures Plus32(Plus32(a, b), Plus32(c, d)) == Plus32(Plus32(a, c), Plus32(b, d))
  {
    hide Plus32;
    Regroup32(Plus32(a, b), c, d);
    Regroup32(a, b, c);
    Regroup32(a, c, b);
    Regroup32(Plus32(a, c), b, d);
    Turned32(b, c);
  }

  lemma Regroup32(a: bv32, b: bv32, c: bv32)
    ensures Plus32(Plus32(a, b), c) == Plus32(a, Plus32(b, c))
  {
  }

  lemma Turned32(a: bv32, b: bv32)
    ensures Plus32(a, b) == Plus32(b, a)
  {
  }

  lemma Next32Xor(a: bv32, b: bv32)
    ensures Next32(Plus32(a, b)) == Plus32(Next32(a), Next32(b))
  {
  }

  /** The division is linear. */
  lemma Shift32Xor(a: bv32, b: bv32)
    ensures Shift32(Plus32(a, b)) == Plus32(Shift32(a), Shift32(b))
  {
    hide Reduce32, Next32, Plus32;
    Next32Xor(a, b);
    Reduce32Xor(a, b);
    Exchange32(Next32(a), Next32(b), Reduce32(a), Reduce32(b));
  }

  lemma Shift32By8Xor(a: bv32, b: bv32)
    ensures Shift32By8(Plus32(a, b)) == Plus32(Shift32By8(a), Shift32By8(b))
  {
    hide Shift32, Plus32;
    Shift32Xor(a, b);
    var a1, b1 := Shift32(a), Shift32(b);
    Shift32Xor(a1, b1);
    var a2, b2 := Shift32(a1), Shift32(b1);
    Shift32Xor(a2, b2);
    var a3, b3 := Shift32(a2), Shift32(b2);
    Shift32Xor(a3, b3);
    var a4, b4 := Shift32(a3), Shift32(b3);
    Shift32Xor(a4, b4);
    var a5, b5 := Shift32(a4), Shift32(b4);
    Shift32Xor(a5, b5);
    var a6, b6 := Shift32(a5), Shift32(b5);
    Shift32Xor(a6, b6);
    Shift32Xor(Shift32(a6), Shift32(b6));
  }

  lemma Shift32Moves(crc: bv32)
    requires !Out32(crc)
    ensures Shift32(crc) == Next32(crc)
  {
    hide Out32, Next32, Plus32;
    Plus32Nothing(Next32(crc));
  }

  function Byte32(crc: bv32): bv32 {
    crc >> 8
  }

  lemma FreeBits32(crc: bv32)
    requires crc & 0x0000_00FF == 0
    ensures var c1 := Next32(crc); var c2 := Next32(c1); var c3 := Next32(c2); var c4 := Next32(c3);
            var c5 := Next32(c4); var c6 := Next32(c5); var c7 := Next32(c6);
            && !Out32(crc) && !Out32(c1) && !Out32(c2) && !Out32(c3) && !Out32(c4) && !Out32(c5)
            && !Out32(c6) && !Out32(c7) && Next32(c7) == Byte32(crc)
  {
  }

  /** The bits that do not reach the end are only moved. */
  lemma Shift32Free(crc: bv32)
    requires crc & 0x0000_00FF == 0
    ensures Shift32By8(crc) == Byte32(crc)
  {
    hide Shift32, Next32, Out32, Byte32;
    FreeBits32(crc);
    Shift32Moves(crc);
    var c1 := Next32(crc);
    Shift32Moves(c1);
    var c2 := Next32(c1);
    Shift32Moves(c2);
    var c3 := Next32(c2);
    Shift32Moves(c3);
    var c4 := Next32(c3);
    Shift32Moves(c4);
    var c5 := Next32(c4);
    Shift32Moves(c5);
    var c6 := Next32(c5);
    Shift32Moves(c6);
    Shift32Moves(Next32(c6));
  }

  /** The bits that reach the end within eight steps, and the others. */
  function Head32(crc: bv32): bv32 {
    crc & 0x0000_00FF
  }

  function Rest32(crc: bv32): bv32 {
    crc & 0xFFFF_FF00
  }

  lemma Parts32(crc: bv32)
    ensures crc == Plus32(Head32(crc), Rest32(crc))
    ensures Rest32(crc) & 0x0000_00FF == 0 && Byte32(Rest32(crc)) == Byte32(crc)
  {
  }

  lemma Shift32Splits(crc: bv32)
    ensures Shift32By8(crc) == Plus32(Shift32By8(Head32(crc)), Byte32(crc))
  {
    hide Shift32By8, Plus32, Head32, Rest32, Byte32;
    Parts32(crc);
    Shift32By8Xor(Head32(crc), Rest32(crc));
    Shift32Free(Rest32(crc));
  }

  // Checksums

  /** The remainder after one more byte, a bit at a time. */
  function Taken16(crc: bv16, b: bv8): bv16 {
    Shift16By8(crc ^ ((b as bv16) << 8))
  }

  function Divided16(crc: bv16, data: seq<bv8>): bv16
    decreases |data|
  {
    if data == [] then crc else Divided16(Taken16(crc, data[0]), data[1..])
  }

  lemma Divided16Step(crc: bv16, data: seq<bv8>, i: nat)
    requires i < |data|
    ensures Divided16(crc, data[i..]) == Divided16(Taken16(crc, data[i]), data[i + 1..])
  {
    hide Taken16;
    assert data[i..][1..] == data[i + 1..];
  }

  function Unshift16(crc: bv16): bv16 {
    if crc & 1 != 0 then ((crc ^ 0x1021) >> 1) ^ 0x8000 else crc >> 1
  }

  lemma Undo16Reduced(crc: bv16)
    requires Out16(crc)
    ensures Unshift16(Plus16(Next16(crc), 0x1021)) == crc
  {
  }

  lemma Undo16Free(crc: bv16)
    requires !Out16(crc)
    ensures Unshift16(Plus16(Next16(crc), 0)) == crc
  {
  }

  lemma Shift16Undone(crc: bv16)
    ensures Unshift16(Shift16(crc)) == crc
  {
    hide Unshift16, Plus16, Next16, Out16;
    if Out16(crc) {
      Undo16Reduced(crc);
    } else {
      Undo16Free(crc);
    }
  }

  /** A division never brings two remainders together. */
  lemma Shift16Apart(a: bv16, b: bv16)
    requires Shift16(a) == Shift16(b)
    ensures a == b
  {
    hide Shift16, Unshift16;
    Shift16Undone(a);
    Shift16Undone(b);
  }

  lemma Shift16By8Apart(a: bv16, b: bv16)
    requires Shift16By8(a) == Shift16By8(b)
    ensures a == b
  {
    hide Shift16;
    var a1, b1 := Shift16(a), Shift16(b);
    var a2, b2 := Shift16(a1), Shift16(b1);
    var a3, b3 := Shift16(a2), Shift16(b2);
    var a4, b4 := Shift16(a3), Shift16(b3);
    var a5, b5 := Shift16(a4), Shift16(b4);
    var a6, b6 := Shift16(a5), Shift16(b5);
    Shift16Apart(Shift16(a6), Shift16(b6));
    Shift16Apart(a6, b6);
    Shift16Apart(a5, b5);
    Shift16Apart(a4, b4);
    Shift16Apart(a3, b3);
    Shift16Apart(a2, b2);
    Shift16Apart(a1, b1);
    Shift16Apart(a, b);
  }

  /** The remainder after one more byte, a bit at a time. */
  function Taken32(crc: bv32, b: bv8): bv32 {
    Shift32By8(crc ^ (b as bv32))
  }

  function Divided32(crc: bv32, data: seq<bv8>): bv32
    decreases |data|
  {
    if data == [] then crc else Divided32(Taken32(crc, data[0]), data[1..])
  }

  lemma Divided32Step(crc: bv32, data: seq<bv8>, i: nat)
    requires i < |data|
    ensures Divided32(crc, data[i..]) == Divided32(Taken32(crc, data[i]), data[i + 1..])
  {
    hide Taken32;
    assert data[i..][1..] == data[i + 1..];
  }

  function Unshift32(crc: bv32): bv32 {
    if crc & 0x8000_0000 != 0 then ((crc ^ 0xEDB8_8320) << 1) ^ 1 else crc << 1
  }

  lemma Undo32Reduced(crc: bv32)
    requires Out32(crc)
    ensures Unshift32(Plus32(Next32(crc), 0xEDB8_8320)) == crc
  {
  }

  lemma Undo32Free(crc: bv32)
    requires !Out32(crc)
    ensures Unshift32(Plus32(Next32(crc), 0)) == crc
  {
  }

  lemma Shift32Undone(crc: bv32)
    ensures Unshift32(Shift32(crc)) == crc
  {
    hide Unshift32, Plus32, Next32, Out32;
    if Out32(crc) {
      Undo32Reduced(crc);
    } else {
      Undo32Free(crc);
    }
  }

  /** A division never brings two remainders together. */
  lemma Shift32Apart(a: bv32, b: bv32)
    requires Shift32(a) == Shift32(b)
    ensures a == b
  {
    hide Shift32, Unshift32;
    Shift32Undone(a);
    Shift32Undone(b);
  }

  lemma Shift32By8Apart(a: bv32, b: bv32)
    requires Shift32By8(a) == Shift32By8(b)
    ensures a == b
  {
    hide Shift32;
    var a1, b1 := Shift32(a), Shift32(b);
    var a2, b2 := Shift32(a1), Shift32(b1);
    var a3, b3 := Shift32(a2), Shift32(b2);
    var a4, b4 := Shift32(a3), Shift32(b3);
    var a5, b5 := Shift32(a4), Shift32(b4);
    var a6, b6 := Shift32(a5), Shift32(b5);
    Shift32Apart(Shift32(a6), Shift32(b6));
    Shift32Apart(a6, b6);
    Shift32Apart(a5, b5);
    Shift32Apart(a4, b4);
    Shift32Apart(a3, b3);
    Shift32Apart(a2, b2);
    Shift32Apart(a1, b1);
    Shift32Apart(a, b);
  }

  lemma Place16(crc: bv16, b: bv8)
    ensures Head16(crc ^ ((b as bv16) << 8)) == ((((crc >> 8) as bv8) ^ b) as bv16) << 8
    ensures Byte16(crc ^ ((b as bv16) << 8)) == crc << 8
  {
  }

  /** One byte by the table is eight steps of the division. */
  lemma Step16(crc: bv16, b: bv8)
    ensures Plus16(CrcTab(Index8(High8(crc), b)), Up8(crc)) == Taken16(crc, b)
  {
    hide CrcTab, Shift16By8, Plus16, Head16, Byte16;
    Place16(crc, b);
    Shift16Splits(crc ^ ((b as bv16) << 8));
  }

  lemma Place32(crc: bv32, b: bv8)
    ensures Head32(crc ^ (b as bv32)) == (((crc & 0x0000_00FF) as bv8) ^ b) as bv32
    ensures Byte32(crc ^ (b as bv32)) == crc >> 8
  {
  }

  lemma Step32(crc: bv32, b: bv8)
    ensures Plus32(CrcTab32(((crc & 0x0000_00FF) as bv8) ^ b), crc >> 8) == Shift32By8(crc ^ (b as bv32))
  {
    hide CrcTab32, Shift32By8, Plus32, Head32, Byte32;
    Place32(crc, b);
    Shift32Splits(crc ^ (b as bv32));
  }

  /** The sixteen bits that are returned of the running value. */
  function Low16(crc: bv32): bv16 {
    (crc & 0x0000_FFFF) as bv16
  }

  function High8(crc: bv16): bv8 {
    (crc >> 8) as bv8
  }

  function Second8(crc: bv32): bv8 {
    ((crc >> 8) & 0x0000_00FF) as bv8
  }

  function Joined(crc: bv32, entry: bv16): bv32 {
    (crc << 8) ^ (entry as bv32)
  }

  function Up8(crc: bv16): bv16 {
    crc << 8
  }

  lemma HighBitsNeverMatter(crc: bv32, entry: bv16)
    ensures Low16(Joined(crc, entry)) == Plus16(entry, Up8(Low16(crc))) && Second8(crc) == High8(Low16(crc))
  {
  }

  function Index8(a: bv8, b: bv8): bv8 {
    a ^ b
  }

  /** One byte by the table, with the bits that come out above sixteen left in place. */
  function CrcStep(crc: bv32, b: bv8): bv32 {
    Joined(crc, CrcTab(Index8(Second8(crc), b)))
  }

  lemma CrcStepDivides(crc: bv32, b: bv8)
    ensures Low16(CrcStep(crc, b)) == Taken16(Low16(crc), b)
  {
    hide CrcTab, Low16, Plus16, Shift16By8, Joined, Up8, High8, Second8, Index8, Taken16;
    HighBitsNeverMatter(crc, CrcTab(Index8(Second8(crc), b)));
    Step16(Low16(crc), b);
  }

  method Crc(crc: bv16, data: seq<bv8>) returns (r: bv16)
    ensures r == Divided16(crc, data)
  {
    hide CrcStep, Taken16, Low16, Divided16;
    var c := crc as bv32;
    LowOf(crc);
    assert data[0..] == data;
    for i := 0 to |data|
      invariant Divided16(Low16(c), data[i..]) == Divided16(crc, data)
    {
      CrcStepDivides(c, data[i]);
      Divided16Step(Low16(c), data, i);
      c := CrcStep(c, data[i]);
    }
    r := Low16(c);
    NothingLeft16(r, data[|data|..]);
  }

  lemma LowOf(crc: bv16)
    ensures Low16(crc as bv32) == crc
  {
  }

  lemma NothingLeft16(crc: bv16, data: seq<bv8>)
    requires data == []
    ensures Divided16(crc, data) == crc
  {
  }

  function Crc32Step(crc: bv32, b: bv8): bv32 {
    Plus32(crc >> 8, CrcTab32(((crc & 0x0000_00FF) as bv8) ^ b))
  }

  lemma Crc32StepDivides(crc: bv32, b: bv8)
    ensures Crc32Step(crc, b) == Taken32(crc, b)
  {
    hide CrcTab32, Shift32By8;
    Step32(crc, b);
    Turned32(crc >> 8, CrcTab32(((crc & 0x0000_00FF) as bv8) ^ b));
  }

  method Crc32(crc: bv32, data: seq<bv8>) returns (r: bv32)
    ensures r == Divided32(crc, data)
  {
    hide Crc32Step, Taken32, Divided32;
    r := crc;
    assert data[0..] == data;
    for i := 0 to |data|
      invariant Divided32(r, data[i..]) == Divided32(crc, data)
    {
      Crc32StepDivides(r, data[i]);
      Divided32Step(r, data, i);
      r := Crc32Step(r, data[i]);
    }
    NothingLeft32(r, data[|data|..]);
  }

  lemma NothingLeft32(crc: bv32, data: seq<bv8>)
    requires data == []
    ensures Divided32(crc, data) == crc
  {
  }

  // What checksums detect

  lemma Taken16Apart(a: bv16, b: bv16, x: bv8)
    requires a != b
    ensures Taken16(a, x) != Taken16(b, x)
  {
    hide Shift16By8;
    if Taken16(a, x) == Taken16(b, x) {
      Shift16By8Apart(a ^ ((x as bv16) << 8), b ^ ((x as bv16) << 8));
    }
  }

  lemma Bytes16Apart(a: bv16, x: bv8, y: bv8)
    requires x != y
    ensures Taken16(a, x) != Taken16(a, y)
  {
    hide Shift16By8;
    if Taken16(a, x) == Taken16(a, y) {
      Shift16By8Apart(a ^ ((x as bv16) << 8), a ^ ((y as bv16) << 8));
    }
  }

  lemma {:induction false} Remainders16Apart(a: bv16, b: bv16, data: seq<bv8>)
    requires a != b
    ensures Divided16(a, data) != Divided16(b, data)
    decreases |data|
  {
    if data != [] {
      hide Taken16;
      Taken16Apart(a, b, data[0]);
      Remainders16Apart(Taken16(a, data[0]), Taken16(b, data[0]), data[1..]);
    }
  }

  /** A change of one byte, wherever it is, changes the checksum. */
  lemma {:induction false} OneByte16Detected(crc: bv16, data: seq<bv8>, i: nat, x: bv8)
    requires i < |data| && data[i] != x
    ensures Divided16(crc, data[i := x]) != Divided16(crc, data)
    decreases i
  {
    hide Taken16;
    if i == 0 {
      assert data[0 := x][1..] == data[1..];
      Bytes16Apart(crc, data[0], x);
      Remainders16Apart(Taken16(crc, x), Taken16(crc, data[0]), data[1..]);
    } else {
      assert data[i := x][1..] == data[1..][i - 1 := x];
      OneByte16Detected(Taken16(crc, data[0]), data[1..], i - 1, x);
    }
  }

  lemma Taken32Apart(a: bv32, b: bv32, x: bv8)
    requires a != b
    ensures Taken32(a, x) != Taken32(b, x)
  {
    hide Shift32By8;
    if Taken32(a, x) == Taken32(b, x) {
      Shift32By8Apart(a ^ (x as bv32), b ^ (x as bv32));
    }
  }

  lemma Bytes32Apart(a: bv32, x: bv8, y: bv8)
    requires x != y
    ensures Taken32(a, x) != Taken32(a, y)
  {
    hide Shift32By8;
    if Taken32(a, x) == Taken32(a, y) {
      Shift32By8Apart(a ^ (x as bv32), a ^ (y as bv32));
    }
  }

  lemma {:induction false} Remainders32Apart(a: bv32, b: bv32, data: seq<bv8>)
    requires a != b
    ensures Divided32(a, data) != Divided32(b, data)
    decreases |data|
  {
    if data != [] {
      hide Taken32;
      Taken32Apart(a, b, data[0]);
      Remainders32Apart(Taken32(a, data[0]), Taken32(b, data[0]), data[1..]);
    }
  }

  /** A change of one byte, wherever it is, changes the checksum. */
  lemma {:induction false} OneByte32Detected(crc: bv32, data: seq<bv8>, i: nat, x: bv8)
    requires i < |data| && data[i] != x
    ensures Divided32(crc, data[i := x]) != Divided32(crc, data)
    decreases i
  {
    hide Taken32;
    if i == 0 {
      assert data[0 := x][1..] == data[1..];
      Bytes32Apart(crc, data[0], x);
      Remainders32Apart(Taken32(crc, x), Taken32(crc, data[0]), data[1..]);
    } else {
      assert data[i := x][1..] == data[1..][i - 1 := x];
      OneByte32Detected(Taken32(crc, data[0]), data[1..], i - 1, x);
    }
  }
}
