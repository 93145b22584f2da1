/** Windows on the code space, as the Standard Compression Scheme for Unicode (UTS #6) has them. */
module ScsuWindows {

  /** A window base: either in the basic plane or in the expansion area. */
  type Base = x: int | 0 <= x <= 0x10_FF80

  type Window = x: int | 0 <= x < 8

  type Windows = w: seq<Base> | |w| == 8
    witness [0, 0, 0, 0, 0, 0, 0, 0]
}
