/** A `uint64_t` used as a bit mask: bit 0 is the least significant. */
module Word64 {
  type Word = w: seq<bool> | |w| == 64 witness seq(64, _ => false)

  const ZERO: Word := Filled(false)
  const ALL_BITS: Word := Filled(true)

  function Filled(bit: bool): Word {
    seq(64, _ => bit)
  }

  /** `w >> n`: zeros enter at the top. */
  function Shr(w: Word, n: nat): Word {
    seq(64, i requires 0 <= i < 64 => i + n < 64 && w[i + n])
  }

  /** `w << n`: the top `n` bits are lost. */
  function Shl(w: Word, n: nat): Word {
    seq(64, i requires 0 <= i < 64 => i >= n && w[i - n])
  }

  /** `1ULL << k`, undefined in C for `k` of 64 or more. */
  function OneBit(k: nat): Word
    requires k < 64
  {
    seq(64, i requires 0 <= i < 64 => i == k)
  }

  function Or(a: Word, b: Word): Word {
    seq(64, i requires 0 <= i < 64 => a[i] || b[i])
  }

  function And(a: Word, b: Word): Word {
    seq(64, i requires 0 <= i < 64 => a[i] && b[i])
  }

  function Not(a: Word): Word {
    seq(64, i requires 0 <= i < 64 => !a[i])
  }
}
