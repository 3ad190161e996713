/** Small shared datatypes and a function. */
module Base {

  datatype Option<+T> = None | Some(value: T)

  function Min(a: nat, b: nat): nat {
    if a < b then a else b
  }

  newtype Byte = x: int | 0 <= x < 256

  /**
    The permissions of a page table entry, bit by bit: PTE_P, PTE_W, PTE_U and the three bits
    for software, of which fork uses two. `other` is all that lies outside PTE_USER.
   */
  datatype Perm = Perm(p: bool, w: bool, u: bool, avail: bool, share: bool, cow: bool, other: nat)

  /** perm & PTE_USER */
  function UserBits(perm: Perm): Perm {
    perm.(other := 0)
  }

  /** perm | PTE_P */
  function WithP(perm: Perm): Perm {
    perm.(p := true)
  }

  /** PTE_U | PTE_P, and the same with PTE_W, PTE_COW, and PTE_SHARE and PTE_W */
  const RO: Perm := Perm(true, false, true, false, false, false, 0)
  const RW: Perm := RO.(w := true)
  const COW: Perm := RO.(cow := true)
  const SHARED: Perm := RW.(share := true)
}
