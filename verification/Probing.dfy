/** Linear probing around a table whose size is a power of two. */
module Probing {

  /** (h + 1) & mask */
  function Next(h: nat, size: nat): nat
    requires h < size
  {
    if h + 1 == size then 0 else h + 1
  }

  /** The slot `d` probes after `h`, and how far `p` is from `h`. */
  function At(h: nat, d: nat, size: nat): (p: nat)
    requires h < size && d < size
    ensures p < size
  {
    if h + d < size then h + d else h + d - size
  }

  function Distance(h: nat, p: nat, size: nat): (d: nat)
    requires h < size && p < size
    ensures d < size && At(h, d, size) == p
  {
    if p >= h then p - h else p + size - h
  }
}
