/** Positions on a descriptor list chained into a circle of n descriptors
    (Libraries/STM32_ETH_Driver/src/stm32_eth.c:1188-1224, 1540-1576). */
module RingIndex {

  /** ETH_MAX_PACKET_SIZE, the size of each buffer. */
  const BUF_SIZE := 1520

  /** Buffer2NextDescAddr: the last descriptor points back to the first. */
  function Next(i: nat, n: nat): (r: nat)
    requires i < n
    ensures r < n
  {
    if i < n - 1 then i + 1 else 0
  }

  /** The descriptor k steps behind start. */
  function At(start: nat, k: nat, n: nat): (r: nat)
    requires start < n && k <= n
    ensures r < n
  {
    if start + k < n then start + k else start + k - n
  }

  /** How many steps lead from start to i. */
  function Off(start: nat, i: nat, n: nat): (k: nat)
    requires start < n && i < n
    ensures k < n && At(start, k, n) == i
    ensures Off(start, i, n) == 0 <==> i == start
  {
    if i >= start then i - start else i - start + n
  }
}
