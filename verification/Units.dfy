/**
 * Python's `int()` on a number, and the ether/gwei/wei scalings of
 * `Web3.toWei` and `Web3.fromWei`, computed exactly.
 */
module Units {

  const WeiPerEther: nat := 1_000_000_000_000_000_000
  const WeiPerGwei: nat := 1_000_000_000

  /** The largest `uint256`, the upper end of what `Web3.toWei` returns. */
  const MaxWei: nat := 0xFFFF_FFFF_FFFF_FFFF_FFFF_FFFF_FFFF_FFFF_FFFF_FFFF_FFFF_FFFF_FFFF_FFFF_FFFF_FFFF

  /** A wei amount `Web3.toWei` accepts as its result: neither negative nor above `MaxWei`. */
  predicate InWeiRange(wei: int) {
    0 <= wei <= MaxWei
  }

  /** `int(x)`: drop the fractional part, rounding toward zero. */
  function Trunc(x: real): (r: int)
    ensures 0.0 <= x ==> 0 <= r && r as real <= x < r as real + 1.0
    ensures x < 0.0 ==> r <= 0 && r as real - 1.0 < x <= r as real
  {
    if x >= 0.0 then x.Floor else -((-x).Floor)
  }

  /** `Web3.toWei(amount, 'ether')` for an integer amount. */
  function EtherToWei(amount: int): int {
    amount * WeiPerEther
  }

  /** `Web3.toWei(amount, 'gwei')` for an integer amount. */
  function GweiToWei(amount: int): int {
    amount * WeiPerGwei
  }

  /** `Web3.fromWei(wei, 'ether')`: an exact decimal, here an exact rational. */
  function WeiToEther(wei: int): real {
    wei as real / WeiPerEther as real
  }

  /** Scaling an integer amount to wei and back gives the amount. */
  lemma EtherRoundTrip(amount: int)
    ensures WeiToEther(EtherToWei(amount)) == amount as real
  {
    assert EtherToWei(amount) as real == amount as real * WeiPerEther as real;
  }

  /** The ether value keeps the sign and the order of the wei amounts. */
  lemma WeiToEtherMonotone(a: int, b: int)
    ensures WeiToEther(a) < WeiToEther(b) <==> a < b
    ensures WeiToEther(a) == 0.0 <==> a == 0
  {
    var d := WeiPerEther as real;
    assert WeiToEther(a) * d == a as real;
    assert WeiToEther(b) * d == b as real;
  }

  /** Multiplying an ether value by an integer is multiplying the wei amount. */
  lemma ScaleEther(n: int, wei: int)
    ensures n as real * WeiToEther(wei) == WeiToEther(n * wei)
  {
    var d := WeiPerEther as real;
    assert WeiToEther(wei) * d == wei as real;
    assert WeiToEther(n * wei) * d == (n * wei) as real;
    assert (n as real * WeiToEther(wei)) * d == n as real * (WeiToEther(wei) * d);
  }
}
