/** Python's small number idioms. */
module Numbers {

  function Max(a: int, b: int): (m: int)
    ensures m >= a && m >= b && (m == a || m == b)
  {
    if a < b then b else a
  }

  function Min(a: int, b: int): (m: int)
    ensures m <= a && m <= b && (m == a || m == b)
  {
    if a < b then a else b
  }

  /** `max(1, n)`. */
  function AtLeastOne(n: int): (r: nat)
    ensures r >= 1 && r >= n && (n >= 1 ==> r == n) && (n <= 1 ==> r == 1)
  {
    if n < 1 then 1 else n
  }

  /** `x or d`: zero counts as unset. */
  function OrDefault(x: int, d: int): (r: int)
    ensures r == d || r == x != 0
    ensures x != 0 ==> r == x
  {
    if x == 0 then d else x
  }
}
