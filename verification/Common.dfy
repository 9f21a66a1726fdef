/** Machine words and optional values, shared by the models. */
module Common {

  datatype Option<+T> = None | Some(value: T)

  const WORD64: int := 0x1_0000_0000_0000_0000
  const HALF64: int := 0x8000_0000_0000_0000

  /** A 64-bit word read as a signed number. */
  function ToS64(x: int): int {
    if x % WORD64 < HALF64 then x % WORD64 else x % WORD64 - WORD64
  }

  /** 64-bit subtraction. */
  function Sub64(a: nat, b: nat): nat { (a - b) % WORD64 }

  /** Both agree with the integer up to whole words, and stay in their range. */
  lemma WordsAre(x: int, a: nat, b: nat)
    ensures -0x8000_0000_0000_0000 <= ToS64(x) < 0x8000_0000_0000_0000
    ensures exists w :: ToS64(x) == x + w * 0x1_0000_0000_0000_0000
    ensures Sub64(a, b) < 0x1_0000_0000_0000_0000
    ensures exists w :: Sub64(a, b) == a - b + w * 0x1_0000_0000_0000_0000
  {
    var w := -(x / 0x1_0000_0000_0000_0000);
    var v := w - 1;
    assert ToS64(x) == x + w * 0x1_0000_0000_0000_0000 || ToS64(x) == x + v * 0x1_0000_0000_0000_0000;
    var u := -((a - b) / 0x1_0000_0000_0000_0000);
    assert Sub64(a, b) == a - b + u * 0x1_0000_0000_0000_0000;
  }
}
