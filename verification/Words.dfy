/** 32-bit machine words and the small sequence search shared by every table scan. */
module Words {

  const WORD: int := 0x1_0000_0000

  type u32 = x: int | 0 <= x < 0x1_0000_0000

  type u8 = x: int | 0 <= x < 0x100

  datatype Option<+T> = None | Some(value: T)

  /** The word a 32-bit unsigned computation leaves behind. */
  function Wrap(x: int): u32 {
    x % 0x1_0000_0000
  }

  /** The same bits read as a signed 32-bit integer. */
  function Signed(x: u32): int {
    if x < 0x8000_0000 then x else x - WORD
  }

  /** Index of the first element satisfying P. */
  function First<T>(s: seq<T>, P: T -> bool): (r: Option<nat>)
    ensures r.None? ==> forall j :: 0 <= j < |s| ==> !P(s[j])
    ensures r.Some? ==> r.value < |s| && P(s[r.value]) && forall j :: 0 <= j < r.value ==> !P(s[j])
  {
    if s == [] then None
    else
      var n := |s| - 1;
      match First(s[..n], P)
      case Some(i) => Some(i)
      case None => if P(s[n]) then Some(n) else None
  }

  /** First is determined by what it promises. */
  lemma FirstIs<T>(s: seq<T>, P: T -> bool, i: nat)
    requires i < |s| && P(s[i])
    requires forall j :: 0 <= j < i ==> !P(s[j])
    ensures First(s, P) == Some(i)
  {
  }
}
