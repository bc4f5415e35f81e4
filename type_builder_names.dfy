/**
 * The name counter of the override theory: each call of NextTypeBuilderName returns
 * "TypeBuilder_" followed by the counter in decimal, then post-increments the counter.
 * The counter is a 32-bit signed integer incremented without overflow checking, so
 * after 2^31 - 1 it wraps to -2^31; names stay distinct for the first 2^32 calls.
 */
module TypeBuilderNames {

  const Int32Min: int := -0x8000_0000
  const Int32Max: int := 0x7fff_ffff
  const Int32Span: int := 0x1_0000_0000

  const TypeBuilderPrefix: string := "TypeBuilder_"

  /** Unchecked `x + 1` on a 32-bit signed integer. */
  function Increment32(x: int): (y: int)
    requires Int32Min <= x <= Int32Max
    ensures Int32Min <= y <= Int32Max
    ensures x < Int32Max ==> y == x + 1
    ensures x == Int32Max ==> y == Int32Min
  {
    if x == Int32Max then Int32Min else x + 1
  }

  /** The counter's value after `k` increments from 0. */
  function Wrap32(k: nat): (x: int)
    ensures Int32Min <= x <= Int32Max
  {
    if k == 0 then 0 else Increment32(Wrap32(k - 1))
  }

  /** The decimal digit character for `d`. */
  function Digit(d: int): (ch: char)
    requires 0 <= d < 10
    ensures '0' <= ch <= '9'
    ensures ch as int - '0' as int == d
  {
    (('0' as int) + d) as char
  }

  /** The decimal digits of `n`, most significant first, without leading zeros. */
  function NatToDecimal(n: nat): (s: string)
    ensures 1 <= |s|
    ensures n < 10 <==> |s| == 1
    ensures forall i :: 0 <= i < |s| ==> '0' <= s[i] <= '9'
  {
    if n < 10 then [Digit(n)] else NatToDecimal(n / 10) + [Digit(n % 10)]
  }

  /** How an `int` is formatted by string interpolation: a minus sign, then the digits. */
  function IntToDecimal(x: int): (s: string)
    ensures 1 <= |s|
    ensures s[0] == '-' <==> x < 0
    ensures x < 0 ==> s[1..] == NatToDecimal(-x)
    ensures x >= 0 ==> s == NatToDecimal(x)
  {
    if x < 0 then "-" + NatToDecimal(-x) else NatToDecimal(x)
  }

  function TypeBuilderName(id: int): (s: string)
    ensures |s| > |TypeBuilderPrefix| && s[..|TypeBuilderPrefix|] == TypeBuilderPrefix
  {
    TypeBuilderPrefix + IntToDecimal(id)
  }

  lemma {:induction false} NatToDecimalInjective(m: nat, n: nat)
    requires NatToDecimal(m) == NatToDecimal(n)
    ensures m == n
    decreases m
  {
    var s := NatToDecimal(m);
    if m < 10 || n < 10 {
      assert m < 10 && n < 10;
      assert Digit(m) == s[0] == Digit(n);
    } else {
      assert s[..|s| - 1] == NatToDecimal(m / 10) == NatToDecimal(n / 10);
      assert Digit(m % 10) == s[|s| - 1] == Digit(n % 10);
      NatToDecimalInjective(m / 10, n / 10);
    }
  }

  /** Distinct counter values are formatted as distinct names. */
  lemma TypeBuilderNameInjective(x: int, y: int)
    requires TypeBuilderName(x) == TypeBuilderName(y)
    ensures x == y
  {
    var p := |TypeBuilderPrefix|;
    var dx, dy := IntToDecimal(x), IntToDecimal(y);
    assert dx == TypeBuilderName(x)[p..] == TypeBuilderName(y)[p..] == dy;
    if x < 0 {
      assert dx[1..] == NatToDecimal(-x) && dy[1..] == NatToDecimal(-y);
      NatToDecimalInjective(-x, -y);
    } else {
      NatToDecimalInjective(x, y);
    }
  }

  /**
   * Below 2^32 increments the counter has not come round again: it counts up from 0 to
   * 2^31 - 1, then from -2^31 towards -1.
   */
  lemma {:induction false} Wrap32Below(k: nat)
    requires k < Int32Span
    ensures Wrap32(k) == if k <= Int32Max then k else k - Int32Span
  {
    if k > 0 {
      Wrap32Below(k - 1);
    }
  }

  /** The first 2^32 calls hand out pairwise distinct names. */
  lemma NamesDistinct(i: nat, j: nat)
    requires i < j < Int32Span
    ensures TypeBuilderName(Wrap32(i)) != TypeBuilderName(Wrap32(j))
  {
    Wrap32Below(i);
    Wrap32Below(j);
    if TypeBuilderName(Wrap32(i)) == TypeBuilderName(Wrap32(j)) {
      TypeBuilderNameInjective(Wrap32(i), Wrap32(j));
    }
  }

  /**
   * The counter of an override theory. The ghost `issued` records every name handed
   * out so far; the rest of the theory (its dynamic assembly and module) is not modelled.
   */
  class OverrideTheory {
    var typeBuilderId: int
    ghost var issued: seq<string>

    ghost predicate Valid()
      reads this
    {
      typeBuilderId == Wrap32(|issued|) &&
      forall i :: 0 <= i < |issued| ==> issued[i] == TypeBuilderName(Wrap32(i))
    }

    constructor ()
      ensures Valid() && issued == [] && typeBuilderId == 0
    {
      typeBuilderId := 0;
      issued := [];
    }

    method NextTypeBuilderName() returns (name: string)
      requires Valid()
      modifies this
      ensures Valid()
      ensures name == TypeBuilderName(old(typeBuilderId))
      ensures typeBuilderId == Increment32(old(typeBuilderId))
      ensures issued == old(issued) + [name]
      ensures |old(issued)| < Int32Span ==> name !in old(issued)
    {
      name := TypeBuilderName(typeBuilderId);
      forall i | 0 <= i < |issued| && |issued| < Int32Span
        ensures issued[i] != name
      {
        NamesDistinct(i, |issued|);
      }
      typeBuilderId := Increment32(typeBuilderId);
      issued := issued + [name];
    }
  }
}
