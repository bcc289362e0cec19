/**
 * The map's deterministic per-cell noise (HexMap.tsx `hash`): a 31-multiplier
 * polynomial hash over the characters of the text "q,r", wrapped to signed
 * 32 bits at every step, read as unsigned and scaled into [0, 1).
 */
module HexHash {
  import opened Text

  const TWO31: int := 0x8000_0000
  const TWO32: int := 0x1_0000_0000

  predicate IsInt32(x: int) {
    -TWO31 <= x < TWO31
  }

  /** `x | 0`: the signed 32-bit integer congruent to x modulo 2^32. */
  function ToInt32(x: int): (r: int)
    ensures IsInt32(r)
    ensures (x - r) % TWO32 == 0
    ensures IsInt32(x) ==> r == x
  {
    var u := x % TWO32;
    if u >= TWO31 then u - TWO32 else u
  }

  /** `Math.imul(a, b)`: the low 32 bits of the product, as a signed integer. */
  function Imul(a: int, b: int): (r: int)
    ensures IsInt32(r)
    ensures (a * b - r) % TWO32 == 0
  {
    ToInt32(a * b)
  }

  /** One step of the loop: `h = Math.imul(31, h) + code | 0`. */
  function HashStep(h: int, code: int): (r: int)
    ensures IsInt32(r)
  {
    ToInt32(Imul(31, h) + code)
  }

  /** The accumulator after feeding the characters of `s` to the loop, starting from `h`. */
  function HashFold(s: string, h: int): int
    decreases |s|
  {
    if s == [] then h else HashFold(s[1..], HashStep(h, s[0] as int))
  }

  /** The folded accumulator is a signed 32-bit integer whenever the seed is. */
  lemma {:induction false} HashFoldInt32(s: string, h: int)
    requires IsInt32(h)
    ensures IsInt32(HashFold(s, h))
    decreases |s|
  {
    if s != [] {
      HashFoldInt32(s[1..], HashStep(h, s[0] as int));
    }
  }

  /** The text the hash reads: the template literal `${q},${r}`. */
  function HashKey(q: int, r: int): string {
    IntToString(q) + "," + IntToString(r)
  }

  /** Distinct cells feed the hash distinct texts. */
  lemma HashKeyInjective(q1: int, r1: int, q2: int, r2: int)
    requires HashKey(q1, r1) == HashKey(q2, r2)
    ensures q1 == q2 && r1 == r2
  {
    assert ',' !in IntToString(q1) && ',' !in IntToString(q2) by {
      assert forall i :: 0 <= i < |IntToString(q1)| ==> IntToString(q1)[i] != ',';
      assert forall i :: 0 <= i < |IntToString(q2)| ==> IntToString(q2)[i] != ',';
    }
    SplitAtSeparator(IntToString(q1), IntToString(r1), IntToString(q2), IntToString(r2), ',');
    IntToStringInjective(q1, q2);
    IntToStringInjective(r1, r2);
  }

  /** `h >>> 0` of the final accumulator: the hash of cell (q, r) as an unsigned 32-bit integer. */
  function HashBits(q: int, r: int): (u: nat)
    ensures u < TWO32
  {
    HashFold(HashKey(q, r), 0) % TWO32
  }

  /** `hash(q, r)`: the loop over the characters of "q,r", then `(h >>> 0) / 4294967296`. */
  method Hash(q: int, r: int) returns (v: real)
    ensures v == HashBits(q, r) as real / 4294967296.0
    ensures 0.0 <= v < 1.0
  {
    var str := HashKey(q, r);
    var h := 0;
    for i := 0 to |str|
      invariant IsInt32(h)
      invariant HashFold(str[i..], h) == HashFold(str, 0)
    {
      assert str[i..][1..] == str[i + 1..];
      h := ToInt32(Imul(31, h) + str[i] as int);
    }
    assert str[|str|..] == [];
    var unsigned := if h < 0 then h + TWO32 else h;
    assert unsigned == h % TWO32;
    v := unsigned as real / 4294967296.0;
  }

  /**
   * The edge-noise test `hash(q, r) > 0.7` on the unsigned value: u / 2^32 > 0.7
   * exactly when 10 u > 7 * 2^32. (In double precision the constant 0.7 lies just
   * below 7/10, but no integer u falls between 0.7 * 2^32 and its double, so the
   * test agrees with this one on every 32-bit value.)
   */
  predicate EdgeNoise(q: int, r: int) {
    HashBits(q, r) * 10 > 7 * TWO32
  }

  lemma EdgeNoiseThreshold(q: int, r: int, v: real)
    requires v == HashBits(q, r) as real / 4294967296.0
    ensures v > 0.7 <==> EdgeNoise(q, r)
  {
  }
}
