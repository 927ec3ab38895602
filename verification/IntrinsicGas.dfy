/** The intrinsic gas of a message. */
module IntrinsicGases {
  import opened GasPools

  const TX_GAS: nat := 21000
  const TX_GAS_CONTRACT_CREATION: nat := 53000
  const NON_ZERO_GAS_FRONTIER: nat := 68
  const NON_ZERO_GAS_EIP2028: nat := 16
  const ZERO_GAS: nat := 4

  datatype GasResult = Gas(value: nat) | OutOfGas

  function NonZeros(data: seq<nat>): nat {
    if data == [] then 0 else NonZeros(data[..|data| - 1]) + if data[|data| - 1] != 0 then 1 else 0
  }

  function BaseGas(creation: bool, homestead: bool): nat {
    if creation && homestead then TX_GAS_CONTRACT_CREATION else TX_GAS
  }

  /** The mathematical sum, without any bound. */
  function ExactGas(data: seq<nat>, creation: bool, homestead: bool, istanbul: bool, smallCross: bool): nat {
    if smallCross then BaseGas(creation, homestead)
    else
      var nz := NonZeros(data);
      BaseGas(creation, homestead)
      + nz * (if istanbul then NON_ZERO_GAS_EIP2028 else NON_ZERO_GAS_FRONTIER) + (|data| - nz) * ZERO_GAS
  }

  /** What a message costs before it does anything, byte by byte. */
  lemma ExactGasIs(data: seq<nat>, byte: nat, creation: bool, homestead: bool, istanbul: bool)
    ensures ExactGas([], creation, homestead, istanbul, false) == if creation && homestead then 53000 else 21000
    ensures ExactGas(data + [byte], creation, homestead, istanbul, false)
      == ExactGas(data, creation, homestead, istanbul, false) + if byte == 0 then 4 else if istanbul then 16 else 68
    ensures ExactGas(data, creation, homestead, istanbul, true) == if creation && homestead then 53000 else 21000
  {
    var more := data + [byte];
    assert more[..|more| - 1] == data && more[|more| - 1] == byte;
    assert NonZeros(more) == NonZeros(data) + if byte != 0 then 1 else 0;
  }

  lemma {:induction false} NonZerosBound(data: seq<nat>)
    ensures NonZeros(data) <= |data|
  {
    if data != [] {
      NonZerosBound(data[..|data| - 1]);
    }
  }

  /** The overflow test before adding k * price to gas is exact. */
  lemma RoomFor(gas: nat, price: nat, k: nat)
    requires gas <= MAX_UINT64 && price > 0
    ensures (MAX_UINT64 - gas) / price < k <==> gas + k * price > MAX_UINT64
  {
    var q, r := (MAX_UINT64 - gas) / price, (MAX_UINT64 - gas) % price;
    assert MAX_UINT64 - gas == q * price + r && 0 <= r < price;
    if q < k {
      Scale(q + 1, k, price);
      assert (q + 1) * price == q * price + price;
    } else {
      Scale(k, q, price);
    }
  }

  lemma Scale(x: nat, y: nat, p: nat)
    requires x <= y
    ensures x * p <= y * p
  {
  }

  /** The intrinsic gas is the exact sum, or an error exactly when that does not
      fit into 64 bits. */
  method IntrinsicGas(data: seq<nat>, creation: bool, homestead: bool, istanbul: bool, smallCross: bool)
    returns (r: GasResult)
    ensures
      var exact := ExactGas(data, creation, homestead, istanbul, smallCross);
      r == if exact <= MAX_UINT64 then Gas(exact) else OutOfGas
  {
    var gas := BaseGas(creation, homestead);
    if smallCross {
      return Gas(gas);
    }
    if |data| > 0 {
      var nz := 0;
      for i := 0 to |data|
        invariant nz == NonZeros(data[..i])
      {
        assert data[..i + 1][..i] == data[..i];
        if data[i] != 0 {
          nz := nz + 1;
        }
      }
      assert data[..|data|] == data;
      NonZerosBound(data);
      var nonZeroGas := NON_ZERO_GAS_FRONTIER;
      if istanbul {
        nonZeroGas := NON_ZERO_GAS_EIP2028;
      }
      RoomFor(gas, nonZeroGas, nz);
      if (MAX_UINT64 - gas) / nonZeroGas < nz {
        return OutOfGas;
      }
      gas := gas + nz * nonZeroGas;
      var z := |data| - nz;
      RoomFor(gas, ZERO_GAS, z);
      if (MAX_UINT64 - gas) / ZERO_GAS < z {
        return OutOfGas;
      }
      gas := gas + z * ZERO_GAS;
    }
    return Gas(gas);
  }
}
