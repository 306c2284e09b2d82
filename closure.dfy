/**
 * The VM closure's gas accounting and its reads of contract code: two gas
 * counters updated in place, and bounds-checked reads of the code bytes.
 */
module Vm {
  import opened Wrappers

  newtype byte = x: int | 0 <= x < 256

  /** The two shapes of value the code reads return: the number 0, or a byte string. */
  datatype Value = IntValue(i: int) | BytesValue(bytes: seq<byte>)

  const TwoTo63: int := 0x8000_0000_0000_0000
  const TwoTo64: int := 0x1_0000_0000_0000_0000

  /** big.Int's Int64: the low 64 bits of v read as a two's-complement int64. */
  function Int64(v: int): (r: int)
    ensures -TwoTo63 <= r < TwoTo63
    ensures -TwoTo63 <= v < TwoTo63 ==> r == v
    ensures (v - r) % TwoTo64 == 0
  {
    var m := v % TwoTo64;
    if m >= TwoTo63 then m - TwoTo64 else m
  }

  class Closure {
    var Code: seq<byte>
    /** Gas left to spend. */
    var Gas: int
    /** Gas spent so far. */
    var UsedGas: int
    var Price: int

    /**
     * NewClosure (the code and gas parts): the given code, gas and a copy of
     * the price, with nothing used yet.
     */
    constructor (code: seq<byte>, gas: int, price: int)
      ensures Code == code && Gas == gas && Price == price && UsedGas == 0
    {
      Code := code;
      Gas := gas;
      Price := price;
      UsedGas := 0;
    }

    /**
     * UseGas: spend `gas` when that much is left, moving it from Gas to
     * UsedGas; otherwise refuse and change nothing.
     */
    method UseGas(gas: int) returns (ok: bool)
      modifies this`Gas, this`UsedGas
      ensures ok <==> old(Gas) >= gas
      ensures ok ==> Gas == old(Gas) - gas && UsedGas == old(UsedGas) + gas && Gas >= 0
      ensures !ok ==> Gas == old(Gas) && UsedGas == old(UsedGas)
      ensures Gas + UsedGas == old(Gas + UsedGas)
    {
      if Gas < gas {
        return false;
      }
      Gas := Gas - gas;
      UsedGas := UsedGas + gas;
      return true;
    }

    /** ReturnGas: move `gas` back from UsedGas to Gas. The price is not used. */
    method ReturnGas(gas: int, price: int)
      modifies this`Gas, this`UsedGas
      ensures Gas == old(Gas) + gas && UsedGas == old(UsedGas) - gas
      ensures Gas + UsedGas == old(Gas + UsedGas)
    {
      Gas := Gas + gas;
      UsedGas := UsedGas - gas;
    }

    /** GetByte: the code byte at x, and 0 (STOP) past the end of the code. */
    function GetByte(x: nat): (b: byte)
      reads this
      ensures x < |Code| ==> b == Code[x]
      ensures x >= |Code| ==> b == 0
    {
      if x < |Code| then Code[x] else 0
    }

    /**
     * GetBytes: nothing when x or y is not below the code length; otherwise
     * the y bytes from x on. The guard tests the length y, not the end x + y,
     * so callers must not ask for a slice running past the end of the code.
     */
    function GetBytes(x: nat, y: nat): (r: Option<seq<byte>>)
      reads this
      requires x < |Code| && y < |Code| ==> x + y <= |Code|
      ensures r.None? <==> x >= |Code| || y >= |Code|
      ensures r.Some? ==> |r.value| == y && forall i :: 0 <= i < y ==> r.value[i] == GetByte(x + i)
    {
      if x >= |Code| || y >= |Code| then None else Some(Code[x..x + y])
    }

    /**
     * Gets: the same reads with big-integer offsets taken through Int64,
     * answering the number 0 where GetBytes answers nothing.
     */
    function Gets(x: int, y: int): (r: Value)
      reads this
      requires Int64(x) < |Code| && Int64(y) < |Code| ==> 0 <= Int64(x) && 0 <= Int64(y) && Int64(x) + Int64(y) <= |Code|
      ensures Int64(x) >= |Code| || Int64(y) >= |Code| ==> r == IntValue(0)
      ensures Int64(x) < |Code| && Int64(y) < |Code| ==>
        r.BytesValue? && Some(r.bytes) == GetBytes(Int64(x), Int64(y))
    {
      var xi := Int64(x);
      var yi := Int64(y);
      if xi >= |Code| || yi >= |Code| then IntValue(0) else BytesValue(Code[xi..xi + yi])
    }

    /** Get: the one-byte read Gets(x, 1). */
    function Get(x: int): (r: Value)
      reads this
      requires Int64(x) < |Code| && 1 < |Code| ==> 0 <= Int64(x)
      ensures r == Gets(x, 1)
      ensures |Code| >= 2 && 0 <= Int64(x) < |Code| ==> r == BytesValue([Code[Int64(x)]])
      ensures |Code| <= 1 ==> r == IntValue(0)
    {
      var xi := Int64(x);
      assert xi < |Code| && 1 < |Code| ==> Code[xi..xi + 1] == [Code[xi]];
      Gets(x, 1)
    }

    /**
     * The code read the bounds check evidently means: the y bytes from x on
     * whenever they all lie within the code, and nothing otherwise.
     */
    function ReadCode(x: nat, y: nat): (r: Option<seq<byte>>)
      reads this
      ensures r.Some? <==> x + y <= |Code|
      ensures r.Some? ==> |r.value| == y && forall i :: 0 <= i < y ==> r.value[i] == GetByte(x + i)
    {
      if x + y > |Code| then None else Some(Code[x..x + y])
    }

    /** Wherever the as-written read answers, it agrees with ReadCode. */
    lemma GetBytesAgreesWithReadCode(x: nat, y: nat)
      requires x < |Code| && y < |Code| ==> x + y <= |Code|
      ensures GetBytes(x, y).Some? ==> GetBytes(x, y) == ReadCode(x, y)
    {
    }

    /**
     * The as-written guard rejects reads that lie within the code: on a
     * one-byte code Get(0) gives the number 0, not that byte, and GetBytes(0, 1)
     * gives nothing although ReadCode(0, 1) is the whole code.
     */
    lemma GuardRejectsWholeCode()
      requires |Code| == 1
      ensures Get(0) == IntValue(0)
      ensures GetBytes(0, 1).None?
      ensures ReadCode(0, 1) == Some(Code)
    {
      assert Code[0..1] == Code;
    }
  }

  /** ReturnGas undoes a successful UseGas: a refunded charge restores both counters. */
  method RefundRestoresGas(c: Closure, gas: int, price: int) returns (charged: bool)
    modifies c
    ensures charged <==> old(c.Gas) >= gas
    ensures c.Gas == old(c.Gas) && c.UsedGas == old(c.UsedGas)
  {
    charged := c.UseGas(gas);
    if charged {
      c.ReturnGas(gas, price);
    }
  }
}
