/** Pictured numeric output below PAD, and the room that is enough for it. */
module Pictured {
  import opened Words
  import opened Doubles
  import opened Division
  import opened Numerals

  const E_INVMEMADDR := -9

  /** Section 3.3.3.6 of Forth 2012. */
  const PNO_MIN_SZ: nat := 2 * BITS + 2

  class Pno {
    /** Memory by address.  An offset of 0 means that no number is being converted. */
    const mem: array<char>
    const pad: nat
    var here: nat
    var base: Usize
    var offset: int
    var end: int

    constructor (mem: array<char>, pad: nat, here: nat, base: Usize)
      requires 0 < here && here + PNO_MIN_SZ <= pad <= mem.Length < MODULUS
      ensures Valid() && Roomy() && offset == 0
      ensures this.mem == mem && this.pad == pad && this.here == here && this.base == base
    {
      this.mem, this.pad, this.here, this.base, this.offset, this.end := mem, pad, here, base, 0, 0;
    }

    /** The text lies between offset and end, below PAD. */
    ghost predicate Valid()
      reads this
    {
      && 1 < pad <= mem.Length < MODULUS && 0 < here < MODULUS
      && (offset == 0 || 0 <= offset <= end == pad - 1)
    }

    /** What e4__task_unused keeps free. */
    predicate Roomy()
      reads this
    {
      here + PNO_MIN_SZ <= pad
    }

    function Radix(): Base
      reads this
    {
      Clamp(base % 256)
    }

    /** The pictured text so far. */
    ghost function Text(): string
      requires Valid() && offset != 0
      reads this, mem
    {
      mem[offset + 1..end + 1]
    }

    /** e4__io_pno_start */
    method Start()
      requires Valid()
      modifies this`offset, this`end
      ensures Valid() && offset == end == pad - 1 && Text() == ""
    {
      end := pad - 1;
      offset := end;
    }

    /** e4__io_pno_hold */
    method Hold(c: char) returns (res: int)
      requires Valid()
      modifies this`offset, mem
      ensures res == if old(offset) == 0 then E_INVMEMADDR else if old(offset) < here then E_PNOOVERFLOW else E_OK
      ensures res != E_OK ==> offset == old(offset) && mem[..] == old(mem[..])
      ensures res == E_OK ==> offset == old(offset) - 1 && mem[..] == old(mem[..])[old(offset) := c]
      ensures res == E_OK && 0 < offset ==> Valid() && Text() == [c] + old(Text())
    {
      if offset == 0 {
        return E_INVMEMADDR;
      }
      if offset < here {
        return E_PNOOVERFLOW;
      }
      mem[offset] := c;
      offset := offset - 1;
      res := E_OK;
    }

    /** e4__io_pno_digits.  The room it hands on is computed without sign: nothing left reads as 2^W - 1. */
    method Digits(ud: Double, signed: bool) returns (res: int)
      requires Valid()
      requires offset == here ==> |Shown(ud, signed, Radix())| <= offset + 1
      modifies this`offset, mem
      ensures var text := Shown(ud, signed, Radix());
        res == if old(offset) == 0 then E_INVMEMADDR
               else if old(offset) < here then E_PNOOVERFLOW
               else if |text| <= (old(offset) - here - 1) % MODULUS then E_OK
               else E_PNOOVERFLOW
      ensures var text := Shown(ud, signed, Radix());
        res == E_OK ==> offset == old(offset) - |text| &&
                        Laid(mem[..], old(mem[..]), old(offset), text)
      ensures res == E_OK && 0 < offset ==> Valid() && Text() == Shown(ud, signed, Radix()) + old(Text())
      ensures here < old(offset) ==> mem[..here] == old(mem[..here]) && mem[pad..] == old(mem[pad..])
      ensures old(offset) < here ==> mem[..] == old(mem[..]) && offset == old(offset)
    {
      if offset == 0 {
        return E_INVMEMADDR;
      }
      if offset < here {
        return E_PNOOVERFLOW;
      }
      hide Shown, Laid;
      res := PutDigits(ud, signed);
    }

    /** The same, with an area to write in. */
    method PutDigits(ud: Double, signed: bool) returns (res: int)
      requires Valid() && 0 < offset && here <= offset
      requires offset == here ==> |Shown(ud, signed, Radix())| <= offset + 1
      modifies this`offset, mem
      ensures var text := Shown(ud, signed, Radix());
        res == if |text| <= (old(offset) - here - 1) % MODULUS then E_OK else E_PNOOVERFLOW
      ensures var text := Shown(ud, signed, Radix());
        res == E_OK ==> offset == old(offset) - |text| &&
                        Laid(mem[..], old(mem[..]), old(offset), text) &&
                        (0 <= offset ==> mem[offset + 1..end + 1] == text + old(mem[offset + 1..end + 1]))
      ensures mem[pad..] == old(mem[pad..]) && (here < old(offset) ==> mem[..here] == old(mem[..here]))
    {
      hide Shown, Laid, Clamp;
      var avail := (offset - here - 1) % MODULUS;
      Available(offset, here);
      ghost var was, top := mem[..], offset;
      res, offset := PnoDigits(mem, offset, avail, base % 256, signed, ud);
      LaidBelow(mem[..], was, top, here, pad);
      if res == E_OK {
        LaidBetween(mem[..], was, top, Shown(ud, signed, Radix()), end);
      }
    }

    /** e4__io_pno_finish: the address and length of the text. */
    method Finish() returns (res: int, out: int, sz: int)
      requires Valid()
      modifies this`offset, this`end
      ensures res == if old(offset) == 0 then E_INVMEMADDR else if old(offset) < here - 1 then E_PNOOVERFLOW else E_OK
      ensures res == E_OK ==> out == old(offset) + 1 && sz == old(end) - old(offset) &&
                              0 <= out <= out + sz <= mem.Length && mem[out..out + sz] == old(Text())
      ensures Valid() && offset == 0
    {
      out, sz := 0, 0;
      if offset == 0 {
        return E_INVMEMADDR, out, sz;
      }
      if offset < here - 1 {
        res := E_PNOOVERFLOW;
      } else {
        res, out, sz := E_OK, offset + 1, end - offset;
      }
      end, offset := 0, 0;
    }

    /** What . and U. hand to TYPE. */
    method Show(ud: Double, signed: bool) returns (res: int, ghost text: string)
      requires Valid() && Roomy()
      requires |Shown(ud, signed, Radix())| <= BITS + 1
      modifies this`offset, this`end, mem
      ensures res == E_OK && text == Shown(ud, signed, Radix()) + " "
      ensures mem[..here] == old(mem[..here]) && mem[pad..] == old(mem[pad..])
      ensures Valid() && offset == 0
    {
      hide Shown, Laid;
      WidthFacts();
      Start();
      res := Hold(' ');
      Wide(offset, here, BITS);
      assert Text() == " ";
      res := Digits(ud, signed);
      var out, sz: int;
      res, out, sz := Finish();
      text := mem[out..out + sz];
    }

    /** . */
    method Dot(n: Usize) returns (res: int, ghost text: string)
      requires Valid() && Roomy()
      modifies this`offset, this`end, mem
      ensures res == E_OK && text == SignedNumeral(Signed(n), Radix()) + " "
      ensures mem[..here] == old(mem[..here]) && mem[pad..] == old(mem[pad..])
    {
      WidenedShows(n, Radix());
      SignedFits(n, Radix());
      res, text := Show(ToDouble(n), true);
    }

    /** U. */
    method UDot(u: Usize) returns (res: int, ghost text: string)
      requires Valid() && Roomy()
      modifies this`offset, this`end, mem
      ensures res == E_OK && text == Numeral(u, Radix()) + " "
      ensures mem[..here] == old(mem[..here]) && mem[pad..] == old(mem[pad..])
    {
      WidthFacts();
      NumeralFits(u, Radix(), BITS);
      res, text := Show(Double(u, 0), false);
    }

    /** <# #S SIGN #> on any double, with any number to take the sign from. */
    method SharpS(ud: Double, n: Usize) returns (res: int, ghost text: string)
      requires Valid() && Roomy()
      modifies this`offset, this`end, mem
      ensures res == E_OK
      ensures text == (if IsNegative(n) then "-" else "") + Shown(ud, false, Radix())
      ensures mem[..here] == old(mem[..here]) && mem[pad..] == old(mem[pad..])
    {
      hide Shown, Laid;
      DoubleFits(ud, Radix());
      Start();
      Wide(offset, here, BITS);
      res := Digits(ud, false);
      assert Shown(ud, false, Radix()) + "" == Shown(ud, false, Radix());
      if IsNegative(n) {
        res := Hold('-');
      }
      var out, sz: int;
      res, out, sz := Finish();
      text := mem[out..out + sz];
    }
  }

  lemma Available(offset: int, here: int)
    requires 0 < here <= offset < MODULUS
    ensures (offset - here - 1) % MODULUS == if offset == here then MODULUS - 1 else offset - here - 1
  {
    WidthFacts();
    ModIs(offset - here - 1, MODULUS, if offset == here then -1 else 0,
      if offset == here then MODULUS - 1 else offset - here - 1);
  }

  lemma Wide(offset: int, here: int, w: nat)
    requires 0 < here < offset < MODULUS
    ensures (offset - here - 1) % MODULUS == offset - here - 1
  {
    Available(offset, here);
  }

  lemma LaidBelow(now: string, was: string, end: int, here: nat, pad: nat)
    requires |now| == |was| && 0 < here <= end < pad <= |was|
    requires now[end + 1..] == was[end + 1..]
    requires here < end ==> now[..here + 2] == was[..here + 2]
    ensures now[pad..] == was[pad..] && (here < end ==> now[..here] == was[..here])
  {
    assert now[pad..] == now[end + 1..][pad - end - 1..];
    assert was[pad..] == was[end + 1..][pad - end - 1..];
    if here < end {
      assert now[..here] == now[..here + 2][..here];
      assert was[..here] == was[..here + 2][..here];
    }
  }

  lemma LaidBetween(now: string, was: string, top: int, text: string, end: int)
    requires Laid(now, was, top, text) && top <= end < |was|
    ensures |now| == |was| && now[top + 1 - |text|..end + 1] == text + was[top + 1..end + 1]
  {
  }

  lemma SignedFits(n: Usize, base: Base)
    ensures |SignedNumeral(Signed(n), base)| <= BITS + 1
  {
    WidthFacts();
    NegativeIsSignBit(n);
    NumeralFits(Abs(Signed(n)), base, BITS);
  }

  lemma DoubleFits(ud: Double, base: Base)
    ensures |Shown(ud, false, base)| <= 2 * BITS
  {
    WidthFacts();
    ValueBounds(ud);
    Pow2Sum(BITS, BITS);
    NumeralFits(Value(ud), base, 2 * BITS);
  }
}
