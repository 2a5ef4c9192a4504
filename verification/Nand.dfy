/** The in-memory flash that the machine runs on: programming only clears bits. */
module Nand {
  import opened Bits
  import opened Machine

  /** An access beyond the end fails and leaves everything as it was. */
  class NandInterface {
    var mem: seq<byte>

    constructor ()
      ensures mem == Blank(0x10_0000)
    {
      mem := Blank(0x10_0000);
    }

    method Erase(offset: nat, length: nat) returns (ok: bool)
      modifies this
      ensures ok <==> offset + length <= |old(mem)|
      ensures mem == if ok then Wiped(old(mem), offset, length) else old(mem)
    {
      ok := offset + length <= |mem|;
      if ok {
        mem := mem[..offset] + seq(length, i => ERASED) + mem[offset + length..];
      }
    }

    method Read(offset: nat, buffer: array<byte>) returns (ok: bool)
      modifies buffer
      ensures ok <==> offset + buffer.Length <= |mem|
      ensures buffer[..] == if ok then mem[offset..offset + buffer.Length] else old(buffer[..])
    {
      ok := offset + buffer.Length <= |mem|;
      if ok {
        forall i | 0 <= i < buffer.Length {
          buffer[i] := mem[offset + i];
        }
      }
    }

    /** The flash ends up as the AND of what it held and what is written. */
    method Write(offset: nat, buffer: array<byte>) returns (ok: bool)
      modifies this
      ensures ok <==> offset + buffer.Length <= |old(mem)|
      ensures mem == if ok then Program(old(mem), offset, buffer[..]) else old(mem)
    {
      ok := offset + buffer.Length <= |mem|;
      if ok {
        for i := 0 to buffer.Length
          invariant |mem| == |old(mem)|
          invariant forall a | 0 <= a < |mem| ::
                      mem[a] == if offset <= a < offset + i then And(old(mem)[a], buffer[a - offset]) else old(mem)[a]
        {
          mem := mem[offset + i := And(mem[offset + i], buffer[i])];
        }
      }
    }

    function Size(): nat
      reads this
    {
      |mem|
    }
  }

  /** Programming what a page already holds changes nothing; programming an erased range stores the data. */
  lemma {:induction false} ProgramErased(flash: seq<byte>, offset: nat, data: seq<byte>)
    requires offset + |data| <= |flash|
    requires flash[offset..offset + |data|] == data || flash[offset..offset + |data|] == Blank(|data|)
    ensures Program(flash, offset, data) == flash[..offset] + data + flash[offset + |data|..]
  {
    var was := flash[offset..offset + |data|];
    forall i | 0 <= i < |data| ensures And(was[i], data[i]) == data[i] {
      if was == data {
        AndWithSelf(data[i]);
      } else {
        assert was[i] == ERASED;
        Pow2Byte(0);
        AndWithOnes(data[i], 8);
      }
    }
    assert Programmed(was, data) == data;
  }
}
