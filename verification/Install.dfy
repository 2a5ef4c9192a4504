/** Counting votes, and bringing the ROM image into the flash. */
module Install {
  import opened Bits
  import opened Microcode
  import opened Machine
  import opened Nand
  import opened Voting

  /** At least half of the bits of a cell. */
  method Vote(cell: byte) returns (r: bool)
    ensures r == MajorityVote(cell) && (r <==> |Ones(cell, 8)| >= 4)
  {
    var bits: nat, count := cell, 0;
    for i := 0 to 8
      invariant count == CountOnes(cell, i)
      invariant forall k: nat {:trigger BitAt(bits, k)} :: BitAt(bits, k) == BitAt(cell, i + k)
    {
      assert BitAt(bits, 0) == BitAt(cell, i + 0);
      if bits % 2 == 1 {
        count := count + 1;
      }
      forall k: nat ensures BitAt(bits / 2, k) == BitAt(cell, i + 1 + k) {
        assert BitAt(bits, k + 1) == BitAt(cell, i + (k + 1));
      }
      bits := bits / 2;
    }
    r := count > 3;
    VoteIsFour(cell);
  }

  /** Writes the eight bytes of a word, lowest first, into a buffer. */
  method StoreWord(buffer: array<byte>, at: nat, word: nat)
    requires at + 8 <= buffer.Length
    modifies buffer
    ensures buffer[..] == old(buffer[..at]) + ToBytes(word, 8) + old(buffer[at + 8..])
  {
    var w := word;
    for b := 0 to 8
      invariant ToBytes(word, 8) == buffer[at..at + b] + ToBytes(w, 8 - b)
      invariant buffer[..at] == old(buffer[..at]) && buffer[at + 8..] == old(buffer[at + 8..])
    {
      ghost var was := buffer[at..at + b];
      buffer[at + b] := w % 256;
      assert buffer[at..at + b] == was;
      assert buffer[at..at + (b + 1)] == was + [w % 256];
      w := w / 256;
    }
  }

  /** The image of a program: its words, and erased bytes after them. */
  method Assemble(rom: seq<Instr>) returns (image: array<byte>)
    requires 8 * |rom| <= ROM_SIZE && forall i | 0 <= i < |rom| :: Fits(rom[i])
    ensures fresh(image) && image[..] == Image(rom)
  {
    image := new byte[ROM_SIZE];
    for a := 0 to ROM_SIZE
      invariant forall k | 0 <= k < a :: image[k] == ERASED
    {
      image[a] := ERASED;
    }
    for i := 0 to |rom|
      invariant forall a | 0 <= a < 8 * i :: image[a] == ToBytes(Encode(rom[a / 8]), 8)[a % 8]
      invariant forall a | 8 * i <= a < ROM_SIZE :: image[a] == ERASED
    {
      StoreWord(image, 8 * i, Encode(rom[i]));
    }
  }

  /** Brings the image into the ROM region whatever was there: old data is erased, unless it
      is the image itself.  ok is false where the code gives up. */
  method InstallRom(nand: NandInterface, image: array<byte>) returns (ok: bool)
    requires image.Length == ROM_SIZE <= |nand.mem|
    modifies nand
    ensures ok && nand.mem == image[..] + old(nand.mem)[ROM_SIZE..]
  {
    var verify := new byte[ROM_SIZE];
    var read := nand.Read(0, verify);
    if verify[..] != image[..] {
      var blank := true;
      var i := 0;
      while i < ROM_SIZE && blank
        invariant 0 <= i <= ROM_SIZE
        invariant blank <==> forall k | 0 <= k < i :: verify[k] == ERASED
      {
        blank := verify[i] == ERASED;
        i := i + 1;
      }
      if !blank {
        var erased := nand.Erase(0, ROM_SIZE);
        if !erased {
          return false;
        }
      }
    }
    ghost var flash := nand.mem;
    assert flash[..ROM_SIZE] == image[..] || flash[..ROM_SIZE] == Blank(ROM_SIZE);
    assert flash[0..0 + ROM_SIZE] == flash[..ROM_SIZE];
    ProgramErased(flash, 0, image[..]);
    var written := nand.Write(0, image);
    read := nand.Read(0, verify);
    ok := verify[..] == image[..];
  }
}
