/** The DMP memory of the chip as the driver reaches it: one burst at a time, inside one bank of 256
    bytes (`inv_mpu_misc.c`). The driver's writes, loads and checks refine a flat memory. */
module DmpMemory {
  import opened Machine

  const BANK := 256
  const LOAD_START := 0x20
  const MAX_MEM := 256 * 12

  /** Return codes as 32-bit words, because the source combines them bit by bit. */
  const EINVAL: bv32 := 0xFFFF_FFEA
  const ENOMEM: bv32 := 0xFFFF_FFF4

  /** The image of `size` bytes starts at `LOAD_START`. */
  predicate Fits(data: seq<byte>) {
    BANK - LOAD_START <= |data| <= TWO_16 - LOAD_START
  }

  /** What the check after a download compares: everything from the second bank on. */
  predicate Accepts(mem: seq<byte>, data: seq<byte>)
    requires |mem| == TWO_16 && Fits(data)
  {
    mem[BANK..LOAD_START + |data|] == data[BANK - LOAD_START..]
  }

  predicate Holds(mem: seq<byte>, data: seq<byte>)
    requires |mem| == TWO_16 && Fits(data)
  {
    mem[LOAD_START..LOAD_START + |data|] == data
  }

  /** Only a window of the memory differs. */
  predicate SameOutside(now: seq<byte>, before: seq<byte>, at: nat, n: nat)
    requires |now| == |before| && at + n <= |now|
  {
    now[..at] == before[..at] && now[at + n..] == before[at + n..]
  }

  /** A memory holds an image exactly when the check accepts it and the first bank is right too. */
  lemma CheckIsPartial(mem: seq<byte>, data: seq<byte>)
    requires |mem| == TWO_16 && Fits(data)
    ensures Holds(mem, data) <==>
      Accepts(mem, data) && mem[LOAD_START..BANK] == data[..BANK - LOAD_START]
  {
    var n := BANK - LOAD_START;
    var all := mem[LOAD_START..LOAD_START + |data|];
    assert all[..n] == mem[LOAD_START..BANK] && all[n..] == mem[BANK..LOAD_START + |data|];
    assert all == all[..n] + all[n..] && data == data[..n] + data[n..];
  }

  /** A memory that fails to hold an image of 225 bytes and is accepted all the same. */
  lemma CorruptFirstBankAccepted()
    ensures
      var data: seq<byte> := seq(225, _ => 1);
      var mem: seq<byte> := seq(TWO_16, i => if i < BANK then 0 else 1);
      Fits(data) && Accepts(mem, data) && !Holds(mem, data)
  {
    var mem: seq<byte> := seq(TWO_16, i => if i < BANK then 0 else 1);
    assert mem[LOAD_START..LOAD_START + 225][0] == 0;
  }

  class Chip {
    /** Bank and offset. */
    const ram: array2<byte>
    /** How bus transfer number `i` ends: zero is success. A failing write may have stored only its
        first `reached(i)` bytes. */
    const faults: nat -> bv32
    const reached: nat -> nat
    var transfers: nat

    ghost predicate Valid() {
      ram.Length0 == BANK && ram.Length1 == BANK
    }

    /** The memory as the DMP sees it. */
    ghost function Flat(): (r: seq<byte>)
      requires Valid()
      reads ram
      ensures |r| == TWO_16
    {
      seq(TWO_16, a requires 0 <= a < TWO_16 && Valid() reads ram => ram[a / BANK, a % BANK])
    }

    ghost predicate Quiet(from: nat, to: nat) {
      forall i :: from <= i < to ==> faults(i) == 0
    }

    /** The chip's side of a write: `data` into `bank`, from `offset` on. */
    method Burst(bank: nat, offset: nat, data: seq<byte>)
      requires Valid() && bank < BANK && offset + |data| <= BANK
      modifies ram
      ensures Flat() == Splice(old(Flat()), bank * BANK + offset, data)
    {
      forall k | 0 <= k < |data| {
        ram[bank, offset + k] := data[k];
      }
      forall a | 0 <= a < TWO_16
        ensures Flat()[a] == Splice(old(Flat()), bank * BANK + offset, data)[a]
      {
        var at := bank * BANK + offset;
        if at <= a < at + |data| {
          Locate(a, bank, a - bank * BANK);
          assert Splice(old(Flat()), at, data)[a] == data[a - at];
        } else if a / BANK == bank {
          assert a % BANK == a - bank * BANK;
        }
      }
    }

    static lemma Locate(a: nat, bank: nat, offset: nat)
      requires a == bank * BANK + offset && offset < BANK
      ensures a / BANK == bank && a % BANK == offset
    {
    }

    /** `mpu_memory_write`. */
    method MemoryWrite(addr: u16, data: seq<byte>) returns (res: bv32)
      requires Valid() && (|data| < 512 ==> addr % BANK + |data| <= BANK)
      modifies ram, `transfers
      ensures |data| >= 512 ==> res == ENOMEM && transfers == old(transfers) && Flat() == old(Flat())
      ensures |data| < 512 ==> transfers == old(transfers) + 1 && res == faults(old(transfers))
      ensures |data| < 512 && res == 0 ==> Flat() == Splice(old(Flat()), addr, data)
      ensures |data| < 512 ==> SameOutside(Flat(), old(Flat()), addr, |data|)
    {
      if |data| >= 512 {
        return ENOMEM;
      }
      Locate(addr, addr / BANK, addr % BANK);
      res := faults(transfers);
      var n := if res == 0 then |data| else Min(reached(transfers), |data|);
      assert data[..|data|] == data;
      Burst(addr / BANK, addr % BANK, data[..n]);
      transfers := transfers + 1;
      WindowOfSplice(old(Flat()), addr, data[..n], |data|);
    }

    static lemma WindowOfSplice(was: seq<byte>, at: nat, b: seq<byte>, n: nat)
      requires |b| <= n && at + n <= |was|
      ensures SameOutside(Splice(was, at, b), was, at, n)
    {
    }

    /** `mpu_memory_read`, into a buffer of its own. */
    method MemoryRead(addr: u16, len: nat) returns (res: bv32, data: seq<byte>)
      requires Valid() && addr % BANK + len <= BANK
      modifies `transfers
      ensures transfers == old(transfers) + 1 && res == faults(old(transfers))
      ensures |data| == len && data == Flat()[addr..addr + len]
    {
      res := faults(transfers);
      transfers := transfers + 1;
      var bank, offset := addr / BANK, addr % BANK;
      Locate(addr, bank, offset);
      data := seq(len, k requires 0 <= k < len && offset + len <= BANK && bank < BANK && Valid() reads ram
                         => ram[bank, offset + k]);
      forall k | 0 <= k < len
        ensures data[k] == Flat()[addr + k]
      {
        Locate(addr + k, bank, offset + k);
      }
    }

    /** `mpu_memory_write_unaligned` for a key at `addr`: at most 256 bytes, split where they cross into
        the next bank. */
    method WriteUnaligned(addr: u32, d: seq<byte>) returns (res: bv32)
      requires Valid() && |d| >= 1
      modifies ram, `transfers
      ensures |d| > BANK || addr > MAX_MEM ==>
        res == EINVAL && transfers == old(transfers) && Flat() == old(Flat())
      ensures |d| <= BANK && addr <= MAX_MEM ==>
        && transfers == old(transfers) + (if addr % BANK + |d| <= BANK then 1 else 2)
        && (res == 0 <==> Quiet(old(transfers), transfers))
        && (res == 0 ==> Flat() == Splice(old(Flat()), addr, d))
        && SameOutside(Flat(), old(Flat()), addr, |d|)
    {
      if |d| > BANK {
        return EINVAL;
      }
      if addr > MAX_MEM {
        return EINVAL;
      }
      var start := addr / BANK;
      var end := (addr + |d| - 1) / BANK;
      Locate(addr, start, addr % BANK);
      if start == end {
        res := MemoryWrite(addr, d);
      } else {
        end := end * BANK;
        res := WriteTwo(addr, end, d);
      }
    }

    /** A burst up to the bank that starts at `end`, and one from there on. */
    method WriteTwo(addr: u16, end: u16, d: seq<byte>) returns (res: bv32)
      requires Valid() && |d| <= BANK && addr < end < addr + |d| && end % BANK == 0 && end <= addr + BANK
      requires addr % BANK + (end - addr) == BANK
      modifies ram, `transfers
      ensures transfers == old(transfers) + 2
      ensures res == 0 <==> Quiet(old(transfers), transfers)
      ensures res == 0 ==> Flat() == Splice(old(Flat()), addr, d)
      ensures SameOutside(Flat(), old(Flat()), addr, |d|)
    {
      hide Splice, SameOutside;
      var len1 := end - addr;
      ghost var was := Flat();
      res := MemoryWrite(addr, d[..len1]);
      ghost var half := Flat();
      var more := MemoryWrite(end, d[len1..]);
      OrZero(res, more);
      res := res | more;
      TwoWindows(was, half, Flat(), addr, len1, |d|);
      if res == 0 {
        SpliceAfter(was, addr, d[..len1], d[len1..]);
        assert d[..len1] + d[len1..] == d;
      }
    }

    static lemma OrZero(a: bv32, b: bv32)
      ensures a | b == 0 <==> a == 0 && b == 0
    {
    }

    static lemma TwoWindows(was: seq<byte>, half: seq<byte>, now: seq<byte>, at: nat, m: nat, n: nat)
      requires |was| == |half| == |now| && m <= n && at + n <= |was|
      requires SameOutside(half, was, at, m) && SameOutside(now, half, at + m, n - m)
      ensures SameOutside(now, was, at, n)
    {
      assert now[..at] == now[..at + m][..at] == half[..at];
      assert half[at + n..] == half[at + m..][n - m..];
      assert was[at + n..] == was[at + m..][n - m..];
    }

    /** `inv_load_firmware`: the first bank from its load address, then bank by bank. */
    method LoadFirmware(data: seq<byte>) returns (res: bv32)
      requires Valid() && Fits(data)
      modifies ram, `transfers
      ensures transfers >= old(transfers) && (res == 0 <==> Quiet(old(transfers), transfers))
      ensures res == 0 ==> Flat() == Splice(old(Flat()), LOAD_START, data) && Holds(Flat(), data)
      ensures res == 0 ==> Flat()[0x20..0x20 + |data|] == data
      ensures SameOutside(Flat(), old(Flat()), LOAD_START, |data|)
    {
      hide Splice, SameOutside;
      ghost var was := Flat();
      var writeSize := BANK - LOAD_START;
      res := MemoryWrite(LOAD_START, data[..writeSize]);
      WiderWindow(was, Flat(), LOAD_START, LOAD_START, writeSize, |data|);
      if res != 0 {
        return;
      }
      var pos: int := writeSize;
      var size: int := |data| - writeSize;
      var bank := 1;
      while size > 0
        invariant 0 <= size == |data| - pos && writeSize <= BANK
        invariant size > 0 ==> bank * BANK == LOAD_START + pos
        invariant 0 <= pos && Quiet(old(transfers), transfers)
        invariant transfers >= old(transfers)
        invariant Flat() == Splice(was, LOAD_START, data[..pos])
        invariant SameOutside(Flat(), was, LOAD_START, |data|)
        decreases size
      {
        writeSize := if size > BANK then BANK else size;
        var addr := bank * BANK;
        ghost var before := Flat();
        Locate(addr, bank, 0);
        res := MemoryWrite(addr, data[pos..pos + writeSize]);
        WindowInside(was, before, Flat(), LOAD_START, |data|, addr, writeSize);
        if res != 0 {
          return;
        }
        SpliceAfter(was, LOAD_START, data[..pos], data[pos..pos + writeSize]);
        assert data[..pos] + data[pos..pos + writeSize] == data[..pos + writeSize];
        bank, size, pos := bank + 1, size - writeSize, pos + writeSize;
      }
      assert data[..pos] == data;
      SpliceHolds(was, LOAD_START, data);
      return 0;
    }

    static lemma WiderWindow(was: seq<byte>, now: seq<byte>, at: nat, at': nat, n: nat, n': nat)
      requires |was| == |now| && at <= at' && at' + n <= at + n' && at + n' <= |was|
      requires SameOutside(now, was, at', n)
      ensures SameOutside(now, was, at, n')
    {
      assert now[..at] == now[..at'][..at] && was[..at] == was[..at'][..at];
      assert now[at + n'..] == now[at' + n..][at + n' - at' - n..];
      assert was[at + n'..] == was[at' + n..][at + n' - at' - n..];
    }

    static lemma WindowInside(was: seq<byte>, half: seq<byte>, now: seq<byte>, at: nat, n: nat, at': nat, n': nat)
      requires |was| == |half| == |now| && at <= at' && at' + n' <= at + n <= |was|
      requires SameOutside(half, was, at, n) && SameOutside(now, half, at', n')
      ensures SameOutside(now, was, at, n)
    {
      WiderWindow(half, now, at, at', n', n);
    }

    /** `inv_verify_firmware`: accepts exactly when no read fails and the memory from the second bank on
        is the rest of the image. */
    method VerifyFirmware(data: seq<byte>) returns (res: bv32)
      requires Valid() && Fits(data)
      modifies `transfers
      ensures transfers >= old(transfers)
      ensures res == 0 <==> Quiet(old(transfers), transfers) && Accepts(Flat(), data)
      ensures Quiet(old(transfers), transfers) && res != 0 ==> res == EINVAL
    {
      ghost var mem := Flat();
      var pos: int := BANK - LOAD_START;
      var size: int := |data| - pos;
      var bank := 1;
      while size > 0
        invariant 0 <= size == |data| - pos && BANK - LOAD_START <= pos
        invariant size > 0 ==> bank * BANK == LOAD_START + pos
        invariant transfers >= old(transfers) && Quiet(old(transfers), transfers)
        invariant mem[BANK..LOAD_START + pos] == data[BANK - LOAD_START..pos]
        decreases size
      {
        var writeSize := if size > BANK then BANK else size;
        var addr := bank * BANK;
        Locate(addr, bank, 0);
        var firmware;
        res, firmware := MemoryRead(addr, writeSize);
        if res != 0 {
          return;
        }
        if firmware != data[pos..pos + writeSize] {
          if Accepts(mem, data) {
            PartAccepted(mem, data, pos, writeSize);
          }
          return EINVAL;
        }
        Rejoin(mem, BANK, addr, addr + writeSize);
        Rejoin(data, BANK - LOAD_START, pos, pos + writeSize);
        bank, size, pos := bank + 1, size - writeSize, pos + writeSize;
      }
      return 0;
    }

    static lemma PartAccepted(mem: seq<byte>, data: seq<byte>, pos: nat, n: nat)
      requires |mem| == TWO_16 && Fits(data) && BANK - LOAD_START <= pos && pos + n <= |data|
      requires Accepts(mem, data)
      ensures mem[LOAD_START + pos..LOAD_START + pos + n] == data[pos..pos + n]
    {
      var from := BANK - LOAD_START;
      assert data[from..] == data[from..|data|];
      SliceOfSlice(mem, BANK, LOAD_START + |data|, pos - from, pos - from + n);
      SliceOfSlice(data, from, |data|, pos - from, pos - from + n);
    }

    /** `inv_dmp_firmware_read`: `count` bytes from address zero, bank by bank. */
    method ReadFirmware(count: nat) returns (res: bv32, buf: seq<byte>)
      requires Valid() && count <= TWO_16
      modifies `transfers
      ensures transfers >= old(transfers) && (res == 0 <==> Quiet(old(transfers), transfers))
      ensures res == 0 ==> buf == Flat()[..count]
    {
      buf, res := [], 0;
      var size: int := count;
      var bank := 0;
      while size > 0
        invariant 0 <= size == count - |buf|
        invariant size > 0 ==> bank * BANK == |buf|
        invariant res == 0 && transfers >= old(transfers) && Quiet(old(transfers), transfers)
        invariant |buf| <= TWO_16 && buf == Flat()[..|buf|]
        decreases size
      {
        var writeSize := if size > BANK then BANK else size;
        var addr := bank * BANK;
        Locate(addr, bank, 0);
        var part;
        res, part := MemoryRead(addr, writeSize);
        if res != 0 {
          return;
        }
        Rejoin(Flat(), 0, addr, addr + writeSize);
        buf := buf + part;
        bank, size := bank + 1, size - writeSize;
      }
    }

    static lemma SpliceFront(s: seq<byte>, at: nat, b: seq<byte>)
      requires at + |b| <= |s|
      ensures Splice(s, at, b)[..at + |b|] == s[..at] + b
    {
    }

    /** The download of `inv_dmp_firmware_write`, then a read of the file: on a bus without faults the
        check accepts, and the image comes back behind the 32 bytes in front of it. */
    method Download(data: seq<byte>) returns (res: bv32, buf: seq<byte>)
      requires Valid() && Fits(data)
      modifies ram, `transfers
      ensures transfers >= old(transfers) && (res == 0 <==> Quiet(old(transfers), transfers))
      ensures res == 0 ==> buf == old(Flat())[..LOAD_START] + data
    {
      hide Splice, Accepts, Holds;
      buf := [];
      res := LoadFirmware(data);
      if res != 0 {
        return;
      }
      CheckIsPartial(Flat(), data);
      res := VerifyFirmware(data);
      if res != 0 {
        return;
      }
      res, buf := ReadFirmware(LOAD_START + |data|);
      SpliceFront(old(Flat()), LOAD_START, data);
    }
  }
}
