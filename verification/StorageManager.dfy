/** The registry of `storage_manager.c` with its parallel arrays, and the save and load loops over a
    byte buffer. */
module StorageManager {
  import opened Machine
  import opened Checksum
  import opened Storage

  /** Bytes that the boxes take in an image, headers included. */
  function Space(boxes: seq<Box>): int {
    if boxes == [] then 0 else HEADER + boxes[0].size + Space(boxes[1..])
  }

  lemma {:induction false} SpaceAppend(boxes: seq<Box>, b: Box)
    ensures Space(boxes + [b]) == Space(boxes) + HEADER + b.size
  {
    if boxes == [] {
      assert [b][1..] == [];
      assert boxes + [b] == [b];
    } else {
      assert (boxes + [b])[1..] == boxes[1..] + [b];
      SpaceAppend(boxes[1..], b);
    }
  }

  lemma {:induction false} SpaceOfPrefix(boxes: seq<Box>, k: nat)
    requires k < |boxes|
    requires forall i :: 0 <= i < |boxes| ==> 0 <= boxes[i].size
    ensures 0 <= Space(boxes[..k])
    ensures Space(boxes[..k + 1]) == Space(boxes[..k]) + HEADER + boxes[k].size <= Space(boxes)
  {
    if k > 0 {
      SpaceOfPrefix(boxes[1..], k - 1);
      assert boxes[..k][1..] == boxes[1..][..k - 1];
      assert boxes[..k + 1][1..] == boxes[1..][..k];
    } else {
      assert boxes[..1][1..] == [];
      SpaceNotNegative(boxes[1..]);
    }
  }

  lemma {:induction false} SpaceNotNegative(boxes: seq<Box>)
    requires forall i :: 0 <= i < |boxes| ==> 0 <= boxes[i].size
    ensures 0 <= Space(boxes)
  {
    if boxes != [] {
      SpaceNotNegative(boxes[1..]);
    }
  }

  /** An image of `boxes` takes `HEADER + Space(boxes)` bytes. */
  lemma {:induction false} BodySpace(boxes: seq<Box>, saved: int -> seq<byte>)
    requires Saves(boxes, saved)
    ensures Small(Entries(boxes, saved)) && |Body(Entries(boxes, saved))| == Space(boxes)
  {
    if boxes != [] {
      BodySpace(boxes[1..], saved);
      var es := Entries(boxes, saved);
      assert es[1..] == Entries(boxes[1..], saved);
      assert es == [es[0]] + es[1..];
    }
  }

  lemma {:induction false} BodyAppend(es: seq<Entry>, k: nat)
    requires Small(es) && k < |es|
    ensures Small(es[..k]) && Small(es[..k + 1])
    ensures Body(es[..k + 1]) == Body(es[..k]) + EntryBytes(es[k])
  {
    hide EntryBytes;
    if k == 0 {
      assert es[..1][1..] == [] && es[..0] == [];
    } else {
      BodyAppend(es[1..], k - 1);
      assert es[..k + 1][1..] == es[1..][..k];
      assert es[..k][1..] == es[1..][..k - 1];
    }
  }

  class Manager {
    var num: nat
    var totalSize: int
    const load: array<int>
    const save: array<int>
    const hd: array<DataHeader>
    /** Calls made to load callbacks, and what they were given. */
    var delivered: seq<(int, seq<byte>)>

    ghost predicate Valid()
      reads `num, `totalSize, load, save, hd
    {
      && load.Length == NUM_STORAGE_BOXES && save.Length == NUM_STORAGE_BOXES && hd.Length == NUM_STORAGE_BOXES
      && load != save
      && num <= NUM_STORAGE_BOXES
      && UniqueKeys(Boxes())
      && (forall k :: 0 <= k < num ==> 0 <= hd[k].size)
      && HEADER <= totalSize == HEADER + Space(Boxes()) < TWO_31
    }

    ghost function Boxes(): (r: seq<Box>)
      requires num <= load.Length && num <= save.Length && num <= hd.Length
      reads `num, load, save, hd
      ensures |r| == num
    {
      seq(num, k requires 0 <= k < load.Length && k < save.Length && k < hd.Length
               reads load, save, hd => Box(load[k], save[k], hd[k].size, hd[k].key))
    }

    /** `inv_init_storage_manager`. */
    constructor ()
      ensures Valid() && Boxes() == [] && delivered == []
      ensures fresh(load) && fresh(save) && fresh(hd)
    {
      num, totalSize, delivered := 0, HEADER, [];
      load := new int[NUM_STORAGE_BOXES];
      save := new int[NUM_STORAGE_BOXES];
      hd := new DataHeader[NUM_STORAGE_BOXES](_ => DataHeader(0, 0, 0));
    }

    /** `inv_register_load_store`: a key is registered once, and at most twenty of them. */
    method Register(loadFunc: int, saveFunc: int, size: int32, key: u32) returns (res: Code)
      requires Valid() && 0 <= size && totalSize + HEADER + size < TWO_31
      modifies `num, `totalSize, load, save, hd
      ensures Valid()
      ensures
        if Find(old(Boxes()), key) >= 0 || |old(Boxes())| == NUM_STORAGE_BOXES then
          res == InvalidParameter && Boxes() == old(Boxes())
        else
          res == Success && Boxes() == old(Boxes()) + [Box(loadFunc, saveFunc, size, key)]
    {
      hide Space, Find;
      var entry := FindEntry(key);
      if entry >= 0 {
        return InvalidParameter;
      }
      if num >= NUM_STORAGE_BOXES {
        return InvalidParameter;
      }
      ghost var was := Boxes();
      hd[num] := DataHeader(size, hd[num].checksum, key);
      load[num] := loadFunc;
      save[num] := saveFunc;
      totalSize := totalSize + size + HEADER;
      num := num + 1;
      assert Boxes() == was + [Box(loadFunc, saveFunc, size, key)];
      SpaceAppend(was, Box(loadFunc, saveFunc, size, key));
      return Success;
    }

    /** `inv_find_entry`, which is also the search for a registered key. */
    method FindEntry(key: u32) returns (entry: int)
      requires Valid()
      ensures entry == Find(Boxes(), key)
    {
      hide Space;
      ghost var boxes := Boxes();
      var kk := 0;
      while kk < num
        invariant kk <= num
        invariant forall k :: 0 <= k < kk ==> boxes[k].key != key
      {
        if key == hd[kk].key {
          FoundAt(boxes, key, kk);
          return kk;
        }
        kk := kk + 1;
      }
      assert Find(boxes, key) == -1;
      return -1;
    }

    /** One box of an image: the payload first, then the header in front of it. */
    static method SaveBox(data: array<byte>, cur: nat, h: DataHeader, b: seq<byte>) returns (next: nat)
      requires |b| == h.size && cur + HEADER + |b| <= data.Length
      modifies data
      ensures next == cur + HEADER + |b|
      ensures data[..] == Splice(old(data[..]), cur, EntryBytes(Entry(h.key, b)))
    {
      hide HeaderBytes, Hash, Splice;
      next := cur + HEADER;
      Copy(data, next, b);
      SpliceHolds(old(data[..]), next, b);
      var checksum := InvChecksum(data[..][next..next + h.size]);
      var front := HeaderBytes(DataHeader(h.size, checksum, h.key));
      Copy(data, cur, front);
      SpliceBefore(old(data[..]), cur, front, b);
      next := next + h.size;
    }

    /** `inv_save_mpl_states`: the first `totalSize` bytes become the image of what the save callbacks
        write, and no other byte changes. `saved` gives each callback's bytes. */
    method SaveMplStates(data: array<byte>, sz: nat, saved: int -> seq<byte>) returns (res: Code)
      requires Valid() && sz <= data.Length && Saves(Boxes(), saved)
      modifies data
      ensures Small(Entries(Boxes(), saved)) && HEADER + |Body(Entries(Boxes(), saved))| == totalSize < TWO_31
      ensures
        if sz == 0 || sz < totalSize then res == LoadError && data[..] == old(data[..])
        else res == Success && data[..] == Splice(old(data[..]), 0, Image(Entries(Boxes(), saved)))
    {
      hide Space, Body, HeaderBytes, Hash, UniqueKeys, Splice, Entries;
      BodySpace(Boxes(), saved);
      ghost var body := Body(Entries(Boxes(), saved));
      if sz == 0 || sz < totalSize {
        return LoadError;
      }
      SaveBoxes(data, saved);
      SpliceHolds(old(data[..]), HEADER, body);
      var front := SealImage(data, totalSize);
      SpliceBefore(old(data[..]), 0, front, body);
      return Success;
    }

    /** The header in front of all boxes, with the checksum of everything behind it. */
    static method SealImage(data: array<byte>, total: int32) returns (front: seq<byte>)
      requires HEADER <= total <= data.Length
      modifies data
      ensures front == HeaderBytes(DataHeader(total, Hash(old(data[..])[HEADER..total]), DEFAULT_KEY))
      ensures data[..] == Splice(old(data[..]), 0, front)
    {
      hide HeaderBytes, Hash, Splice;
      var checksum := InvChecksum(data[..][HEADER..total]);
      front := HeaderBytes(DataHeader(total, checksum, DEFAULT_KEY));
      Copy(data, 0, front);
    }

    method SaveBoxes(data: array<byte>, saved: int -> seq<byte>)
      requires Valid() && totalSize <= data.Length && Saves(Boxes(), saved)
      modifies data
      ensures
        var es := Entries(Boxes(), saved);
        Small(es) && HEADER + |Body(es)| == totalSize && data[..] == Splice(old(data[..]), HEADER, Body(es))
    {
      hide Space, Body, EntryBytes, Hash, UniqueKeys, Splice, Entries, Small;
      ghost var boxes, es, was := Boxes(), Entries(Boxes(), saved), data[..];
      BodySpace(boxes, saved);
      NothingSaved(es, boxes, was);
      var cur := HEADER;
      var kk := 0;
      while kk < num
        invariant kk <= num && Small(es[..kk])
        invariant HEADER <= cur == HEADER + |Body(es[..kk])| == HEADER + Space(boxes[..kk]) <= totalSize
        invariant data[..] == Splice(was, HEADER, Body(es[..kk]))
      {
        SpaceOfPrefix(boxes, kk);
        BodyAppend(es, kk);
        SpliceAfter(was, HEADER, Body(es[..kk]), EntryBytes(es[kk]));
        assert boxes[kk] == Box(load[kk], save[kk], hd[kk].size, hd[kk].key);
        assert es[kk] == Entry(hd[kk].key, saved(save[kk]));
        cur := SaveBox(data, cur, hd[kk], saved(save[kk]));
        kk := kk + 1;
      }
      assert boxes[..kk] == boxes && es[..kk] == es;
    }

    static lemma NothingSaved(es: seq<Entry>, boxes: seq<Box>, was: seq<byte>)
      ensures es[..0] == [] && Small(es[..0]) && Body(es[..0]) == [] && Space(boxes[..0]) == 0
      ensures |was| >= HEADER ==> Splice(was, HEADER, []) == was
    {
    }

    /** `inv_load_mpl_states`, with the callbacks it makes recorded. */
    method LoadMplStates(data: seq<byte>) returns (res: Code)
      requires Valid() && WellFormed(data)
      modifies `delivered
      ensures
        var r := Load(Boxes(), data);
        res == r.code && delivered == old(delivered) + r.calls
      ensures data == [] ==> res == Success && delivered == old(delivered)
      ensures 0 < |data| < 12 ==> res == LoadError && delivered == old(delivered)
    {
      hide Space, Hash, HeaderOf, SizesPositive, LoadBody, UniqueKeys;
      if data == [] {
        return Success;
      }
      if |data| < HEADER {
        return LoadError;
      }
      var header := HeaderOf(data);
      if header.key != DEFAULT_KEY {
        return LoadError;
      }
      var checksum := InvChecksum(Payload(data));
      if checksum != header.checksum {
        return LoadError;
      }
      res := LoadBoxes(Payload(data));
    }

    /** The loading loop: `pos` is the cursor, `len` what the source believes is left. */
    method LoadBoxes(b: seq<byte>) returns (res: Code)
      requires Valid() && SizesPositive(b)
      modifies `delivered
      ensures
        var r := LoadBody(Boxes(), b);
        res == r.code && delivered == old(delivered) + r.calls
    {
      hide Space, Hash, HeaderOf, Find, UniqueKeys, LoadBody, SizesPositive;
      ghost var boxes, all := Boxes(), LoadBody(Boxes(), b);
      var pos: int := 0;
      var len: int := |b|;
      assert b[0..] == b;
      while len > HEADER
        invariant 0 <= pos <= |b| && Valid() && Boxes() == boxes
        invariant len >= 0 ==> len == |b| - pos && SizesPositive(b[pos..])
        invariant
          if len < 0 then all.code == Success && old(delivered) + all.calls == delivered
          else
            var r := LoadBody(boxes, b[pos..]);
            all.code == r.code && old(delivered) + all.calls == delivered + r.calls
        decreases len
      {
        ghost var here := b[pos..];
        LoadStep(boxes, here);
        ghost var more := LoadBody(boxes, here);
        var header := HeaderOf(b[pos..]);
        var entry := FindEntry(header.key);
        pos := pos + HEADER;
        len := len - HEADER;
        assert b[pos..] == here[HEADER..];
        if entry >= 0 && len >= header.size {
          if header.size != hd[entry].size {
            return LengthError;
          }
          var bytes := b[pos..][..header.size];
          var checksum := InvChecksum(bytes);
          if checksum != header.checksum {
            return LoadError;
          }
          delivered := delivered + [(load[entry], bytes)];
        }
        len := len - header.size;
        if len >= 0 {
          ghost var after := here[HEADER + header.size..];
          assert SizesPositive(after);
          assert after == b[pos + header.size..];
          pos := pos + header.size;
        }
      }
      if len >= 0 {
        LoadEnd(boxes, b[pos..]);
      }
      return Success;
    }

    /** Saving, then loading those bytes: nothing is rejected, and unless the last feature has no bytes,
        every load callback gets back, in order, what its save callback wrote. */
    method SaveThenLoad(data: array<byte>, saved: int -> seq<byte>) returns (res: Code)
      requires Valid() && totalSize <= data.Length && Saves(Boxes(), saved)
      modifies data, `delivered
      ensures res == Success
      ensures
        var boxes, last := Boxes(), |Boxes()| - 1;
        delivered == old(delivered)
          + (if boxes == [] || boxes[last].size > 0 then Calls(boxes, saved) else Calls(boxes[..last], saved))
    {
      hide Space, Body, Image, Hash, HeaderOf, HeaderBytes, UniqueKeys, Splice, Load, WellFormed, Calls, Entries, Small,
        Saves;
      res := SaveMplStates(data, data.Length, saved);
      SavedLoads(Boxes(), saved, old(data[..]));
      res := LoadMplStates(data[..][0..totalSize]);
    }
  }

  /** A buffer with a saved image in front loads as `RoundTrip` says. */
  lemma SavedLoads(boxes: seq<Box>, saved: int -> seq<byte>, was: seq<byte>)
    requires UniqueKeys(boxes) && Saves(boxes, saved) && Small(Entries(boxes, saved))
    requires HEADER + |Body(Entries(boxes, saved))| <= |was| && HEADER + |Body(Entries(boxes, saved))| < TWO_31
    ensures |Image(Entries(boxes, saved))| == HEADER + |Body(Entries(boxes, saved))|
    ensures WellFormed(Image(Entries(boxes, saved)))
    ensures
      var img := Image(Entries(boxes, saved));
      var r, last := Load(boxes, img), |boxes| - 1;
      && Splice(was, 0, img)[0..|img|] == img
      && r.code == Success
      && r.calls == if boxes == [] || boxes[last].size > 0 then Calls(boxes, saved) else Calls(boxes[..last], saved)
  {
    hide Body, Image, UniqueKeys, Splice, Load, WellFormed, Calls, HeaderOf, HeaderBytes, Hash, Entries, Small;
    RoundTrip(boxes, saved);
    ImageParts(Entries(boxes, saved));
    SpliceHolds(was, 0, Image(Entries(boxes, saved)));
  }

  /** One turn of the loading loop, on the bytes it has left. */
  lemma LoadStep(boxes: seq<Box>, b: seq<byte>)
    requires |b| > HEADER && SizesPositive(b)
    ensures HeaderOf(b).size >= 0
    ensures HeaderOf(b).size > |b| - HEADER ==> LoadBody(boxes, b) == Loaded(Success, [])
    ensures HeaderOf(b).size <= |b| - HEADER ==>
      var hd, rest := HeaderOf(b), b[HEADER..];
      var bytes, entry := rest[..hd.size], Find(boxes, hd.key);
      && SizesPositive(b[HEADER + hd.size..])
      && LoadBody(boxes, b) ==
        if entry >= 0 && hd.size != boxes[entry].size then Loaded(LengthError, [])
        else if entry >= 0 && Hash(bytes) != hd.checksum then Loaded(LoadError, [])
        else
          var more := LoadBody(boxes, b[HEADER + hd.size..]);
          if entry < 0 then more else more.(calls := [(boxes[entry].load, bytes)] + more.calls)
  {
    hide HeaderOf, Hash, Find;
    if HeaderOf(b).size <= |b| - HEADER {
      assert b[HEADER..][HeaderOf(b).size..] == b[HEADER + HeaderOf(b).size..];
    }
  }

  lemma LoadEnd(boxes: seq<Box>, b: seq<byte>)
    requires |b| <= HEADER
    ensures SizesPositive(b) && LoadBody(boxes, b) == Loaded(Success, [])
  {
  }

  lemma {:induction false} FoundAt(boxes: seq<Box>, key: u32, k: nat)
    requires k < |boxes| && boxes[k].key == key && forall i :: 0 <= i < k ==> boxes[i].key != key
    ensures Find(boxes, key) == k
  {
    if k > 0 {
      FoundAt(boxes[1..], key, k - 1);
    }
  }
}
