/** The image format of `storage_manager.c`: a header and, behind it, one header and payload for every
    registered feature. Saving and loading as functions, and what holds of them together. */
module Storage {
  import opened Machine
  import opened Checksum

  const DEFAULT_KEY := 29681
  const HEADER := 12
  const NUM_STORAGE_BOXES := 20

  /** `struct data_header_t`. */
  datatype DataHeader = DataHeader(size: int32, checksum: u32, key: u32)

  function HeaderBytes(h: DataHeader): (b: seq<byte>)
    ensures |b| == HEADER
  {
    Le32(U32(h.size)) + Le32(h.checksum) + Le32(h.key)
  }

  function HeaderOf(b: seq<byte>): DataHeader
    requires |b| >= HEADER
  {
    DataHeader(S32(FromLe32(b[0..4])), FromLe32(b[4..8]), FromLe32(b[8..12]))
  }

  lemma HeaderRoundTrip(h: DataHeader, tail: seq<byte>)
    ensures HeaderOf(HeaderBytes(h) + tail) == h
  {
    hide Le32, FromLe32, U32, S32;
    var b := HeaderBytes(h) + tail;
    assert b[0..4] == Le32(U32(h.size)) + [];
    assert b[4..8] == Le32(h.checksum) + [];
    assert b[8..12] == Le32(h.key) + [];
    Le32RoundTrip(U32(h.size), []);
    Le32RoundTrip(h.checksum, []);
    Le32RoundTrip(h.key, []);
    SignedRoundTrip(0, h.size);
  }

  /** One registered feature: its two callbacks, the size it asked for and its key. */
  datatype Box = Box(load: int, save: int, size: int32, key: u32)

  /** One feature's saved data. */
  datatype Entry = Entry(key: u32, bytes: seq<byte>)

  function EntryBytes(e: Entry): (b: seq<byte>)
    requires |e.bytes| < TWO_31
    ensures |b| == HEADER + |e.bytes|
  {
    HeaderBytes(DataHeader(|e.bytes|, Hash(e.bytes), e.key)) + e.bytes
  }

  ghost predicate Small(es: seq<Entry>) {
    forall e :: e in es ==> |e.bytes| < TWO_31
  }

  function Body(es: seq<Entry>): seq<byte>
    requires Small(es)
  {
    if es == [] then [] else EntryBytes(es[0]) + Body(es[1..])
  }

  function Image(es: seq<Entry>): seq<byte>
    requires Small(es) && |Body(es)| < TWO_31 - HEADER
  {
    var body := Body(es);
    HeaderBytes(DataHeader(HEADER + |body|, Hash(body), DEFAULT_KEY)) + body
  }

  // ----- loading -----

  datatype Code = Success | LoadError | LengthError | InvalidParameter

  /** The result of a load, and the callbacks it made: which, and with which bytes. */
  datatype Loaded = Loaded(code: Code, calls: seq<(int, seq<byte>)>)

  /** `inv_find_entry`. */
  function Find(boxes: seq<Box>, key: u32): (i: int)
    ensures -1 <= i < |boxes|
    ensures i >= 0 ==> boxes[i].key == key
    ensures i == -1 ==> forall k :: 0 <= k < |boxes| ==> boxes[k].key != key
  {
    if boxes == [] then -1
    else if boxes[0].key == key then 0
    else
      var i := Find(boxes[1..], key);
      if i < 0 then -1 else i + 1
  }

  /** The loop of `inv_load_mpl_states` over what is left of the body. A header needs more than
      twelve bytes to be looked at, and a size larger than what is left ends the loop. */
  function LoadBody(boxes: seq<Box>, b: seq<byte>): Loaded
    requires SizesPositive(b)
    decreases |b|
  {
    if |b| <= HEADER then Loaded(Success, [])
    else
      var hd, rest := HeaderOf(b), b[HEADER..];
      var entry := Find(boxes, hd.key);
      if hd.size > |rest| then Loaded(Success, [])
      else if entry < 0 then LoadBody(boxes, rest[hd.size..])
      else if hd.size != boxes[entry].size then Loaded(LengthError, [])
      else if Hash(rest[..hd.size]) != hd.checksum then Loaded(LoadError, [])
      else
        var more := LoadBody(boxes, rest[hd.size..]);
        more.(calls := [(boxes[entry].load, rest[..hd.size])] + more.calls)
  }

  /** No header in the body has a negative size. */
  predicate SizesPositive(b: seq<byte>)
    decreases |b|
  {
    |b| <= HEADER ||
    var size := HeaderOf(b).size;
    size >= 0 && (size > |b| - HEADER || SizesPositive(b[HEADER + size..]))
  }

  /** What the code assumes of the data: behind a good key the size field stays inside the data, and
      behind a good checksum no inner size is negative. */
  predicate WellFormed(data: seq<byte>) {
    |data| >= HEADER && HeaderOf(data).key == DEFAULT_KEY ==>
      && HeaderOf(data).size <= |data|
      && (Hash(Payload(data)) == HeaderOf(data).checksum ==> SizesPositive(Payload(data)))
  }

  /** The bytes the outer header speaks for. */
  function Payload(data: seq<byte>): seq<byte>
    requires |data| >= HEADER && HeaderOf(data).size <= |data|
  {
    if HeaderOf(data).size <= HEADER then [] else data[HEADER..HeaderOf(data).size]
  }

  /** `inv_load_mpl_states`. */
  function Load(boxes: seq<Box>, data: seq<byte>): Loaded
    requires WellFormed(data)
  {
    if data == [] then Loaded(Success, [])
    else if |data| < HEADER then Loaded(LoadError, [])
    else if HeaderOf(data).key != DEFAULT_KEY then Loaded(LoadError, [])
    else if Hash(Payload(data)) != HeaderOf(data).checksum then Loaded(LoadError, [])
    else LoadBody(boxes, Payload(data))
  }

  // ----- what loading a saved image delivers -----

  /** Loading entry by entry, without any bytes: matching key and size is delivered, an unknown key
      is skipped, and the first size clash stops. */
  function Deliver(boxes: seq<Box>, es: seq<Entry>): Loaded {
    if es == [] then Loaded(Success, [])
    else
      var entry := Find(boxes, es[0].key);
      if entry < 0 then Deliver(boxes, es[1..])
      else if |es[0].bytes| != boxes[entry].size then Loaded(LengthError, [])
      else
        var more := Deliver(boxes, es[1..]);
        more.(calls := [(boxes[entry].load, es[0].bytes)] + more.calls)
  }

  /** The loader needs more than a header to go on, so it never sees an empty entry at the end. */
  function Seen(es: seq<Entry>): (r: seq<Entry>)
    ensures r <= es
  {
    if es != [] && es[|es| - 1].bytes == [] then es[..|es| - 1] else es
  }

  lemma SeenOfTail(es: seq<Entry>)
    requires |es| > 1
    ensures Seen(es) == [es[0]] + Seen(es[1..])
  {
  }

  lemma {:induction false} BodyIsWellFormed(es: seq<Entry>)
    requires Small(es)
    ensures SizesPositive(Body(es))
  {
    hide HeaderOf, HeaderBytes;
    if es != [] {
      BodyIsWellFormed(es[1..]);
      BodyHead(es);
    }
  }

  /** The first entry of a body, as the loader reads it. */
  lemma BodyHead(es: seq<Entry>)
    requires Small(es) && es != []
    ensures
      var b := Body(es);
      && |b| >= HEADER + |es[0].bytes|
      && HeaderOf(b) == DataHeader(|es[0].bytes|, Hash(es[0].bytes), es[0].key)
      && b[HEADER..][..|es[0].bytes|] == es[0].bytes
      && b[HEADER..][|es[0].bytes|..] == Body(es[1..])
      && b[HEADER + |es[0].bytes|..] == Body(es[1..])
  {
    hide HeaderOf, HeaderBytes, Hash;
    var e := es[0];
    var h := DataHeader(|e.bytes|, Hash(e.bytes), e.key);
    HeaderRoundTrip(h, e.bytes + Body(es[1..]));
    assert Body(es) == HeaderBytes(h) + (e.bytes + Body(es[1..]));
  }

  lemma {:induction false} LoadOfBody(boxes: seq<Box>, es: seq<Entry>)
    requires Small(es)
    ensures SizesPositive(Body(es)) && LoadBody(boxes, Body(es)) == Deliver(boxes, Seen(es))
    decreases |es|
  {
    hide HeaderOf, Hash, Find, Body, SizesPositive;
    BodyIsWellFormed(es);
    if es == [] {
      assert Body(es) == [] by { EmptyBody(); }
    } else {
      BodyHead(es);
      EmptyBody();
      if |es| == 1 && es[0].bytes == [] {
        assert es[1..] == [] && Seen(es) == [];
      } else {
        if |es| == 1 {
          assert es[1..] == [];
        } else {
          BodyHead(es[1..]);
          SeenOfTail(es);
        }
        assert Seen(es) == [es[0]] + Seen(es[1..]);
        LoadOfBody(boxes, es[1..]);
      }
    }
  }

  lemma EmptyBody()
    ensures Body([]) == []
  {
  }

  /** Loading a saved image into any registry is delivering its entries one by one. */
  lemma LoadOfImage(boxes: seq<Box>, es: seq<Entry>)
    requires Small(es) && |Body(es)| < TWO_31 - HEADER
    ensures WellFormed(Image(es)) && Load(boxes, Image(es)) == Deliver(boxes, Seen(es))
  {
    hide HeaderOf, HeaderBytes, Hash, Body, SizesPositive, LoadBody, Deliver;
    ImageParts(es);
    LoadOfBody(boxes, es);
  }

  lemma ImageParts(es: seq<Entry>)
    requires Small(es) && |Body(es)| < TWO_31 - HEADER
    ensures
      var img := Image(es);
      && |img| == HEADER + |Body(es)|
      && HeaderOf(img) == DataHeader(HEADER + |Body(es)|, Hash(Body(es)), DEFAULT_KEY)
      && Payload(img) == Body(es)
  {
    hide HeaderOf, HeaderBytes, Hash, Body;
    HeaderRoundTrip(DataHeader(HEADER + |Body(es)|, Hash(Body(es)), DEFAULT_KEY), Body(es));
  }

  // ----- the round trip -----

  ghost predicate UniqueKeys(boxes: seq<Box>) {
    forall i, j :: 0 <= i < j < |boxes| ==> boxes[i].key != boxes[j].key
  }

  /** What every save callback writes, `saved` by callback, has the registered size. */
  ghost predicate Saves(boxes: seq<Box>, saved: int -> seq<byte>) {
    forall k :: 0 <= k < |boxes| ==> |saved(boxes[k].save)| == boxes[k].size
  }

  function Entries(boxes: seq<Box>, saved: int -> seq<byte>): (es: seq<Entry>)
    ensures |es| == |boxes|
    ensures forall k :: 0 <= k < |boxes| ==> es[k] == Entry(boxes[k].key, saved(boxes[k].save))
  {
    if boxes == [] then []
    else [Entry(boxes[0].key, saved(boxes[0].save))] + Entries(boxes[1..], saved)
  }

  /** Every load callback once, in order, with the bytes of the matching save callback. */
  function Calls(boxes: seq<Box>, saved: int -> seq<byte>): seq<(int, seq<byte>)> {
    if boxes == [] then []
    else [(boxes[0].load, saved(boxes[0].save))] + Calls(boxes[1..], saved)
  }

  lemma {:induction false} FindUnique(boxes: seq<Box>, k: nat)
    requires UniqueKeys(boxes) && k < |boxes|
    ensures Find(boxes, boxes[k].key) == k
  {
  }

  lemma {:induction false} DeliverOwn(boxes: seq<Box>, saved: int -> seq<byte>, i: nat, n: nat)
    requires UniqueKeys(boxes) && Saves(boxes, saved) && i <= n <= |boxes|
    ensures Deliver(boxes, Entries(boxes, saved)[i..n]) == Loaded(Success, Calls(boxes[i..n], saved))
    decreases n - i
  {
    hide Find;
    var es := Entries(boxes, saved);
    if i < n {
      FindUnique(boxes, i);
      DeliverOwn(boxes, saved, i + 1, n);
      assert es[i..n][1..] == es[i + 1..n];
      assert boxes[i..n][1..] == boxes[i + 1..n];
    }
  }

  lemma {:induction false} CallsCount(boxes: seq<Box>, saved: int -> seq<byte>)
    ensures |Calls(boxes, saved)| == |boxes|
  {
    if boxes != [] {
      CallsCount(boxes[1..], saved);
    }
  }

  /** Save, then load into the same registry: it succeeds, and every load callback gets exactly the
      bytes of its save callback, once and in order, exactly when the last feature has a nonzero size.
      If its size is zero only its own (empty) delivery is missing. */
  lemma RoundTrip(boxes: seq<Box>, saved: int -> seq<byte>)
    requires UniqueKeys(boxes) && Saves(boxes, saved)
    requires Small(Entries(boxes, saved)) && |Body(Entries(boxes, saved))| < TWO_31 - HEADER
    ensures WellFormed(Image(Entries(boxes, saved)))
    ensures
      var r := Load(boxes, Image(Entries(boxes, saved)));
      var last := |boxes| - 1;
      && r.code == Success
      && (r.calls == Calls(boxes, saved) <==> boxes == [] || boxes[last].size > 0)
      && (boxes != [] && boxes[last].size == 0 ==> r.calls == Calls(boxes[..last], saved))
  {
    hide Image, Load, WellFormed, Body, Calls, Small, Entries, UniqueKeys, Saves;
    var n := LoadOfSaved(boxes, saved);
    CallsCount(boxes[..n], saved);
    CallsCount(boxes, saved);
    assert n == |boxes| ==> boxes[..n] == boxes;
  }

  /** It delivers all features but an empty last one. */
  lemma LoadOfSaved(boxes: seq<Box>, saved: int -> seq<byte>) returns (n: nat)
    requires UniqueKeys(boxes) && Saves(boxes, saved)
    requires Small(Entries(boxes, saved)) && |Body(Entries(boxes, saved))| < TWO_31 - HEADER
    ensures n == if boxes != [] && boxes[|boxes| - 1].size <= 0 then |boxes| - 1 else |boxes|
    ensures WellFormed(Image(Entries(boxes, saved)))
    ensures Load(boxes, Image(Entries(boxes, saved))) == Loaded(Success, Calls(boxes[..n], saved))
  {
    hide Image, Load, WellFormed, Body, Calls, Deliver, UniqueKeys;
    var es := Entries(boxes, saved);
    LoadOfImage(boxes, es);
    n := |Seen(es)|;
    DeliverOwn(boxes, saved, 0, n);
    assert Seen(es) == es[0..n] && boxes[0..n] == boxes[..n];
  }

  /** One feature of size zero: it is saved, and its load callback is never called. */
  lemma EmptyFeatureNotLoaded()
    ensures
      var boxes, saved := [Box(1, 2, 0, 5)], (_: int) => [];
      && Small(Entries(boxes, saved)) && |Body(Entries(boxes, saved))| == HEADER
      && Load(boxes, Image(Entries(boxes, saved))) == Loaded(Success, [])
      && Calls(boxes, saved) == [(1, [])]
  {
    hide Image, Load, EntryBytes, WellFormed;
    var boxes, saved := [Box(1, 2, 0, 5)], (_: int) => [];
    assert Entries(boxes, saved) == [Entry(5, [])];
    RoundTrip(boxes, saved);
  }

  // ----- any image -----

  /** At `i` stands a header with key and size of the box, and behind it the bytes, whose checksum it has. */
  ghost predicate CertifiedBy(box: Box, b: seq<byte>, i: nat, load: int, bytes: seq<byte>) {
    && i + HEADER + |bytes| <= |b| && |bytes| < TWO_31
    && box.load == load && box.size == |bytes|
    && HeaderOf(b[i..]) == DataHeader(|bytes|, Hash(bytes), box.key)
    && b[i + HEADER..][..|bytes|] == bytes
  }

  ghost predicate Certified(boxes: seq<Box>, b: seq<byte>, load: int, bytes: seq<byte>) {
    exists i: nat, box :: box in boxes && CertifiedBy(box, b, i, load, bytes)
  }

  lemma CertifiedLater(boxes: seq<Box>, b: seq<byte>, n: nat, load: int, bytes: seq<byte>)
    requires n <= |b| && Certified(boxes, b[n..], load, bytes)
    ensures Certified(boxes, b, load, bytes)
  {
    hide HeaderOf, Hash;
    var i: nat, box :| box in boxes && CertifiedBy(box, b[n..], i, load, bytes);
    assert b[n..][i..] == b[n + i..] && b[n..][i + HEADER..] == b[n + i + HEADER..];
    assert CertifiedBy(box, b, n + i, load, bytes);
  }

  /** Whatever the data, nothing is delivered that does not have the registered size and its checksum. */
  lemma {:induction false} DeliveredIsCertified(boxes: seq<Box>, b: seq<byte>)
    requires SizesPositive(b)
    ensures forall c :: c in LoadBody(boxes, b).calls ==> Certified(boxes, b, c.0, c.1)
    decreases |b|
  {
    hide HeaderOf, Hash, Find, Certified;
    if |b| > HEADER && HeaderOf(b).size <= |b| - HEADER {
      var hd, rest := HeaderOf(b), b[HEADER..];
      var n := HEADER + hd.size;
      assert rest[hd.size..] == b[n..];
      DeliveredIsCertified(boxes, b[n..]);
      forall c | c in LoadBody(boxes, b[n..]).calls
        ensures Certified(boxes, b, c.0, c.1)
      {
        CertifiedLater(boxes, b, n, c.0, c.1);
      }
      var k := Find(boxes, hd.key);
      if k >= 0 && hd.size == boxes[k].size && Hash(rest[..hd.size]) == hd.checksum {
        CertifiedHere(boxes, b, k);
      }
    }
  }

  lemma CertifiedHere(boxes: seq<Box>, b: seq<byte>, k: nat)
    requires |b| > HEADER && 0 <= HeaderOf(b).size <= |b| - HEADER && k < |boxes|
    requires
      var hd := HeaderOf(b);
      hd.key == boxes[k].key && hd.size == boxes[k].size && Hash(b[HEADER..][..hd.size]) == hd.checksum
    ensures Certified(boxes, b, boxes[k].load, b[HEADER..][..HeaderOf(b).size])
  {
    hide HeaderOf, Hash;
    assert b[0..] == b && boxes[k] in boxes;
    assert CertifiedBy(boxes[k], b, 0, boxes[k].load, b[HEADER..][..HeaderOf(b).size]);
  }

  // ----- corruption -----

  /** Changing any one byte of a saved image outside its size field is noticed before a single
      callback runs: in the payload by the checksum, in the header by the key or the checksum. */
  lemma OneByteCorruptionRejected(boxes: seq<Box>, es: seq<Entry>, data: seq<byte>, i: nat)
    requires Small(es) && |Body(es)| < TWO_31 - HEADER
    requires |data| == |Image(es)| && 4 <= i < |data| && data[i] != Image(es)[i]
    requires forall k :: 0 <= k < |data| && k != i ==> data[k] == Image(es)[k]
    ensures WellFormed(data) && Load(boxes, data) == Loaded(LoadError, [])
  {
    hide Image, LoadBody, SizesPositive, Hash, Body, Le32, FromLe32;
    var img := Image(es);
    ImageParts(es);
    assert data[0..4] == img[0..4];
    if i >= HEADER {
      assert data[4..8] == img[4..8] && data[8..12] == img[8..12];
      OneByteDetected(Payload(data), Payload(img), i - HEADER);
    } else if i >= 8 {
      FieldChanged(data[8..12], img[8..12], i - 8);
    } else {
      assert data[8..12] == img[8..12];
      FieldChanged(data[4..8], img[4..8], i - 4);
      assert Payload(data) == Payload(img);
    }
  }

  lemma FieldChanged(a: seq<byte>, b: seq<byte>, i: nat)
    requires |a| == |b| == 4 && i < 4 && a[i] != b[i]
    requires forall k :: 0 <= k < 4 && k != i ==> a[k] == b[k]
    ensures FromLe32(a) != FromLe32(b)
  {
  }

  /** Two changed bytes can pass both checksums: of a feature of two bytes, 0 and 33 become 1 and 0, and are
      delivered. */
  lemma TwoByteCorruptionAccepted(box: Box)
    requires box.size == 2
    ensures
      var good := [Entry(box.key, [0, 33])];
      && Small(good) && |Body(good)| == HEADER + 2
      && var data := Image(good)[..2 * HEADER] + [1, 0];
      && data != Image(good)
      && WellFormed(data) && Load([box], data) == Loaded(Success, [(box.load, [1, 0])])
  {
    hide HeaderBytes, Hash, WellFormed, Load;
    var h := DataHeader(2, Hash([0, 33]), box.key);
    var head := HeaderBytes(h);
    var good, bad := [Entry(box.key, [0, 33])], [Entry(box.key, [1, 0])];
    TwoBytesUnnoticed([]);
    assert [] + [0, 33] == [0, 33] && [] + [1, 0] == [1, 0];
    OneEntry(good[0]);
    OneEntry(bad[0]);
    TwoBytesUnnoticed(head);
    var outer := HeaderBytes(DataHeader(2 * HEADER + 2, Hash(head + [0, 33]), DEFAULT_KEY));
    assert Image(good) == outer + (head + [0, 33]);
    assert Image(bad) == outer + (head + [1, 0]);
    assert Image(good)[..2 * HEADER] + [1, 0] == Image(bad);
    assert Image(good)[2 * HEADER] == 0;
    LoadOfImage([box], bad);
    assert Seen(bad) == bad;
    DeliverOne(box, bad[0]);
  }

  lemma OneEntry(e: Entry)
    requires |e.bytes| < TWO_31
    ensures Body([e]) == EntryBytes(e)
  {
    assert [e][1..] == [];
  }

  lemma DeliverOne(box: Box, e: Entry)
    requires e.key == box.key && |e.bytes| == box.size
    ensures Deliver([box], [e]) == Loaded(Success, [(box.load, e.bytes)])
  {
    assert [e][1..] == [];
    assert Deliver([box], []) == Loaded(Success, []);
  }

  /** The bytes of one header: size, checksum and key, the low byte first. */
  lemma KnownHeader()
    ensures HeaderBytes(DataHeader(258, 0x0102_0304, DEFAULT_KEY)) == [2, 1, 0, 0, 4, 3, 2, 1, 0xf1, 0x73, 0, 0]
  {
  }
}
