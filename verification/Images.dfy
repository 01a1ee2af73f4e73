/** Backup images (psv.h, vci.h) and the drivers of device.c on values: dump, restore and wipe. */
module Images {
  import opened Bytes
  import opened Transfer
  import Fips = Fips180

  // ----- fields -----

  /** A 64-bit field, little-endian as on the machine. */
  function Le64(n: nat): (b: bytes)
    ensures |b| == 8
  {
    seq(8, k requires 0 <= k < 8 => ByteOf(n, k))
  }

  lemma FieldReadsBack(n: nat)
    requires n < 0x1_0000_0000_0000_0000
    ensures Number(Le64(n)) == n
  {
    hide ByteOf;
    BytesOfNumber(n, Le64(n));
  }

  // ----- headers -----

  type Secret = b: bytes | |b| == 0x20 witness Zeros(0x20)
  type Sha1 = b: bytes | |b| == 0x14 witness Zeros(0x14)

  /** The formats that take a device whole. */
  datatype Format = Vci | Psv | Raw

  /** What a dump needs to know about the cart: what kGetCartSecret and kGetCartHash deliver, and the per-cart keys. */
  datatype Job = Job(format: Format, secret: Secret, sha1: Sha1, packet20Key: Secret, packet18Key: Secret)

  const PSV_MAGIC: bytes := [0x50, 0x53, 0x56, 0x00]
  const VCI_MAGIC: bytes := [0x56, 0x43, 0x49, 0x00]

  function Filled(n: nat, v: bv8): (b: bytes)
    ensures |b| == n
  {
    seq(n, _ => v)
  }

  function PsvHeader(job: Job, hash: Secret, size: nat): (h: bytes)
    ensures |h| == 0x200
  {
    PSV_MAGIC + [0x1, 0x0, 0x0, 0x0] + [0x0, 0x0, 0x0, 0x0] + job.secret + job.sha1 + hash
    + Le64(size) + Le64(1) + Zeros(0x190)
  }

  function VciHeader(job: Job, size: nat): (h: bytes)
    ensures |h| == 0x200
  {
    VCI_MAGIC + [0x1, 0x0] + [0x0, 0x0] + Le64(size) + (job.packet20Key + job.packet18Key) + Zeros(0x1B0)
  }

  function Header(job: Job, hash: Secret, size: nat): (h: bytes)
    ensures |h| == if job.format == Raw then 0 else 0x200
  {
    match job.format
    case Psv => PsvHeader(job, hash, size)
    case Vci => VciHeader(job, size)
    case Raw => []
  }

  function Written(wr: int, n: nat): int {
    if wr == 0 then SIZE_IS_ZERO else if wr < 0 then wr else if wr != n then SIZE_NOT_MATCH else 0
  }

  /** create_header. */
  function PutHeader(image: Chan, header: bytes): (r: (int, Chan))
    requires image.Valid()
    ensures r.1.Valid()
  {
    if header == [] then (0, image) else
      var (wr, image') := WriteTo(image, header);
      (Written(wr, |header|), image')
  }

  /** finalize_psv_header: seek to the hash field and write the digest over it. */
  function Finalize(image: Chan, hash: Secret): (r: (int, Chan))
    requires image.Valid() && |image.content| >= 0x200
    ensures r.1.Valid()
  {
    var (at, sought) := SeekTo(image, 0x40);
    if at != 0x40 then (SIZE_NOT_MATCH, sought) else
      var (wr, image') := WriteTo(sought, hash);
      (Written(wr, 0x20), image')
  }

  // ----- dump -----

  ghost predicate Dumpable(device: Chan, image: Chan) {
    && device.Valid() && device.pos == 0 && |device.content| < 0x2000_0000_0000_0000
    && image.Valid() && image.grows && image.content == []
  }

  ghost predicate Headed(format: Format, device: Chan, image: Chan) {
    && device.Valid() && device.pos == 0 && |device.content| < 0x2000_0000_0000_0000
    && image.Valid() && image.grows && image.pos == |image.content| && (format == Psv ==> image.pos >= 0x200)
  }

  /** What follows the header: the loop and, for a PSV, the digest. */
  ghost function DumpData(format: Format, device: Chan, image: Chan): (r: (int, Chan))
    requires Headed(format, device, image)
  {
    hide WriteTo;
    DumpIsExact(device, image, 0, []);
    var r := Pump(FromDevice, device, image, |device.content|, 0, []);
    if r.res < 0 || format != Psv then (r.res, r.to) else Finalize(r.to, Fips.Sha256(r.hashed))
  }

  /** dump_device_phys, once both sides have been opened: the result and the image file, which is removed again if the
    * result is negative. A device that could not be opened is not noticed before the first read.
    */
  ghost function DumpPhys(job: Job, device: Chan, image: Chan): (r: (int, Chan))
    requires Dumpable(device, image)
  {
    hide Header, WriteTo;
    if image.fd < 0 then (image.fd, image) else
      var size := |device.content|;
      HeaderIsPut(image, Header(job, Filled(0x20, 0xFF), size));
      var (h, image1) := PutHeader(image, Header(job, Filled(0x20, 0xFF), size));
      if h < 0 then (h, image1) else DumpData(job.format, device, image1)
  }

  lemma DumpStages(job: Job, device: Chan, image: Chan)
    requires Dumpable(device, image)
    ensures image.fd < 0 ==> DumpPhys(job, device, image) == (image.fd, image)
    ensures var (h, image1) := PutHeader(image, Header(job, Filled(0x20, 0xFF), |device.content|));
      && h <= 0
      && (image.fd >= 0 && h < 0 ==> DumpPhys(job, device, image) == (h, image1))
      && (image.fd >= 0 && h == 0 ==>
            Headed(job.format, device, image1) && DumpPhys(job, device, image) == DumpData(job.format, device, image1))
  {
    hide PutHeader, DumpData, Filled;
    HeaderIsPut(image, Header(job, Filled(0x20, 0xFF), |device.content|));
  }

  lemma HeaderIsPut(image: Chan, header: bytes)
    requires image.Valid() && image.grows && image.content == []
    ensures var (h, image') := PutHeader(image, header);
      && h <= 0 && image'.grows && image'.pos == |image'.content| && image'.fd == image.fd
      && (h == 0 ==> image'.content == header)
  {
    hide WriteTo;
    if header != [] {
      Appends(image, header);
    }
  }

  /** The image of a device: header, with the digest of the data for a PSV, and all the data. */
  ghost function ImageOf(job: Job, data: bytes): (image: bytes)
    requires |data| < 0x2000_0000_0000_0000
    ensures |image| == |data| + if job.format == Raw then 0 else 0x200
  {
    hide Header;
    Header(job, Fips.Sha256(data), |data|) + data
  }

  lemma OnlyTheHashDiffers(job: Job, a: Secret, b: Secret, size: nat)
    ensures PsvHeader(job, a, size)[..0x40] + b + PsvHeader(job, a, size)[0x60..] == PsvHeader(job, b, size)
    ensures job.format != Psv ==> Header(job, a, size) == Header(job, b, size)
  {
    hide Le64;
  }

  /** Patching the digest into a finished file leaves the rest of it as it was. */
  lemma HashIsPatched(job: Job, a: Secret, b: Secret, data: bytes, image: Chan)
    requires image.Valid() && image.content == PsvHeader(job, a, |data|) + data
    ensures var (f, image') := Finalize(image, b);
      && f <= 0 && (f == 0 ==> image'.content == PsvHeader(job, b, |data|) + data)
      && (image.Smooth() && image.grows ==> f == 0)
  {
    hide PsvHeader;
    OnlyTheHashDiffers(job, a, b, |data|);
    var h := PsvHeader(job, a, |data|);
    var (at, sought) := SeekTo(image, 0x40);
    var (wr, image') := WriteTo(sought, b);
    if image.Smooth() {
      StaysSmooth(image);
      StaysSmooth(sought);
    }
    if at == 0x40 && wr == 0x20 {
      assert b[..0x20] == b;
      assert image'.content == (h + data)[..0x40] + b + (h + data)[0x60..];
      assert (h + data)[..0x40] == h[..0x40] && (h + data)[0x60..] == h[0x60..] + data;
    }
  }

  /** The two system calls behind the digest: what each failure is reported as. */
  lemma PatchResult(image: Chan, hash: Secret)
    requires image.Valid() && image.grows && |image.content| >= 0x200
    ensures var seek, wr := image.Allowed(0), image.Rest().Allowed(0x20);
      Finalize(image, hash).0 ==
        if seek < 0 then -9585 else if wr < 0 then wr else if wr == 0 then -9584 else if wr != 0x20 then -9585 else 0
  {
  }

  /** A dump that reports success leaves exactly the image of the device, whatever the transfers did on the way. */
  lemma DumpedImage(job: Job, device: Chan, image: Chan)
    requires Dumpable(device, image)
    ensures var (res, image') := DumpPhys(job, device, image);
      res <= 0 && (res == 0 ==> image'.content == ImageOf(job, device.content))
  {
    hide Header, PsvHeader, PutHeader, Finalize, Pump;
    var d, ones := device.content, Filled(0x20, 0xFF);
    var header := Header(job, ones, |d|);
    HeaderIsPut(image, header);
    var (h, image1) := PutHeader(image, header);
    if image.fd >= 0 && h == 0 {
      DumpIsExact(device, image1, 0, []);
      var r := Pump(FromDevice, device, image1, |d|, 0, []);
      if r.res == 0 {
        assert d[0..] == d && [] + d == d;
        PsvOrNot(job, ones, Fips.Sha256(d), |d|);
        if job.format == Psv {
          HashIsPatched(job, ones, Fips.Sha256(d), d, r.to);
        }
      }
    }
  }

  lemma PsvOrNot(job: Job, a: Secret, b: Secret, size: nat)
    ensures job.format == Psv ==>
      Header(job, a, size) == PsvHeader(job, a, size) && Header(job, b, size) == PsvHeader(job, b, size)
    ensures job.format != Psv ==> Header(job, a, size) == Header(job, b, size)
  {
    hide PsvHeader, VciHeader;
  }

  /** What a reader finds in a PSV image: the fields at their places, the data where image_offset says, in sectors of
    * 0x200 bytes, as much of it as image_size says, and the SHA-256 of that data.
    */
  lemma PsvReadsBack(job: Job, data: bytes)
    requires job.format == Psv && |data| < 0x2000_0000_0000_0000
    ensures var image := ImageOf(job, data);
      && image[..4] == [0x50, 0x53, 0x56, 0x00]
      && Number(image[4..8]) == 1 && Number(image[8..0xC]) == 0
      && image[0xC..0x2C] == job.secret && image[0x2C..0x40] == job.sha1
      && Number(image[0x60..0x68]) == |data|
      && Number(image[0x68..0x70]) == 1 && image[0x70..0x200] == Zeros(0x190) && image[0x200..] == data
      && image[0x40..0x60] == Fips.Sha256(image[0x200..])
  {
    hide Le64, Fips.Sha256, Number;
    FieldReadsBack(|data|);
    FieldReadsBack(1);
    SmallFields();
    FieldsOfPsv(job, Fips.Sha256(data), data);
  }

  lemma SmallFields()
    ensures Number([0x1, 0x0, 0x0, 0x0]) == 1 && Number([0x0, 0x0, 0x0, 0x0]) == 0
    ensures Number([0x1, 0x0]) == 1 && Number([0x0, 0x0]) == 0
  {
    var a: bytes := [0x1, 0x0, 0x0, 0x0];
    var b: bytes := [0x0, 0x0, 0x0, 0x0];
    assert a[1..] == b[1..] == [0x0, 0x0, 0x0] && a[1..][1..] == [0x0, 0x0] && a[1..][1..][1..] == [0x0];
    assert Number([0x0]) == 0 && Number([0x0, 0x0]) == 0 && Number([0x0, 0x0, 0x0]) == 0;
    var c: bytes := [0x1, 0x0];
    assert c[1..] == [0x0];
  }

  lemma FieldsOfPsv(job: Job, hash: Secret, data: bytes)
    ensures var image := PsvHeader(job, hash, |data|) + data;
      && image[..4] == [0x50, 0x53, 0x56, 0x00]
      && image[4..8] == [0x1, 0x0, 0x0, 0x0] && image[8..0xC] == [0x0, 0x0, 0x0, 0x0]
      && image[0xC..0x2C] == job.secret && image[0x2C..0x40] == job.sha1
      && image[0x40..0x60] == hash && image[0x60..0x68] == Le64(|data|) && image[0x68..0x70] == Le64(1)
      && image[0x70..0x200] == Zeros(0x190) && image[0x200..] == data
  {
    hide Le64;
  }

  /** And in a VCI image. */
  lemma VciReadsBack(job: Job, data: bytes)
    requires job.format == Vci && |data| < 0x2000_0000_0000_0000
    ensures var image := ImageOf(job, data);
      && image[..4] == [0x56, 0x43, 0x49, 0x00]
      && Number(image[4..6]) == 1 && Number(image[6..8]) == 0
      && Number(image[8..0x10]) == |data|
      && image[0x10..0x30] == job.packet20Key && image[0x30..0x50] == job.packet18Key
      && image[0x50..0x200] == Zeros(0x1B0) && image[0x200..] == data
  {
    hide Le64, Fips.Sha256, Number;
    FieldReadsBack(|data|);
    SmallFields();
    FieldsOfVci(job, data);
  }

  lemma FieldsOfVci(job: Job, data: bytes)
    ensures var image := VciHeader(job, |data|) + data;
      && image[..4] == [0x56, 0x43, 0x49, 0x00]
      && image[4..6] == [0x1, 0x0] && image[6..8] == [0x0, 0x0]
      && image[8..0x10] == Le64(|data|)
      && image[0x10..0x30] == job.packet20Key && image[0x30..0x50] == job.packet18Key
      && image[0x50..0x200] == Zeros(0x1B0) && image[0x200..] == data
  {
    hide Le64;
  }

  /** A raw image is the data. */
  lemma RawReadsBack(job: Job, data: bytes)
    requires job.format == Raw && |data| < 0x2000_0000_0000_0000
    ensures ImageOf(job, data) == data
  {
    hide Fips.Sha256;
  }

  /** A device that is not empty is dumped with success if every transfer goes as far as it can. */
  lemma DumpWorks(job: Job, device: Chan, image: Chan)
    requires Dumpable(device, image) && device.content != [] && device.Smooth() && image.Smooth()
    ensures DumpPhys(job, device, image).0 == 0
  {
    hide Header, PsvHeader, Finalize, Pump;
    var d, ones := device.content, Filled(0x20, 0xFF);
    var header := Header(job, ones, |d|);
    HeaderIsPut(image, header);
    StaysSmooth(image);
    MovesAll(image, header);
    var image1 := PutHeader(image, header).1;
    DumpSucceeds(device, image1, []);
    var r := Pump(FromDevice, device, image1, |d|, 0, []);
    DumpIsExact(device, image1, 0, []);
    PumpKeepsSmooth(FromDevice, device, image1, |d|, 0, []);
    if job.format == Psv {
      assert d[0..] == d && [] + d == d;
      PsvOrNot(job, ones, Fips.Sha256(d), |d|);
      HashIsPatched(job, ones, Fips.Sha256(d), d, r.to);
    }
  }

  lemma {:induction false} PumpKeepsSmooth(reader: Reader, from: Chan, to: Chan, toRead: nat, total: nat, hashed: bytes)
    requires from.Valid() && to.Valid() && to.Smooth()
    ensures Pump(reader, from, to, toRead, total, hashed).to.Smooth()
    decreases if total < toRead then toRead - total else 0
  {
    hide ReadBy, WriteTo;
    StaysSmooth(to);
    var (rd, data, from') := ReadBy(reader, from);
    if rd > 0 {
      MovesAll(to, data);
      var (wr, to') := WriteTo(to, data);
      if wr > 0 && total + wr < toRead {
        PumpKeepsSmooth(reader, from', to', toRead, total + wr, hashed + data);
      }
    }
  }

  /** An empty device cannot be dumped, and neither can one that was not opened, although nobody checks that. The result
    * is the descriptor of an image file that was not opened, or else says what became of the header, or else of the
    * first read, which moves nothing.
    */
  lemma NothingToDump(job: Job, device: Chan, image: Chan)
    requires Dumpable(device, image) && (device.content == [] || device.fd < 0)
    ensures var wr := if job.format == Raw then 0x200 else image.Allowed(0x200);
      var rd := device.Allowed(0x20000);
      var res := DumpPhys(job, device, image).0;
      && res < 0
      && res == (if image.fd < 0 then image.fd
                 else if wr < 0 then wr else if wr == 0 then -9584 else if wr != 0x200 then -9585
                 else if rd < 0 then rd else -9584)
  {
    hide Header, Finalize;
    if image.fd >= 0 {
      var header := Header(job, Filled(0x20, 0xFF), |device.content|);
      HeaderIsPut(image, header);
      HeaderSize(job, Filled(0x20, 0xFF), |device.content|);
      var (h, image1) := PutHeader(image, header);
      assert ReadBy(FromDevice, device).0 <= 0;
    }
  }

  lemma HeaderSize(job: Job, hash: Secret, size: nat)
    ensures |Header(job, hash, size)| == if job.format == Raw then 0 else 0x200
    ensures job.format == Raw ==> Header(job, hash, size) == []
  {
    hide PsvHeader, VciHeader;
  }

  // ----- restore and wipe -----

  ghost predicate Overwritable(device: Chan) {
    device.Valid() && device.pos == 0 && !device.grows
  }

  /** restore_device, with the result of both opens. When the device cannot be opened it is the descriptor of the image
    * that is returned.
    */
  function RestoreDevice(image: Chan, device: Chan): (int, Chan)
    requires image.Valid() && device.Valid()
  {
    if |device.content| < |image.content| then (SIZE_NO_SPACE, device)
    else if image.fd < 0 then (image.fd, device)
    else if device.fd < 0 then (image.fd, device)
    else
      var r := Pump(FromImage, image, device, |device.content|, 0, []);
      (r.res, r.to)
  }

  ghost predicate Restores(image: Chan, device: Chan, content: bytes)
    requires image.Valid() && device.Valid() && |content| == |image.content| <= |device.content|
  {
    RestoreDevice(image.(content := content), device).1.content == Restored(content, |device.content|)
  }

  /** Every image of this length would be restored. */
  ghost predicate RestoresAll(image: Chan, device: Chan)
    requires image.Valid() && device.Valid() && |image.content| <= |device.content|
  {
    forall content: bytes | |content| == |image.content| :: Restores(image, device, content)
  }

  /** With both sides opened and an image that fits, a restore that reports success is exact for every image of that
    * length if and only if it ran in step; and a restore in step reports success.
    */
  lemma RestoredExactly(image: Chan, device: Chan)
    requires image.Valid() && image.pos == 0 && Overwritable(device)
    requires image.fd >= 0 && device.fd >= 0 && |image.content| <= |device.content|
    ensures InStep(image, device) <==> RestoreDevice(image, device).0 == 0 && RestoresAll(image, device)
  {
    hide Pump, InStep, Restored;
    if InStep(image, device) {
      forall content: bytes | |content| == |image.content|
        ensures Restores(image, device, content) && RestoreDevice(image, device).0 == 0
      {
        InStepRestoresIt(image, device, content);
      }
      assert Restores(image, device, image.content);
    } else if RestoreDevice(image, device).0 == 0 {
      var q := FirstLost(image, device, []);
      assert Loses(image, device, [], q);
      MarkKept(|image.content|, q, |device.content|);
      assert !Restores(image, device, Marked(|image.content|, q));
    }
  }

  lemma InStepRestoresIt(image: Chan, device: Chan, content: bytes)
    requires image.Valid() && image.pos == 0 && Overwritable(device) && InStep(image, device)
    requires image.fd >= 0 && device.fd >= 0 && |content| == |image.content| <= |device.content|
    ensures Restores(image, device, content) && RestoreDevice(image, device).0 == 0
  {
    hide Pump, InStep;
    var other := image.(content := content);
    AlikeRuns(image, device, other, device, [], []);
    assert device.content[..0] == Restored(content, |device.content|)[..0];
    InStepRestores(other, device, []);
  }

  lemma MarkKept(n: nat, q: nat, size: nat)
    requires q < n <= size
    ensures Restored(Marked(n, q), size)[q] == 1
  {
  }

  /** What restore_device does: nothing if the image does not fit or one side was not opened, and then the result is the
    * descriptor of the image even if it was the device; otherwise a result of 0 means the device holds the image,
    * followed by zeros, if the run was in step, and says nothing for some image of that length if it was not.
    */
  lemma RestoredDevice(image: Chan, device: Chan)
    requires image.Valid() && image.pos == 0 && Overwritable(device)
    ensures var (res, device') := RestoreDevice(image, device);
      if |image.content| > |device.content| then res == -9686 && device' == device
      else if image.fd < 0 || device.fd < 0 then res == image.fd && device' == device
      else
        && res <= 0
        && (InStep(image, device) ==> res == 0 && device'.content == Restored(image.content, |device.content|))
        && (res == 0 && !InStep(image, device) ==>
              exists content: bytes :: |content| == |image.content| && !Restores(image, device, content))
  {
    hide Pump, InStep, Restored;
    if image.fd >= 0 && device.fd >= 0 && |image.content| <= |device.content| {
      NeverPositive(FromImage, image, device, |device.content|, 0, []);
      RestoredExactly(image, device);
      if InStep(image, device) {
        assert Restores(image, device, image.content);
      }
    }
  }

  lemma {:induction false} NeverPositive(reader: Reader, from: Chan, to: Chan, toRead: nat, total: nat, hashed: bytes)
    requires from.Valid() && to.Valid()
    ensures Pump(reader, from, to, toRead, total, hashed).res <= 0
    decreases if total < toRead then toRead - total else 0
  {
    hide ReadBy, WriteTo;
    var (rd, data, from') := ReadBy(reader, from);
    if rd > 0 {
      var (wr, to') := WriteTo(to, data);
      if wr > 0 && total + wr < toRead {
        NeverPositive(reader, from', to', toRead, total + wr, hashed + data);
      }
    }
  }

  /** Transfers that go as far as they can are in step, so such a restore is exact. */
  lemma RestoreWorks(image: Chan, device: Chan)
    requires image.Valid() && image.pos == 0 && image.Smooth() && Overwritable(device) && device.content != []
    requires device.fd >= 0 ==> device.Smooth()
    ensures var (res, device') := RestoreDevice(image, device);
      && (res >= 0 <==> |image.content| <= |device.content|)
      && device'.content ==
         if |image.content| <= |device.content| && device.fd >= 0
         then Restored(image.content, |device.content|) else device.content
  {
    hide Pump, InStep, Restored;
    if |image.content| <= |device.content| && device.fd >= 0 {
      SmoothInStep(image, device);
    }
    RestoredDevice(image, device);
  }

  /** A first read that is short before the end of the image goes unnoticed: the chunk is filled up with zeros, the
    * result is 0, and some image of that length is not restored.
    */
  lemma ShortReadSpoils(image: Chan, device: Chan, k: nat)
    requires image.Valid() && image.pos == 0 && image.fd >= 0 && Overwritable(device) && device.Smooth()
    requires |image.content| <= |device.content| && image.plan == [k] && k < |image.content| && k < CHUNK
    ensures RestoreDevice(image, device).0 == 0 && !InStep(image, device) && !RestoresAll(image, device)
  {
    hide Pump;
    StaysSmooth(device);
    RestoreSucceeds(image, device, []);
    assert ReadBy(FromImage, image).2.pos == k;
    assert !InStep(image, device);
    RestoredExactly(image, device);
  }

  /** So does a first write that is short before the end of the image. */
  lemma ShortWriteSpoils(image: Chan, device: Chan, k: nat)
    requires image.Valid() && image.pos == 0 && image.Smooth() && Overwritable(device) && device.fd >= 0
    requires |image.content| <= |device.content| && device.plan == [k] && 0 < k < |image.content| && k < CHUNK
    ensures RestoreDevice(image, device).0 == 0 && !InStep(image, device) && !RestoresAll(image, device)
  {
    hide Pump;
    StaysSmooth(image);
    RestoreSucceeds(image, device, []);
    assert ReadBy(FromImage, image).2.pos == Min(CHUNK, |image.content|);
    assert WriteTo(device, ReadBy(FromImage, image).1).1.pos == k;
    assert !InStep(image, device);
    RestoredExactly(image, device);
  }

  /** A first read and a first write that are cut at the same byte do no harm. */
  lemma CutTogether(image: Chan, device: Chan, k: nat)
    requires image.Valid() && image.pos == 0 && image.fd >= 0 && Overwritable(device) && device.fd >= 0
    requires |image.content| <= |device.content| && image.plan == [k] && device.plan == [k]
    requires 0 < k < |device.content| && k <= CHUNK
    ensures InStep(image, device)
  {
    var (rd, data, image') := ReadBy(FromImage, image);
    var (wr, device') := WriteTo(device, data);
    assert wr == k && image'.pos == Min(k, |image.content|) && device'.pos == k;
    Overwrites(device, data);
    SmoothInStep(image', device');
  }

  /** The device after a short read and after a short write of the same small image. */
  lemma ShortReadGoesUnnoticed()
    ensures var image := Chan([0x1, 0x2], 0, [1], 3, false);
      var device := Chan([0x9, 0x9], 0, [], 4, false);
      var (res, device') := RestoreDevice(image, device);
      res == 0 && device'.content == [0x1, 0x0] && Restored(image.content, 2) == [0x1, 0x2]
  {
    var image := Chan([0x1, 0x2], 0, [1], 3, false);
    var device := Chan([0x9, 0x9], 0, [], 4, false);
    var (rd, data, image') := ReadBy(FromImage, image);
    assert image.content[0..1] == [0x1];
    assert rd == CHUNK && data == [0x1] + Zeros(CHUNK - 1);
    assert data[..2] == [0x1, 0x0];
    assert WriteTo(device, data).0 == 2 && WriteTo(device, data).1.content == [0x1, 0x0];
    assert Restored(image.content, 2) == [0x1, 0x2];
  }

  lemma ShortWriteGoesUnnoticed()
    ensures var image := Chan([0x1, 0x2], 0, [], 3, false);
      var device := Chan([0x9, 0x9], 0, [1], 4, false);
      var (res, device') := RestoreDevice(image, device);
      res == 0 && device'.content == [0x1, 0x0] && Restored(image.content, 2) == [0x1, 0x2]
  {
    var image := Chan([0x1, 0x2], 0, [], 3, false);
    var device := Chan([0x9, 0x9], 0, [1], 4, false);
    var (rd, data, image') := ReadBy(FromImage, image);
    assert image.content[0..2] == [0x1, 0x2];
    assert rd == CHUNK && data == [0x1, 0x2] + Zeros(CHUNK - 2) && data[..1] == [0x1];
    var (wr, device') := WriteTo(device, data);
    assert wr == 1 && device'.content == [0x1, 0x9] && device' == Chan([0x1, 0x9], 1, [], 4, false);
    var (rd2, data2, image2) := ReadBy(FromImage, image');
    assert rd2 == CHUNK && data2 == Zeros(CHUNK) && data2[..1] == [0x0];
    assert WriteTo(device', data2).0 == 1 && WriteTo(device', data2).1.content == [0x1, 0x0];
    assert Restored(image.content, 2) == [0x1, 0x2];
  }

  /** wipe_device; the read side is not used. */
  function WipeDevice(unused: Chan, device: Chan): (int, Chan)
    requires unused.Valid() && device.Valid()
  {
    if device.fd < 0 then (device.fd, device) else
      var r := Pump(Nothing, unused, device, |device.content|, 0, []);
      (r.res, r.to)
  }

  /** Wiping that reports success leaves zeros and nothing else. */
  lemma WipedDevice(unused: Chan, device: Chan)
    requires unused.Valid() && Overwritable(device)
    ensures var (res, device') := WipeDevice(unused, device);
      && res <= 0 && (res == 0 ==> device'.content == Zeros(|device.content|))
      && (device.Smooth() && device.content != [] ==> res == 0)
  {
    hide Pump;
    assert device.content[..0] == Zeros(0);
    WipeIsComplete(unused, device, []);
  }

  /** A raw dump and a restore in step onto a device of the same size bring back the contents. */
  lemma DumpThenRestore(job: Job, source: Chan, file: Chan, image: Chan, device: Chan)
    requires job.format == Raw && Dumpable(source, file) && DumpPhys(job, source, file).0 == 0
    requires image.Valid() && image.pos == 0 && image.content == DumpPhys(job, source, file).1.content
    requires Overwritable(device) && |device.content| == |source.content|
    requires image.fd >= 0 && device.fd >= 0 && InStep(image, device)
    ensures var (res, device') := RestoreDevice(image, device); res == 0 && device'.content == source.content
  {
    hide DumpPhys, Pump, InStep;
    DumpedImage(job, source, file);
    assert image.content == source.content;
    RestoredDevice(image, device);
    assert Restored(source.content, |source.content|) == source.content;
  }

  /** In particular if every transfer of the restore goes as far as it can. */
  lemma DumpThenSmoothRestore(job: Job, source: Chan, file: Chan, image: Chan, device: Chan)
    requires job.format == Raw && Dumpable(source, file) && DumpPhys(job, source, file).0 == 0
    requires image.Valid() && image.pos == 0 && image.Smooth() && image.content == DumpPhys(job, source, file).1.content
    requires Overwritable(device) && device.Smooth() && |device.content| == |source.content|
    ensures var (res, device') := RestoreDevice(image, device); res == 0 && device'.content == source.content
  {
    hide DumpPhys, Pump, InStep;
    DumpedImage(job, source, file);
    assert image.content == source.content;
    if source.content == [] {
      NothingToDump(job, source, file);
    } else {
      SmoothInStep(image, device);
      DumpThenRestore(job, source, file, image, device);
    }
  }
}
