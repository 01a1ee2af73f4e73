/** The copy engine of device.c in its own form: handles that move as they are used, one buffer, a state with a running
  * total and a hash context, and the loop that every dump, restore and wipe goes through.
  */
module Device {
  import opened Bytes
  import opened Transfer
  import opened Images
  import Fips = Fips180
  import Sha256

  /** A file or a device behind a descriptor. */
  class Handle {
    var content: bytes
    var pos: nat
    var plan: seq<int>
    const fd: int
    const grows: bool

    function View(): Chan
      reads this
    {
      Chan(content, pos, plan, fd, grows)
    }

    constructor (c: Chan)
      ensures View() == c
    {
      content, pos, plan, fd, grows := c.content, c.pos, c.plan, c.fd, c.grows;
    }

    method Become(c: Chan)
      requires c.fd == fd && c.grows == grows
      modifies this
      ensures View() == c
    {
      content, pos, plan := c.content, c.pos, c.plan;
    }

    /** sceIoRead and kReadDevice. */
    method Read(data: array<bv8>, n: nat) returns (rd: int)
      requires View().Valid() && n <= data.Length
      modifies this, data
      ensures var (r, d, c) := ReadFrom(old(View()), n);
        rd == r && View() == c && data[..] == Splice(old(data[..]), 0, d)
    {
      hide Splice;
      var (r, d, c) := ReadFrom(View(), n);
      Copy(data, 0, d);
      Become(c);
      return r;
    }

    /** sceIoWrite and kWriteDevice. */
    method Write(data: array<bv8>, n: nat) returns (wr: int)
      requires View().Valid() && n <= data.Length
      modifies this
      ensures (wr, View()) == WriteTo(old(View()), data[..n])
    {
      var (r, c) := WriteTo(View(), data[..n]);
      Become(c);
      return r;
    }

    /** sceIoLseek from the start. */
    method Seek(offset: nat) returns (at: int)
      requires View().Valid() && offset <= |content|
      modifies this
      ensures (at, View()) == SeekTo(old(View()), offset)
    {
      var (a, c) := SeekTo(View(), offset);
      Become(c);
      return a;
    }
  }

  /** read_null. */
  method ReadNull(data: array<bv8>, size: nat) returns (rd: int)
    requires size == data.Length
    modifies data
    ensures rd == size && data[..] == Zeros(size)
  {
    Fill(data, 0, size, 0x00);
    assert data[..] == Zeros(size);
    return size;
  }

  /** read_data_from_image. */
  method ReadDataFromImage(image: Handle, data: array<bv8>, size: nat) returns (rd: int)
    requires image.View().Valid() && size == data.Length
    modifies image, data
    ensures var (r, d, c) := ReadFrom(old(image.View()), size);
      && image.View() == c
      && rd == (if r < 0 then r else size)
      && (r >= 0 ==> data[..] == d + Zeros(size - |d|))
  {
    hide ReadFrom;
    rd := image.Read(data, size);
    if rd < 0 {
      return rd;
    }
    if rd < size {
      Fill(data, rd, size - rd, 0x00);
    }
    assert |data[..]| == size;
    return size;
  }

  // ----- headers -----

  lemma NextField(n: nat, p: bytes, q: bytes)
    requires |p| + |q| <= n
    ensures Splice(Splice(Zeros(n), 0, p), |p|, q) == Splice(Zeros(n), 0, p + q)
  {
    SpliceNext(Zeros(n), 0, p, q);
  }

  lemma LastField(n: nat, p: bytes)
    requires |p| <= n
    ensures Splice(Zeros(n), 0, p) == p + Zeros(n - |p|)
  {
  }

  /** The structure that create_psv_header fills. */
  method BuildPsv(job: Job, size: nat) returns (psv: array<bv8>)
    ensures fresh(psv) && psv[..] == PsvHeader(job, Filled(0x20, 0xFF), size)
  {
    hide Splice, Le64;
    psv := new bv8[0x200](_ => 0);
    assert psv[..] == Zeros(0x200) == Splice(Zeros(0x200), 0, []) by { LastField(0x200, []); }
    ghost var h: bytes := PSV_MAGIC;
    Copy(psv, 0, PSV_MAGIC);
    NextField(0x200, [], h);
    Copy(psv, 4, [0x1, 0x0, 0x0, 0x0]);
    NextField(0x200, h, [0x1, 0x0, 0x0, 0x0]);
    h := h + [0x1, 0x0, 0x0, 0x0];
    Copy(psv, 8, [0x0, 0x0, 0x0, 0x0]);
    NextField(0x200, h, [0x0, 0x0, 0x0, 0x0]);
    h := h + [0x0, 0x0, 0x0, 0x0];
    Copy(psv, 0xC, job.secret);
    NextField(0x200, h, job.secret);
    h := h + job.secret;
    Copy(psv, 0x2C, job.sha1);
    NextField(0x200, h, job.sha1);
    h := h + job.sha1;
    Fill(psv, 0x40, 0x20, 0xFF);
    NextField(0x200, h, Filled(0x20, 0xFF));
    h := h + Filled(0x20, 0xFF);
    Copy(psv, 0x60, Le64(size));
    NextField(0x200, h, Le64(size));
    h := h + Le64(size);
    Copy(psv, 0x68, Le64(1));
    NextField(0x200, h, Le64(1));
    h := h + Le64(1);
    LastField(0x200, h);
  }

  /** The structure that create_vci_header fills. */
  method BuildVci(job: Job, size: nat) returns (vci: array<bv8>)
    ensures fresh(vci) && vci[..] == VciHeader(job, size)
  {
    hide Splice, Le64;
    vci := new bv8[0x200](_ => 0);
    assert vci[..] == Zeros(0x200) == Splice(Zeros(0x200), 0, []) by { LastField(0x200, []); }
    ghost var h: bytes := VCI_MAGIC;
    Copy(vci, 0, VCI_MAGIC);
    NextField(0x200, [], h);
    Copy(vci, 4, [0x1, 0x0]);
    NextField(0x200, h, [0x1, 0x0]);
    h := h + [0x1, 0x0];
    Copy(vci, 6, [0x0, 0x0]);
    NextField(0x200, h, [0x0, 0x0]);
    h := h + [0x0, 0x0];
    Copy(vci, 8, Le64(size));
    NextField(0x200, h, Le64(size));
    h := h + Le64(size);
    ghost var keys := job.packet20Key + job.packet18Key;
    Copy(vci, 0x10, job.packet20Key + job.packet18Key);
    NextField(0x200, h, keys);
    h := h + keys;
    LastField(0x200, h);
  }

  // ----- the state of a transfer -----

  /** One pass of the loop. */
  lemma PumpStep(reader: Reader, from: Chan, to: Chan, toRead: nat, total: nat, hashed: bytes)
    requires from.Valid() && to.Valid()
    ensures var r := Pump(reader, from, to, toRead, total, hashed);
      var (rd, data, from') := ReadBy(reader, from);
      var (wr, to') := WriteTo(to, data);
      && (rd == 0 ==> r == Pumped(SIZE_IS_ZERO, from', to, total, hashed))
      && (rd < 0 ==> r == Pumped(rd, from', to, total, hashed))
      && (rd > 0 && wr == 0 ==> r == Pumped(SIZE_IS_ZERO, from', to', total, hashed + data))
      && (rd > 0 && wr < 0 ==> r == Pumped(wr, from', to', total, hashed + data))
      && (rd > 0 && wr > 0 && total + wr < toRead ==>
            r == Pump(reader, from', to', toRead, total + wr, hashed + data))
      && (rd > 0 && wr > 0 && total + wr >= toRead ==> r == Pumped(0, from', to', total + wr, hashed + data))
  {
    hide ReadBy, WriteTo;
  }

  class BackupState {
    const format: Format
    const deviceSize: nat
    const headerSize: nat
    const effectiveSize: nat
    const haveSha: bool
    const sha: Sha256.Ctx
    const rd: Handle
    const wr: Handle
    const buffer: array<bv8>
    var total: nat

    ghost predicate Ready()
      reads this, sha, sha.data, sha.state, rd, wr
    {
      && rd != wr && buffer.Length == CHUNK && sha.data != buffer
      && rd.View().Valid() && wr.View().Valid() && sha.Valid()
      && headerSize <= effectiveSize && effectiveSize - headerSize == deviceSize
    }

    /** setup_state, with the size the driver reports and what the opens that follow it return. */
    constructor (format: Format, deviceSize: nat, rd: Handle, wr: Handle)
      requires rd != wr && rd.View().Valid() && wr.View().Valid()
      ensures Ready() && total == 0 && this.deviceSize == deviceSize && this.format == format
      ensures headerSize == if format == Raw then 0 else 0x200
      ensures this.rd == rd && this.wr == wr && haveSha == (format == Psv) && sha.Message == []
      ensures fresh(sha) && fresh(sha.data) && fresh(sha.state) && fresh(buffer)
    {
      hide Sha256.Ctx.Valid, Handle.View, Chan.Valid;
      this.format, this.deviceSize, this.rd, this.wr, total := format, deviceSize, rd, wr, 0;
      var header := if format == Raw then 0 else 0x200;
      headerSize, effectiveSize, haveSha := header, deviceSize + header, format == Psv;
      buffer := new bv8[CHUNK];
      sha := new Sha256.Ctx();
      new;
      assert sha.Valid() && rd.View().Valid() && wr.View().Valid();
      assert effectiveSize - headerSize == deviceSize;
    }

    /** rd_func, for each of the functions that are passed. */
    method ReadChunk(reader: Reader) returns (n: int)
      requires Ready()
      modifies rd, buffer
      ensures Ready()
      ensures var (r, d, c) := ReadBy(reader, old(rd.View()));
        n == r && rd.View() == c && (n > 0 ==> buffer[..n] == d)
      ensures wr.View() == old(wr.View()) && sha.Message == old(sha.Message)
    {
      hide ReadFrom, Sha256.StateOf, Sha256.Wrap64, Fips.Blocks;
      match reader
      case FromDevice =>
        n := rd.Read(buffer, CHUNK);
      case FromImage =>
        n := ReadDataFromImage(rd, buffer, CHUNK);
        assert buffer[..CHUNK] == buffer[..];
      case Nothing =>
        n := ReadNull(buffer, CHUNK);
        assert buffer[..CHUNK] == buffer[..];
    }

    /** The first half of a pass: read, and hash what was read if need be. */
    method Fetch(reader: Reader, ghost hashed: bytes) returns (n: int)
      requires Ready() && (haveSha ==> sha.Message == hashed)
      modifies sha, sha.data, sha.state, rd, buffer
      ensures Ready()
      ensures var (r, d, c) := ReadBy(reader, old(rd.View()));
        && n == r && rd.View() == c && (n > 0 ==> buffer[..n] == d)
        && (haveSha ==> sha.Message == if n > 0 then hashed + d else hashed)
      ensures wr.View() == old(wr.View())
    {
      hide ReadBy, Sha256.StateOf, Sha256.Wrap64, Fips.Blocks;
      n := ReadChunk(reader);
      if haveSha && n > 0 {
        sha.Update(buffer, n);
      }
    }

    /** The body of the loop in device_access_loop; `hashed` is what the hash context stands for, if it is used. */
    method Pass(reader: Reader, ghost hashed: bytes) returns (done: bool, res: int, ghost hashed': bytes)
      requires Ready() && (haveSha ==> sha.Message == hashed)
      modifies this`total, sha, sha.data, sha.state, rd, wr, buffer
      ensures Ready() && (haveSha ==> sha.Message == hashed')
      ensures var r := Pump(reader, old(rd.View()), old(wr.View()), deviceSize, old(total), hashed);
        if done then r == Pumped(res, rd.View(), wr.View(), total, hashed')
        else old(total) < total < deviceSize
             && r == Pump(reader, rd.View(), wr.View(), deviceSize, total, hashed')
    {
      hide ReadBy, WriteTo, Pump, Sha256.StateOf, Sha256.Wrap64, Fips.Blocks;
      PumpStep(reader, rd.View(), wr.View(), deviceSize, total, hashed);
      hashed' := hashed;
      var n := Fetch(reader, hashed);
      if n == 0 { return true, SIZE_IS_ZERO, hashed; }
      if n < 0 { return true, n, hashed; }
      hashed' := hashed + buffer[..n];
      var w := wr.Write(buffer, n);
      if w == 0 { return true, SIZE_IS_ZERO, hashed'; }
      if w < 0 { return true, w, hashed'; }
      total := total + w;
      return !(total < effectiveSize - headerSize), 0, hashed';
    }

    /** device_access_loop. */
    method AccessLoop(reader: Reader) returns (res: int)
      requires Ready()
      modifies this`total, sha, sha.data, sha.state, rd, wr, buffer
      ensures Ready()
      ensures var r := Pump(reader, old(rd.View()), old(wr.View()), deviceSize, old(total), old(sha.Message));
        && res == r.res && rd.View() == r.from && wr.View() == r.to && total == r.total
        && (haveSha ==> sha.Message == r.hashed)
    {
      hide Pump;
      ghost var r := Pump(reader, rd.View(), wr.View(), deviceSize, total, sha.Message);
      ghost var hashed := sha.Message;
      while true
        invariant Ready() && (haveSha ==> sha.Message == hashed)
        invariant r == Pump(reader, rd.View(), wr.View(), deviceSize, total, hashed)
        decreases if total < deviceSize then deviceSize - total else 0
      {
        var done;
        done, res, hashed := Pass(reader, hashed);
        if done { return res; }
      }
    }

    /** create_header. */
    method CreateHeader(job: Job) returns (res: int)
      requires Ready() && job.format == format
      modifies wr
      ensures Ready() && sha.Message == old(sha.Message) && rd.View() == old(rd.View())
      ensures (res, wr.View()) == PutHeader(old(wr.View()), Header(job, Filled(0x20, 0xFF), deviceSize))
    {
      hide PsvHeader, VciHeader, WriteTo, Sha256.StateOf, Sha256.Wrap64, Fips.Blocks;
      if format == Raw { return 0; }
      var header: array<bv8>;
      if format == Psv {
        header := BuildPsv(job, deviceSize);
      } else {
        header := BuildVci(job, deviceSize);
      }
      assert header[..0x200] == header[..];
      var w := wr.Write(header, 0x200);
      if w == 0 { return SIZE_IS_ZERO; }
      if w < 0 { return w; }
      if w != 0x200 { return SIZE_NOT_MATCH; }
      return 0;
    }

    /** finalize_psv_header, on the local side. */
    method FinalizePsvHeader() returns (res: int)
      requires Ready() && |sha.Message| < 0x2000_0000_0000_0000 && |wr.content| >= 0x200
      modifies sha, sha.data, sha.state, wr
      ensures (res, wr.View()) == Finalize(old(wr.View()), Fips.Sha256(old(sha.Message)))
    {
      hide WriteTo, Sha256.StateOf, Sha256.Wrap64, Fips.Blocks, Fips.Sha256;
      var digest := new bv8[0x20](_ => 0);
      ghost var was := digest[..];
      sha.Final(digest, 0);
      assert digest[..0x20] == Splice(was, 0, Fips.Sha256(old(sha.Message))) == Fips.Sha256(old(sha.Message));
      var at := wr.Seek(0x40);
      if at == 0x40 {
        var w := wr.Write(digest, 0x20);
        if w == 0 { return SIZE_IS_ZERO; }
        if w < 0 { return w; }
        if w != 0x20 { return SIZE_NOT_MATCH; }
        return 0;
      }
      return SIZE_NOT_MATCH;
    }

    /** The part of dump_device_phys that follows the header. */
    method CopyAndFinish() returns (res: int)
      requires Ready() && total == 0 && sha.Message == [] && haveSha == (format == Psv)
      requires Headed(format, rd.View(), wr.View()) && deviceSize == |rd.content|
      modifies this`total, sha, sha.data, sha.state, rd, wr, buffer
      ensures (res, wr.View()) == DumpData(format, old(rd.View()), old(wr.View()))
    {
      hide WriteTo, Pump, Finalize, Sha256.StateOf, Sha256.Wrap64, Fips.Blocks, Fips.Sha256;
      DumpIsExact(rd.View(), wr.View(), 0, []);
      res := AccessLoop(FromDevice);
      if res < 0 { return res; }
      if format == Psv {
        res := FinalizePsvHeader();
      }
    }
  }

  // ----- the drivers -----

  /** dump_device_phys, with the handles its two opens return; only the second is checked. */
  method DumpDevicePhys(job: Job, device: Handle, image: Handle) returns (res: int)
    requires device != image && Dumpable(device.View(), image.View())
    modifies device, image
    ensures (res, image.View()) == DumpPhys(job, old(device.View()), old(image.View()))
  {
    hide Header, WriteTo, PutHeader, DumpData, DumpPhys, Headed, Sha256.StateOf, Sha256.Wrap64, Fips.Blocks;
    DumpStages(job, device.View(), image.View());
    var state := new BackupState(job.format, |device.content|, device, image);
    if image.fd < 0 { return image.fd; }
    res := state.CreateHeader(job);
    if res < 0 { return res; }
    res := state.CopyAndFinish();
  }

  /** restore_device, with the handles its two opens return. */
  method RestoreDeviceFrom(image: Handle, device: Handle) returns (res: int)
    requires device != image && image.View().Valid() && device.View().Valid()
    modifies device, image
    ensures (res, device.View()) == RestoreDevice(old(image.View()), old(device.View()))
  {
    hide Pump, Sha256.StateOf, Sha256.Wrap64, Fips.Blocks;
    var state := new BackupState(Raw, |device.content|, image, device);
    if state.effectiveSize < |image.content| { return SIZE_NO_SPACE; }
    if image.fd < 0 { return image.fd; }
    if device.fd < 0 { return image.fd; }
    res := state.AccessLoop(FromImage);
  }

  /** wipe_device; the descriptor of the read side stays 0. */
  method WipeDeviceOf(unused: Handle, device: Handle) returns (res: int)
    requires device != unused && unused.View().Valid() && device.View().Valid()
    modifies device, unused
    ensures (res, device.View()) == WipeDevice(old(unused.View()), old(device.View()))
  {
    hide Pump, Sha256.StateOf, Sha256.Wrap64, Fips.Blocks;
    var state := new BackupState(Raw, |device.content|, unused, device);
    if device.fd < 0 { return device.fd; }
    res := state.AccessLoop(Nothing);
  }
}
