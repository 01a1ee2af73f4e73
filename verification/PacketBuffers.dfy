/** The two packet structures as buffers that are filled in place (cmd56.c). */
module PacketBuffers {
  import opened Bytes
  import Fips = Fips197
  import Cbc
  import opened Cmd56
  import opened Cmd56Sm
  import Rng

  method EncryptZeroIv(w: Fips.RoundKeys, buf: array<bv8>, n: nat)
    requires n <= buf.Length && n % 16 == 0
    modifies buf
    ensures buf[..] == Splice(old(buf[..]), 0, Seal(w, old(buf[..])[..n]))
  {
    hide Cbc.Encrypt, Splice;
    assert buf[..][0..n] == buf[..][..n];
    Cbc.EncryptBuffer(w, buf, 0, n, null);
  }

  method DecryptZeroIv(w: Fips.RoundKeys, buf: array<bv8>, n: nat)
    requires n <= buf.Length && n % 16 == 0
    modifies buf
    ensures buf[..] == Splice(old(buf[..]), 0, Open(w, old(buf[..])[..n]))
  {
    hide Cbc.Decrypt, Splice;
    assert buf[..][0..n] == buf[..][..n];
    Cbc.DecryptBuffer(w, buf, 0, n, null);
  }

  class RequestBuffer {
    var magic: Bytes32
    var expectedResponseCode: nat
    var requestSize: nat
    var expectedResponseSize: nat
    var command: bv8
    var additionalDataSize: nat
    const data: array<bv8>

    constructor ()
      ensures data.Length == 0x1d1 && fresh(data)
      ensures View() == Request(Zeros(0x20), 0, 0, 0, 0, 0, Zeros(0x1d1))
    {
      magic, expectedResponseCode, requestSize, expectedResponseSize := Zeros(0x20), 0, 0, 0;
      command, additionalDataSize := 0, 0;
      data := new bv8[0x1d1](_ => 0);
      new;
      assert data[..] == Zeros(0x1d1);
    }

    function View(): Request
      requires data.Length == 0x1d1
      reads this, data
    {
      Request(magic, expectedResponseCode, requestSize, expectedResponseSize, command, additionalDataSize, data[..])
    }

    /** cmd56_request_start. */
    method Start(cmd: bv8, additional: nat, expectedSize: nat, expectedCode: nat)
      requires data.Length == 0x1d1
      modifies this, data
      ensures View() == RequestStart(cmd, additional, expectedSize, expectedCode)
    {
      Fill(data, 0, 0x1d1, 0x00);
      WholeData(old(data[..]), 0x1d1);
      magic := CMD56_MAGIC;
      command := cmd;
      expectedResponseCode := expectedCode;
      expectedResponseSize := expectedSize;
      additionalDataSize := additional;
      requestSize := additional;
    }
  }

  lemma WholeData(s: bytes, n: nat)
    requires |s| == n
    ensures Splice(s, 0, seq(n, _ => 0x00)) == Zeros(n)
  {
  }

  class ResponseBuffer {
    var responseCode: nat
    var additionalDataSize: nat
    var responseSize: nat
    var errorCode: bv8
    const data: array<bv8>

    constructor ()
      ensures data.Length == 0x1f5 && fresh(data)
      ensures View() == Response(0, 0, 0, 0, Zeros(0x1f5))
    {
      responseCode, additionalDataSize, responseSize, errorCode := 0, 0, 0, 0;
      data := new bv8[0x1f5](_ => 0);
      new;
      assert data[..] == Zeros(0x1f5);
    }

    function View(): Response
      requires data.Length == 0x1f5
      reads this, data
    {
      Response(responseCode, additionalDataSize, responseSize, errorCode, data[..])
    }

    /** recv: the whole structure is overwritten. */
    method Receive(r: Response)
      requires data.Length == 0x1f5
      modifies this, data
      ensures View() == r
    {
      responseCode, additionalDataSize := r.responseCode, r.additionalDataSize;
      responseSize, errorCode := r.responseSize, r.errorCode;
      Copy(data, 0, r.data);
      WholeOutput(old(data[..]), r.data);
    }

    /** cmd56_response_start. */
    method Start(request: RequestBuffer)
      requires data.Length == 0x1f5 && request.data.Length == 0x1d1 && request.data != data
      modifies this, data
      ensures View() == ResponseStart(old(request.View()))
      ensures request.View() == old(request.View())
    {
      Fill(data, 0, 0x1f5, 0x00);
      WholeData(old(data[..]), 0x1f5);
      responseCode := request.expectedResponseCode;
      additionalDataSize := 0;
      responseSize := SwapNumber(if request.expectedResponseSize > 0x200 then 0x200 else request.expectedResponseSize);
      errorCode := 0;
    }

    /** cmd56_response_error. */
    method Error(error: bv8)
      requires data.Length == 0x1f5 && SizeFits(View())
      modifies this, data
      ensures View() == ResponseError(old(View()), error)
    {
      errorCode := error;
      responseCode := error as nat;
      var size := SwapNumber(responseSize);
      Fill(data, 0, size, 0xFF);
    }
  }

  /** No two of the arrays that one side of the protocol works on are the same. */
  ghost predicate Apart(request: RequestBuffer, response: ResponseBuffer, rng: Rng.RandState) {
    && request.data.Length == 0x1d1 && response.data.Length == 0x1f5 && rng.state.Length == 0x10
    && request.data != response.data && rng.state != request.data && rng.state != response.data
  }
}
