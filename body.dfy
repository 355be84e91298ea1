/** Response bodies: the backend's stream as the transport hands it over, and
    `closingBuffer`, the in-memory body installed after a rewrite. */
module Bodies {
  import opened Base

  /** The backend response body: bytes not yet read, whether the connection
      fails before the end is reached, and how often it has been closed. */
  class Stream {
    var unread: seq<byte>
    const fault: bool
    var closes: nat

    constructor (data: seq<byte>, fault: bool)
      ensures unread == data && this.fault == fault && closes == 0
    {
      unread := data;
      this.fault := fault;
      closes := 0;
    }

    /** `ioutil.ReadAll` on the stream: all remaining bytes, or the read error. */
    method ReadAll() returns (r: Result<seq<byte>>)
      modifies this
      ensures r == if fault then Err(ReadFailed) else Ok(old(unread))
      ensures unread == [] && closes == old(closes)
    {
      r := if fault then Err(ReadFailed) else Ok(unread);
      unread := [];
    }

    /** Releases the connection. */
    method Close()
      modifies this
      ensures closes == old(closes) + 1 && unread == old(unread)
    {
      closes := closes + 1;
    }
  }

  /** `closingBuffer`: a `bytes.Buffer` whose `Close` does nothing. */
  class ClosingBuffer {
    var buf: seq<byte>

    /** `newClosingBuffer`: a buffer that will yield exactly `data`. */
    constructor (data: seq<byte>)
      ensures buf == data
    {
      buf := data;
    }

    /** `bytes.Buffer.Read`: copies as many unread bytes as fit into `p` and
        drops them from the buffer; an empty buffer reports end of stream,
        unless `p` has no room at all. */
    method Read(p: array<byte>) returns (n: nat, eof: bool)
      modifies this, p
      ensures n == if |old(buf)| < p.Length then |old(buf)| else p.Length
      ensures eof <==> old(buf) == [] && p.Length > 0
      ensures p[..n] == old(buf)[..n] && p[n..] == old(p[n..])
      ensures buf == old(buf)[n..]
    {
      var data := buf;
      n := if |data| < p.Length then |data| else p.Length;
      eof := data == [] && p.Length > 0;
      for i := 0 to n
        modifies p
        invariant forall j :: 0 <= j < i ==> p[j] == data[j]
        invariant forall j :: i <= j < p.Length ==> p[j] == old(p[j])
      {
        p[i] := data[i];
      }
      buf := data[n..];
    }

    /** `closingBuffer.Close`: nothing to release, never fails. */
    method Close() returns (err: Option<Error>)
      ensures err == None
    {
      err := None;
    }
  }

  /** `resp.Body`, an `io.ReadCloser`: either the backend stream or a buffer. */
  datatype Body = Backend(stream: Stream) | Buffered(buffer: ClosingBuffer)
  {
    function Objects(): set<object>
    {
      match this
      case Backend(s) => {s}
      case Buffered(b) => {b}
    }

    /** What reading this body to its end yields. */
    function Outcome(): Result<seq<byte>>
      reads Objects()
    {
      match this
      case Backend(s) => if s.fault then Err(ReadFailed) else Ok(s.unread)
      case Buffered(b) => Ok(b.buf)
    }
  }

  /** `ioutil.ReadAll(body)`: drains the body. */
  method ReadAll(body: Body) returns (r: Result<seq<byte>>)
    modifies body.Objects()
    ensures r == old(body.Outcome())
    ensures body.Backend? ==> body.stream.unread == [] && body.stream.closes == old(body.stream.closes)
    ensures body.Buffered? ==> body.buffer.buf == []
  {
    match body
    case Backend(s) =>
      r := s.ReadAll();
    case Buffered(b) =>
      r := Ok(b.buf);
      b.buf := [];
  }

  /** `body.Close()`: releases the connection once; a buffer is left as is. */
  method Close(body: Body)
    modifies body.Objects()
    ensures body.Backend? ==>
      body.stream.closes == old(body.stream.closes) + 1 && body.stream.unread == old(body.stream.unread)
    ensures body.Buffered? ==> body.buffer.buf == old(body.buffer.buf)
  {
    match body
    case Backend(s) =>
      s.Close();
    case Buffered(b) =>
      var _ := b.Close();
  }
}
