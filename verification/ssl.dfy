/** The Lua glue around the TLS engine: contexts, sessions, handshake
    negotiation and reads into a buffer.

    The engine itself is opaque. Each call into it is represented by the
    reply it gave, passed in as a parameter; the model states what the
    glue makes of every possible reply. */
module Ssl {
  import opened CTypes
  import opened Wrappers
  import opened Lua
  import Bufio

  /** The status codes handed back to Lua: SSL_ERROR, SSL_WANT_READ,
      SSL_WANT_WRITE and SSL_INSECURE. Their numeric values are defined by
      the engine's header ssl/ssl.h, which is not part of this model. */
  datatype Code = ErrorCode | WantReadCode | WantWriteCode | InsecureCode

  /** One reply of the engine: a non-negative result carrying a value, a
      negative retry signal, or SSL_ERROR together with the text the
      engine reports as its last error. */
  datatype Reply<T> = Done(value: T) | WantRead | WantWrite | Failed(reason: string)

  /** What a binding returns to Lua: a result; or a falsy first value, a
      status code and, for some codes, a message; or a raised Lua
      argument error. */
  datatype Outcome<T> =
    | Ok(value: T)
    | Err(code: Code, message: Option<string>)
    | ArgError(reason: string)

  /** A context: whether its engine handle is still held (non-NULL), and
      whether it was created for the server side. */
  datatype Context = Context(live: bool, isServer: bool)

  /** A session: whether its engine handle is still held, its role, and
      whether certificate verification failures are tolerated. */
  datatype Session = Session(live: bool, isServer: bool, insecure: bool)

  /** The engine entry point a handshake goes through. */
  datatype Handshake = Accept | Connect

  const CERT_VERIFY_FAIL: string := "SSL certificate verify fail"
  const BUFFER_FULL: string := "buffer is full"
  const READ_SIZE_INVALID: string := "must be greater than 0"

  /** `ssl.context(is_server)`: a fresh context whose role is the
      truthiness of the argument. `engineHandle` is whether the engine
      produced a context handle; the glue stores its result unchecked. */
  function ContextNew(isServer: LuaValue, engineHandle: bool): (c: Context)
    ensures c.live == engineHandle
    ensures c.isServer <==> Truthy(isServer)
  {
    Context(engineHandle, Truthy(isServer))
  }

  /** `ctx:free()` and the collector hook: release the engine context
      once, then forget it. The flag says whether the engine's release
      function was called. */
  function ContextFree(c: Context): (res: (Context, bool))
    ensures !res.0.live && res.0.isServer == c.isServer
    ensures res.1 <==> c.live
  {
    if !c.live then (c, false) else (c.(live := false), true)
  }

  /** `ssl.new(ctx, fd, insecure)`: a session whose role is copied from
      its context. `engineHandle` is whether the engine produced a session
      handle; the descriptor only reaches the engine and is not modelled. */
  function SessionNew(ctx: Context, insecure: LuaValue, engineHandle: bool): (s: Session)
    ensures s.live == engineHandle
    ensures s.isServer == ctx.isServer
    ensures s.insecure <==> Truthy(insecure)
    ensures EntryPoint(s) == (if ctx.isServer then Accept else Connect)
  {
    Session(engineHandle, ctx.isServer, Truthy(insecure))
  }

  /** `s:free()` and the collector hook: release the engine session once,
      then forget it. The flag says whether the engine's release function
      was called. */
  function SessionFree(s: Session): (res: (Session, bool))
    ensures !res.0.live
    ensures res.0.isServer == s.isServer && res.0.insecure == s.insecure
    ensures res.1 <==> s.live
  {
    if !s.live then (s, false) else (s.(live := false), true)
  }

  /** Server sessions shake hands through the engine's accept, clients
      through its connect. */
  function EntryPoint(s: Session): (h: Handshake)
    ensures h == Accept <==> s.isServer
    ensures h == Connect <==> !s.isServer
  {
    if s.isServer then Accept else Connect
  }

  /** The common translation of a negative engine reply: the code, and an
      error text only for SSL_ERROR. */
  function FromFailure<T, U>(reply: Reply<T>): (r: Outcome<U>)
    requires !reply.Done?
    ensures r.Err?
    ensures r.code == ErrorCode <==> reply.Failed?
    ensures r.code == WantReadCode <==> reply.WantRead?
    ensures r.code == WantWriteCode <==> reply.WantWrite?
    ensures r.message.Some? <==> reply.Failed?
    ensures reply.Failed? ==> r.message == Some(reply.reason)
  {
    match reply
    case WantRead => Err(WantReadCode, None)
    case WantWrite => Err(WantWriteCode, None)
    case Failed(reason) => Err(ErrorCode, Some(reason))
  }

  /** `s:negotiate()`: `engine` gives the reply of each handshake entry
      point, of which the session's role picks one; `certVerified` is
      false when the engine reported a certificate verification error
      during that call. */
  function Negotiate(s: Session, engine: Handshake -> Reply<()>, certVerified: bool): (r: Outcome<()>)
    requires s.live
    ensures !r.ArgError?
    ensures r.Ok? <==> engine(EntryPoint(s)).Done? && (certVerified || s.insecure)
    ensures r.Err? && r.code == InsecureCode <==> engine(EntryPoint(s)).Done? && !certVerified && !s.insecure
    ensures r.Err? && r.code == InsecureCode ==> r.message == Some(CERT_VERIFY_FAIL)
    ensures !engine(EntryPoint(s)).Done? ==> r == FromFailure(engine(EntryPoint(s)))
    ensures !engine(EntryPoint(s)).Done? ==> r.Err? && r.code != InsecureCode
    ensures r.Err? ==> (r.message.Some? <==> r.code == ErrorCode || r.code == InsecureCode)
  {
    var reply := engine(EntryPoint(s));
    if !reply.Done? then FromFailure(reply)
    else if !certVerified && !s.insecure then Err(InsecureCode, Some(CERT_VERIFY_FAIL))
    else Ok(())
  }

  /** `s:read(n)`: `n` is taken as a `size_t`, so only 0 is rejected as an
      argument error; `mallocOk` is whether the `n`-byte scratch buffer
      could be allocated and `allocError` the system's text when not. The
      engine returns at most `n` bytes. */
  function Read(s: Session, n: LuaInteger, mallocOk: bool, allocError: string,
                reply: Reply<seq<byte>>): (r: Outcome<seq<byte>>)
    requires s.live
    requires reply.Done? && n != 0 && mallocOk ==> |reply.value| <= ToSizeT(n)
    ensures r.ArgError? <==> n == 0
    ensures r.ArgError? ==> r.reason == READ_SIZE_INVALID
    ensures r.Ok? <==> n != 0 && mallocOk && reply.Done?
    ensures r.Ok? ==> r.value == reply.value && (0 < n ==> |r.value| <= n)
    ensures n != 0 && !mallocOk ==> r == Err(ErrorCode, Some(allocError))
    ensures n != 0 && mallocOk && !reply.Done? ==> r == FromFailure(reply)
    ensures r.Err? ==> (r.message.Some? <==> r.code == ErrorCode)
  {
    var size := ToSizeT(n);
    if size < 1 then ArgError(READ_SIZE_INVALID)
    else if !mallocOk then Err(ErrorCode, Some(allocError))
    else match reply
      case Done(bytes) => Ok(bytes)
      case _ => FromFailure(reply)
  }

  /** `s:read(n)` with the argument guard as its message states it: every
      count below 1 is refused, negative ones included. */
  function ReadChecked(s: Session, n: LuaInteger, mallocOk: bool, allocError: string,
                       reply: Reply<seq<byte>>): (r: Outcome<seq<byte>>)
    requires s.live
    requires reply.Done? && n >= 1 && mallocOk ==> |reply.value| <= n
    ensures r.ArgError? <==> n < 1
    ensures r.ArgError? ==> r.reason == READ_SIZE_INVALID
    ensures r.Ok? <==> n >= 1 && mallocOk && reply.Done?
    ensures r.Ok? ==> r.value == reply.value && |r.value| <= n
    ensures n >= 1 && !mallocOk ==> r == Err(ErrorCode, Some(allocError))
    ensures r.Err? ==> (r.message.Some? <==> r.code == ErrorCode)
    ensures n >= 1 ==> r == Read(s, n, mallocOk, allocError, reply)
  {
    if n < 1 then ArgError(READ_SIZE_INVALID)
    else if !mallocOk then Err(ErrorCode, Some(allocError))
    else match reply
      case Done(bytes) => Ok(bytes)
      case _ => FromFailure(reply)
  }

  /** A negative count passes the guard of `s:read` as written: it becomes
      a huge `size_t`, the scratch allocation fails, and the caller sees an
      SSL_ERROR with the allocator's message instead of an argument error.
      The intended guard refuses it. */
  lemma NegativeReadSizePassesGuard(s: Session, allocError: string, reply: Reply<seq<byte>>)
    requires s.live
    ensures ToSizeT(-1) >= 1
    ensures Read(s, -1, false, allocError, reply) == Err(ErrorCode, Some(allocError))
    ensures ReadChecked(s, -1, false, allocError, reply) == ArgError(READ_SIZE_INVALID)
  {
  }

  /** `s:read_to_buffer(b)`: ask the engine for at most the buffer's room
      and append what it delivers at the write cursor. The engine is not
      called when there is no room. */
  function ReadToBuffer(s: Session, b: Bufio.Buffer, reply: Reply<seq<byte>>): (res: (Outcome<nat>, Bufio.Buffer))
    requires s.live && b.Valid()
    requires reply.Done? && Bufio.Room(b) > 0 ==> |reply.value| <= Bufio.Room(b)
    ensures res.1.Valid() && res.1.size == b.size
    ensures b.Settled() ==> res.1.Settled()
    ensures !res.0.ArgError?
    ensures Bufio.Room(b) == 0 ==> res == (Err(ErrorCode, Some(BUFFER_FULL)), b)
    ensures res.0.Ok? <==> Bufio.Room(b) > 0 && reply.Done?
    ensures !res.0.Ok? ==> res.1 == b
    ensures Bufio.Room(b) > 0 && !reply.Done? ==> res.0 == FromFailure(reply)
    ensures res.0.Ok? ==> res.0.value == |reply.value|
    ensures res.0.Ok? ==> res.1.r == b.r && res.1.w == b.w + res.0.value
    ensures res.0.Ok? ==> res.1.Unread() == b.Unread() + reply.value
  {
    var n := Bufio.Room(b);
    if n == 0 then (Err(ErrorCode, Some(BUFFER_FULL)), b)
    else match reply
      case Done(bytes) =>
        var written := Bufio.Write(b, bytes);
        (Ok(written.0), written.1)
      case _ => (FromFailure(reply), b)
  }

  /** `s:write(data)`: hand `data` to the engine and report how many bytes
      it took, which is never more than offered. */
  function Write(s: Session, data: seq<byte>, reply: Reply<nat>): (r: Outcome<nat>)
    requires s.live
    requires reply.Done? ==> reply.value <= |data|
    ensures !r.ArgError?
    ensures r.Ok? <==> reply.Done?
    ensures r.Ok? ==> r.value == reply.value && r.value <= |data|
    ensures !reply.Done? ==> r == FromFailure(reply)
    ensures r.Err? ==> (r.message.Some? <==> r.code == ErrorCode)
  {
    match reply
    case Done(n) => Ok(n)
    case _ => FromFailure(reply)
  }

  /** The same failure, as a reply carrying a value of another type. */
  function Retag<T, U>(reply: Reply<T>): (r: Reply<U>)
    requires !reply.Done?
    ensures !r.Done?
    ensures r.WantRead? <==> reply.WantRead?
    ensures r.WantWrite? <==> reply.WantWrite?
    ensures r.Failed? <==> reply.Failed?
    ensures r.Failed? ==> r.reason == reply.reason
  {
    match reply
    case WantRead => WantRead
    case WantWrite => WantWrite
    case Failed(reason) => Failed(reason)
  }

  /** Every binding that calls the engine hands a given retry or error
      back to Lua in the same way: its own code, and the engine's text
      only for SSL_ERROR. */
  lemma FailuresTranslateAlike(s: Session, failure: Reply<()>, certVerified: bool,
                               n: LuaInteger, allocError: string, b: Bufio.Buffer, data: seq<byte>)
    requires s.live && !failure.Done?
    requires n != 0 && b.Valid() && Bufio.Room(b) > 0
    ensures Negotiate(s, _ => failure, certVerified) == FromFailure(failure)
    ensures Read(s, n, true, allocError, Retag(failure)) == FromFailure(failure)
    ensures ReadToBuffer(s, b, Retag(failure)) == (FromFailure(failure), b)
    ensures Write(s, data, Retag(failure)) == FromFailure(failure)
    ensures FromFailure<(), ()>(failure).code == ErrorCode <==> failure.Failed?
  {
  }

  /** The session after `k` calls of `free` (explicit or by the collector),
      and how many of those calls reached the engine. */
  function FreeTimes(s: Session, k: nat): (Session, nat)
    decreases k
  {
    if k == 0 then (s, 0)
    else
      var first := SessionFree(s);
      var rest := FreeTimes(first.0, k - 1);
      (rest.0, rest.1 + (if first.1 then 1 else 0))
  }

  /** Freeing is idempotent: a second `free` changes nothing and does not
      call the engine again. */
  lemma SessionFreeIdempotent(s: Session)
    ensures SessionFree(SessionFree(s).0) == (SessionFree(s).0, false)
  {
  }

  lemma ContextFreeIdempotent(c: Context)
    ensures ContextFree(ContextFree(c).0) == (ContextFree(c).0, false)
  {
  }

  /** However often a session is freed, its engine session is released
      exactly once if it was held and never otherwise. */
  lemma {:induction false} FreeReleasesOnce(s: Session, k: nat)
    ensures FreeTimes(s, k).1 == (if k > 0 && s.live then 1 else 0)
    ensures k > 0 ==> !FreeTimes(s, k).0.live
    ensures k == 0 ==> FreeTimes(s, k).0 == s
    decreases k
  {
    if k > 0 {
      FreeReleasesOnce(SessionFree(s).0, k - 1);
    }
  }

  /** A buffer refused as full still has reclaimable space when its read
      cursor is past 0: after `slide` the same engine reply is accepted. */
  lemma FullBufferAcceptsAfterSlide(s: Session, b: Bufio.Buffer, reply: Reply<seq<byte>>)
    requires s.live && b.Valid() && Bufio.Room(b) == 0 && b.r > 0
    requires reply.Done? && |reply.value| <= b.r
    ensures ReadToBuffer(s, b, reply).0.Err?
    ensures ReadToBuffer(s, Bufio.Slide(b), reply).0 == Ok(|reply.value|)
    ensures ReadToBuffer(s, Bufio.Slide(b), reply).1.Unread() == b.Unread() + reply.value
  {
  }
}
