/** Laws relating the buffer operations to each other, and the buffer's
    behaviour over whole sequences of method calls: it is a FIFO whose
    cursor invariant no sequence of calls can break. */
module BufioLaws {
  import opened CTypes
  import opened Wrappers
  import opened Bufio

  /** One Lua-visible buffer method call. `b:index` and the getters do not
      change the buffer and are left out of traces. */
  datatype Op =
    | ReadOp(n: LuaInteger)
    | WriteOp(s: seq<byte>)
    | PeekOp(len: LuaInteger)
    | SkipOp(len: LuaInteger)
    | SlideOp

  /** What a call (or a run of calls) did: the bytes that left the buffer
      through `read` or `skip`, the bytes `write` accepted, and the buffer
      afterwards. */
  datatype Effect = Effect(consumed: seq<byte>, accepted: seq<byte>, after: Buffer)

  function Step(b: Buffer, op: Op): (e: Effect)
    requires b.Valid()
    ensures e.after.Valid() && e.after.size == b.size
    ensures b.Settled() ==> e.after.Settled()
    ensures e.consumed + e.after.Unread() == b.Unread() + e.accepted
  {
    match op
    case ReadOp(n) =>
      var res := Read(b, n);
      Effect(res.0, [], res.1)
    case WriteOp(s) =>
      var res := Write(b, s);
      Effect([], s[..res.0], res.1)
    case PeekOp(_) =>
      Effect([], [], b)
    case SkipOp(len) =>
      var res := Skip(b, len);
      Effect(b.Unread()[..res.0], [], res.1)
    case SlideOp =>
      Effect([], [], Slide(b))
  }

  /** The effect of a sequence of calls made one after the other. Whatever
      the calls, the cursor invariant survives and no byte is lost,
      duplicated or reordered: consumed bytes followed by the bytes still
      unread are the bytes unread at the start followed by every byte
      accepted. */
  function Run(b: Buffer, ops: seq<Op>): (e: Effect)
    requires b.Valid()
    ensures e.after.Valid() && e.after.size == b.size
    ensures b.Settled() ==> e.after.Settled()
    ensures e.consumed + e.after.Unread() == b.Unread() + e.accepted
    decreases |ops|
  {
    if |ops| == 0 then
      Effect([], [], b)
    else
      var first := Step(b, ops[0]);
      var rest := Run(first.after, ops[1..]);
      assert first.consumed + rest.consumed + rest.after.Unread()
          == b.Unread() + first.accepted + rest.accepted by {
        calc {
          first.consumed + rest.consumed + rest.after.Unread();
          first.consumed + (rest.consumed + rest.after.Unread());
          first.consumed + (first.after.Unread() + rest.accepted);
          (first.consumed + first.after.Unread()) + rest.accepted;
          b.Unread() + first.accepted + rest.accepted;
        }
      }
      Effect(first.consumed + rest.consumed, first.accepted + rest.accepted, rest.after)
  }

  /** Starting from a fresh buffer, every byte handed out was written
      earlier, in the order it was written, and the buffer keeps its
      cursor invariant and drain rule. */
  lemma FreshBufferIsFifo(size: Option<LuaInteger>, ops: seq<Op>)
    requires size.Some? ==> 0 <= size.value <= INT_MAX
    ensures Run(New(size), ops).after.Valid() && Run(New(size), ops).after.Settled()
    ensures Run(New(size), ops).consumed <= Run(New(size), ops).accepted
    ensures Run(New(size), ops).consumed + Run(New(size), ops).after.Unread()
         == Run(New(size), ops).accepted
  {
  }

  /** `read(n)` hands out exactly what `peek(n)` shows and leaves the
      buffer as `skip(n)` does, for every `n` including negative ones. */
  lemma ReadIsPeekThenSkip(b: Buffer, n: LuaInteger)
    requires b.Valid()
    ensures Read(b, n).0 == Peek(b, n)
    ensures Read(b, n).1 == Skip(b, n).1
  {
  }

  /** A settled buffer with nothing unread has both cursors at 0, so its
      whole capacity is room. */
  lemma EmptyBufferHasFullRoom(b: Buffer)
    requires b.Valid() && b.Settled() && Length(b) == 0
    ensures b.r == 0 && b.w == 0
    ensures Room(b) == b.size
  {
  }

  /** Writing into an empty buffer and then reading everything returns the
      written bytes, cut to the capacity, and leaves the buffer empty. */
  lemma WriteThenReadAll(b: Buffer, s: seq<byte>)
    requires b.Valid() && b.Settled() && Length(b) == 0
    ensures Read(Write(b, s).1, -1).0 == s[..Min(|s|, b.size)]
    ensures Length(Read(Write(b, s).1, -1).1) == 0
    ensures Room(Read(Write(b, s).1, -1).1) == b.size
  {
  }

  /** After `slide`, `write` accepts as many bytes as the capacity minus
      the unread length allows: the consumed prefix has become room. */
  lemma SlideThenWrite(b: Buffer, s: seq<byte>)
    requires b.Valid()
    ensures Write(Slide(b), s).0 == Min(|s|, b.size - Length(b))
    ensures Write(Slide(b), s).1.Unread() == b.Unread() + s[..Min(|s|, b.size - Length(b))]
  {
  }

  /** For a character code 0..127, `index` looks for exactly that byte,
      whatever the signedness of `char`. */
  lemma AsciiCodeMatchesItsByte(x: byte, c: LuaInteger, charIsSigned: bool)
    requires 0 <= c < 128
    ensures CharValue(x, charIsSigned) == ToInt32(c) <==> x == c
  {
  }

  /** Where `char` is signed, a code 128..255 never matches any byte: such
      a byte is found only by passing its negative `char` value. */
  lemma HighCodeNeverMatchesSignedChar(x: byte, c: LuaInteger)
    requires 128 <= c < 256
    ensures CharValue(x, true) != ToInt32(c)
    ensures CharValue(x, true) == ToInt32(c - 256) <==> x == c
  {
  }
}
