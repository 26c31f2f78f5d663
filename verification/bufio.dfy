/** The fixed-capacity byte buffer `struct eco_bufio` and its Lua methods.

    A buffer holds `size` bytes. The bytes in `data[r..w)` are unread;
    the `size - w` bytes after the write cursor are the room still free
    for writing. Space before `r` is reclaimed only by `Slide`. Every
    operation is a pure function from the old buffer to the new one. */
module Bufio {
  import opened CTypes
  import opened Wrappers

  /** Capacity of a buffer created without an explicit size. */
  const DEFAULT_SIZE: nat := 4096

  datatype Buffer = Buffer(size: nat, r: nat, w: nat, data: seq<byte>) {

    /** The cursor invariant `0 <= r <= w <= size`, with the data area
        exactly `size` bytes long. Capacities come from a C `int`. */
    predicate Valid()
    {
      && r <= w <= size
      && |data| == size
      && size <= INT_MAX
    }

    /** A buffer whose read cursor has caught up with its write cursor has
        had both cursors reset to 0 (the drain rule of `buffer_skip`). */
    predicate Settled()
    {
      r == w ==> w == 0
    }

    /** The unread bytes, in order. */
    function Unread(): seq<byte>
      requires Valid()
    {
      data[r..w]
    }
  }

  /** `bufio.new([size])`: an empty buffer of the given capacity. */
  function New(size: Option<LuaInteger>): (b: Buffer)
    requires size.Some? ==> 0 <= size.value <= INT_MAX
    ensures b.Valid() && b.Settled()
    ensures b.r == 0 && b.w == 0
    ensures b.size == (if size.Some? then size.value else DEFAULT_SIZE)
    ensures b.Unread() == [] && Room(b) == b.size
  {
    var n: nat := if size.Some? then size.value else DEFAULT_SIZE;
    Buffer(n, 0, 0, seq(n, _ => 0))
  }

  /** `sizeof(struct eco_bufio)` on a 64-bit target: the three `size_t`
      fields in front of the data area. */
  const HEADER_SIZE: nat := 24

  /** What `bufio.new(n)` as written allocates and records, as the pair
      (userdata bytes, capacity field). The argument is narrowed to an
      `int`; the userdata size `HEADER_SIZE + size` is computed in
      `size_t`, and the capacity field receives the `int` converted to
      `size_t`. */
  function NewAsWritten(n: LuaInteger): (res: (nat, nat))
    ensures res.0 < TWO_TO_THE_64 && res.1 < TWO_TO_THE_64
    ensures 0 <= n <= INT_MAX ==> res == (HEADER_SIZE + n, n)
  {
    var recorded := ToSizeT(ToInt32(n));
    ((HEADER_SIZE + recorded) % TWO_TO_THE_64, recorded)
  }

  /** A size of -1 .. -HEADER_SIZE passed to `bufio.new` as written: the
      userdata size wraps around to fewer bytes than the header, while the
      capacity field claims almost 2^64 bytes, so the header's own
      initialisation and every later `write` run past the allocation. */
  lemma SmallNegativeSizeOverstatesCapacity(n: LuaInteger)
    requires -(HEADER_SIZE as int) <= n < 0
    ensures NewAsWritten(n).0 == HEADER_SIZE + n
    ensures NewAsWritten(n).0 < HEADER_SIZE
    ensures NewAsWritten(n).1 == TWO_TO_THE_64 + n
  {
  }

  /** `bufio.new([size])` with the size checked: a size a C `int` cannot
      hold as a capacity (negative, or above INT_MAX) is refused, and an
      accepted buffer's capacity is exactly the data area allocated. */
  function NewChecked(size: Option<LuaInteger>): (b: Option<Buffer>)
    ensures b.None? <==> size.Some? && !(0 <= size.value <= INT_MAX)
    ensures b.Some? ==> b.value.Valid() && b.value.Settled() && b.value.Unread() == []
    ensures b.Some? ==> Room(b.value) == b.value.size
    ensures b.Some? && size.Some? ==> NewAsWritten(size.value) == (HEADER_SIZE + b.value.size, b.value.size)
    ensures b.Some? && size.None? ==> b.value.size == DEFAULT_SIZE
  {
    if size.Some? && !(0 <= size.value <= INT_MAX) then None else Some(New(size))
  }

  /** `b:size()`: the fixed capacity. */
  function Size(b: Buffer): (n: nat)
    requires b.Valid()
    ensures n == |b.data|
    ensures n == Length(b) + Room(b) + b.r
  {
    b.size
  }

  /** `buffer_length` / `b:length()`: how many unread bytes there are. */
  function Length(b: Buffer): (n: nat)
    requires b.Valid()
    ensures n == |b.Unread()|
    ensures n == 0 <==> b.Unread() == []
  {
    b.w - b.r
  }

  /** `buffer_room` / `b:room()`: free space after the write cursor only;
      consumed space before `r` is not counted. */
  function Room(b: Buffer): (n: nat)
    requires b.Valid()
    ensures n == |b.data[b.w..]|
    ensures n + Length(b) + b.r == b.size
  {
    b.size - b.w
  }

  /** The `buffer_skip` macro: consume `n` unread bytes; if that drains
      the buffer, both cursors return to 0. The data area is untouched. */
  function SkipBy(b: Buffer, n: nat): (b': Buffer)
    requires b.Valid() && n <= Length(b)
    ensures b'.Valid() && b'.Settled()
    ensures b'.size == b.size && b'.data == b.data
    ensures b'.Unread() == b.Unread()[n..]
    ensures n < Length(b) ==> b'.r == b.r + n && b'.w == b.w
    ensures n == Length(b) ==> b'.r == 0 && b'.w == 0 && Room(b') == b.size
  {
    if b.r + n == b.w then b.(r := 0, w := 0) else b.(r := b.r + n)
  }

  /** `b:read([n])`: a negative or too large `n` (and an omitted one,
      which defaults to -1) takes every unread byte; otherwise exactly the
      first `n`. The bytes returned are consumed. */
  function Read(b: Buffer, n: LuaInteger): (res: (seq<byte>, Buffer))
    requires b.Valid()
    ensures res.1.Valid() && res.1.Settled() && res.1.size == b.size
    ensures res.0 + res.1.Unread() == b.Unread()
    ensures 0 <= n <= Length(b) ==> |res.0| == n
    ensures (n < 0 || n > Length(b)) ==> res.0 == b.Unread() && res.1.Unread() == []
    ensures res.1 == SkipBy(b, |res.0|)
  {
    var blen := Length(b);
    var k: nat := if n < 0 || n > blen then blen else n;
    (b.Unread()[..k], SkipBy(b, k))
  }

  /** `b:write(s)`: copy as much of `s` as fits in the room to the write
      cursor and return how many bytes were copied. */
  function Write(b: Buffer, s: seq<byte>): (res: (nat, Buffer))
    requires b.Valid()
    ensures res.1.Valid() && res.1.size == b.size
    ensures b.Settled() ==> res.1.Settled()
    ensures res.0 <= |s| && res.0 <= Room(b)
    ensures res.0 == |s| || Room(res.1) == 0
    ensures res.1.r == b.r && res.1.w == b.w + res.0
    ensures res.1.Unread() == b.Unread() + s[..res.0]
  {
    var len := Min(|s|, Room(b));
    var data' := b.data[..b.w] + s[..len] + b.data[b.w + len..];
    var b' := b.(w := b.w + len, data := data');
    assert b'.Unread() == b.Unread() + s[..len] by {
      assert data'[..b.w] == b.data[..b.w];
      assert data'[b.w..b.w + len] == s[..len];
    }
    (len, b')
  }

  /** `b:peek(len)`: the first `len` unread bytes without consuming them.
      `len` is taken as a `size_t`, so a negative value means "all". */
  function Peek(b: Buffer, len: LuaInteger): (p: seq<byte>)
    requires b.Valid()
    ensures p <= b.Unread()
    ensures 0 <= len ==> |p| == Min(len, Length(b))
    ensures len < 0 ==> p == b.Unread()
  {
    b.Unread()[..Min(ToSizeT(len), Length(b))]
  }

  /** `b:skip(len)`: discard up to `len` unread bytes (again read as a
      `size_t`) and return how many were discarded. */
  function Skip(b: Buffer, len: LuaInteger): (res: (nat, Buffer))
    requires b.Valid()
    ensures res.1.Valid() && res.1.Settled() && res.1.size == b.size
    ensures res.0 <= Length(b)
    ensures 0 <= len ==> res.0 == Min(len, Length(b))
    ensures len < 0 ==> res.0 == Length(b)
    ensures res.1.Unread() == b.Unread()[res.0..]
    ensures res.1 == SkipBy(b, res.0)
  {
    var k := Min(ToSizeT(len), Length(b));
    (k, SkipBy(b, k))
  }

  /** `b:index(c)`: the offset of the first unread byte whose `char`
      value equals `c` truncated to an `int`, or -1 when there is none. */
  method Index(b: Buffer, c: LuaInteger, charIsSigned: bool) returns (i: int)
    requires b.Valid()
    ensures -1 <= i < Length(b)
    ensures i >= 0 ==> CharValue(b.Unread()[i], charIsSigned) == ToInt32(c)
    ensures i >= 0 ==> forall j :: 0 <= j < i ==> CharValue(b.Unread()[j], charIsSigned) != ToInt32(c)
    ensures i == -1 <==> forall j :: 0 <= j < Length(b) ==> CharValue(b.Unread()[j], charIsSigned) != ToInt32(c)
  {
    var target := ToInt32(c);
    var data := b.Unread();
    var blen := |data|;
    var k := 0;
    while k < blen
      invariant 0 <= k <= blen
      invariant forall j :: 0 <= j < k ==> CharValue(data[j], charIsSigned) != target
    {
      if CharValue(data[k], charIsSigned) == target {
        return k;
      }
      k := k + 1;
    }
    return -1;
  }

  /** `b:index(c)` as evidently intended: the offset of the first unread
      byte equal to `c`, or -1 when there is none, whatever the signedness
      of `char`. A code outside 0..255 matches no byte. */
  method ByteIndex(b: Buffer, c: LuaInteger) returns (i: int)
    requires b.Valid()
    ensures -1 <= i < Length(b)
    ensures i >= 0 ==> b.Unread()[i] == c
    ensures i >= 0 ==> forall j :: 0 <= j < i ==> b.Unread()[j] != c
    ensures i == -1 <==> forall j :: 0 <= j < Length(b) ==> b.Unread()[j] != c
  {
    if 0 <= c < 256 {
      i := Index(b, c, false);
    } else {
      i := -1;
    }
  }

  /** `b:slide()`: move the unread bytes to the front of the data area so
      that the space before `r` becomes room. A buffer already starting at
      offset 0 is left as it is. */
  function Slide(b: Buffer): (b': Buffer)
    requires b.Valid()
    ensures b'.Valid() && b'.size == b.size
    ensures b.Settled() ==> b'.Settled()
    ensures b'.Unread() == b.Unread()
    ensures b'.r == 0 && b'.w == Length(b)
    ensures Room(b') == Room(b) + b.r
    ensures b.r == 0 ==> b' == b
  {
    if b.r > 0 then
      var len := b.w - b.r;
      var data' := b.data[b.r..b.w] + b.data[len..];
      assert data'[..len] == b.data[b.r..b.w];
      Buffer(b.size, 0, len, data')
    else
      b
  }
}
