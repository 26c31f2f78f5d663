/** The Lua logging entry points: a priority filter in front of a bounded,
    tab-separated rendering of the call's arguments into a `BUFSIZ`-byte
    line buffer. Where the line goes afterwards (the log sink, and the
    file:line prefix taken from the Lua call stack) is not modelled. */
module Log {
  import opened CTypes
  import opened Wrappers
  import opened Lua

  /** `BUFSIZ` of the C library (glibc's value). One byte of the buffer is
      kept for the terminating NUL. */
  const BUFSIZ: nat := 8192

  /** The syslog priorities used by the fixed-priority entry points. */
  const LOG_ERR: int := 3
  const LOG_INFO: int := 6
  const LOG_DEBUG: int := 7

  /** `LOG_PRI`: the priority bits `p & 7`. For two's-complement integers
      masking with 7 is the Euclidean remainder modulo 8. */
  function Pri(p: int): (q: int)
    ensures 0 <= q < 8
    ensures (p - q) % 8 == 0
    ensures 0 <= p < 8 ==> q == p
  {
    p % 8
  }

  /** Narrowing the priority to a C `int` before masking does not change
      the masked priority, since 2^32 is a multiple of 8. */
  lemma PriIgnoresNarrowing(x: int)
    ensures Pri(ToInt32(x)) == Pri(x)
  {
  }

  /** How one argument renders: strings and numbers as their text,
      booleans as "true"/"false", nil as "nil"; other types are skipped. */
  function Text(v: LuaValue): (t: Option<string>)
    ensures t.None? <==> v.Other?
  {
    match v
    case Str(s) => Some(s)
    case Number(text, _) => Some(text)
    case Boolean(b) => Some(if b then "true" else "false")
    case Nil => Some("nil")
    case Other(_) => None
  }

  /** Reference rendering of the argument at 1-based stack position `pos`,
      with no size limit: a tab before it unless it is the first stack
      slot, then its text; nothing at all for a skipped type. */
  function Piece(v: LuaValue, pos: nat): string
  {
    match Text(v)
    case None => ""
    case Some(t) => (if pos > 1 then "\t" else "") + t
  }

  /** Reference rendering of the arguments starting at stack position
      `pos`, with no size limit. */
  function Full(args: seq<LuaValue>, pos: nat): string
    decreases |args|
  {
    if |args| == 0 then "" else Piece(args[0], pos) + Full(args[1..], pos + 1)
  }

  /** The line assembler with `room` characters left: it stops once at
      most one character of room remains, and an argument longer than the
      room (after its tab) is cut to the room. The result never exceeds
      the room. */
  function Render(args: seq<LuaValue>, pos: nat, room: nat): (line: string)
    ensures |line| <= room
    decreases |args|
  {
    if |args| == 0 || room <= 1 then ""
    else match Text(args[0])
      case None => Render(args[1..], pos + 1, room)
      case Some(t) =>
        var tab := if pos > 1 then "\t" else "";
        var left := room - |tab|;
        var piece := t[..Min(|t|, left)];
        tab + piece + Render(args[1..], pos + 1, left - |piece|)
  }

  /** A cut piece followed by nothing, or the whole piece followed by a
      prefix of the rest, is a prefix of the whole piece followed by the
      rest. */
  lemma PrefixOfJoin(head: string, piece: string, t: string, rest: string, full: string)
    requires piece <= t
    requires piece == t ==> rest <= full
    requires piece != t ==> rest == ""
    ensures head + piece + rest <= head + t + full
  {
  }

  /** The assembled line is always a prefix of the unlimited rendering:
      truncation only ever cuts the end off. */
  lemma {:induction false} RenderIsPrefix(args: seq<LuaValue>, pos: nat, room: nat)
    ensures Render(args, pos, room) <= Full(args, pos)
    decreases |args|
  {
    if |args| == 0 || room <= 1 {
    } else {
      match Text(args[0])
      case None =>
        RenderStep(args, pos, room);
        RenderIsPrefix(args[1..], pos + 1, room);
      case Some(t) =>
        var tab := if pos > 1 then "\t" else "";
        var left := room - |tab|;
        var piece := t[..Min(|t|, left)];
        var rest := Render(args[1..], pos + 1, left - |piece|);
        var full' := Full(args[1..], pos + 1);
        assert Full(args, pos) == tab + t + full';
        RenderStep(args, pos, room);
        assert Render(args, pos, room) == tab + piece + rest;
        RenderIsPrefix(args[1..], pos + 1, left - |piece|);
        if piece != t {
          assert left - |piece| == 0;
          assert rest == "";
        }
        PrefixOfJoin(tab, piece, t, rest, full');
    }
  }

  /** When the unlimited rendering is shorter than the room, nothing is
      cut: the assembled line is exactly the reference rendering. */
  lemma {:induction false} RenderExactWhenItFits(args: seq<LuaValue>, pos: nat, room: nat)
    requires |Full(args, pos)| < room
    ensures Render(args, pos, room) == Full(args, pos)
    decreases |args|
  {
    if |args| == 0 || room <= 1 {
    } else {
      match Text(args[0])
      case None =>
        RenderStep(args, pos, room);
        RenderExactWhenItFits(args[1..], pos + 1, room);
      case Some(t) =>
        var tab := if pos > 1 then "\t" else "";
        var full' := Full(args[1..], pos + 1);
        assert Full(args, pos) == tab + t + full';
        var left := room - |tab|;
        assert Min(|t|, left) == |t| && t[..|t|] == t;
        RenderStep(args, pos, room);
        RenderExactWhenItFits(args[1..], pos + 1, left - |t|);
    }
  }

  /** When the unlimited rendering does not fit, the assembler fills the
      room up to at most one character. */
  lemma {:induction false} RenderFillsWhenTooLong(args: seq<LuaValue>, pos: nat, room: nat)
    requires |Full(args, pos)| >= room
    ensures |Render(args, pos, room)| >= room - 1
    decreases |args|
  {
    if |args| == 0 || room <= 1 {
    } else {
      match Text(args[0])
      case None =>
        RenderStep(args, pos, room);
        RenderFillsWhenTooLong(args[1..], pos + 1, room);
      case Some(t) =>
        var tab := if pos > 1 then "\t" else "";
        var left := room - |tab|;
        assert Full(args, pos) == tab + t + Full(args[1..], pos + 1);
        RenderStep(args, pos, room);
        if |t| < left {
          RenderFillsWhenTooLong(args[1..], pos + 1, left - |t|);
        }
    }
  }

  /** One step of the recursive assembler on a non-empty argument list
      with more than one character of room. */
  lemma RenderStep(args: seq<LuaValue>, pos: nat, room: nat)
    requires |args| > 0 && room > 1
    ensures Text(args[0]).None? ==> Render(args, pos, room) == Render(args[1..], pos + 1, room)
    ensures Text(args[0]).Some? ==>
      var t := Text(args[0]).value;
      var tab := if pos > 1 then "\t" else "";
      var left := room - |tab|;
      Render(args, pos, room) == tab + t[..Min(|t|, left)] + Render(args[1..], pos + 1, left - Min(|t|, left))
  {
  }

  /** Whole leading arguments render to exactly `n` characters: some
      prefix of the argument list has a reference rendering of length `n`. */
  predicate EndsOnBoundary(args: seq<LuaValue>, pos: nat, n: nat)
  {
    exists k :: 0 <= k <= |args| && |Full(args[..k], pos)| == n
  }

  /** The reference rendering of the first `k + 1` arguments is the first
      argument's piece followed by the rendering of the next `k`. */
  lemma FullSplit(args: seq<LuaValue>, pos: nat, k: nat)
    requires k + 1 <= |args|
    ensures Full(args[..k + 1], pos) == Piece(args[0], pos) + Full(args[1..][..k], pos + 1)
  {
    assert args[..k + 1][0] == args[0];
    assert args[..k + 1][1..] == args[1..][..k];
  }

  /** When the reference rendering does not fit, the line is one character
      short of the room exactly when whole leading arguments render to that
      length (the loop then stops with one character of room left); in
      every other case an argument is cut to the room and the line fills
      it. */
  lemma {:induction false} RenderLengthWhenTooLong(args: seq<LuaValue>, pos: nat, room: nat)
    requires 1 <= room <= |Full(args, pos)|
    ensures |Render(args, pos, room)| == room - 1 <==> EndsOnBoundary(args, pos, room - 1)
    ensures !EndsOnBoundary(args, pos, room - 1) ==> |Render(args, pos, room)| == room
    decreases |args|
  {
    RenderFillsWhenTooLong(args, pos, room);
    if room <= 1 {
      assert args[..0] == [];
      assert |Full(args[..0], pos)| == room - 1;
    } else {
      var rest := args[1..];
      RenderStep(args, pos, room);
      assert Full(args, pos) == Piece(args[0], pos) + Full(rest, pos + 1);
      var before := |Piece(args[0], pos)|;
      // Boundaries of `args` past the first argument are boundaries of the
      // rest shifted by the first piece; the empty prefix is none, since
      // room - 1 > 0.
      var shift := room - 1 - before;
      assert EndsOnBoundary(args, pos, room - 1) ==>
        before <= room - 1 && EndsOnBoundary(rest, pos + 1, shift) by {
        if EndsOnBoundary(args, pos, room - 1) {
          var k :| 0 <= k <= |args| && |Full(args[..k], pos)| == room - 1;
          assert k != 0 by {
            assert args[..0] == [];
          }
          FullSplit(args, pos, k - 1);
        }
      }
      assert before <= room - 1 && EndsOnBoundary(rest, pos + 1, shift) ==>
        EndsOnBoundary(args, pos, room - 1) by {
        if before <= room - 1 && EndsOnBoundary(rest, pos + 1, shift) {
          var k :| 0 <= k <= |rest| && |Full(rest[..k], pos + 1)| == shift;
          FullSplit(args, pos, k);
        }
      }
      match Text(args[0])
      case None =>
        RenderLengthWhenTooLong(rest, pos + 1, room);
      case Some(t) =>
        var tab := if pos > 1 then "\t" else "";
        var left := room - |tab|;
        if |t| < left {
          RenderLengthWhenTooLong(rest, pos + 1, left - |t|);
        } else {
          assert |Render(args, pos, room)| == room;
          assert before >= room;
        }
    }
  }

  /** One pass of the `__lua_log` loop body for stack slot `i`: what it
      writes into the line buffer and how much room it leaves. */
  method RenderSlot(args: seq<LuaValue>, i: nat, room: nat) returns (piece: string, left: nat)
    requires 1 <= i <= |args| && room > 1
    ensures |piece| + left == room
    ensures Render(args[i - 1..], i, room) == piece + Render(args[i..], i + 1, left)
  {
    ghost var rest := args[i - 1..];
    assert rest[0] == args[i - 1] && rest[1..] == args[i..];
    RenderStep(rest, i, room);
    var text := Text(args[i - 1]);
    if text.None? {
      piece, left := "", room;
    } else {
      var s := text.value;
      var tab := if i > 1 then "\t" else "";
      var avail := room - |tab|;
      var len := if |s| > avail then avail else |s|;
      assert len == Min(|s|, avail);
      piece := tab + s[..len];
      left := avail - len;
    }
  }

  /** The assembly loop of `__lua_log` over the stack slots 1..n, writing
      into the line buffer with `room` starting at `BUFSIZ - 1`. It builds
      the line the recursive assembler describes. */
  method Assemble(args: seq<LuaValue>) returns (line: string)
    ensures line == Render(args, 1, BUFSIZ - 1)
    ensures |line| <= BUFSIZ - 1
    ensures line <= Full(args, 1)
  {
    var room: nat := BUFSIZ - 1;
    line := "";
    var i := 1;
    while i <= |args| && room > 1
      invariant 1 <= i <= |args| + 1
      invariant |line| + room == BUFSIZ - 1
      invariant line + Render(args[i - 1..], i, room) == Render(args, 1, BUFSIZ - 1)
      decreases |args| + 1 - i
    {
      var piece, left := RenderSlot(args, i, room);
      ghost var next := Render(args[i..], i + 1, left);
      assert (line + piece) + next == line + (piece + next);
      line := line + piece;
      room := left;
      i := i + 1;
    }
    assert Render(args[i - 1..], i, room) == "";
    assert line + "" == line;
    RenderIsPrefix(args, 1, BUFSIZ - 1);
  }

  /** What reaches the log sink: the masked priority and the line. */
  datatype Record = Record(priority: int, message: string)

  /** `__lua_log(L, priority)` with the current log level `level`: nothing
      is emitted when the masked priority is above the level; otherwise the
      line, which fits the buffer together with its terminating NUL, is
      the reference rendering of the arguments or a prefix of it that
      fills the buffer. */
  function LogCall(priority: int, args: seq<LuaValue>, level: int): (r: Option<Record>)
    ensures r.None? <==> Pri(priority) > level
    ensures r.Some? ==> r.value.priority == Pri(priority)
    ensures r.Some? ==> |r.value.message| + 1 <= BUFSIZ
    ensures r.Some? ==> r.value.message <= Full(args, 1)
    ensures r.Some? && |Full(args, 1)| < BUFSIZ - 1 ==> r.value.message == Full(args, 1)
    ensures r.Some? && |Full(args, 1)| >= BUFSIZ - 1 ==> |r.value.message| >= BUFSIZ - 2
    ensures r.Some? && |Full(args, 1)| >= BUFSIZ - 1 ==>
      |r.value.message| == (if EndsOnBoundary(args, 1, BUFSIZ - 2) then BUFSIZ - 2 else BUFSIZ - 1)
  {
    var p := Pri(priority);
    if p > level then None
    else
      RenderIsPrefix(args, 1, BUFSIZ - 1);
      if |Full(args, 1)| < BUFSIZ - 1 then
        RenderExactWhenItFits(args, 1, BUFSIZ - 1);
        Some(Record(p, Render(args, 1, BUFSIZ - 1)))
      else
        RenderLengthWhenTooLong(args, 1, BUFSIZ - 1);
        Some(Record(p, Render(args, 1, BUFSIZ - 1)))
  }

  /** `log.debug(...)`: every argument is rendered, at LOG_DEBUG. */
  function Debug(args: seq<LuaValue>, level: int): (r: Option<Record>)
    ensures r.None? <==> level < LOG_DEBUG
    ensures r.Some? ==> r.value.priority == LOG_DEBUG && r.value.message <= Full(args, 1)
    ensures r.Some? && |Full(args, 1)| < BUFSIZ - 1 ==> r.value.message == Full(args, 1)
    ensures r.Some? && |Full(args, 1)| >= BUFSIZ - 1 ==> BUFSIZ - 2 <= |r.value.message| < BUFSIZ
    ensures r.Some? && |Full(args, 1)| >= BUFSIZ - 1 ==>
      |r.value.message| == (if EndsOnBoundary(args, 1, BUFSIZ - 2) then BUFSIZ - 2 else BUFSIZ - 1)
  {
    LogCall(LOG_DEBUG, args, level)
  }

  /** `log.info(...)`: every argument is rendered, at LOG_INFO. */
  function Info(args: seq<LuaValue>, level: int): (r: Option<Record>)
    ensures r.None? <==> level < LOG_INFO
    ensures r.Some? ==> r.value.priority == LOG_INFO && r.value.message <= Full(args, 1)
    ensures r.Some? && |Full(args, 1)| < BUFSIZ - 1 ==> r.value.message == Full(args, 1)
    ensures r.Some? && |Full(args, 1)| >= BUFSIZ - 1 ==> BUFSIZ - 2 <= |r.value.message| < BUFSIZ
    ensures r.Some? && |Full(args, 1)| >= BUFSIZ - 1 ==>
      |r.value.message| == (if EndsOnBoundary(args, 1, BUFSIZ - 2) then BUFSIZ - 2 else BUFSIZ - 1)
  {
    LogCall(LOG_INFO, args, level)
  }

  /** `log.err(...)`: every argument is rendered, at LOG_ERR. */
  function Err(args: seq<LuaValue>, level: int): (r: Option<Record>)
    ensures r.None? <==> level < LOG_ERR
    ensures r.Some? ==> r.value.priority == LOG_ERR && r.value.message <= Full(args, 1)
    ensures r.Some? && |Full(args, 1)| < BUFSIZ - 1 ==> r.value.message == Full(args, 1)
    ensures r.Some? && |Full(args, 1)| >= BUFSIZ - 1 ==> BUFSIZ - 2 <= |r.value.message| < BUFSIZ
    ensures r.Some? && |Full(args, 1)| >= BUFSIZ - 1 ==>
      |r.value.message| == (if EndsOnBoundary(args, 1, BUFSIZ - 2) then BUFSIZ - 2 else BUFSIZ - 1)
  {
    LogCall(LOG_ERR, args, level)
  }

  /** `log.log(priority, ...)`: the first argument, converted to an
      integer and then to a C `int`, is the priority; it is removed from
      the stack, so the remaining arguments are rendered from position 1. */
  function LuaLog(args: seq<LuaValue>, level: int): (r: Option<Record>)
    requires |args| >= 1
    ensures r.None? <==> Pri(ToInteger(args[0])) > level
    ensures r.Some? ==> r.value.priority == Pri(ToInteger(args[0]))
    ensures r.Some? ==> r.value.message <= Full(args[1..], 1)
    ensures r.Some? && |Full(args[1..], 1)| < BUFSIZ - 1 ==> r.value.message == Full(args[1..], 1)
    ensures r.Some? && |Full(args[1..], 1)| >= BUFSIZ - 1 ==> BUFSIZ - 2 <= |r.value.message| < BUFSIZ
    ensures r.Some? && |Full(args[1..], 1)| >= BUFSIZ - 1 ==>
      |r.value.message| == (if EndsOnBoundary(args[1..], 1, BUFSIZ - 2) then BUFSIZ - 2 else BUFSIZ - 1)
  {
    PriIgnoresNarrowing(ToInteger(args[0]));
    LogCall(ToInt32(ToInteger(args[0])), args[1..], level)
  }

  /** An argument after a skipped one still gets its tab, so a line can
      start with a tab. */
  lemma SkippedArgumentKeepsItsTab(s: string)
    requires |s| < BUFSIZ - 2
    ensures Render([Other("table"), Str(s)], 1, BUFSIZ - 1) == "\t" + s
  {
    var args := [Other("table"), Str(s)];
    assert Full(args, 1) == "\t" + s by {
      assert args[1..] == [Str(s)];
      assert Full([Str(s)], 2) == "\t" + s + Full([], 3);
    }
    RenderExactWhenItFits(args, 1, BUFSIZ - 1);
  }
}
