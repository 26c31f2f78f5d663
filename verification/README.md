# lua-eco core bindings: buffer, TLS glue and log assembler, in Dafny

This project models three pieces of C code from lua-eco, a Lua library for
asynchronous networking, and proves properties of the models.

- **The fixed-capacity byte buffer** (`struct eco_bufio`). A buffer is a
  record `(size, r, w, data)`: the bytes in `data[r..w)` are unread and the
  `size - w` bytes after `w` are room. The model covers `new`, the
  `size`/`length`/`room` getters, `read`, `write`, `peek`, `skip`, `index`,
  `slide` and the `buffer_skip` drain rule. Each is a pure function (`index` is
  a method with a loop) from the old buffer to the new one. The cursor
  invariant `0 <= r <= w <= size` is proved for every operation and for every
  sequence of operations. So is the drain rule: once `r` catches up with `w`,
  both are 0. Over any sequence of calls the buffer behaves as a FIFO: no byte
  is lost, duplicated or reordered.
- **The TLS session glue** (module `Ssl`). The TLS engine is opaque. Each
  engine call appears only as the reply it returned: a value, a
  want-read/want-write retry signal, or an error with its text. The model
  states what the glue does with each reply:
  - how `negotiate` turns engine results and certificate verification into
    success, a retry code, an error or "insecure";
  - how `read_to_buffer` appends to a buffer, or refuses with "buffer is
    full";
  - the `read` argument guard;
  - idempotent `free`;
  - role propagation from context to session.
- **The log line assembler** `__lua_log` (module `Log`). It filters on the
  priority, then renders the Lua arguments into a `BUFSIZ`-byte buffer (a character of a
  model string stands for one byte of the Lua string):
  - strings and numbers as their text, booleans as `true`/`false`, nil as
    `nil`;
  - other types are skipped;
  - a tab comes before every rendered argument after stack slot 1;
  - everything is truncated to `BUFSIZ - 1` characters.

  A recursive assembler `Render` is related to an unlimited reference
  rendering `Full`:
  - the assembled line is always a prefix of `Full`;
  - it equals `Full` when `Full` fits;
  - it fills the buffer to within one character when `Full` does not fit.

  The imperative loop `Assemble` is proved to build the same line.

Implicit C conversions are written out in module `CTypes`. A `lua_Integer`
becomes a `size_t` with wrap-around (`ToSizeT`) or an `int` with 32-bit
truncation (`ToInt32`). A `char` promotes to an `int` (`CharValue`), and its
signedness is a parameter. These conversions decide real behaviour:
- `peek(-1)` and `skip(-1)` mean "everything";
- `index` compares signed `char` values;
- `read(-1)` on a TLS session gets past the `n < 1` guard.

The numeric values of `SSL_ERROR`, `SSL_WANT_READ`, `SSL_WANT_WRITE` and
`SSL_INSECURE` come from the engine header ssl/ssl.h, which is not part of
this model. The codes are therefore the datatype `Ssl.Code`.

The buffer has a fixed capacity and compacts only when `slide` is called
explicitly. `read_to_buffer` refuses a buffer whose tail room is 0 even when
space before `r` could be reclaimed (see `Ssl.FullBufferAcceptsAfterSlide`).

Files: `wrappers.dfy` (Option), `ctypes.dfy`, `lua.dfy` (tagged Lua values,
`lua_toboolean`, `lua_tointeger`), `bufio.dfy`, `bufio_laws.dfy`, `ssl.dfy`,
`log.dfy`.

## Model

| member | source | states |
|---|---|---|
| CTypes.ToSizeT | bufio.c:83 | a `lua_Integer` read as `size_t`: unchanged when non-negative, `x + 2^64` when negative |
| CTypes.ToInt32 | bufio.c:110 | a `lua_Integer` narrowed to `int`: in the 32-bit signed range, congruent modulo 2^32, unchanged when it already fits |
| CTypes.CharValue | bufio.c:116 | the `int` a buffer byte compares as: the byte itself for 0..127 or unsigned `char`, `b - 256` for a byte of 128 or more under signed `char` |
| Lua.Truthy | ssl.c:222 | `lua_toboolean`: nil is false, a boolean is itself, every other value is true |
| Lua.ToInteger | log.c:115 | `lua_tointeger`: a number with an exact integer value gives it, a number without one or a non-number gives 0 |
| Bufio.New | bufio.c:12-25 | a fresh buffer is valid and empty, both cursors are 0, its capacity is the argument or 4096, and all of it is room |
| Bufio.NewAsWritten | bufio.c:14-22 | for a size in 0..INT_MAX, the userdata holds the header plus exactly `size` data bytes and the capacity field records `size` |
| Bufio.SmallNegativeSizeOverstatesCapacity | bufio.c:14-22 | `bufio.new(n)` for `n` in -24..-1 allocates fewer bytes than the header yet records a capacity of `2^64 + n` |
| Bufio.NewChecked | bufio.c:14-22 | with the size checked: refused exactly outside 0..INT_MAX; an accepted buffer is empty with full room, and its capacity is exactly the data area allocated |
| Bufio.Size | bufio.c:27-32 | the capacity is the data area's length and equals unread length plus room plus the consumed prefix |
| Bufio.Length | bufio.h:26-27 | the length is the number of unread bytes, 0 exactly when nothing is unread |
| Bufio.Room | bufio.h:28 | room is only the space after `w`: room + length + `r` = size, so consumed space is not room |
| Bufio.SkipBy | bufio.h:19-24 | consuming `n <= length` bytes drops exactly the first `n` unread bytes and leaves the data area unchanged; `r` advances by `n` and `w` stays put unless the buffer drains, and then both cursors are 0 and room is the capacity; the invariant holds after |
| Bufio.Read | bufio.c:48-61 | the bytes returned followed by what stays unread are the old unread bytes; exactly `n` are returned when `0 <= n <= length`, all of them otherwise; the buffer afterwards is the old one with exactly the returned bytes consumed by the drain rule, so `w` and room change only when it drains |
| Bufio.Write | bufio.c:63-78 | as many bytes as fit are copied (all of `s`, or the buffer ends with no room); they are appended to the unread bytes; `r` is unchanged and `w` advances by the count returned |
| Bufio.Peek | bufio.c:80-91 | the result is a prefix of the unread bytes, of length `min(len, length)` for non-negative `len` and all of them for negative `len` |
| Bufio.Skip | bufio.c:93-105 | the count is `len` clamped to the length (all for negative `len`), and exactly that many leading unread bytes are consumed by the drain rule, so `w` and room change only when it drains |
| Bufio.Index | bufio.c:107-124 | the result is -1 exactly when no unread byte matches `c`; otherwise it is the smallest offset whose `char` value equals `c` as an `int` |
| Bufio.ByteIndex | bufio.c:107-124 | as evidently intended: -1 exactly when no unread byte equals `c`; otherwise the smallest offset holding byte `c` |
| Bufio.Slide | bufio.c:126-137 | the unread bytes are unchanged but now start at 0, `w` becomes the old length, room grows by the old `r`, and a buffer with `r = 0` is left as it is |
| BufioLaws.Step | bufio.c:48-137 | each mutating method keeps the invariant and the drain rule; consumed bytes plus what stays unread = old unread bytes plus accepted bytes |
| BufioLaws.Run | bufio.c:48-137 | the same FIFO law and invariant preservation hold for any sequence of method calls |
| BufioLaws.FreshBufferIsFifo | bufio.c:12-137 | from a new buffer, every call sequence keeps `0 <= r <= w <= size`, and the bytes handed out are a prefix of the bytes written, in write order |
| BufioLaws.ReadIsPeekThenSkip | bufio.c:48-105 | for every `n`, `read(n)` returns what `peek(n)` shows and leaves the buffer as `skip(n)` does |
| BufioLaws.EmptyBufferHasFullRoom | bufio.h:19-28 | a drained buffer has both cursors at 0, so room equals capacity |
| BufioLaws.WriteThenReadAll | bufio.c:48-78 | writing into an empty buffer and reading everything returns the data cut to the capacity and leaves the buffer empty with full room |
| BufioLaws.SlideThenWrite | bufio.c:126-137 | after `slide`, `write` accepts up to capacity minus length bytes and appends them to the same unread bytes |
| BufioLaws.AsciiCodeMatchesItsByte | bufio.c:110-116 | for `c` in 0..127, a byte matches `c` exactly when it is that byte, whatever the signedness of `char` |
| BufioLaws.HighCodeNeverMatchesSignedChar | bufio.c:110-116 | with signed `char`, `c` in 128..255 matches no byte; the byte is found only through `c - 256` |
| Ssl.ContextNew | ssl.c:295-306 | a new context holds an engine handle exactly when the engine produced one (stored unchecked), and its role is the truthiness of the argument |
| Ssl.ContextFree | ssl.c:30-46 | after `free` the handle is gone and the role is kept; the engine release happens exactly when a handle was held |
| Ssl.SessionNew | ssl.c:218-235 | a session's role is its context's role, so a server context's sessions negotiate through accept and a client's through connect; `insecure` is the truthiness of the argument |
| Ssl.SessionFree | ssl.c:48-64 | after `free` the handle is gone and role and `insecure` are kept; the engine release happens exactly when a handle was held |
| Ssl.EntryPoint | ssl.c:90-93 | a session shakes hands through accept exactly when it is a server session, through connect otherwise |
| Ssl.FromFailure | ssl.c:95-105 | a negative engine reply gives its own code, and an error text exactly for SSL_ERROR |
| Ssl.Negotiate | ssl.c:83-116 | success exactly when the engine finished and the certificate verified or the session is insecure; INSECURE with "SSL certificate verify fail" exactly when the engine finished, verification failed and the session is not insecure; the reply is the one of the entry point the session's role picks (accept or connect); a retry or error reply is translated by `FromFailure`, so it carries its own code and the engine's text exactly for ERROR, never INSECURE; a message comes only with ERROR or INSECURE |
| Ssl.Read | ssl.c:118-155 | only a count of 0 raises the argument error, "must be greater than 0"; success exactly when the count is nonzero, allocation worked and the engine delivered; an allocation failure is SSL_ERROR with the system's text; after a successful allocation an engine retry or error is translated by `FromFailure` |
| Ssl.ReadChecked | ssl.c:126-127 | with the intended guard: the argument error "must be greater than 0" exactly when `n < 1`; for `n >= 1` it agrees with `Read` |
| Ssl.NegativeReadSizePassesGuard | ssl.c:121-134 | `read(-1)` as written passes the guard and fails with the allocator's SSL_ERROR; the intended guard refuses it |
| Ssl.ReadToBuffer | ssl.c:157-189 | zero room gives ERROR "buffer is full" and an unchanged buffer; success exactly when there is room and the engine delivered, and then `r` is kept, `w` advances by the count and the delivered bytes are appended to the unread bytes; with room, an engine retry or error is translated by `FromFailure`; any failure leaves the buffer unchanged; the invariant holds |
| Ssl.Write | ssl.c:191-216 | success exactly when the engine accepted bytes, never more than offered; a retry or error is translated by `FromFailure`, with its own code and the engine's text exactly for SSL_ERROR |
| Ssl.FailuresTranslateAlike | ssl.c:95-212 | `negotiate`, `read`, `read_to_buffer` and `write` hand the same engine retry or error back to Lua alike: its own code, and the engine's text exactly for SSL_ERROR |
| Ssl.SessionFreeIdempotent | ssl.c:48-59 | a second session `free` changes nothing and does not call the engine |
| Ssl.ContextFreeIdempotent | ssl.c:30-41 | a second context `free` changes nothing and does not call the engine |
| Ssl.FreeReleasesOnce | ssl.c:48-64 | any number of explicit or collector-driven frees releases the engine session exactly once if it was held, never otherwise |
| Ssl.FullBufferAcceptsAfterSlide | ssl.c:161-170 | a buffer refused as full with `r > 0` accepts the same engine bytes after `slide`, appended to its unread bytes |
| Log.Pri | log.c:30 | the masked priority lies in 0..7, is congruent to the priority modulo 8, and equals it when already in range |
| Log.Text | log.c:42-62 | an argument is skipped exactly when it is not a string, number, boolean or nil |
| Log.PriIgnoresNarrowing | log.c:30 | narrowing a priority to a C `int` before masking leaves the masked priority unchanged |
| Log.Render | log.c:37-75 | the assembled line never exceeds the room it is given |
| Log.RenderIsPrefix | log.c:37-75 | truncation only cuts the end off: the assembled line is always a prefix of the unlimited tab-joined rendering |
| Log.RenderExactWhenItFits | log.c:37-75 | when the unlimited rendering is shorter than the room, the line is exactly that rendering |
| Log.RenderFillsWhenTooLong | log.c:37-75 | when it is not, the line fills the room to within one character |
| Log.RenderLengthWhenTooLong | log.c:37-74 | when the rendering does not fit, the line is one character short of the room exactly when whole leading arguments render to that length, and fills the room otherwise, where an argument is cut to the room |
| Log.RenderSlot | log.c:38-74 | one loop pass uses exactly the room it writes, and it produces the next piece of the recursive assembler's line |
| Log.Assemble | log.c:22-77 | the C loop builds the recursive assembler's line, at most `BUFSIZ - 1` characters and a prefix of the unlimited rendering |
| Log.LogCall | log.c:20-77 | nothing is emitted exactly when the masked priority is above the level; otherwise the masked priority and a line that fits with its NUL; the line is the whole rendering when it fits; otherwise a prefix of `BUFSIZ - 2` characters when whole leading arguments render to exactly that length, and of `BUFSIZ - 1` characters in every other case |
| Log.Debug | log.c:92-97 | emitted exactly when the level is at least LOG_DEBUG, at that priority; the line is the whole rendering when it fits, otherwise a prefix of `BUFSIZ - 2` characters when whole leading arguments render to exactly that length, of `BUFSIZ - 1` characters in every other case |
| Log.Info | log.c:99-104 | emitted exactly when the level is at least LOG_INFO, at that priority; the line is the whole rendering when it fits, otherwise a prefix of `BUFSIZ - 2` characters when whole leading arguments render to exactly that length, of `BUFSIZ - 1` characters in every other case |
| Log.Err | log.c:106-111 | emitted exactly when the level is at least LOG_ERR, at that priority; the line is the whole rendering when it fits, otherwise a prefix of `BUFSIZ - 2` characters when whole leading arguments render to exactly that length, of `BUFSIZ - 1` characters in every other case |
| Log.LuaLog | log.c:113-122 | the first argument, as an integer, is the priority and is not rendered; the remaining arguments are rendered from stack slot 1, whole when they fit, otherwise as a prefix of `BUFSIZ - 2` characters when whole leading arguments render to exactly that length, of `BUFSIZ - 1` characters in every other case |
| Log.SkippedArgumentKeepsItsTab | log.c:64-67 | an argument after a skipped one still gets its tab, so the line can start with a tab |

## Left out

- Lua stack, metatable, userdata and `__gc` plumbing. The collector hooks are modelled as calls of `free`.
- The TLS engine itself (`ssl_accept`, `ssl_connect`, `ssl_read`, `ssl_write`, certificate and key loading, cipher selection, `set_server_name`, `require_validation`). Each engine call is represented only by the reply it gave.
- The default CA glob over `/etc/ssl/certs` in `ssl.context` (ssl.c:282-293). It is file-system I/O.
- `ssl.new`'s file descriptor. It reaches only the engine.
- The log sink `___log`, and the file:line enrichment through `lua_getstack`/`lua_getinfo` (log.c:79-89). These are I/O and Lua debug-API calls. The sink prints the line with `%s`, so it would stop at an embedded NUL; the model keeps the assembled buffer contents.
- The formatting of Lua numbers by `lua_tolstring`. A number carries its text form as given.
- The raw socket wrappers, the MQTT binding, the clock module and the declarations-only header. They are thin wrappers over foreign libraries or system calls.
- Bufio.New: requires a capacity in 0..INT_MAX. Outside that range, the C code's `int` truncation and `size_t` conversion record a capacity that differs from the allocation (see `Bufio.NewAsWritten` and the findings). The data area of a fresh buffer is uninitialised in C and zero in the model; no operation reads bytes outside `[r, w)`.
- Lua.ToInteger: a string that Lua would coerce to an integer (such as "3") converts to 0 here.
- Log.LuaLog: requires at least one argument. With an empty stack, `lua_remove(L, 1)` is undefined.
- Log.LogCall: `BUFSIZ` is fixed at 8192. Other C libraries use other values; the Render lemmas hold for any room.
- Ssl.Read: assumes the engine returns at most the requested count.
- Ssl.ReadToBuffer: assumes the engine returns at most the requested room. The engine's writes into the room on a failed call are not modelled; the buffer is unchanged.
- Ssl.Write: assumes the engine reports at most the bytes offered.
- Ssl.Negotiate: requires a live session. On a freed session, or one whose engine handle was never created, the C code hands a NULL session to the engine; what the engine does then is outside this model.
- Ssl.Read: requires a live session, for the same reason as `Ssl.Negotiate`.
- Ssl.ReadChecked: requires a live session, for the same reason as `Ssl.Negotiate`.
- Ssl.ReadToBuffer: requires a live session, for the same reason as `Ssl.Negotiate`.
- Ssl.Write: requires a live session, for the same reason as `Ssl.Negotiate`.
- Ssl.Outcome: `Err` stands for both failure shapes of the C code. `negotiate` returns `false` as its first value, while `read`, `read_to_buffer` and `write` return `nil`. The model does not tell them apart.
- Log.Render: counts the room in characters of the model's strings. Lua strings are byte strings, and `Lua.LuaValue` writes them as `string` with one character standing for one byte. For characters outside 0..255 there is no such byte, and C, counting bytes, could cut a multi-byte sequence in the middle.

## Findings

| source | as written | input that shows it | evidently intended | confidence | as-written member | corrected member |
|---|---|---|---|---|---|---|
| bufio.c:14-22 | the size is an `int` added to `sizeof(struct eco_bufio)` in `size_t`, and no sign check is made | `bufio.new(-1)`: the userdata gets 23 bytes, fewer than the 24-byte header, and the capacity field records 2^64-1, so the header's initialisation and any `write` overrun the allocation | a negative size raises an argument error | high, not executed | Bufio.SmallNegativeSizeOverstatesCapacity | Bufio.NewChecked |
| bufio.c:110-116 | the buffer bytes are compared as plain `char` with the `int` argument | where `char` is signed, `b:index(200)` on a buffer holding byte 200 returns -1, because that byte compares as -56 | `index` finds byte `c` for every code 0..255 | medium, not executed | BufioLaws.HighCodeNeverMatchesSignedChar | Bufio.ByteIndex |
| ssl.c:121-127 | `n` is a `size_t`, so the guard `n < 1` rejects only 0 | `s:read(-1)`: `n` becomes 2^64-1, passes the guard, the allocation fails, and the caller gets SSL_ERROR with the allocator's message | every count below 1 raises "must be greater than 0" | medium, not executed | Ssl.NegativeReadSizePassesGuard | Ssl.ReadChecked |
