# A verified model of the mazec game server core

mazec is a server for programming games. Each player runs a program that
connects to the server over TCP, logs in, picks a level, and moves through a
maze with four-letter text commands: `MOVE`, `WHAT`, `MAZE`, `GETX`, `WAIT`
and the rest. The server answers each command with a `DONE`, `DATA`, `NOPE` or
`OVER` line. Spectators connect with a browser. They open a WebSocket (the
HTTP upgrade handshake of RFC 6455) and receive the screen as binary frames:
a run-length encoded 34 by 34 grid and a list of sprites. The client
libraries in C# and Java turn the server's `MAZE` answer into a map of the
maze.

This project models that core in Dafny and proves properties of the model:

- **Game line protocol** (`ProtoLine`, `Proto`, `ProtoRequests`).
  - The byte-at-a-time reader of a request line: four capitals, optional
    blanks, a bounded value, then LF or CR LF.
  - The reply lines and the `DATA` numbers.
  - `get_2_int` and the level code check.
  - The three phases of a connection (user, level, command).
  - The count of bound connections, the level deadline, the idempotent
    `WAIT` pause and resume, and the fixed table of level timers.
  - Proved: a request a client writes is read back as its command and
    value; two numbers printed with a space parse back as themselves; a
    pause freezes the time left and a second pause changes nothing.
- **WebSocket handshake** (`HttpData`, `HttpConnection`).
  - The two-variable tokenizer over the request line and folded header lines.
  - The chain of token handlers that check the request fields of section
    4.2.1 of RFC 6455.
  - The reply of section 4.2.2 and the error status lines.
  - Both revisions of the handshake, told apart by a `Revision` value.
- **WebSocket frames** (`WsCodec`, `WsData`, `WsConnection`).
  - The frame encoder and its round trip through a decoder of server frames.
  - The byte-at-a-time parser of client frames, unmasking, fragment
    reassembly with its size bound, ping answered by pong, and close codes.
  - The registry of open connections.
- **Managed sockets** (`Sockets`).
  - A bounded FIFO of outgoing messages with a resume cursor.
  - Ancillary data released at most once, a one-shot drained callback,
    reference counting and dead sockets.
  - Proved: unless a send fails, the bytes sent followed by the bytes still queued are exactly
    the bytes that were queued.
- **Screen encoder** (`Draw`).
  - The 4-byte header, the run-length encoding of the grid, sprite records
    and change tracking.
  - Proved: decoding the encoded grid gives the grid back.
- **Helpers**.
  - `Clock`: `timespec` arithmetic over a cached clock.
  - `CString`: `rstrip` and `strlcpy` over NUL-terminated buffers.
  - `CInt`: C and C# integer semantics.
- **Levels** (`Level`, `Grid`, `Simple`, `Centered`).
  - The movement rules and player lists.
  - The viewport of the simple level that follows its players.
  - The 33 by 33 window of the centred level.
- **User table** (`Db`).
  - `db_reload` reconciles the active and inactive user lists with the
    lines of the user file. Proved: reloading twice is reloading once.
  - The lookups by login and by pid.
- **Client maps** (`MazeClient`, `Preparsed`).
  - The .NET `MazeMap`, with C#'s unchecked 32-bit arithmetic, and its
    indexer, `TryGet`, `ForAll` and move replies.
  - The Java `PreparsedMazeMap`.
  - Proved: the two clients agree on every cell.

The source changes state in place, and the model follows it. Each C struct
that is updated field by field becomes a class:

- `Proto.Server` and `Proto.Conn`
- `WsConnection.WsConn`
- `HttpConnection.HttpConn`
- `Sockets.Socket`
- `Draw.Screen`
- `Db.Table`
- the level classes

Each method is proved against a function that specifies it, and the
properties are proved about those functions. The model does not perform
input or output. Anything the code only asks of the world is an effect,
recorded in order in a `log` field:

- writes to sockets
- socket deletions and pauses
- timer changes
- broadcasts

Anything it learns from the world is a parameter:

- clock readings
- `sendmsg` results
- level callbacks
- `db_user_exists`
- the accept key

Where the code has a defect listed under "Findings", the model states the
code as written beside the corrected definition and proves the defect about
the former. The classes and the functions that specify them run the
corrected definition. "Left out" names each function and method with a
row under "Model" that runs one, directly or through the members it calls;
the lemmas about those members are stated for the corrected definitions
too.

## Model

| member | source | states |
|---|---|---|
| CString.StrLen | server/common.c:60-64 | the length `strlen` finds: no NUL before it, and a NUL at it when it is inside the buffer |
| CString.CStr | server/common.c:60-64 | the text of a NUL-terminated buffer holds no NUL |
| CString.CStrOfTerminated | server/common.c:60-64 | a text written with a NUL after it reads back as itself |
| CString.RStrippedSpec | server/common.c:60-67 | the reference for `rstrip`: a prefix of the text, with only white space (space, tab, CR, LF) dropped, and not ending in white space |
| CString.RStrippedUnique | server/common.c:60-67 | the reference is the only such prefix |
| CString.RStripIdempotent | server/common.c:60-67 | stripping twice is stripping once |
| CString.RStripAllSpace | server/common.c:60-67 | a text of white space only strips to the empty text |
| CString.RStripKeepsNul | server/common.c:60-67 | stripping a text with no NUL yields one with no NUL |
| CString.RStrip | server/common.c:60-67 | `rstrip` writes one NUL, just after the reference's prefix, and the buffer then reads as the stripped text |
| CString.Truncated | server/common.c:69-85 | what fits in a buffer of `size` bytes: the whole source or its first `size - 1` characters, always a prefix |
| CString.StrLCopy | server/common.c:69-85 | `strlcpy` returns the source's length; with size 0 nothing is written, otherwise the truncated prefix and a NUL are written and nothing after them changes; truncation happened exactly when the result is at least `size` |
| Clock.TimeAddValue | server/time.c:21-34 | `time_add` moves the instant by exactly `ms` milliseconds |
| Clock.TimeAddNormalized | server/time.c:21-34 | for a normalised instant and a non-negative delay the nanoseconds stay below one second |
| Clock.LaterIsStrictOrder | server/time.c:43-51 | `time_after`'s comparison of seconds then nanoseconds is the strict order of the instants |
| Clock.MsLeft | server/time.c:53-63 | `time_left` never answers a negative number |
| Clock.MsLeftAfterDeadline | server/time.c:53-63 | a passed deadline leaves no time |
| Clock.MsLeftOfTimeAdd | server/time.c:21-63 | a deadline set `ms` from the same instant leaves exactly `ms` |
| Clock.Clock.constructor | server/time.c:4-5 | the cache starts invalid |
| Clock.Clock.FlushCache | server/time.c:7-10 | the cache is invalidated and its value kept |
| Clock.Clock.Now | server/time.c:12-19 | the clock is read only when the cache is invalid; the answer is the cached value |
| Clock.Clock.FromNow | server/time.c:36-41 | the deadline is the cached instant moved by `ms`, exactly `ms` milliseconds later |
| Clock.Clock.After | server/time.c:43-51 | the answer is whether the cached instant is strictly later |
| Clock.Clock.Left | server/time.c:53-63 | the answer is `MsLeft` of the deadline at the cached instant |
| Draw.Consumed | server/draw.c:46-63 | one pass of `emit_field`'s loop covers at least one cell and at most the cells left |
| Draw.Chunk | server/draw.c:46-63 | one pass writes one byte for one or two cells, or a marked colour and a count for a run of 3 to 258 |
| Draw.EmitField | server/draw.c:46-63 | a field of `n` cells is encoded in at most `n` bytes |
| Draw.TailRunSpec | server/draw.c:81-92 | the run the loop closes is the longest stretch of equal cells ending at that point |
| Draw.TailRunOfRun | server/draw.c:81-92 | any maximal stretch of equal cells ending at that point is that run |
| Draw.EncodePrefixRun | server/draw.c:81-93 | closing a maximal run appends exactly its field to the encoding so far |
| Draw.EncodeGrid | server/draw.c:81-93 | the run-length encoding of the grid is never longer than the grid |
| Draw.DecodeLiteral | server/draw.c:52-55 | a byte without the run bit decodes to itself |
| Draw.DecodeRunPair | server/draw.c:57-61 | a marked colour and a count decode to `count + 3` cells of the colour |
| Draw.DecodeEmitField | server/draw.c:46-63 | the bytes of a field decode back to its `n` cells of one colour |
| Draw.DecodeEncodePrefix | server/draw.c:81-93 | decoding the encoding of a prefix of cells gives that prefix back |
| Draw.DecodeEncodeGrid | server/draw.c:81-93 | round trip: decoding the encoded grid gives the grid back, for colours below 0x80 |
| Draw.EncodeSprite | server/draw.c:95-106 | a sprite record is four bytes when rotated and three otherwise |
| Draw.EncodeSprites | server/draw.c:95-106 | the sprite section is at most four bytes per sprite |
| Draw.Modulo | server/draw.c:192-198 | `modulo` is the mathematical remainder, in [0, divisor) |
| Draw.BitsValue | server/draw.c:17 | the button mask as a number fits in as many bits as there are buttons |
| Draw.Header | server/draw.c:70-79 | the header is four bytes: origin offsets, button byte, low byte of the seconds, bank |
| Draw.Screen.constructor | server/draw.c:32-44 | `draw_init`: no seconds (-1), no buttons, bank 0, origin 0, an empty screen, an empty message |
| Draw.Screen.Put | server/draw.c:52 | appends one byte to the message |
| Draw.Screen.EmitFieldAt | server/draw.c:46-63 | `emit_field` appends exactly `EmitField(color, cnt)` to the message |
| Draw.Screen.PutHeader | server/draw.c:70-79 | the message restarts with the four header bytes |
| Draw.Screen.EmitGrid | server/draw.c:81-93 | the grid loop appends exactly `EncodeGrid` of the grid |
| Draw.Screen.CloseRun | server/draw.c:88-89 | closing a run extends the message to the encoding of the grid up to that cell |
| Draw.Screen.PutSprite | server/draw.c:95-106 | appends the sprite's record |
| Draw.Screen.EmitSprites | server/draw.c:95-106 | appends the records of every sprite in list order |
| Draw.Screen.ForceCommit | server/draw.c:65-110 | the message is the whole frame (header, grid, sprites), it fits in the `MSG_MAX_LEN` buffer because the sprite list stays within `MAX_SPRITES`, it is broadcast once, and the change flag is cleared |
| Draw.Screen.Commit | server/draw.c:112-116 | broadcasts a frame exactly when something changed since the last one |
| Draw.Screen.SetSeconds | server/draw.c:118-125 | sets the seconds; the screen counts as changed only when the value differs |
| Draw.Screen.Button | server/draw.c:127-142 | sets or clears the bit of button `button`; changed only when the bit flips |
| Draw.Screen.SetBank | server/draw.c:144-148 | sets the bank and always marks a change |
| Draw.Screen.Clear | server/draw.c:150-162 | no sprites, an all-zero grid, and a change |
| Draw.Screen.SetOrigin | server/draw.c:200-211 | the origin moves and its block start stays aligned to 15; changed only when the origin differs |
| Draw.Screen.Item | server/draw.c:164-190 | off screen nothing changes; an aligned unrotated item sets its grid cell; any other item is appended as a sprite shifted by 15 while the list holds fewer than `MAX_SPRITES` |
| Draw.AppendSpriteAsWritten | server/draw.c:181-189 | as written, the sprite is added at the end of the list, whatever its length |
| Draw.AppendSprite | server/draw.c:27 | the append `MSG_MAX_LEN` is sized for: the sprite is added at the end while the list holds fewer than `MAX_SPRITES`, and a full list is left as it is |
| Draw.RotatedSprites | server/draw.c:95-106 | a list of rotated sprites takes four bytes each in the frame |
| Draw.SpriteOverflowAsWritten | server/draw.c:164-190 | as written, a list of 1514 rotated sprites given one more makes a frame longer than `MSG_MAX_LEN`; the bounded append does not grow such a list |
| Draw.FrameFits | server/draw.c:27 | any frame of the full grid and at most the allowed sprites fits in `MSG_MAX_LEN` bytes |
| CInt.Wrap32 | lib/dotnet/Maze.Client/MazeClient.cs:100 | unchecked C# `int` arithmetic: the result is a 32-bit value congruent to the exact one modulo 2^32, and equal to it when that fits |
| CInt.CDivRem | server/draw.c:192-198 | C's `/` rounds toward zero and `%` takes the dividend's sign; both agree with Euclidean division for a non-negative dividend |
| CInt.Xor8Twice | server/websocket_data.c:245 | masking a payload byte twice with the same key byte gives it back |
| CInt.DigitsRoundTrip | server/proto.c:109-137 | the digits `%d` prints for a natural number read back as that number |
| CInt.DecimalInt32Length | server/proto.c:115-129 | an `int` prints in at most 11 characters, so the 12 bytes per member `p_send_data` reserves hold it with its space |
| Level.CellIndex | server/levels/grid.c:96 | the row-major index of a cell inside the level lies inside the level data |
| Level.CellIndexUnique | server/levels/grid.c:96 | distinct cells of a level have distinct row-major indices |
| Level.KeyStep | server/levels/grid.c:74-90 | exactly the keys 'w', 's', 'a' and 'd' are movements, each to a neighbouring cell |
| Level.CellVerdict | server/levels/grid.c:96-114 | an empty cell is walked onto, a wall refuses with its message, the treasure wins, and any other colour is handed back with its position |
| Level.MoveReply | server/levels/grid.c:188-198 | `grid_move` answers no message exactly when the player walked or turned; `win` is set exactly for the treasure, with the winning message; a cell handed back gets the wall message |
| Level.Player.constructor | server/levels/grid.c:38-49 | the new player stands at the given start and faces angle 0 |
| Grid.GridLevel.constructor | server/levels/grid.c:17-31 | `grid_init` keeps the size, level and start, with no player and no move-commit callback |
| Grid.GridLevel.SetMoveCommit | server/levels/grid.c:33-36 | sets whether the move-commit callback is present |
| Grid.GridLevel.GetData | server/levels/grid.c:38-49 | a fresh player at the start position is appended to the end of the list |
| Grid.GridLevel.FreeData | server/levels/grid.c:51-59 | the player's node is unlinked; the others keep their order, and the list loses exactly that one player |
| Grid.GridLevel.Apply | server/levels/grid.c:97-102 | a walk moves the player, a turn turns it, and the callback is called once for either when it is set |
| Grid.GridLevel.TryMove | server/levels/grid.c:61-115 | `grid_try_move` returns true exactly on a walk; `win`, the message, the handed-back cell, the new position and the callback count all follow the verdict on the key and the cell |
| Grid.GridLevel.TryOMove | server/levels/grid.c:117-186 | `grid_try_o_move`: 'a' and 'd' turn by 90 degrees with C's remainder and count as a move, 'w' steps where the player faces, anything else is unknown |
| Grid.GridLevel.Move | server/levels/grid.c:188-198 | `grid_move` answers `MoveReply` of the verdict; the player ends up where the verdict puts it and keeps its angle, and the move-commit callback runs once exactly for a walk while it is set |
| Grid.GridLevel.OMove | server/levels/grid.c:200-210 | `grid_o_move` answers `MoveReply` of the oriented verdict; a walk moves the player, a turn sets its angle, anything else leaves both, and the move-commit callback runs once exactly for a walk or a turn while it is set |
| Grid.GridLevel.WalkRule | server/levels/grid.c:74-102 | a player walks exactly when the key is a movement and its cell lies in the level and is empty; that cell neighbours the player's |
| Grid.GridLevel.RefusalRule | server/levels/grid.c:87-94 | a key is refused as unknown exactly when it is not a movement, and as out of the maze exactly when its cell lies outside |
| Grid.GridLevel.ForwardIsKey | server/levels/grid.c:148-161 | stepping forward facing 0, 90, 180 or 270 degrees is the 'w', 'a', 's' or 'd' movement |
| Grid.GridLevel.Verdict | server/levels/grid.c:61-115 | a walk, or a cell of another colour, is a neighbouring cell inside the level; the treasure is reached only with a movement key; a plain move never turns |
| Grid.GridLevel.OVerdict | server/levels/grid.c:117-186 | a turn exactly for 'a' or 'd'; a key other than 'w', 'a' and 'd' is refused as unknown |
| Grid.GridLevel.ForwardInPlace | server/levels/grid.c:148-167 | facing no listed angle, 'w' looks at the player's own cell |
| Grid.TurnedInRange | server/levels/grid.c:134-139 | a turn from an angle in [0, 360) stays in [0, 360), wrapping once past 360 |
| Grid.TurnsUndo | server/levels/grid.c:134-139 | a left turn undoes a right turn and the other way round |
| Grid.FullCircle | server/levels/grid.c:134-137 | four left turns face the player the way it faced |
| Grid.TurnsKeepDirections | server/levels/grid.c:134-161 | a turn from one of the four directions lands on one of them |
| Centered.Slot | server/levels/centered.c:48 | a window cell's row-major slot lies inside the 33 by 33 window |
| Centered.SlotUnique | server/levels/centered.c:48 | distinct window cells have distinct slots |
| Centered.CenteredLevel.constructor | server/levels/centered.c:10-19 | `centered_init` hands the level to the grid helper and sets its move-commit callback |
| Centered.CenteredLevel.LevelSeen | server/levels/centered.c:21-33 | a level cell within 16 cells of the player, other than the player's, is shown at its offset from the window's centre |
| Centered.CenteredLevel.WindowFrame | server/levels/centered.c:21-33 | the player is shown at the centre, and a window cell outside the level is empty |
| Centered.CenteredLevel.What | server/levels/centered.c:35-42 | out of the maze exactly for a cell outside the window, else that cell's colour |
| Centered.CenteredLevel.Maze | server/levels/centered.c:44-53 | every cell of the window buffer holds the colour `What` answers for it, and the length is 33 * 33 |
| Centered.CenteredLevel.GetX | server/levels/centered.c:55-59 | the player's column is always the window's centre, 16 |
| Centered.CenteredLevel.GetY | server/levels/centered.c:61-65 | the player's row is always the window's centre, 16 |
| Centered.CenteredLevel.GetW | server/levels/centered.c:67-71 | the width answered is the window's, not the level's |
| Centered.CenteredLevel.GetH | server/levels/centered.c:73-77 | the height answered is the window's, not the level's |
| MazeClient.NewMazeMapAsWritten | lib/dotnet/Maze.Client/MazeClient.cs:98-104 | the constructor as written accepts exactly the data whose length equals the 32-bit wrapped product of the size |
| MazeClient.WrappedSizeAccepted | lib/dotnet/Maze.Client/MazeClient.cs:98-125 | a 65536 by 65536 map with no cells is accepted, `TryGet` of (0, 0) then throws, and `ForAll` promises cells there are not, so it throws before any call |
| MazeClient.NewMazeMap | lib/dotnet/Maze.Client/MazeClient.cs:98-104 | the intended check: accepted exactly when the data holds `width * height` cells, giving a valid map |
| MazeClient.ChecksAgree | lib/dotnet/Maze.Client/MazeClient.cs:100 | both checks agree whenever the product fits in an `int` |
| MazeClient.Get | lib/dotnet/Maze.Client/MazeClient.cs:107 | the indexer answers exactly when its wrapped index `x + y * Width` lies in the data |
| MazeClient.GetInside | lib/dotnet/Maze.Client/MazeClient.cs:107 | on a valid map a cell inside the size is read at its row-major index |
| MazeClient.GetRunsOver | lib/dotnet/Maze.Client/MazeClient.cs:107 | the indexer does not check columns: one past a row's end reads the next row's first cell |
| MazeClient.TryGet | lib/dotnet/Maze.Client/MazeClient.cs:109 | a position outside the size answers nothing |
| MazeClient.TryGetSafe | lib/dotnet/Maze.Client/MazeClient.cs:109 | on a map the corrected constructor accepts, `TryGet` never throws, answers nothing exactly outside the size, and the cell at its row-major index inside |
| MazeClient.Cells | lib/dotnet/Maze.Client/MazeClient.cs:119-125 | the number of cells `ForAll` walks; on a map with as many cells as its size, all of them when both sides are positive and none otherwise |
| MazeClient.PositionOfOffset | lib/dotnet/Maze.Client/MazeClient.cs:119-125 | the call at a cell's row-major index is the call for that cell's position |
| MazeClient.RowsInOrder | lib/dotnet/Maze.Client/MazeClient.cs:119-125 | the rows of a valid map, one after another, are its cells in the order the counter walks them |
| MazeClient.RowsCells | lib/dotnet/Maze.Client/MazeClient.cs:119-125 | the first `y` rows make `y * width` calls, and the call at a cell's row-major index passes that cell's position and value |
| MazeClient.WalkRow | lib/dotnet/Maze.Client/MazeClient.cs:122-124 | the inner loop over one row: a call for each column, each for the next cell at its position, or the exception of `Data[i++]` once the counter reaches the end of the data before the row ends |
| MazeClient.ForAll | lib/dotnet/Maze.Client/MazeClient.cs:119-125 | on any map: the `k`-th call is for the `k`-th cell at its row-major position, and the loop throws exactly when the size promises more cells than the data holds, after a call for every cell there is; on a valid map it never throws and its calls are the rows one after another, every cell once at its row-major index |
| MazeClient.Move | lib/dotnet/Maze.Client/MazeClient.cs:69-78 | `DONE` is an `OkMoveResult`, `NOPE` an `ErrorMoveResult` with the server's message, and any other status throws |
| MazeClient.ServerMoveUnderstood | lib/dotnet/Maze.Client/MazeClient.cs:69-78 | the server's reply to a move that does not end the game reads back as the move's result and the level's message |
| MazeClient.Client.constructor | lib/dotnet/Maze.Client/MazeClient.cs:10-13 | a new client has sent nothing and knows no size |
| MazeClient.Client.Width | lib/dotnet/Maze.Client/MazeClient.cs:25-27 | `GETW` is sent only the first time; later calls answer the kept width |
| MazeClient.Client.Height | lib/dotnet/Maze.Client/MazeClient.cs:28-30 | `GETH` is sent only the first time; later calls answer the kept height |
| MazeClient.Client.GetMaze | lib/dotnet/Maze.Client/MazeClient.cs:51 | `MAZE` is sent before any missing size is asked for, and the map is built as the constructor builds it |
| Preparsed.PreparsedMazeMap.constructor | lib/java/cz/protab/maze/PreparsedMazeMap.java:21-31 | the array has `height` rows of `width` cells, filled row by row from the integers in the order the scanner reads them |
| Preparsed.PreparsedMazeMap.Parse | lib/java/cz/protab/maze/PreparsedMazeMap.java:21-31 | construction fails exactly for a negative size or too few integers; otherwise the grid is built as above |
| Preparsed.PreparsedMazeMap.GetWidth | lib/java/cz/protab/maze/PreparsedMazeMap.java:33-36 | the width is the length of every row |
| Preparsed.PreparsedMazeMap.GetHeight | lib/java/cz/protab/maze/PreparsedMazeMap.java:38-41 | the height is the number of rows |
| Preparsed.PreparsedMazeMap.ValueAt | lib/java/cz/protab/maze/PreparsedMazeMap.java:43-46 | `map[y][x]`, and an exception exactly outside the map |
| Preparsed.ClientsAgree | lib/java/cz/protab/maze/PreparsedMazeMap.java:21-46 | the Java and .NET maps built from the same integers give the same value for every cell and nothing outside |
| Simple.ArgMax | server/levels/simple.c:190-201 | the index `find_max` returns lies inside a non-empty array, and is 0 for an empty one |
| Simple.ArgMaxIsLowestMax | server/levels/simple.c:190-201 | that index holds the largest value, and no earlier index holds it |
| Simple.FindMax | server/levels/simple.c:190-201 | the loop returns `ArgMax` of the values |
| Simple.EdgeAxis | server/levels/simple.c:212-229 | one player changes each edge count by at most one |
| Simple.MarginAxis | server/levels/simple.c:241-256 | one player changes each margin count by at most one |
| Simple.Count | server/levels/simple.c:212-256 | one player's four counts each lie in [-1, 1]; a player out of view adds no margin count |
| Simple.TallyBounded | server/levels/simple.c:212-256 | no count exceeds the number of players in size |
| Simple.BestIsArgMax | server/levels/simple.c:231 | `find_max` over the four counts picks the first largest of up, down, left, right |
| Simple.PassFits | server/levels/simple.c:210-260 | a pass's counts fit the C `int`s `find_max` compares, and it picks the first largest |
| Simple.Direction | server/levels/simple.c:203-262 | the chosen direction is one of the four or none |
| Simple.ComfortableStays | server/levels/simple.c:203-262 | with every player more than `BORDER` cells inside every edge of the view, the viewport stays put |
| Simple.FollowsUp | server/levels/simple.c:212-231 | a lone player just above the view, not at a side edge, pulls the viewport up |
| Simple.PaintedCell | server/levels/simple.c:80-91 | a cell of the painted copy holds the player colour exactly when a player stands on it, else the level's colour |
| Simple.Relocated | server/levels/simple.c:121-127 | the positions after one player moves: that player's changes, every other's stays |
| Simple.SimpleLevel.constructor | server/levels/simple.c:20-35 | `simple_init` keeps the level, allocates the copy and puts the start at the centre of the viewport |
| Simple.SimpleLevel.Index | server/levels/simple.c:76 | a cell inside the level has its index inside the data |
| Simple.SimpleLevel.ViewportStep | server/levels/simple.c:264-281 | an update moves the origin by at most one cell along one axis, up or left only above 0, down or right only short of the level's far edge |
| Simple.SimpleLevel.Viewport | server/levels/simple.c:203-282 | a viewport that lies within the level stays within it: its origin stays in [0, width - W] and [0, height - H] |
| Simple.SimpleLevel.WhatMatchesMaze | server/levels/simple.c:62-91 | `simple_what` answers for every cell inside the level what `simple_maze` paints there |
| Simple.SimpleLevel.EdgeStep | server/levels/simple.c:213-228 | one player's step of the first pass adds `EdgeAxis` to the two counters of an axis |
| Simple.SimpleLevel.MarginStep | server/levels/simple.c:241-256 | one player's step of the second pass adds `MarginAxis` to the two counters of an axis |
| Simple.SimpleLevel.Counted | server/levels/simple.c:212-257 | one player's counts are added to the four counters; the second pass skips a player out of view |
| Simple.SimpleLevel.Pass | server/levels/simple.c:210-257 | a counting pass over the player list yields the tally of every player's counts |
| Simple.SimpleLevel.ChooseDirection | server/levels/simple.c:210-262 | the direction chosen is `Direction` of the players' positions |
| Simple.SimpleLevel.UpdateViewport | server/levels/simple.c:203-282 | the new origin is `Viewport` of the players' positions and the old origin |
| Simple.SimpleLevel.GetData | server/levels/simple.c:37-50 | a fresh player at the start is appended, the viewport follows the players including it, and the level is marked dirty |
| Simple.SimpleLevel.FreeData | server/levels/simple.c:52-60 | the player's node is unlinked, the others keep their order, and the viewport does not move |
| Simple.SimpleLevel.SetXY | server/levels/simple.c:121-130 | the player stands at (x, y) facing `angle`, the viewport follows, the level is marked dirty |
| Simple.SimpleLevel.WalkRule | server/levels/simple.c:141-162 | a player walks exactly when the key is a movement onto a cell that is empty in the level data, next to the player's; other keys are unknown |
| Simple.SimpleLevel.Verdict | server/levels/simple.c:132-176 | a key other than 'w', 's', 'a' and 'd' is refused as unknown, and only such a key; a walk, or a cell of another colour, is next to the player's cell; a move never turns |
| Simple.SimpleLevel.TryMove | server/levels/simple.c:132-176 | `simple_try_move` returns what the verdict says; a walk moves the player facing angle 0 through `simple_set_xy`, and nothing else changes anything |
| Simple.SimpleLevel.Move | server/levels/simple.c:178-188 | `simple_move` answers `MoveReply` of the verdict; on a walk the player moves to the cell, faces angle 0, the screen is marked for a redraw and the viewport is updated for the new positions; otherwise nothing changes |
| Simple.SimpleLevel.What | server/levels/simple.c:62-78 | out of the maze outside the level; the player colour where a player stands; the level's colour otherwise |
| Simple.SimpleLevel.Maze | server/levels/simple.c:80-91 | the copy is the level with every player's cell painted, and its length is `width * height` |
| Simple.SimpleLevel.GetX | server/levels/simple.c:93-99 | answers the player's column |
| Simple.SimpleLevel.GetY | server/levels/simple.c:101-107 | answers the player's row |
| Simple.SimpleLevel.GetW | server/levels/simple.c:109-113 | answers the level's width |
| Simple.SimpleLevel.GetH | server/levels/simple.c:115-119 | answers the level's height |
| Db.User.constructor | server/db.c:114-118 | a new record has the login, no pid and no pipe |
| Db.Logins | server/db.c:37-55 | the logins of a list, one per record, in list order |
| Db.Pids | server/db.c:57-65 | the pids of a list, one per record, in list order |
| Db.StripNl | server/db.c:67-76 | `strip_nl` reports whether the text ended in a newline, and removes exactly that newline |
| Db.FileLogins | server/db.c:95-130 | each line of the file gives one login, in file order |
| Db.LoginOfLine | server/db.c:95-129 | the login taken from a line is its first 30 characters without the newline; the rest of a longer line is discarded |
| Db.DedupSpec | server/db.c:107-123 | the logins recorded are those read, each once: a duplicate is only warned about |
| Db.RemainingSpec | server/db.c:99-106 | the records no line names stay inactive, in their old order, without duplicate logins |
| Db.RemainingMember | server/db.c:99-106 | a record remains inactive exactly when it was in the pool and no line named it |
| Db.RemainingUnique | server/db.c:99-106 | the remaining inactive records keep distinct logins |
| Db.RemainingStep | server/db.c:95-130 | reading one more line removes its login from the inactive records remaining so far |
| Db.RemoveLogin | server/db.c:99-106 | unlinking the first record with the login removes it from the list, or nothing when there is none |
| Db.StepBack | server/db.c:99-106 | an inactive record whose login is read moves to the end of the active list, and the table stays reconciled |
| Db.BackInactive | server/db.c:99-106 | that record is the pool's, and the inactive list then lacks exactly it |
| Db.UniqueMember | server/db.c:37-55 | in a list with distinct logins, the login identifies the record |
| Db.StepDup | server/db.c:110-112 | a login already active changes nothing |
| Db.StepNew | server/db.c:113-122 | an unknown login gets a new record, with no process, at the end of the active list |
| Db.RemainingAppend | server/db.c:90-93 | what remains of two lists joined is what remains of each, joined |
| Db.RemainingExtremes | server/db.c:99-106 | nothing remains when every login is read, everything when none is |
| Db.ReloadIdempotent | server/db.c:78-137 | reloading the same file twice gives the same active and inactive lists as reloading it once |
| Db.InactiveStays | server/db.c:90-106 | on the second reload the inactive records are those of the first |
| Db.NoneDone | server/db.c:99-106 | a record with a login that was read is not among records none of whose logins was read |
| Db.ActiveStays | server/db.c:90-123 | on the second reload the active records are those of the first, in the same order |
| Db.SameActive | server/db.c:99-123 | each active record of the second reload is the first reload's record with its login |
| Db.Table.constructor | server/db.c:22-23 | both lists start empty |
| Db.Table.ReconciledFacts | server/db.c:78-137 | after a reload no login has two records, and the active logins are exactly those read |
| Db.Table.FindLoginAt | server/db.c:37-45 | `find_login_ptr` stops at the first record with the login, or at the end |
| Db.Table.FindLogin | server/db.c:47-55 | found exactly when a record has the login, and then it is the first such record |
| Db.Table.FindPid | server/db.c:57-65 | found exactly when a record has the pid, and then it is the first such record |
| Db.Table.Admit | server/db.c:96-129 | one line read keeps the table reconciled with the logins read so far |
| Db.Table.Reload | server/db.c:78-137 | `db_reload`: an unopened file returns `-errno` and changes nothing; otherwise 0, the records reconciled with the file's logins, no login twice, and every active record either an old one or new |
| Db.Table.AdmitAll | server/db.c:95-130 | the reading loop leaves the table reconciled with every line of the file |
| Db.Table.StartProcess | server/db.c:153-166 | the active record with the login gets the pid and the pipe socket, and the pipe is added to the event loop and referenced, in that order; every other record keeps its own; an unknown login changes nothing and asks for nothing |
| Db.Table.EndProcess | server/db.c:168-184 | the first record with the pid, active before inactive, loses its process, and its pipe is deleted from the event loop and unreferenced, in that order; every other record keeps its own; an unknown pid changes nothing and asks for nothing |
| Db.Table.UserExists | server/db.c:186-189 | true exactly when an active record has the login |
| Db.Table.GetPipe | server/db.c:191-201 | no pipe for an unknown login; a record with a pipe returns it and asks for nothing; otherwise a process is spawned, and the pipe returned is the one the started process registers, or none when the spawn fails |
| Db.StartEffects | server/db.c:163-164 | starting a process asks the event loop to add the pipe descriptor as a socket, then takes a reference to that socket, and asks nothing else |
| Db.EndEffects | server/db.c:178-179 | ending a process deletes the pipe socket, then drops the reference to it, and asks nothing else |
| Db.StartEndBalanced | server/db.c:153-184 | for one pipe the references pair up: the start takes exactly one and the end drops exactly one, on the same socket |
| Db.DedupStep | server/db.c:107-123 | a login not read before is appended to the deduplicated logins; a repeated one adds nothing |
| Sockets.Pending | server/socket.c:270-271 | the bytes still to send are `size` bytes from the resume cursor |
| Sockets.Released | server/socket.c:284-294 | releasing a message frees its ancillary buffer and closes its descriptor, one effect for each it holds |
| Sockets.SendStep | server/socket.c:264-305 | one `sendmsg`: would-block keeps the message and stops; a hard error releases and pops it; a complete send reports the bytes, releases and pops; a partial send reports the bytes written, releases, advances the cursor and stops; a zero-byte write pops only an empty message |
| Sockets.DrainFrom | server/socket.c:262-305 | draining the queue stops with the rest of the queue, and has drained exactly when nothing is left |
| Sockets.SentBytesAppend | server/socket.c:262-305 | the bytes sent by two runs of effects are the bytes of each, in order |
| Sockets.ReleaseCountAppend | server/socket.c:284-294 | the releases of two runs of effects add up |
| Sockets.ReleasedCount | server/socket.c:284-294 | releasing a message makes one release per resource held and sends no bytes |
| Sockets.SendStepBytes | server/socket.c:264-305 | without a hard error, one step sends a prefix of the pending bytes and keeps exactly the rest pending |
| Sockets.SendStepReleases | server/socket.c:284-294 | one step releases no resource twice: what it releases plus what the kept message still holds is at most what it held |
| Sockets.QueuedBytesShift | server/socket.c:262-305 | the bytes queued from a point depend only on the messages from that point |
| Sockets.HeldShift | server/socket.c:262-305 | the resources held from a point depend only on the messages from that point |
| Sockets.DrainKeepsOrder | server/socket.c:262-305 | without a hard error, the bytes sent followed by the bytes still queued are the queued bytes as they were: nothing lost, duplicated or reordered |
| Sockets.DrainReleasesOnce | server/socket.c:262-305 | draining never releases a resource twice: releases plus what remains held is at most what was held |
| Sockets.ReleaseUpToCount | server/socket.c:315-329 | dropping a queue releases every resource it holds exactly once and sends nothing |
| Sockets.DrainUnfold | server/socket.c:264-305 | a drain is one step followed by the drain of the rest, unless the step stops |
| Sockets.Socket.Add | server/socket.c:67-88 | no socket exactly when `event_add_fd` fails; otherwise one reference, live, closing its descriptor, no callback, an empty queue |
| Sockets.Socket.constructor | server/socket.c:72-82 | the fields as `socket_add` sets them |
| Sockets.Socket.SetWriteDone | server/socket.c:90-93 | installs the drained callback |
| Sockets.Socket.SetUnmanaged | server/socket.c:95-99 | the descriptor will not be closed, and it is returned |
| Sockets.Socket.StopReading | server/socket.c:106-111 | a dead socket answers 0 and asks nothing; otherwise read interest is removed and its result returned |
| Sockets.Socket.Pause | server/socket.c:113-118 | a dead socket answers 0 and asks nothing; otherwise the pause is requested and its result returned |
| Sockets.Socket.Del | server/socket.c:120-123 | the socket leaves the event table and is queued for killing unless it already was |
| Sockets.Socket.FlushAndDel | server/socket.c:130-136 | with an empty queue the socket is deleted at once; otherwise deletion becomes the drained callback |
| Sockets.Socket.Ref | server/socket.c:138-141 | one more reference |
| Sockets.Socket.DelWqueue | server/socket.c:315-329 | the queue is emptied, each message's resources released in queue order |
| Sockets.Socket.Unref | server/socket.c:143-153 | one reference fewer; at zero the queue is dropped, the destructor runs if set, the descriptor is closed if managed, and the socket is freed |
| Sockets.Socket.Kill | server/socket.c:59-65 | the socket is marked dead and drops the event layer's reference |
| Sockets.Socket.ReleaseDeleted | server/socket.c:59-65 | a socket queued for killing is killed once, and any other socket is left alone |
| Sockets.Socket.ReadAncil | server/socket.c:155-193 | a dead socket or a failed `recvmsg` reads nothing; otherwise the data and the ancillary size received |
| Sockets.Socket.QueueData | server/socket.c:195-215 | the message is appended at the tail of the queue and the count goes up by one |
| Sockets.Socket.WriteAncil | server/socket.c:217-255 | a dead socket accepts and drops the message, freeing a stolen ancillary buffer; a full queue refuses with `-ENOBUFS`; a failed write-interest request returns its error; otherwise write interest is asked for and the message is appended |
| Sockets.Socket.Write | server/socket.c:257-260 | `socket_write` is `WriteAncil` with no ancillary data and no descriptor: a dead socket answers 0 and queues nothing, a full queue refuses with `-ENOBUFS`, a failed write-interest request returns its error with queue and log unchanged, and otherwise write interest is asked for and the whole buffer is appended to the queue |
| Sockets.Socket.RunWriteDone | server/socket.c:309-312 | the drained callback runs once and is cleared; the delete callback deletes the socket |
| Sockets.Socket.SendLoop | server/socket.c:264-305 | the loop leaves the queue, the effects and the drained flag `DrainFrom` describes |
| Sockets.Socket.ProcessWqueue | server/socket.c:262-313 | after the drain, an emptied queue drops write interest and runs the drained callback once; otherwise nothing more happens |
| Sockets.Socket.Dispatch | server/socket.c:43-57 | the read callback runs first when readable; an error deletes the socket without writing; a writable socket drains its queue |
| ProtoLine.LineStep | server/proto.c:193-236 | one byte of `process_msg_chunk`: a non-capital before the fourth command letter is refused, a capital is appended; after a complete line any byte is impatient; after CR only LF is accepted and marks a CRLF line end |
| ProtoLine.StepKeepsLineOk | server/proto.c:193-236 | every accepted byte keeps at most four command letters, nothing after fewer, and a NUL after the value |
| ProtoLine.ChunkKeepsLineOk | server/proto.c:189-239 | a whole chunk keeps the same reading invariant |
| ProtoLine.ChunkAppend | server/proto.c:267-276 | reading two chunks one after the other is reading them joined, stopping at the first error |
| ProtoLine.ResetAsWritten | server/proto.c:252-256 | the reset after a command, as written: counters and flags cleared, line end and value buffer kept |
| ProtoLine.Reset | server/proto.c:252-256 | the corrected reset: a fresh line with the value buffer emptied |
| ProtoLine.TerminatedValue | server/proto.c:235-236 | the value handlers see is the value read |
| ProtoLine.Reply | server/proto.c:72-97 | `p_send_msg`: the status, then a space and the data when there are data, then the line end the peer used; its length is exactly that |
| ProtoLine.LineParses | server/proto.c:189-239 | a well-formed line is read back as its command, its value and its line end; a line without a value leaves the buffer of the previous line |
| ProtoLine.LettersRead | server/proto.c:194-198 | capitals before the fourth letter are appended to the command |
| ProtoLine.ValueRead | server/proto.c:210-236 | value characters are appended to the buffer, NUL-terminated, while they fit |
| ProtoLine.LineEndRead | server/proto.c:202-229 | CR LF or LF completes the line and records which line end came |
| ProtoLine.Strtol | server/proto.c:286 | base-10 `strtol`: with no digits the value is 0, the end is the start and `errno` is untouched; a value outside `long` sets `ERANGE` |
| ProtoLine.Get2Int | server/proto.c:279-297 | two numbers, each in [0, INT_MAX] |
| ProtoLine.Get2IntAgrees | server/proto.c:279-297 | whenever both numbers are present, the corrected parse answers as `get_2_int` does |
| ProtoLine.Get2IntAsWrittenTakesMissingAsZero | server/proto.c:279-297 | as written, an empty value reads as (0, 0) and "7" as (7, 0); the corrected parse refuses both |
| ProtoLine.Get2IntAsWritten | server/proto.c:279-297 | as written, the numbers given back are each in [0, INT_MAX] |
| ProtoLine.Get2IntRoundTrip | server/proto.c:279-297 | two non-negative `int`s printed with a space between parse back as themselves |
| ProtoLine.TwoInts | server/proto.c:279-297 | the loop over the value in the corrected reading of `get_2_int`, where a missing number refuses the value: it succeeds exactly when `Get2Int` does, with its numbers |
| ProtoLine.ValidIdentifier | server/proto.c:394-404 | true exactly when every character is a lower-case letter or a digit, the empty code included |
| ProtoLine.Values | server/proto.c:117-126 | the members as `p_send_data` reads them: one value per member, bytes read unsigned |
| ProtoLine.Spaced | server/proto.c:127 | the text of `" %d"` per member starts with a space |
| ProtoLine.SpacedLength | server/proto.c:115-129 | 32-bit members take at most 12 characters each, so the loop's buffer never fills |
| ProtoLine.SendDataText | server/proto.c:109-137 | the loop yields every value in decimal, one space apart, with nothing cut off |
| ProtoLine.DataTextWords | server/proto.c:109-137 | splitting a `DATA` text at its spaces gives back each value's decimal text in order |
| ProtoLine.StaleValueAsWritten | server/proto.c:252-256 | as written, `WHAT` with no value after `WHAT x y` reads the old value and is answered for (x, y); with the corrected reset it is refused |
| ProtoLine.LineValue | server/proto.c:189-239 | after the corrected reset, the value a line carries is exactly what handlers see, and empty without one |
| ProtoLine.BufferKeptWithoutValue | server/proto.c:189-239 | a line without a value leaves the value buffer untouched |
| ProtoLine.DecimalSendable | server/proto.c:279-297 | two numbers printed with a space fit the value buffer and hold no forbidden character |
| Proto.Report | server/proto.c:144-149 | `p_report_and_close`: reading stops first, then one `OVER` line with the message, and the socket is flushed and deleted last |
| Proto.UserError | server/proto.c:460-472 | the first line is accepted exactly when it is `USER` naming an existing user |
| Proto.LevelError | server/proto.c:406-458 | the second line is accepted exactly when it is `LEVL` with a code of lower-case letters and digits, the running level's code if one runs, a free place for one more bound connection, and a known level when none runs; a wrong command and a mismatched code give their own messages |
| Proto.PhaseError | server/proto.c:241-257 | the handler of the connection's phase accepts a first line exactly when it is `USER` naming an existing user, refuses a second line other than `LEVL`, and refuses every command of a game once the deadline has passed |
| Proto.Request | server/proto.c:299-392 | no command other than `WAIT` pauses the game |
| Proto.ExpiredFails | server/proto.c:301-302 | once the deadline has passed, every command is refused with the timeout message |
| Proto.CmdOutcome | server/proto.c:299-392 | only `WAIT` without a value pauses, and not after the deadline; before it, a command outside the eight is refused as unknown |
| Proto.MoveOutcome | server/proto.c:305-324 | `MOVE` is refused exactly when its value is not one character, and never pauses |
| Proto.WhatOutcome | server/proto.c:325-332 | `WHAT` is refused exactly when `Get2Int` finds no two numbers; an answer always carries its text |
| Proto.MazeOutcome | server/proto.c:333-343 | `MAZE` is refused exactly for a value or a level without a maze; otherwise the answer is `DATA` exactly when the level gives its cells, and `NOPE` with the reason when it does not |
| Proto.QueryOutcome | server/proto.c:344-375 | a query is refused exactly when it has a value; otherwise it is answered `DATA` exactly when the level gives a number |
| Proto.Concluded | server/proto.c:246-256 | after an accepted line the reader holds a fresh, terminated line with the same line-end mode; a refused line is kept for its report |
| Proto.UnknownCommand | server/proto.c:385-387 | a command is refused as unknown exactly when it is none of the eight commands |
| Proto.ValueRefused | server/proto.c:333-385 | `MAZE`, the four getters and `WAIT` with a value are refused as having an extra parameter |
| Proto.MoveRefused | server/proto.c:305-309 | `MOVE` is refused exactly when its value is not one character |
| Proto.WhatRefused | server/proto.c:325-329 | `WHAT` is refused exactly when its value is not two numbers |
| Proto.MazeRefused | server/proto.c:333-337 | `MAZE` without a value is refused exactly when the level has no maze callback |
| Proto.OnlyWaitPauses | server/proto.c:376-385 | the game pauses exactly on a `WAIT` without a value before the deadline |
| Proto.WinMessage | server/proto.c:157-187 | the closing message of a win is the level's message, a fixed complaint, or a report the recorder gave after "REPORT: " |
| Proto.Paused | server/proto.c:569-585 | `proto_pause` marks the game paused and keeps the deadline; the time frozen is 0 after the free-pause interval, the time left before it, and unchanged when already paused or without a deadline |
| Proto.Resumed | server/proto.c:587-597 | `proto_resume` clears the pause and keeps the frozen time; only the deadline may move |
| Proto.Started | server/proto.c:406-426 | `start_level` leaves the pause state alone, and a level without a time limit gets no new deadline |
| Proto.JoinedAppend | server/proto.c:259-277 | reading two runs of chunks reads their bytes one after the other |
| Proto.Reader.constructor | server/proto.c:474-482 | a new connection has read nothing: no command letters, an empty value, no line end yet |
| Proto.Reader.Step | server/proto.c:193-236 | one byte changes the line as `LineStep` says; a refused byte leaves it as it was and returns the refusal |
| Proto.Reader.ProcessMsgChunk | server/proto.c:189-239 | the loop over a chunk ends where reading its bytes in order ends, stopping at the first refused byte |
| Proto.Reader.ProcessChunks | server/proto.c:259-277 | the chunks read one after the other leave the line that reading their joined bytes leaves, or the first refusal |
| Proto.Reader.ResetLine | server/proto.c:252-256 | after a handled line the reader starts a fresh line with the value emptied |
| Proto.Conn.constructor | server/proto.c:474-482 | a new connection is unbound, in the given phase, with a fresh reader |
| Proto.EndedEffects | server/proto.c:318-323 | a move that wins or loses is answered with the report and the connection closed, the recorder's verdict choosing the message of a win |
| Proto.BuildReply | server/proto.c:72-97 | the buffer `p_send_msg` fills is exactly `Reply` of the status, the data and the line end |
| Proto.Server.constructor | server/proto.c:496-508 | `proto_client_init`: no connections, nothing bound, one bound connection allowed, no level, no deadline, not paused |
| Proto.Server.ClientAdd | server/proto.c:537-559 | a socket the event loop refuses is closed and `-ENOTSOCK` returned; otherwise a connection awaiting `LEVL` joins the front of the list and is greeted with `DONE`, the write's result returned |
| Proto.Server.Join | server/proto.c:551-558 | the added connection awaits `LEVL`, joins the front of the list, and is greeted with `DONE` |
| Proto.Server.Free | server/proto.c:516-535 | `p_free`: the connection leaves the list and the counters; the level frees its data if it can; the close callback runs when the last connection or a bound one goes; the server stays consistent |
| Proto.Server.CondClose | server/proto.c:510-514 | the close callback runs exactly when no connection is left and one is set |
| Proto.Server.Process | server/proto.c:241-257 | the handler of the connection's phase refuses the line exactly as `PhaseError` says, and a refusal changes nothing |
| Proto.Server.Read | server/proto.c:259-277 | a refused byte closes the connection with its message; an incomplete line is kept; a complete line is handled, a refused one closes the connection with its message, an accepted one is cleared |
| Proto.Server.ReadChunks | server/proto.c:264-276 | the chunks are read until a byte is refused, which is reported and closes the connection |
| Proto.Server.CheckMsgComplete | server/proto.c:241-257 | an incomplete line changes nothing; a complete one is handled as `Handle` says |
| Proto.Server.Handle | server/proto.c:241-257 | a complete line is refused with `PhaseError`'s message and the connection closed, or accepted and the line cleared |
| Proto.Server.Conclude | server/proto.c:246-256 | a refusal is reported and closes the connection; an accepted line is reset and nothing is sent |
| Proto.Server.SendMsg | server/proto.c:72-97 | one write of `Reply`, deleting the socket when the write fails; the write's result is returned |
| Proto.Server.SendData | server/proto.c:109-137 | one `DATA` reply with every member in decimal, one space apart |
| Proto.Server.SendInt | server/proto.c:139-142 | one `DATA` reply with the number in decimal |
| Proto.Server.ProcessUser | server/proto.c:460-472 | refuses as `UserError` says; an accepted user's socket is passed on with the login and the line end, and nothing else happens |
| Proto.Server.StartLevel | server/proto.c:406-426 | the level and its code become the running ones, its limit the bound maximum, the clocks as `Started` says; the redraw timer is armed and the kill button shown |
| Proto.Server.ProcessLevel | server/proto.c:428-458 | refuses as `LevelError` says, changing nothing; otherwise the connection is bound and playing, the first one starting the level, and the log holds the start, the data, the screen, the acknowledgement and a pause while the game is paused |
| Proto.Server.Admit | server/proto.c:440-457 | a connection that passed the checks starts the level if it is the first, and is bound; the bound count stays within the maximum |
| Proto.Server.LevelCheck | server/proto.c:428-445 | the checks of `process_level` in their order give `LevelError` |
| Proto.Server.Bind | server/proto.c:446-457 | the connection counts as bound and plays; its data, the screen, the acknowledgement and a paused socket while the game waits are logged in that order |
| Proto.Server.ProcessCmd | server/proto.c:299-392 | `process_cmd` refuses as `CmdOutcome` says, its effects are that outcome's, and only a `WAIT` changes the clocks, as `Paused` says |
| Proto.Server.Live | server/proto.c:305-392 | before the deadline, the same as `ProcessCmd` for the outcome of the line |
| Proto.Server.Dispatch | server/proto.c:305-390 | each command other than `WAIT` has `Request`'s outcome and effects, an unknown one refused |
| Proto.Server.MoveCmd | server/proto.c:305-390 | `MOVE` has `MoveOutcome`'s result and effects: the level's verdict on the character |
| Proto.Server.Answered | server/proto.c:311-390 | an accepted move is answered `DONE`, a refused one `NOPE` with the level's message, or not at all without one |
| Proto.Server.Ended | server/proto.c:318-323 | a won move is reported with the recorder's verdict, a lost one with the level's message |
| Proto.Server.WhatCmd | server/proto.c:325-390 | `WHAT` has `WhatOutcome`'s result and effects: two numbers asked of the level, or a refusal |
| Proto.Server.MazeCmd | server/proto.c:333-390 | `MAZE` has `MazeOutcome`'s result and effects: the cells in decimal, the level's refusal, or a refusal for a value or a level without a maze |
| Proto.Server.QueryCmd | server/proto.c:344-390 | a getter has `QueryOutcome`'s result and effects |
| Proto.Server.Answer | server/proto.c:344-390 | a number becomes a `DATA` reply and a refusal a `NOPE` reply; nothing is refused |
| Proto.Server.WaitCmd | server/proto.c:376-385 | `WAIT` with a value is refused; otherwise `DONE` is written before the pause, and the clocks change as `Paused` says |
| Proto.Server.Pause | server/proto.c:569-585 | the clocks change as `Paused` says; the first pause pauses the timers, then the sockets, then shows the wait button; a second pause does nothing |
| Proto.Server.Resume | server/proto.c:587-597 | the clocks change as `Resumed` says; a paused game resumes the sockets, hides the wait button, then resumes the timers; otherwise nothing happens |
| Proto.Server.TimerNew | server/proto.c:620-632 | a full table gives `-ENOBUFS`; otherwise the result of `timer_new`, and a new timer is appended to the table |
| Proto.Server.TimerDel | server/proto.c:644-654 | the first entry of the timer leaves the table, the others keeping their order; the result is that of `timer_del` |
| Proto.Server.ShiftDown | server/proto.c:648-649 | the `memmove` closes the gap: the entries before `i` stay, the ones after it move down by one |
| Proto.Server.ToggleTimers | server/proto.c:656-666 | every timer of the table is paused or resumed, in table order |
| Proto.Server.ToggleSockets | server/proto.c:561-567 | every socket of the list is paused or resumed, in list order |
| Proto.Server.ReportAndClose | server/proto.c:144-149 | logs exactly `Report` of the message |
| Proto.Server.ReportError | server/proto.c:151-155 | logs `Report` of the refusal's text |
| Proto.Server.ReportWin | server/proto.c:157-187 | logs `Report` of `WinMessage` of the level's message and the recorder's output |
| ProtoRequests.UserLineAccepted | server/proto.c:460-472 | a `USER` line with a sendable name, read from a fresh line, keeps its line end and is accepted exactly when the user exists, refused as unknown otherwise |
| ProtoRequests.LevelLineChecked | server/proto.c:428-458 | a `LEVL` line read from a fresh line is checked on exactly the code it carries |
| ProtoRequests.WhatAnswered | server/proto.c:325-332 | a `WHAT x y` line with two numbers in range, read from a fresh line, asks the level about exactly (x, y) |
| ProtoRequests.WhatRequest | server/proto.c:325-332 | a `WHAT` line whose value parses as (x, y) asks the level about (x, y) |
| ProtoRequests.MoveAsked | server/proto.c:305-324 | a `MOVE c` line read from a fresh line hands exactly `c` to the level, and its verdict decides the outcome |
| ProtoRequests.QueryAnswered | server/proto.c:344-375 | each getter line without a value is answered by its own getter |
| ProtoRequests.BlankIsParam | server/proto.c:344-375 | a getter followed by a space and nothing more counts as having a value and is refused |
| ProtoRequests.ReportShown | server/proto.c:169-177 | a recorder output "REPORT: t" with a line end closes the game with exactly `t` |
| ProtoRequests.OkKeepsMessage | server/proto.c:178-186 | a recorder output starting with "OK" keeps the level's message |
| ProtoRequests.PauseIdempotent | server/proto.c:569-597 | a second pause changes nothing, and neither does a resume of a running game |
| ProtoRequests.PauseFreezesTimeLeft | server/proto.c:569-597 | a pause within the free-pause interval freezes the time left: after the resume the same milliseconds remain |
| ProtoRequests.LatePauseKeepsDeadline | server/proto.c:569-597 | a pause after the free-pause interval keeps the deadline |
| ProtoRequests.StartedDeadline | server/proto.c:406-426 | a level with a time limit gets its deadline that many seconds after its start, and the free-pause interval lasts one second |
| HttpData.EndOfToken | server/websocket_http.c:105-145 | the switch on `token_end`: the byte that ends the token ends it, a line end where the token may end sets up its LF, any other CR or LF aborts, and any other byte is handed back to append |
| HttpData.Tokenize | server/websocket_http.c:56-146 | `tokenizer` read unsigned: it skips, aborts, ends a token (consuming the byte or not, or ending the headers) or hands back the byte to append, a folded line's first blank becoming a space; only a line start can end without consuming, and the headers end only on LF |
| HttpData.TokenizeAsWrittenHighBytes | server/websocket_http.c:56-146 | with `char` signed, as written, a 0xff byte in a header is skipped and a 0xfe byte aborts the request; read unsigned, both are kept |
| HttpData.TokenizeAsWritten | server/websocket_http.c:56-146 | as written, the result is that of `Tokenize` for every byte below 0x80, and the next state is that of `Tokenize` for every byte |
| HttpData.CrNeedsLf | server/websocket_http.c:64-78 | after a CR only LF is accepted: anything else aborts |
| HttpData.StrayEolAborts | server/websocket_http.c:143-144 | a CR or LF where the token may not end aborts |
| HttpData.NoFoldAfterRequestLine | server/websocket_http.c:92-94 | the request line has no continuation line: a blank at the start of the next line aborts |
| HttpData.HasTokenIff | server/websocket_http.c:183-202 | `find_value_token` finds the needle exactly when one of the comma-separated items, with its leading blanks skipped, equals it ignoring case |
| HttpData.HasToken | server/websocket_http.c:183-202 | a value without a comma holds the needle exactly when it equals the needle, leading blanks skipped and case ignored |
| HttpData.ProcessMethod | server/websocket_http.c:257-263 | accepted exactly when the method is `GET`, moving on to the path; otherwise `-ENOTBLK` and nothing changes |
| HttpData.ProcessPath | server/websocket_http.c:249-255 | the path is kept and the version follows, ended by the end of the line with no continuation; in the older revision a failed copy gives `-ENOMEM` |
| HttpData.ProcessHttpVer | server/websocket_http.c:240-247 | accepted exactly when the version is `HTTP/1.1`, moving on to the header names; otherwise `-ENOPROTOOPT` and nothing changes |
| HttpData.ProcessField | server/websocket_http.c:231-238 | the header name is kept without trailing white space, cut to 31 characters, and its value follows, ended by the end of the line |
| HttpData.ProcessValue | server/websocket_http.c:206-229 | the return code is 0 or one of the refusals; an accepted value moves on to the next header name, and a refusal changes nothing |
| HttpData.ProcessValueChecks | server/websocket_http.c:206-229 | `Upgrade` must be `websocket`, `Connection` must hold `upgrade`, `Sec-WebSocket-Version` must be 13, and each sets its bit; a second `Sec-WebSocket-Key` gives `-EEXIST`, the first is kept; other headers are ignored |
| HttpData.Handle | server/websocket_http.c:165 | `wsd->process` calls the handler of the phase: a refusal changes nothing, and after the request line the path is known and kept |
| HttpData.TokenEndLowByte | server/websocket_http.c:161 | the results that end a token are exactly those other than skip and abort whose low byte is zero |
| HttpData.Step | server/websocket_http.c:153-179 | one pass of the loop stops only with a non-zero result, and looks at the same byte again only after a line start |
| HttpData.LoopStepFresh | server/websocket_http.c:153-179 | what is left of the loop after the first pass over a byte: stopped, the same byte again, or the next byte |
| HttpData.LoopStepPending | server/websocket_http.c:153-179 | the second pass over the same byte never asks for a third |
| HttpData.ByteStep | server/websocket_http.c:153-179 | everything the loop does with one byte, a second pass included, halts only with a non-zero result |
| HttpData.StepCode | server/websocket_http.c:148-181 | a pass stops with a handshake code: abort, a full buffer, a handler's refusal or the end of the headers |
| HttpData.StepKeepsValid | server/websocket_http.c:148-181 | a pass keeps the token within its buffer and the request line on space-ended tokens, and the headers end only once the path is known |
| HttpData.ChunkKeepsValid | server/websocket_http.c:148-181 | every chunk ends with a handshake code and keeps that invariant |
| HttpData.FoldStopsNonZero | server/websocket_http.c:148-181 | a chunk that stops early stops with a result other than 0 |
| HttpData.Chunk | server/websocket_http.c:148-181 | an empty chunk leaves the reader as it was and returns 0 |
| HttpData.ChunksConcat | server/websocket_http.c:148-181 | a request split into two chunks reads as the whole: where a chunk ends does not matter |
| HttpData.RequestParses | server/websocket_http.c:56-181 | a well-formed request, read from the start, comes out of the chunk loop as the handlers' verdict on its tokens: method, path, version, then each header's name and value |
| HttpConnection.Status | server/websocket_http.c:265-299 | 400 exactly for a malformed, too long, unsupported or repeated header, 501 exactly for a method other than GET, 505 exactly for a version other than HTTP/1.1, 404 exactly for an unknown user, 500 for anything else |
| HttpConnection.StatusLine | server/websocket_http.c:265-299 | the status line is "HTTP/1.1 ", the three digits of the status, a space, its reason phrase and an empty line |
| HttpConnection.ReportEffects | server/websocket_http.c:265-299 | the silent error deletes the socket and sends nothing; any other stops reading, sends the status line and flushes and closes |
| HttpConnection.ReplyWrites | server/websocket_http.c:349-362 | the reply succeeds exactly when all three writes do, then installing the drained callback; a refused write ends it early with the silent error |
| HttpConnection.HeadersProcessed | server/websocket_http.c:340-363 | the corrected `ws_headers_processed`: a missing handshake bit or key gives `-EINVAL`, a path naming no user `-ENOENT`, both with no effect; success means all checks passed, reading stopped, and the reply was written in three parts with the accept key |
| HttpConnection.Reply | server/websocket_http.c:347-362 | the reply first stops reading; on success the three parts are written with the accept key, and the drained callback installed |
| HttpConnection.MissingKeyCrashes | server/websocket_http.c:340-363 | as written, a request with the three checked headers and a user path but no `Sec-WebSocket-Key` reaches `strlen` of NULL; the corrected function answers it 400; with a key the two agree |
| HttpConnection.HeadersProcessedAsWritten | server/websocket_http.c:340-363 | as written, the server crashes exactly when the checked headers came, the user exists, the first reply write succeeds and no key was sent; with a key it answers as `HeadersProcessed` |
| HttpConnection.HeadersSentEffects | server/websocket_http.c:301-317 | once the reply has drained the socket is deleted first and, when the user has a pipe, the descriptor is handed to the user's worker, the socket made unmanaged exactly when that succeeded; the older revision closes the descriptor instead |
| HttpConnection.ReadChunks | server/websocket_http.c:365-388 | the reads keep the loop invariant and end with a handshake code, the path known at the end of the headers |
| HttpConnection.ReadChunksFront | server/websocket_http.c:370-378 | an empty read ends the loop; otherwise the chunk is processed and a non-zero result ends it |
| HttpConnection.ReadChunksConcat | server/websocket_http.c:365-388 | where the reads split the request does not matter: the chunks read as their concatenation |
| HttpConnection.ReadEffectsAnswerOnce | server/websocket_http.c:365-388 | a request is answered at most once: the drained callback is installed exactly when the headers are accepted, and then the socket is not closed; an incomplete request does nothing |
| HttpConnection.ReadEffects | server/websocket_http.c:365-388 | a read that neither failed nor reached the end of the headers asks for nothing; an accepted request installs the drained callback |
| HttpConnection.HttpConn.constructor | server/websocket_http.c:390-399 | `ws_new`: the method handler, tokens ended by a space, nothing read and nothing logged |
| HttpConnection.HttpConn.Tokenizer | server/websocket_http.c:56-146 | the tokenizer's result and new `future` are `Tokenize` of the state and the byte |
| HttpConnection.HttpConn.ProcessMethod | server/websocket_http.c:257-263 | the handler changes the state as `ProcessMethod` says and returns its code |
| HttpConnection.HttpConn.ProcessPath | server/websocket_http.c:249-255 | the handler changes the state as `ProcessPath` says and returns its code |
| HttpConnection.HttpConn.ProcessHttpVer | server/websocket_http.c:240-247 | the handler changes the state as `ProcessHttpVer` says and returns its code |
| HttpConnection.HttpConn.ProcessField | server/websocket_http.c:231-238 | the handler changes the state as `ProcessField` says and returns its code |
| HttpConnection.HttpConn.ProcessValue | server/websocket_http.c:206-229 | the handler changes the state as `ProcessValue` says and returns its code |
| HttpConnection.HttpConn.Process | server/websocket_http.c:165 | `wsd->process` changes the state as `Handle` says |
| HttpConnection.HttpConn.Pass | server/websocket_http.c:154-178 | one pass of the loop changes the state as `Step` says |
| HttpConnection.HttpConn.ProcessHeaderChunk | server/websocket_http.c:148-181 | the loop over a chunk leaves the state and result `Chunk` gives, logging nothing |
| HttpConnection.HttpConn.HeaderRead | server/websocket_http.c:365-388 | `ws_header_read` leaves the state and result `ReadChunks` gives, and logs `ReadEffects` of them |
| HttpConnection.HttpConn.Conclude | server/websocket_http.c:377-386 | an error is reported, the end of the headers processed and reported if refused, and anything else does nothing |
| HttpConnection.HttpConn.ReportError | server/websocket_http.c:265-299 | logs `ReportEffects` of the error |
| HttpConnection.HttpConn.HeadersSent | server/websocket_http.c:301-317 | logs `HeadersSentEffects` of the path |
| HttpConnection.FindValueToken | server/websocket_http.c:183-202 | the loop of `find_value_token` answers `HasToken` |
| HttpConnection.SkipBlanks | server/websocket_http.c:189-190 | stops at the first character after `start` that is not a blank |
| HttpConnection.ItemEnd | server/websocket_http.c:191-192 | stops at the first comma after `b`, or the end |
| WsCodec.BEValueOfBigEndian | server/websocket_data.c:78-82 | the bytes the length loop writes, read back big-endian, give the length modulo 256 to the number of bytes |
| WsCodec.LenCode | server/websocket_data.c:68-77 | the 7-bit length code: the length itself up to 125, else 126 or 127 |
| WsCodec.ExtLen | server/websocket_data.c:68-77 | 0, 2 or 4 extended length bytes |
| WsCodec.Frame | server/websocket_data.c:60-92 | the frame is the two header bytes, the extended length, then exactly the payload |
| WsCodec.DecodeServerFrame | server/websocket_data.c:60-92 | a reader of server frames as section 5.2 of RFC 6455 lays them out (a 2- or 8-byte extended length): a decoded frame carries fewer bytes than the frame and a 7-bit opcode |
| WsCodec.FrameRoundTrip | server/websocket_data.c:60-92 | every frame `ws_write` builds with a payload of at most 0xffff bytes reads back as a final frame with its opcode and payload |
| WsCodec.ExtendedLength | server/websocket_data.c:71-82 | the extended length field of section 5.2 of RFC 6455 reads back as the length, for any length below 2^63 |
| WsCodec.ExtLenRfc | server/websocket_data.c:68-77 | the extended length of section 5.2 of RFC 6455 is 0, 2 or 8 bytes, and agrees with the one `ws_write` uses up to 0xffff |
| WsCodec.FrameRfc | server/websocket_data.c:60-92 | the frame of section 5.2 of RFC 6455: header, extended length and the payload at its end |
| WsCodec.FramesAgree | server/websocket_data.c:68-82 | for a payload of at most 0xffff bytes the frame `ws_write` builds is the RFC 6455 frame |
| WsCodec.FrameRfcRoundTrip | server/websocket_data.c:60-92 | every RFC 6455 frame with a payload shorter than 2^63 bytes reads back as a final frame with its opcode and payload |
| WsCodec.LongFrameMisread | server/websocket_data.c:74-77 | as written, a 0x10000-byte payload gets length code 127 with a 4-byte length, which a reader of RFC 6455 frames refuses; the RFC frame of the same payload reads back |
| WsCodec.WriteEffects | server/websocket_data.c:88-91 | the frame is written, and the socket deleted exactly when the write is refused |
| WsCodec.WsWrite | server/websocket_data.c:60-92 | `ws_write` writes exactly `Frame` of the opcode and payload, deleting the socket on a refused write |
| WsCodec.FillLength | server/websocket_data.c:78-82 | the loop stores the length big-endian in the extended length bytes and leaves the first two header bytes alone |
| WsCodec.HeaderThenPayload | server/websocket_data.c:84-86 | the header bytes followed by the payload are the frame |
| WsCodec.CloseCode | server/websocket_data.c:271-287 | the corrected close codes: 1002 exactly for a protocol error, 1003 exactly for unsupported data, 1000 exactly for a close, 1009 exactly for a too big message, 1008 otherwise |
| WsCodec.CloseCodeAsWrittenIsConstant | server/websocket_data.c:271-287 | as written, every error of `process_chunk`, being negative, closes with 1008 |
| WsCodec.CloseCodeAsWrittenDiffers | server/websocket_data.c:271-287 | a protocol error closes with 1008 as written and 1002 as intended; a too big message with 1008 and 1009 |
| WsCodec.CloseCodeAsWritten | server/websocket_data.c:271-287 | as written, the close code is one of the five of the switch, and every negative error closes with 1008 |
| WsCodec.ClosePayload | server/websocket_data.c:94-97 | the close payload is two bytes holding the code in network byte order |
| WsCodec.ErrorEffects | server/websocket_data.c:94-99 | `ws_error` writes a close frame with the code first and flushes and deletes the socket last |
| WsCodec.WsError | server/websocket_data.c:94-99 | logs exactly `ErrorEffects` of the code |
| WsData.LengthByte | server/websocket_data.c:224-225 | the corrected step of the extended length: the old length shifted up by a byte with the unsigned byte below it |
| WsData.LengthAsWrittenRefuses200 | server/websocket_data.c:224-225 | as written, with `char` signed, a 200-byte payload's length bytes 0x00 0xc8 read as more than the bound and the frame is refused; read unsigned they give 200 |
| WsData.LengthByteAsWritten | server/websocket_data.c:224-225 | as written, a byte below 0x80 is shifted in as `LengthByte` does while the size fits in `size_t`, and a byte of 0x80 or more leaves a size within 128 of the top of `size_t` |
| WsData.Reassemble | server/websocket_data.c:118-150 | a fragment that fits is appended to the open message, which takes the opcode of its first fragment; a final fragment hands over the whole message, unless empty, and closes it; one that does not fit drops the message silently |
| WsData.Consume | server/websocket_data.c:152-187 | a continuation with no open message gives `-EINVAL`, text `-EOPNOTSUPP`, close `-EPIPE`, and nothing else fails; an error asks nothing; a ping is answered by a pong with the same payload; a pong is ignored; a binary frame starts a new message, a final one delivered whole; the frame is always cleared and never closes the socket |
| WsData.RunStep | server/websocket_data.c:193-253 | the loop of `process_chunk` is the step of the first byte followed by the loop over the rest, stopping at an error |
| WsData.ContinuationsDeliver | server/websocket_data.c:118-150 | continuation frames append to the open message in arrival order, and the last hands over the whole message once |
| WsData.FragmentsDeliver | server/websocket_data.c:118-171 | a binary message sent in fragments within the bound reaches the application whole, once, when its last fragment arrives, and no message is left open |
| WsData.StepKeepsValid | server/websocket_data.c:193-253 | every byte keeps the payload within its announced size and the message within the bound |
| WsData.RunKeepsValid | server/websocket_data.c:189-255 | so does a whole chunk |
| WsData.ScanOutcome | server/websocket_data.c:196-242 | a header byte fails only with `-EINVAL` or `-ENOSPC` |
| WsData.HeaderByte | server/websocket_data.c:196-242 | a header byte fails only with `-EINVAL` or `-ENOSPC`, the latter only for a payload size over the bound; the header completes a frame by itself only when the payload is empty |
| WsData.Scan | server/websocket_data.c:196-251 | a payload byte never fails, adds one byte to the payload, and completes the frame exactly at its announced size |
| WsData.Step | server/websocket_data.c:194-252 | a byte the scan refuses stops the loop with that error and no effect; a byte that completes no frame has no effect |
| WsData.Run | server/websocket_data.c:189-255 | `process_chunk` never returns a positive value |
| WsData.RunOutcome | server/websocket_data.c:189-255 | a chunk ends with 0 or one of the four errors, and never closes the socket itself |
| WsData.ReadChunks | server/websocket_data.c:264-290 | the reads end with 0 or one of the four errors, and the socket is not closed by the parser |
| WsData.ReadChunksFront | server/websocket_data.c:264-290 | the loop of `ws_read` is one chunk's `process_chunk` followed by the rest, stopping at an error |
| WsData.ReadOut | server/websocket_data.c:257-291 | the socket is closed exactly when the reading ends in an error, and then the last thing done is `ws_error` with the error's close code |
| WsData.FirstByte | server/websocket_data.c:198-207 | the first header byte is refused exactly for a reserved bit or an opcode whose low three bits exceed 2; otherwise FIN and the opcode are kept |
| WsData.SecondByte | server/websocket_data.c:208-222 | the second header byte is refused exactly without the mask bit; otherwise the 7-bit length sets the size or the number of extended length bytes |
| WsData.ExtByte | server/websocket_data.c:223-225 | an extended length byte is shifted into the size |
| WsData.MaskByte | server/websocket_data.c:226-227 | a mask byte is stored at its place in the key |
| WsData.LastMaskByte | server/websocket_data.c:226-242 | the last header byte completes the header, and the frame is refused exactly when its size passes the bound |
| WsData.PayloadByte | server/websocket_data.c:243-251 | a payload byte is stored unmasked with the key byte of its position, and the frame completes when the size is reached |
| WsData.MaskedTwice | server/websocket_data.c:245 | masking a payload twice with the same key gives it back |
| WsData.FrameScans | server/websocket_data.c:193-242 | every valid masked client frame is read byte by byte into the parser holding its FIN, opcode, key and unmasked payload |
| WsData.ParseFrame | server/websocket_data.c:189-255 | a valid client frame at a frame boundary in a chunk is parsed and consumed, and the loop goes on after it |
| WsConnection.WsConn.constructor | server/websocket_data.c:293-298 | `szalloc` of `struct ws_data`: every field zero, nothing logged |
| WsConnection.WsConn.ResetMessage | server/websocket_data.c:101-107 | the frame is cleared as `ClearMessage` says, and nothing is logged |
| WsConnection.WsConn.ResetReassembly | server/websocket_data.c:109-116 | the open message is dropped as `ClearReassembly` says, and nothing is logged |
| WsConnection.WsConn.ReassemblyMessage | server/websocket_data.c:118-150 | the state and log change as `Reassemble` says |
| WsConnection.WsConn.ConsumeMessage | server/websocket_data.c:152-187 | the state, log and result are `Consume`'s |
| WsConnection.WsConn.AdvanceHeader | server/websocket_data.c:229-242 | `offset++` and, at the end of the header, the size check and the start of the payload, as `HeaderAdvance` says |
| WsConnection.WsConn.ScanByte | server/websocket_data.c:196-251 | one byte changes the parser as `Scan` says |
| WsConnection.WsConn.StepByte | server/websocket_data.c:194-252 | one pass of the loop changes the state, log and result as `Step` says |
| WsConnection.WsConn.ProcessChunk | server/websocket_data.c:189-255 | `process_chunk` leaves the state, log and result `Run` gives over the whole chunk |
| WsConnection.WsConn.Read | server/websocket_data.c:257-291 | `ws_read` leaves the state and log `ReadOut` gives |
| WsConnection.BroadcastEvents | server/websocket_data.c:309-318 | one write per connection, and at most one deletion each |
| WsConnection.Tag | server/websocket_data.c:316-317 | each effect is tagged with the connection it happened on, in order |
| WsConnection.Registry.constructor | server/websocket_data.c:325-331 | `websocket_init`: no connections, the close callback as given, nothing logged |
| WsConnection.Registry.Add | server/websocket_data.c:293-307 | a socket the event loop refuses gives `-ENOTSOCK` and changes nothing; otherwise the connection joins the front of the list and the count goes up by one |
| WsConnection.Registry.Free | server/websocket_data.c:46-58 | the connection leaves the list, the count goes down by one, and the close callback runs exactly when the count reaches zero and one is set |
| WsConnection.Registry.Broadcast | server/websocket_data.c:309-318 | every connection of the list, in order, is written the binary frame of the buffer, and the list is unchanged |
| WsConnection.Registry.Connected | server/websocket_data.c:320-323 | true exactly when a connection is open |

## Left out

- The event reactor (server/event.c) is reduced to the requests a socket makes of it: read and write interest, pauses, deletion and deferred killing. These are recorded as effects, and `socket_kill` runs when the model says the reactor would run it.
- `socket_listen`, `socket_accept` and the system calls behind `socket_cb`: the results of `sendmsg` and `recvmsg` are parameters.
- Descriptor passing (server/ipc.c), process spawning (server/spawn.c) and `exec_wait` in `p_report_win` are OS facilities. A report of a win is the effect of asking for it, with the recorder's result as a parameter.
- SHA-1 and base64 behind `construct_accept_key` are an uninterpreted parameter. The test vector of section 1.3 of RFC 6455 is not proved.
- Memory allocation is total (`salloc` aborts on failure). The older handshake revision's `-ENOMEM` paths are modelled as the error the revision returns; nothing is freed in the model.
- Logging (server/log.c) and the Python bindings are not part of this model.
- Level callbacks as seen from the protocol engine (`move`, `what`, `maze`, `get_x` and the rest) are answers given in a `World` parameter. The level timers' callbacks are not modelled. The timer table holds the identifiers the timer layer returns.
- The maze generator and the Python levels are not part of this model. `COLOR_TREASURE` takes the value the Python levels use, because server/level.h does not declare it.
- `simple_redraw`, `centered_redraw` and the application's redraw paint through `draw.c`. The screen encoder is modelled, but these callers of it are not.
- Simple.SimpleLevel.TryMove: requires the cell a movement key leads to to lie inside the level data. `simple_try_move` reads that cell without a bounds check, so a player on the border of a level without walls would read outside the level.
- Db.Table.Reload: the user file is given as its lines. `fgets` into the 31-byte login buffer is modelled as taking the first 30 characters of each line and consuming the rest of a longer line. A line holding a NUL byte is not modelled (see `Db.FileLogins`).
- Db.StripNl: takes the whole line as the string. `strip_nl` measures it with `strlen`, so in a line holding a NUL byte it looks only at the part before the NUL.
- Db.FileLogins: a line holding a NUL byte is not modelled. There `strip_nl` stops at the NUL, misses the newline, and the loop at server/db.c:124-128 then discards the next line too: for the lines `ab\0c` and `carol` the server registers the login `ab` alone, where the model gives `ab\0c` and `carol`.
- Db.Table.AdmitAll: admits the logins of `Db.FileLogins`, so a line holding a NUL byte is not modelled here either.
- Preparsed.PreparsedMazeMap.constructor: the `Scanner` is given as the integers it would read, in order. A text that is not made of integers is not modelled.
- MazeClient.Client: only the members whose behaviour is more than one request and its reply are modelled: the size caches, `GetMaze` and the move reply. The connection is given as the answers it would return.
- MazeClient.Get: the exceptions of `.Single()` and of array indexing are one outcome, `Threw`.
- The frontend script and the other client libraries (Python, C, Java `Maze`) only wrap socket requests and are not part of this model.
- Proto.Server.Free: the memory `p_free` releases is not modelled. Only the effects on the sockets, the counters and the list of connections are.
- Sockets.Socket.Dispatch: the read callback is an effect that changes nothing in the socket. In the server `p_read` may queue replies on the same socket, or delete it, before the error branch runs, so `queue == old(queue)` on an error holds only for a read callback that writes nothing.
- Draw.Screen.Item: drops a sprite once the list holds `MAX_SPRITES`, the bound `MSG_MAX_LEN` is sized for (`Draw.AppendSprite`); `draw_item` appends without a bound (see Findings).
- Db.Table.StartProcess: `socket_add` is taken to succeed, and the socket it returns is a parameter.
- Db.Table.GetPipe: the outcome of `spawn` is a parameter: the pid, pipe descriptor and socket the started process registers through `db_start_process`, or none when it fails.
- WsCodec.WsWrite: keeps the 4-byte extended length `ws_write` writes for payloads over 0xffff bytes (see Findings); no frame the server sends is that long (`WsCodec.FramesAgree`).
- WsCodec.FrameRoundTrip: stated for payloads of at most 0xffff bytes, where the written frame is the RFC 6455 frame; longer payloads are the Findings row on the extended length.
- ProtoLine.TwoInts: runs the corrected `Get2Int`, where a missing number refuses the value; the code as written is `ProtoLine.Get2IntAsWritten`.
- Proto.Server.WhatCmd: reads its two numbers with the corrected `Get2Int`.
- Proto.WhatOutcome: reads its two numbers with the corrected `Get2Int`.
- Proto.Reader.ResetLine: empties the value buffer after a handled line (the corrected `ProtoLine.Reset`); the code as written is `ProtoLine.ResetAsWritten`.
- Proto.Concluded: resets an accepted line with the corrected `ProtoLine.Reset`.
- Proto.Server.Conclude: resets an accepted line with the corrected `ProtoLine.Reset`.
- Proto.Server.Read: inherits the corrected reset and the corrected `Get2Int` through `Conclude` and `WhatCmd`.
- HttpConnection.HttpConn.Tokenizer: reads each byte unsigned (the corrected `HttpData.Tokenize`); the code as written is `HttpData.TokenizeAsWritten`.
- HttpConnection.HttpConn.ProcessHeaderChunk: inherits the corrected tokenizer.
- HttpConnection.HttpConn.HeaderRead: inherits the corrected tokenizer and the corrected `HeadersProcessed`.
- HttpConnection.HttpConn.Conclude: runs the corrected `HeadersProcessed`, which refuses a request without Sec-WebSocket-Key with 400; the code as written is `HttpConnection.HeadersProcessedAsWritten`.
- HttpConnection.ReadEffects: runs the corrected `HeadersProcessed`.
- WsData.HeaderByte: shifts in each extended length byte unsigned (the corrected `WsData.LengthByte`); the code as written is `WsData.LengthByteAsWritten`.
- WsConnection.WsConn.ScanByte: reads the extended length with the corrected `WsData.LengthByte`.
- WsConnection.WsConn.StepByte: inherits the corrected length byte through `ScanByte`.
- WsConnection.WsConn.ProcessChunk: inherits the corrected length byte through `StepByte`.
- WsData.ReadOut: closes with the corrected `WsCodec.CloseCode`; the code as written is `WsCodec.CloseCodeAsWritten`, which gives 1008 for every error.
- WsConnection.WsConn.Read: closes with the corrected `WsCodec.CloseCode`, and inherits the corrected length byte.
- WsData.Scan: inherits the corrected length byte through `HeaderByte`.
- WsData.Step: inherits the corrected length byte through `Scan`.
- WsData.Run: inherits the corrected length byte through `Scan`.
- HttpData.Step: runs the corrected `HttpData.Tokenize`.
- HttpData.ByteStep: inherits the corrected tokenizer through `Step`.
- HttpData.Chunk: inherits the corrected tokenizer through `ByteStep`.
- Proto.CmdOutcome: inherits the corrected `Get2Int` through `WhatOutcome`.
- Proto.PhaseError: inherits the corrected `Get2Int` through `CmdOutcome`.
- Proto.Request: inherits the corrected `Get2Int` through `WhatOutcome`.
- Proto.Server.Dispatch: inherits the corrected `Get2Int` through `Request` and `WhatCmd`.
- Proto.Server.Live: inherits the corrected `Get2Int` through `Dispatch` and `CmdOutcome`.
- Proto.Server.ProcessCmd: inherits the corrected `Get2Int` through `Live` and `CmdOutcome`.
- Proto.Server.Process: inherits the corrected `Get2Int` through `ProcessCmd` and `PhaseError`.
- Proto.Server.Handle: resets an accepted line with the corrected `ProtoLine.Reset`, which empties `val` where server/proto.c:252-256 keeps it, and inherits the corrected `Get2Int` through `Process`.
- Proto.Server.CheckMsgComplete: inherits the corrected reset and the corrected `Get2Int` through `Handle`.
- HttpConnection.HttpConn.Pass: inherits the corrected tokenizer through `Tokenizer` and `HttpData.Step`, so the bytes 0xfe and 0xff are kept as data.
- HttpConnection.ReadChunks: folds `HttpData.Chunk`, and so inherits the corrected tokenizer.
- WsData.ReadChunks: folds `Run`, and so inherits the corrected length byte: a frame with an extended length byte of 0x80 or more, such as a 200-byte frame, is read at its length.
- WsData.Advance: inherits the corrected length byte through `Run`.
- WsData.Resume: inherits the corrected length byte through `Run`.

## Findings

| source | as written | input that shows it | evidently intended | confidence | as-written member | corrected member |
|---|---|---|---|---|---|---|
| server/websocket_data.c:271-287 | `ws_read` switches on the negative `ret` but its cases are the positive `EINVAL`, `EOPNOTSUPP`, `EPIPE` and `ENOSPC`, so only the default case is ever taken | a frame that fails with `-EINVAL` closes with code 1008, and an oversized message (`-ENOSPC`) also closes with 1008 | 1002 for a protocol error and 1009 for a message too big, as section 7.4.1 of RFC 6455 assigns | not executed | WsCodec.CloseCodeAsWrittenDiffers | WsCodec.CloseCode |
| server/websocket_data.c:224-225 | the extended length bytes are read through a signed `char` and sign-extend into `payload_size` | a 200-byte masked binary frame has length bytes 0x00 0xc8. Read unsigned the frame is delivered; as written 0xc8 sign-extends, the OR sets every high bit of the size, the size exceeds the limit, and the frame is refused with `-ENOSPC` | each length byte read unsigned, giving 200 | not executed | WsData.LengthAsWrittenRefuses200 | WsData.LengthByte |
| server/websocket_http.c:56-146 | the tokenizer returns a byte through a signed `char`, so the bytes 0xff and 0xfe collide with its "skip" (-1) and "abort" (-2) answers | a header value holding byte 0xff loses that byte; one holding 0xfe fails the handshake | every byte above 0x7f kept as data | not executed | HttpData.TokenizeAsWrittenHighBytes | HttpData.Tokenize |
| server/websocket_http.c:340-363 | `ws_headers_processed` passes the Sec-WebSocket-Key value to `construct_accept_key` without checking that the header came | a valid upgrade request to an existing user with no Sec-WebSocket-Key header makes `strlen` read a null pointer | refuse the request as malformed, with status 400 | not executed | HttpConnection.MissingKeyCrashes | HttpConnection.HeadersProcessed |
| server/proto.c:279-297 | `get_2_int` checks only `errno` and the range after `strtol`, and `strtol` with no digits returns 0 without setting `errno` | `WHAT` with an empty value is answered for (0, 0), and `WHAT 7` for (7, 0) | a missing number refused as a bad parameter | not executed | ProtoLine.Get2IntAsWrittenTakesMissingAsZero | ProtoLine.Get2Int |
| server/proto.c:252-256 | the reset after a command clears the counters but not the value buffer `val` | `WHAT 1 2` followed by a bare `WHAT` is answered for (1, 2) | a command without a value sees an empty value | not executed | ProtoLine.StaleValueAsWritten | ProtoLine.Reset |
| lib/dotnet/Maze.Client/MazeClient.cs:100 | the `MazeMap` constructor compares the data length with `width * height` in unchecked 32-bit arithmetic | a 65536 by 65536 map with no cells is accepted, and `TryGet(0, 0)` then throws instead of answering | the product compared exactly, so such a map is refused | not executed | MazeClient.WrappedSizeAccepted | MazeClient.NewMazeMap |
| server/draw.c:164-190 | `draw_item` appends every sprite to the list without a bound, and the forced commit copies all of them into `msg`, which holds `MSG_MAX_LEN` (6060) bytes | 1515 rotated items drawn between two clears: their records alone take 6060 bytes, so with the header and the grid the commit writes past the end of `msg` | at most `MAX_SPRITES` (1225) sprites, the count `MSG_MAX_LEN` is sized for | not executed | Draw.SpriteOverflowAsWritten | Draw.AppendSprite |
| server/websocket_data.c:74-77 | `ws_write` marks a payload over 0xffff bytes with length code 127 but writes a 4-byte extended length, where section 5.2 of RFC 6455 requires 8 | a binary frame of 0x10000 bytes: an RFC 6455 reader takes the next 8 bytes as the length and misreads the frame. No frame the server sends is that long, so the defect is latent | an 8-byte extended length for code 127 | not executed | WsCodec.LongFrameMisread | WsCodec.FrameRfc |
