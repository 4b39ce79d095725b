# go-tcp-chat server core, in Dafny

A model of the sequential logic of the go-tcp-chat server (`server/main.go`),
separated from its sockets, epoll and goroutines:

- **FdSets**: the `select(2)`-style descriptor set `unix.FdSet`. It is 32 words
  of 32 bits (FD_SETSIZE 1024), and descriptor `fd` lives in word `fd / 32` at
  bit `fd % 32`. `FDZero`, `FDSet` and `FDClr` update the words in place, so
  `FdSet` is a class over an `array<bv32>` of length 32. `FDIsSet` reads it.
  The class's ghost `Contents()` is the set of descriptors the bits encode.
- **FdAddrs**: the `FDAddr` table from descriptors to socket addresses, a class
  over a map. Go's nil `unix.Sockaddr` is `None`. A missing key reads as `None`,
  as Go's map read returns the zero value.
- **Bytes**: byte strings, `%d` decimal formatting with its parse-back, and
  `bufio.Reader.ReadString('\n')` as a split of the byte stream at its first newline.
- **HttpFallback**: `handleHttpRequest` and `httpMessageTemplate`. Requests are
  routed by prefix. The header template is formatted with the status, content
  type and body length, and the body is appended. The three files it reads are
  the parameter `site`. Its inverse is a parser, `ParseResponse`, that reads
  status, content type and body back through the announced Content-Length.
- **Broadcast**: the loop of `broadcastMessage`:
  - A chat line fans out to every connection of `openConnections`. The sender
    gets `"Received: " + line`, and everyone else gets the line verbatim.
  - A `GET` line is answered with the HTTP fallback and ends the loop.
  - Writes are recorded per connection in an outbox.
  - The Go map's unspecified iteration order is an arbitrary choice (`:|`) in `FanOut`.
  - `ServeConnection` runs the whole loop over the bytes a client sends. Its
    result is characterised by `SessionDeliveries`, and `PeerSession` and
    `OriginSession` describe that function.

The response keeps the program's deviations from HTTP/1.1 (section 4 of RFC 9112):
lines end in a bare `\n`, and the reason phrase is `OK` even for status 404.

## Model

| member | source | states |
|---|---|---|
| FdSets.FdSet.constructor | server/main.go:84-86 | a zero-valued `unix.FdSet` has 32 zero words and no descriptor in it |
| FdSets.FdSet.Zero | server/main.go:89-91 | `FDZero` makes every word zero, so the set becomes empty |
| FdSets.FdSet.Set | server/main.go:94-96 | `FDSet` ors bit `fd % 32` into word `fd / 32` and touches no other word; the set gains exactly `fd` |
| FdSets.FdSet.Clr | server/main.go:99-101 | `FDClr` and-nots bit `fd % 32` out of word `fd / 32` and touches no other word; the set loses exactly `fd` |
| FdSets.FdSet.IsSet | server/main.go:104-106 | `FDIsSet(fd)` holds if and only if `fd` is in the set the words encode |
| FdSets.HasFdWithFd | server/main.go:94-96 | after `FDSet(fd)`, `FDIsSet(g)` holds iff `g == fd` or it held before: the bit is set and every other descriptor is unchanged |
| FdSets.HasFdWithoutFd | server/main.go:99-101 | after `FDClr(fd)`, `FDIsSet(g)` holds iff `g != fd` and it held before |
| FdSets.SetBitFrame | server/main.go:95 | or-ing in bit `b` of word `w` leaves every other (word, bit) slot as it was |
| FdSets.ClearBitFrame | server/main.go:100 | and-not-ing bit `b` out of word `w` leaves every other (word, bit) slot as it was |
| FdSets.MembersWithFd | server/main.go:94-96 | the descriptors of the words after `FDSet(fd)` are those before plus `fd` |
| FdSets.MembersWithoutFd | server/main.go:99-101 | the descriptors of the words after `FDClr(fd)` are those before minus `fd`; clearing an absent `fd` changes nothing |
| FdSets.MembersZero | server/main.go:89-91 | zero words hold no descriptor from 0 to 1023 |
| FdSets.SetAndClearIdempotent | server/main.go:94-101 | applying `FDSet` or `FDClr` twice gives the same words as applying it once |
| FdSets.GoWordIndex | server/main.go:95 | Go's truncating `fd/32` is the model's `fd / 32` for `fd >= 0` and 0 for `-32 < fd < 0` |
| FdSets.GoIndexInRangeExactly | server/main.go:95 | `Bits[fd/32]` is in range, so `FDSet` does not panic, exactly for `-31 <= fd <= 1023` |
| FdSets.GoArithmeticAgrees | server/main.go:95 | on `0 <= fd < 1024`, Go's `fd/32` and `uint(fd)%32` are the model's word and bit, so `FDSet`, `FDClr` and `FDIsSet` as written are the model's |
| FdSets.NegativeFdAliases | server/main.go:94-96 | `FDSet` accepts a descriptor `-31 <= fd <= -1` and marks `fd + 32` as set |
| FdSets.NegativeFdClears | server/main.go:99-101 | `FDClr` accepts a descriptor `-31 <= fd <= -1` and removes `fd + 32` |
| FdSets.NegativeFdReads | server/main.go:104-106 | `FDIsSet` accepts a descriptor `-31 <= fd <= -1` and reports whether `fd + 32` is set |
| FdSets.NegativeFdSlot | server/main.go:95 | for `-31 <= fd <= -1`, Go's `fd/32` and `uint(fd)%32` are the word and bit of `fd + 32` |
| FdAddrs.FdAddr.constructor | server/main.go:112-115 | `FDAddrInit` gives an empty table in which every `Get` is nil |
| FdAddrs.FdAddr.Get | server/main.go:118-120 | `Get(fd)` is the stored address for a present key and nil for a missing one |
| FdAddrs.FdAddr.Set | server/main.go:123-125 | after `Set(fd, v)`, `Get(fd) == v` and `Get(g)` is unchanged for every other `g` |
| FdAddrs.FdAddr.Clr | server/main.go:128-130 | after `Clr(fd)`, `Get(fd)` is nil and every other key is unchanged; on an absent key the table is unchanged |
| FdAddrs.LookupAfterStore | server/main.go:118-125 | a read after a store of `fd` sees the stored value at `fd` and the old value elsewhere |
| FdAddrs.LookupAfterDelete | server/main.go:118-130 | a read after deleting `fd` sees nil at `fd` and the old value elsewhere |
| Bytes.Decimal | server/main.go:191-196 | `%d` of a non-negative number is a non-empty run of digits; only `0` itself starts with the digit 0, and nothing longer than one digit does |
| Bytes.DecimalRoundTrip | server/main.go:191-196 | reading back the digits `%d` writes gives the number |
| Bytes.ReadLine | server/main.go:135 | `ReadString('\n')` fails exactly when no newline is left; otherwise it returns a line ending in its only newline, and the line plus the remaining bytes is the input |
| Bytes.ReadLineAfter | server/main.go:135 | on a stream that is a newline-free prefix, a newline and the rest, the line read is that prefix with its newline |
| HttpFallback.Route | server/main.go:177-189 | the index page is served iff the request starts with `GET / HTTP`, the icon iff it starts with `GET /favicon.ico HTTP`, and the 404 page iff neither |
| HttpFallback.FormatParses | server/main.go:161-198 | reading a formatted response back gives its status, content type and body: Content-Length is the body's byte length |
| HttpFallback.ResponseParses | server/main.go:168-198 | a response to any request reads back as the routed page's status, content type and file contents |
| HttpFallback.RoutingTable | server/main.go:177-198 | `GET / HTTP` gives 200 `text/html` with the index; `GET /favicon.ico HTTP` gives 200 `image/vnd.microsoft.icon` with the icon; anything else gives 404 `text/html` with the not-found page |
| HttpFallback.HeaderThenAppends | server/main.go:161-166 | the response is the header block followed by the body unchanged, and the header ends in two newlines |
| HttpFallback.StatusLineThen | server/main.go:161 | every response starts with the status line `HTTP/1.1 <status> OK\n` |
| HttpFallback.NotFoundSaysOK | server/main.go:161-189 | a 404 response starts `HTTP/1.1 404 OK\n` |
| HttpFallback.HeaderEndsInBlankLine | server/main.go:161-198 | every response is a header ending in a blank line followed by the routed file's contents |
| Broadcast.Write | server/main.go:144-152 | a write appends one message to its connection and to no other |
| Broadcast.FanOut | server/main.go:148-154 | the range over `openConnections` writes the line to every other open connection and `"Received: " + line` to the sender if open, nothing to closed ones, one write per open connection, in any order |
| Broadcast.DispatchLine | server/main.go:141-155 | one loop pass: a `GET` line gets exactly one write, the HTTP response to the sender, and stops the loop; any other line is fanned out and the loop goes on |
| Broadcast.PeersReceiveLine | server/main.go:147-151 | for a chat line, another open connection receives exactly the line and a closed one nothing |
| Broadcast.OriginAcknowledged | server/main.go:148-153 | for a chat line, the sender receives `"Received: " + line` iff it is open, and never the bare line |
| Broadcast.HttpOnlyToOrigin | server/main.go:141-146 | a `GET` line produces the HTTP response for the sender and nothing for anyone else |
| Broadcast.Lines | server/main.go:133-139 | the successive lines `ReadString('\n')` returns are non-empty and end in a newline, which is the only newline in each |
| Broadcast.LinesCoverStream | server/main.go:133-139 | the lines read, followed by the unterminated remainder on which the read fails, are the whole stream, and that remainder has no newline |
| Broadcast.ServeConnection | server/main.go:132-157 | the loop writes exactly the session's deliveries to each connection, and it reads the chat lines and then the first `GET` line, if any, and no line after it |
| Broadcast.SessionStep | server/main.go:133-155 | reading one line puts that line's deliveries in front of the rest of the session's, and none after a `GET` line |
| Broadcast.ChatLines | server/main.go:141-155 | the chat lines of a session are the longest prefix with no `GET` line, and whatever line follows them is a `GET` line |
| Broadcast.PeerSession | server/main.go:132-157 | over a whole session, another open connection receives the chat lines in order, and a closed one nothing |
| Broadcast.OriginSession | server/main.go:132-157 | over a whole session, the sender receives an acknowledgement of each chat line if it is open, then the HTTP response if the session ended on a `GET` line |
| Broadcast.ThreeConnectionExample | server/main.go:148-153 | with connections 0, 1 and 2 open and 0 sending `hi\n`, 1 and 2 receive `hi\n` and 0 receives `Received: hi\n` |

## Left out

- `main` is not modelled (server/main.go:31-57): the pprof listener, `net.Listen`, the accept loop and `epoller.Add`. They are socket I/O and process start-up.
- `Start` and the `epoll` type are not modelled (server/main.go:59-81). `epoll` and `MkEpoll` are not part of this model, and `wsutil.ReadClientData` is a WebSocket library (section 5.2 of RFC 6455).
- The `newConnection` and `deadConnection` channels and the send at server/main.go:158 are not modelled. They coordinate goroutines, and concurrency is out of scope.
- Concurrent writers are not modelled. The model treats `openConnections` as a fixed set during one loop and each write as atomic and successful. The loop ignores `Write` errors, so a failed write changes nothing the model tracks.
- `os.ReadFile` and the `logFatal` exit are not modelled (server/main.go:179-188). The three files' contents are the parameter `site`, and a read failure, which ends the process, is not modelled.
- Broadcast.ServeConnection: the loop builds a new `bufio.Reader` on every pass (server/main.go:134). Bytes that one reader buffered past its line would then be lost. The model reads the stream as one exact sequence of lines, as if nothing were read ahead.
- Broadcast.ServeConnection: the client's bytes are a finite parameter, `stream`. A read error (EOF or a closed connection) is the end of that sequence, and a trailing partial line is dropped with it, as `ReadString` returns it together with the error.
- Nothing in server/main.go adds to `openConnections` or calls `broadcastMessage`. The open set is a parameter.
- `load_test_client/main.go` is not modelled. It is a load generator with flags, dials and sleeps.
- The words of `unix.FdSet` are `int32` in Go and `bv32` here. They are the same 32-bit patterns: Go's `1 << 31` on an `int32` is the sign bit, which is bit 31 of the `bv32`.
- FdSets.FdSet.Set: requires `0 <= fd < 1024`, whereas Go also accepts `-31 <= fd <= -1` (see Findings). Above 1023 Go panics on the index, so that requirement is the program's own.
- FdSets.FdSet.Clr: requires `0 <= fd < 1024`, for the same reason as `Set`.
- FdSets.FdSet.IsSet: requires `0 <= fd < 1024`, for the same reason as `Set`.
- Go strings are byte strings. The model works on bytes (0 to 255), and literals are ASCII.

## Findings

| source | as written | input that shows it | evidently intended | confidence | as-written member | corrected member |
|---|---|---|---|---|---|---|
| server/main.go:94-96 | `fd/32` truncates toward zero, and `uint(fd)%32` reinterprets a negative `fd` as a huge unsigned number, so `FDSet` on a descriptor from -31 to -1 indexes word 0 without a panic | `FDSet(-1, p)` sets bit 31 of word 0, so `FDIsSet(31, p)` becomes true | only descriptors 0 to 1023 reach the bit array, and `FDSet(fd)` adds exactly `fd` | low: not executed; real descriptors are never negative | FdSets.NegativeFdAliases | FdSets.FdSet.Set |
| server/main.go:99-101 | the same arithmetic in `FDClr` | `FDClr(-1, p)` clears bit 31 of word 0, so descriptor 31 leaves the set | only descriptors 0 to 1023 reach the bit array, and `FDClr(fd)` removes exactly `fd` | low: not executed; real descriptors are never negative | FdSets.NegativeFdClears | FdSets.FdSet.Clr |
| server/main.go:104-106 | the same arithmetic in `FDIsSet` | `FDIsSet(-1, p)` answers for descriptor 31 | only descriptors 0 to 1023 are asked about, and `FDIsSet(fd)` holds iff `fd` is in the set | low: not executed; real descriptors are never negative | FdSets.NegativeFdReads | FdSets.FdSet.IsSet |
