# Disk manager, RPC client table, web router and SQL session — a Dafny model

This project models four sequential, stateful parts of a Go repository of small frameworks:

- **Storage engine disk manager** (`storage/disk_manager.go`). The database file is a sequence of bytes. Page `n` sits at byte offset `n * pageSize`. The model covers the fill thresholds that decide when a B+Tree node is over- or underpopulated, and the split-index rule that picks where a node can give items away. It also covers reading and writing pages, nodes, the freelist and the meta record, and the bootstrap of a new file: the freelist page first, then the empty collections root, then the meta record. Node, freelist and meta byte layouts are not modelled. They enter as a `Format` value of element/node size functions and serializers, fixed when the disk manager is opened. The meta and freelist serializers fill the page buffer in place, so those records are always exactly one page long. A non-empty write fails when it would reach past a maximum file size, and a failed write changes nothing. This is the only I/O failure the model has for writes. A non-empty read fails when the requested bytes are not all present. As with Go's `os.File`, an empty write or read does nothing and succeeds, even past the end of the file.
- **RPC client call table** (`rpc/client.go`). `Client` keeps a sequence counter that starts at 1, a map of pending calls, and `closing`/`shutdown` flags. Its operations are register, remove, close, availability and termination. `ParseOptions` is the option defaulting. The Go field `seq` is called `seqNum` here, because `seq` is a Dafny keyword.
- **HTTP router** (`web/router.go`). A map from `method + "-" + pattern` to an opaque handler id. Handling a request either dispatches to a handler or returns a 404 outcome whose body names the path. The HTTP method is called `httpMethod`, because `method` is a Dafny keyword.
- **SQL session** (`orm/session/raw.go`). An SQL text buffer and an argument list. `Raw` appends to both, `Clear` resets both, and each execution hands the accumulated statement to the database and then clears the session. The database call is represented by the statement handed over.

The returned split index is the number of items that stay on the left: at loop position `i` the code returns `i + 1` (storage/disk_manager.go:116), and so does the model.

Float32 fill fractions are modelled as reals. Page numbers, sequence numbers and offsets are unbounded naturals.

## Model

| member | source | states |
|---|---|---|
| `Storage.DiskManager.GetSplitIndex` | storage/disk_manager.go:106-121 | Returns -1 or a cut `r` with 1 ≤ r ≤ len(items)-1, so both halves are non-empty. A cut `r` is the least one whose header-plus-prefix size exceeds the minimum threshold. The result is -1 exactly when no cut short of the last item exceeds it, and always -1 for 0 or 1 items. |
| `NodeFill.PrefixSizeStep` | storage/disk_manager.go:107-111 | Each loop step adds exactly the element size of the next item to the running size. |
| `NodeFill.PrefixSizeMonotone` | storage/disk_manager.go:107-111 | The running size never decreases as items are added, because element sizes are non-negative. |
| `NodeFill.SplitIndexUnique` | storage/disk_manager.go:106-121 | The split-index conditions determine the result: two indices that both satisfy them are equal. |
| `NodeFill.SplitIndexUpwardClosed` | storage/disk_manager.go:115-117 | Once a cut exceeds the minimum threshold, every later cut short of the last item exceeds it too. |
| `Storage.DiskManager.MinThreshold` | storage/disk_manager.go:131-133 | The minimum fill in bytes, `minFillPercent · pageSize`: non-negative for a non-negative fraction, and never above the maximum threshold when the minimum fraction is at most the maximum. |
| `Storage.DiskManager.MaxThreshold` | storage/disk_manager.go:123-125 | The maximum fill in bytes, `maxFillPercent · pageSize`: non-negative for a non-negative fraction, and at most one page when the fraction is at most 1. |
| `Storage.DiskManager.IsOverPopulated` | storage/disk_manager.go:127-129 | True exactly when the node's size exceeds `maxFillPercent · pageSize`. |
| `Storage.DiskManager.IsUnderPopulated` | storage/disk_manager.go:135-137 | True exactly when the node's size is below `minFillPercent · pageSize`. |
| `Storage.DiskManager.NeverOverAndUnderPopulated` | storage/disk_manager.go:123-137 | When the minimum fill fraction is at most the maximum, no node is both overpopulated (size > max threshold) and underpopulated (size < min threshold). |
| `Storage.DiskManager.AllocateEmptyPage` | storage/disk_manager.go:151-155 | The new page buffer is exactly `pageSize` bytes, all zero. |
| `Storage.DiskManager.ReadPage` | storage/disk_manager.go:157-166 | Succeeds exactly when the whole page at `pageNum * pageSize` is in the file, and returns those bytes. The page number of the returned buffer is left at 0. Otherwise it fails with a short read. |
| `Storage.DiskManager.WritePage` | storage/disk_manager.go:168-172 | Writes the buffer at `num * pageSize` and leaves every other byte as it was, or fails and leaves the file unchanged. It fails exactly when the buffer is non-empty and would reach past the maximum file size. |
| `PageIo.WriteAt` | storage/disk_manager.go:168-172 | After a write, the written range holds the data. Bytes outside it keep their values. A non-empty write past the old end of file fills the gap with zeros; an empty write leaves the file as it was. |
| `PageIo.ReadAt` | storage/disk_manager.go:157-166 | A read succeeds exactly when it asks for no bytes or all requested bytes exist, and returns them in order. |
| `PageIo.PageOffset` | storage/disk_manager.go:160-169 | Page `n` starts at byte `n · pageSize`. |
| `PageIo.PageRangesDisjoint` | storage/disk_manager.go:157-172 | The byte range of a lower page ends at or before the start of a higher page's range, so distinct pages never overlap. |
| `PageIo.ReadBackWrittenPage` | storage/disk_manager.go:157-172 | Reading a page just written returns exactly the written page. |
| `PageIo.WriteKeepsOtherPages` | storage/disk_manager.go:168-172 | Writing one page at page `p` leaves every other fully present page unchanged. A write of any length at page `p` leaves every page below `p` unchanged. |
| `PageIo.SkippedPagesReadAsZeros` | storage/disk_manager.go:168-172 | A page between the old end of file and a higher page just written with non-empty data reads as zeros. |
| `Storage.DiskManager.GetNode` | storage/disk_manager.go:174-183 | Succeeds exactly when the page is readable. The result is a fresh node numbered `pageNum` holding the decoding of that page. |
| `Storage.DiskManager.WriteNode` | storage/disk_manager.go:185-201 | A node numbered 0 gets the allocator's next page and keeps it even if the write fails. Any other node keeps its number and the allocator is untouched. The node's encoding is then written at its page, and the result is the same node, or an error with the file unchanged. |
| `Storage.DiskManager.DeleteNode` | storage/disk_manager.go:203-205 | Only releases the page to the freelist. The file is untouched. |
| `Storage.DiskManager.ReadFreelist` | storage/disk_manager.go:207-216 | Succeeds exactly when the freelist page named by meta is readable, and decodes it. |
| `Storage.DiskManager.WriteFreelist` | storage/disk_manager.go:218-229 | Writes the freelist's one-page encoding at the freelist page, or fails with the file unchanged. On success that page reads back as the returned buffer, and every other fully present page is unchanged. The freelist page number and the rest of meta stay unchanged. |
| `Storage.DiskManager.WriteMeta` | storage/disk_manager.go:231-241 | Writes the given meta record's one-page encoding to page 0, or fails with the file unchanged. On success page 0 reads back as the returned buffer, and every other fully present page is unchanged. |
| `Storage.DiskManager.ReadMeta` | storage/disk_manager.go:243-252 | Succeeds exactly when page 0 is readable, and decodes it. |
| `Storage.DiskManager.constructor` | storage/disk_manager.go:39-44 | The options, format and file are stored. Meta starts empty. |
| `Storage.NewDiskManager` | storage/disk_manager.go:38-102 | A failed stat is an error. A missing file is bootstrapped in this order: freelist page 1 written, empty root at page 2 written, then meta naming root 2 and freelist 1 written at page 0. This succeeds exactly when the freelist and root writes fit. Under the model's failure rule the meta write then cannot fail (see "## Left out"). An existing file has its meta and then its freelist page read and decoded. |
| `Storage.BootstrapFreelistOmitsRoot` | storage/disk_manager.go:57-72 | With a round-tripping freelist encoding and any node encoding, the freelist page stored at bootstrap decodes to a freelist whose next page is 2, the collections root's page. |
| `Storage.CorrectedBootstrapFreelistCoversRoot` | storage/disk_manager.go:57-72 | With a round-tripping freelist encoding, if the freelist is written after the root's page is allocated, the stored freelist's next page is none of meta, freelist and root. |
| `RpcClient.Client.constructor` | rpc/client.go:195-205 | A new client has counter 1, no pending calls, and is neither closing nor shut down. |
| `RpcClient.Client.Close` | rpc/client.go:44-54 | The first close marks the client closing and returns the codec's close result. Every later close returns ErrShutdown. |
| `RpcClient.Client.IsAvailable` | rpc/client.go:56-61 | True exactly when the client is neither shut down nor closing, which is exactly when registration can succeed. |
| `RpcClient.Client.RegisterCall` | rpc/client.go:63-75 | When closing or shut down, it fails with ErrShutdown and changes nothing. Otherwise it stamps the call with the current counter, adds the call under that fresh key with all other entries kept, and increments the counter by one. Issued numbers stay strictly increasing. |
| `RpcClient.Client.RemoveCall` | rpc/client.go:77-84 | Returns the call stored under `s`, or null. Afterwards `s` is absent and every other entry is unchanged. |
| `RpcClient.Client.TerminateCalls` | rpc/client.go:86-98 | Sets shutdown, so no later registration succeeds. Every pending call gets the error and keeps its sequence number and service method. The pending table itself is kept. |
| `RpcClient.ParseOptions` | rpc/client.go:207-222 | No option, or a nil first one, yields the default option object itself, even with more arguments. More than one option is an error carrying the count. A single option is returned after being updated in place: default magic number, and the default codec type if its own is empty. |
| `RpcClient.Option.Default` | rpc/server.go:21-24 | The default option carries the magic number 0x3bef5c and the JSON codec type. |
| `WebRouter.Router.constructor` | web/router.go:13-15 | A new router has no routes. |
| `WebRouter.Router.AddRoute` | web/router.go:17-21 | Stores the handler under `method + "-" + pattern`, replacing any handler already there and keeping all other keys. |
| `WebRouter.Route` | web/router.go:23-35 | The outcome of a request: dispatch to the handler under `method + "-" + path`, else status 404 with body "404 NOT FOUND: <path>\n". |
| `WebRouter.Router.Handle` | web/router.go:23-35 | Dispatches to the handler under `method + "-" + path` when present. Otherwise no handler runs and the outcome is status 404 with body "404 NOT FOUND: <path>\n". |
| `WebRouter.RouteAfterAdd` | web/router.go:17-31 | A request for a route just added dispatches to the new handler (last write wins). |
| `WebRouter.RouteAddKeepsOthers` | web/router.go:17-31 | Adding a route changes the outcome of no request with a different key. |
| `WebRouter.EmptyRouterNotFound` | web/router.go:13-34 | On a fresh router every request is answered 404 with the path in the body. |
| `WebRouter.RouteKeyCollision` | web/router.go:19-24 | The key is not injective: method "A-B" with path "C" reaches the handler added for method "A" with pattern "B-C". |
| `WebRouter.RouteKeyInjectiveForDashFreeMethods` | web/router.go:19-24 | For methods without a dash, equal keys mean equal method and pattern. |
| `OrmSession.Session.New` | orm/session/raw.go:16-18 | A new session has an empty buffer and no arguments. |
| `OrmSession.Session.Clear` | orm/session/raw.go:20-23 | Leaves an empty buffer and no arguments whatever the prior state, so clearing twice is the same as once. |
| `OrmSession.Session.Raw` | orm/session/raw.go:29-34 | Appends the SQL text followed by exactly one space, and appends the values in order after the earlier ones. It returns the same session, and the buffer remains exactly the text of the calls since the last clear. |
| `OrmSession.TextAppend` | orm/session/raw.go:29-34 | The SQL text built by a chain of calls is that of its first part followed by that of its second, so chained calls accumulate. |
| `OrmSession.VarsAppend` | orm/session/raw.go:29-34 | The arguments collected by a chain of calls are those of its first part followed by those of its second, in order. |
| `OrmSession.Session.Exec` | orm/session/raw.go:36-44 | Hands the buffer and arguments as they were at the call to the database's Exec, and leaves the session cleared. |
| `OrmSession.Session.QueryRow` | orm/session/raw.go:46-51 | Hands the buffer and arguments as they were at the call to QueryRow, and leaves the session cleared. |
| `OrmSession.Session.QueryRows` | orm/session/raw.go:53-61 | Hands the buffer and arguments as they were at the call to Query, and leaves the session cleared whether or not the query fails. |

## Findings

| source | as written | input that shows it | evidently intended | confidence | as-written member | corrected member |
|---|---|---|---|---|---|---|
| storage/disk_manager.go:57-72 | The freelist is written right after it hands out page 1, before the collections root takes page 2. The stored freelist therefore records page 1 as its highest page. | Bootstrap a missing file, then reopen it before anything rewrites the freelist page. The reloaded freelist hands out page 2, which already holds the collections root. | The stored freelist accounts for every page in use after bootstrap: meta, freelist and root. | medium, not executed; it depends on the freelist encoding round-tripping, and freelist.go is not part of this model | `Storage.BootstrapFreelistOmitsRoot` | `Storage.CorrectedBootstrapFreelistCoversRoot` |

## Left out

- File I/O (`os.Stat`, `os.OpenFile`, `ReadAt`, `WriteAt`, `close`) is modelled by a byte sequence. A stat is an input with three outcomes. Failures of `OpenFile` and `close` are not modelled. A non-empty write fails only when it would reach past the maximum file size, and then it changes nothing; partial writes, full disks and other write errors are not modelled.
- Node, freelist and meta serialization, `elementSize` and `nodeSize`: node.go, freelist.go and meta.go are not part of this model. Their sizes and serializers are function parameters, and no byte layout is assumed. The meta and freelist serializers are taken to keep the buffer's length, as an in-place fill of a Go slice does; the node serializer's result may have any length.
- `Storage.DiskManager.GetNextPage` and `Storage.DiskManager.ReleasePage`: freelist.go is not part of this model. These reuse the last released page first, otherwise hand out the page after the highest one handed out, starting from the meta page 0. They have no row above for that reason.
- Float32 rounding in the thresholds (`minThreshold`, `maxThreshold`) is not modelled; the fill fractions and thresholds are reals.
- Storage.NewDiskManager: requires a positive page size, because the default options never set one.
- Storage.NewDiskManager: the error return after a failed meta write during bootstrap (storage/disk_manager.go:72-76) is not reachable in the model. Writes fail only past the maximum file size, and page 0 lies below the freelist page already written, so the model asserts that this write succeeds. On a real file that write can still fail, for example when the disk is full.
- Storage.NewDiskManager: the Go disk manager has no freelist until a branch assigns one; the model starts with an empty freelist, which both branches replace before use.
- 64-bit overflow of page offsets (`int(pageNum) * pageSize`) is not modelled; page numbers and offsets are unbounded.
- RpcClient.Client.RegisterCall: does not model uint64 wrap-around of the counter after 2^64 - 1 calls, because the counter is unbounded here.
- RPC goroutines, channels and mutexes are not modelled: `receive`, `send`, `Go`, `Call`, `NewClient`, `Dial`, and the `done()` notification of calls. Call arguments and replies are not modelled either. The codec's close result and the error that ends the receive loop are parameters.
- rpc/server.go (other than the default option), the codecs, the net package and orm/orm.go are not part of this model.
- Web request contexts, response writing, running a handler and logging are not modelled; handling returns an outcome value instead.
- The `database/sql` calls made by the session are not modelled; an execution returns the statement it hands over, not the driver's result. Logging is not modelled.
- Demo programs (the `cmd` directories and hello/main.go) are not part of this model.
