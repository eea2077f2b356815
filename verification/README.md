# Verification of the lwIP port and its services

This project models, in Dafny, ten parts of the firmware of a network module and
proves what they promise:

- the select protocol of the socket layer, in which threads and event callbacks share a
  list that is unlocked after every element (`Select.dfy`, `SocketLayer.dfy`);
- the calls on TCP netconns that are finished by callbacks of the TCP layer
  (`Netconn.dfy`, `NetconnApi.dfy`);
- cJSON: the parser, the two printers and the minifier (`Json.dfy`, `JsonParse.dfy`,
  `JsonBuffer.dfy`, `JsonStrings.dfy`, `JsonMinify.dfy`), against the grammar of RFC 8259
  and the encoding of RFC 3629 (`JsonGrammar.dfy`, `JsonUtf8.dfy`,
  `JsonComplete.dfy`);
- packet buffers with shared chains and pools (`PbufStore.dfy`, `PbufRefs.dfy`,
  `PbufBytes.dfy`, `PbufOps.dfy`);
- the lwIP heap and the dynamic memory pools of the operating system port, over one
  theory of blocks and their holders (`Tiling.dfy`, `Holders.dfy`, `MemHeap.dfy`,
  `DmPool.dfy`);
- the timeout list (`Timeouts.dfy`, `TimerList.dfy`);
- the DHCP server's client table, RFC 2131 section 4.3 (`Dhcp.dfy`, `DhcpServer.dfy`);
- the DNS resolver's table (`Dns.dfy`, `DnsTable.dfy`);
- base64, RFC 1341 section 5.2 (`Base64.dfy`, `Base64Text.dfy`);
- the search for an ephemeral TCP port (`TcpPort.dfy`).

Most parts come in two layers. One says, on values, what each operation does and proves
invariants over every run, refinements and round trips. The other has the source's own
form, with classes, arrays, links and loops, and proves that each method does just that.

`dafny verify dfyconfig.toml` checks everything.

Where the code and its documentation or comments disagree, the code is followed:

- `pbuf_memfind` is documented as a search, but skips past possible matches (line 1149);
  for which patterns it is one is proved exactly.
- `OS_GetMem` hands out memory that is in use, or an address behind the trailer, for some
  requests of size 0 to a pool without a minimum; with a size or a minimum it never does.
- The DHCP server means to keep the address of a bound client that discovers again
  (lines 274-281), but has set its state to idle before the test.
- The pool of the DHCP server repeats an address when it wraps round the subnet
  (line 838); for which servers it does not is proved exactly.
- `do_write`, `do_close` and `do_delconn` assert that the write offset is 0 (api_msg.c lines
  1357, 1469, 864), which fails exactly when the last write was ended, behind an accepted
  part, by its timeout or by an error of `tcp_write`.
- `pbuf_take` is documented to answer ERR_OK if it was successful, but answers 0, which is
  ERR_OK, for a missing chain or missing data (pbuf.c lines 972, 973).
- `dns_enqueue` means to reuse the oldest entry, but compares 8-bit sequence numbers as
  integers (line 876): it does so in all circumstances exactly as long as fewer than 256
  queries have been accepted.
- `pbuf_memcmp` cuts positions to 16 bits (line 1117); for which offsets and lengths
  it compares all the same is proved exactly.

`DNS_MAX_RETRIES` is 4 (dns.c line 97), which makes 7 ticks per server.

## Model

| member | source | states |
|---|---|---|
| Select.StepKeeps | Device/Source/LwIP/src/api/sockets.c:1135-1358 | every atomic step of `lwip_select` and `event_callback`, by any number of threads and walks, keeps the list shape, the counters, the semaphore discipline and the absence of lost wake-ups |
| Select.NoLostWakeupInRuns | Device/Source/LwIP/src/api/sockets.c:1135-1222 | in every run, a call that has passed a descriptor in its second scan without finding anything ready, is not signalled and has a matching event on it is ahead of some walk for that socket |
| Select.PointersLiveInRuns | Device/Source/LwIP/src/api/sockets.c:1285-1358 | in every run, a walk that will follow its pointer points to a `lwip_select_cb` that is still on the list |
| Select.CountersExactInRuns | Device/Source/LwIP/src/api/sockets.c:1154-1209 | in every run, `select_waiting` of a socket is the number of registered calls interested in it |
| Select.OthersDoNotDelay | Device/Source/LwIP/src/api/sockets.c:1346-1356 | only a call entering or leaving the list can give a walk more to do |
| Select.WalkAdvances | Device/Source/LwIP/src/api/sockets.c:1320-1357 | each turn of a walk leaves it strictly less to do |
| Select.DrainWakesEveryone | Device/Source/LwIP/src/api/sockets.c:1285-1358 | from every reachable state the walks in progress can finish by themselves, and then every waiting call with a matching event has been signalled |
| Select.QuietMeansSignalled | Device/Source/LwIP/src/api/sockets.c:1320-1344 | with no walk in progress, every waiting call with a matching event has its semaphore signalled |
| Select.SocketsSumUp | Device/Source/LwIP/src/api/sockets.c:1285-1306 | in every run `rcvevent` is what it was first plus the data events and minus the ones that take data, `sendevent` is what the last word on sending was, `errevent` holds if it did or an error came, left-over data is what was said last |
| Select.EventsWake | Device/Source/LwIP/src/api/sockets.c:1285-1344 | in every run, once no walk is in progress, each waiting call that reads a socket to which more came than was taken, writes to one that can be written to, or looks for errors on one that had any, has its token |
| Select.SignalMeansEvent | Device/Source/LwIP/src/api/sockets.c:1321-1344 | a call is signalled by a visit only, and only if the socket has data, room or an error that the call waits for |
| Select.ScanFinds | Device/Source/LwIP/src/api/sockets.c:1025-1080 | the scan finds exactly the watched descriptors with data or left-over data, room or an error, and a call that has found one does not wait |
| SocketLayer.Layer.EnlistCb | Device/Source/LwIP/src/api/sockets.c:1135-1148 | pushing onto the doubly linked list by pointer assignments is the abstract step, and the pointers spell out the list again |
| SocketLayer.Layer.CountCb | Device/Source/LwIP/src/api/sockets.c:1150-1163 | raising `select_waiting` of the next socket is the abstract step |
| SocketLayer.Layer.ScanCb | Device/Source/LwIP/src/api/sockets.c:1165-1168 | the second scan, one socket at a time under the lock, is the abstract step |
| SocketLayer.Layer.WakeCb | Device/Source/LwIP/src/api/sockets.c:1170-1184 | the wait ends by the token of the semaphore or by a timeout |
| SocketLayer.Layer.UncountCb | Device/Source/LwIP/src/api/sockets.c:1186-1209 | lowering `select_waiting`, and unlinking the element from the doubly linked list, is the abstract step |
| SocketLayer.Layer.RaiseEvent | Device/Source/LwIP/src/api/sockets.c:1285-1344 | `event_callback` up to its first unprotect is the abstract step |
| SocketLayer.Layer.WalkOn | Device/Source/LwIP/src/api/sockets.c:1346-1357 | restarting or following `next` after taking the lock again is the abstract step |
| SocketLayer.UnlinkSpells | Device/Source/LwIP/src/api/sockets.c:1193-1207 | the pointer assignments of unlinking spell out exactly the list without that element, forwards and backwards |
| Netconn.StepKeeps | Device/Source/LwIP/src/api/api_msg.c:346-404 | every call and every callback of the TCP layer keeps the invariant of the netconn |
| Netconn.OneSignalPerCall | Device/Source/LwIP/src/api/api_msg.c:746-1032 | in every run the k-th signal of `op_completed` wakes the k-th call after its error was set, and all calls but an outstanding one have had theirs |
| Netconn.CurrentMessageExactly | Device/Source/LwIP/src/api/api_msg.c:746-888 | `current_msg` is set exactly in WRITE, CLOSE or a blocking CONNECT, and belongs to the outstanding call |
| Netconn.WritesTile | Device/Source/LwIP/src/api/api_msg.c:1207-1333 | the chunks accepted for a finished write cover each byte of a prefix of the buffer once; a blocking success without timeout means all of it, other successes report its length, a failed non-blocking write accepted nothing |
| Netconn.TilesCoverOnce | Device/Source/LwIP/src/api/api_msg.c:1245-1285 | chunks that follow each other cover each byte up to their end exactly once and nothing else |
| Netconn.NonblockingAtOnce | Device/Source/LwIP/src/api/api_msg.c:1257-1262 | a non-blocking write is finished by the time `do_write` returns |
| Netconn.CallsEndRightly | Device/Source/LwIP/src/api/api_msg.c:276-404 | in every run each call that is over was ended by one step, with the error that this step calls for, and what is left of the pcb: connects, closes, deletions, writes, listens and those that are answered at once |
| Netconn.EndedByCallback | Device/Source/LwIP/src/api/api_msg.c:346-404 | in every run the call that is outstanding when `err_tcp` or `do_connected` comes is signalled by it with its error, and the pcb is gone or open |
| Netconn.ConnectOkExactly | Device/Source/LwIP/src/api/api_msg.c:936-1032 | in every run a connect reports success if and only if `do_connected` ended it without an error |
| Netconn.CloseGoesOn | Device/Source/LwIP/src/api/api_msg.c:746-820 | a close that is going on ends with the next callback if and only if the pcb can be closed |
| Netconn.NonblockingConnectEnds | Device/Source/LwIP/src/api/api_msg.c:346-404 | the end of a non-blocking connect signals nobody and shows in the last error |
| Netconn.FatalStays | Device/Source/LwIP/src/include/lwip/api.h:201 | in every run a fatal last error is never replaced by one that is not |
| Netconn.ReturnKeepsError | Device/Source/LwIP/src/api/api_lib.c:134-210 | when a call has returned, its error is the last one, unless that was fatal |
| Netconn.PartialWriteAsks | Device/Source/LwIP/src/api/api_msg.c:1270-1284 | a non-blocking write that succeeds in part, and only such a one, asks for the write space to be looked at |
| Netconn.RoomAnswers | Device/Source/LwIP/src/api/api_msg.c:276-337 | a callback that finds enough room ends that |
| Netconn.WriteMoreKeeps | Device/Source/LwIP/src/api/api_msg.c:1213-1333 | one turn of `do_writemore` ends the write in a permitted way or keeps the accepted prefix, which gets longer exactly if `tcp_write` took a portion that is not empty |
| Netconn.AssertionsHold | Device/Source/LwIP/src/api/api_msg.c:346-404 | the assertions of the source on `current_msg`, the pcb and the state hold whenever they are reached |
| Netconn.OffsetAssertionExactly | Device/Source/LwIP/src/api/api_msg.c:1352-1357 | in every run, when `do_write`, `do_close` or `do_delconn` asserts that the write offset is 0, it is not 0 if and only if the last write that reached `do_writemore` was ended by a callback, behind an accepted part, by its timeout or an error of `tcp_write` |
| Netconn.OffsetInRuns | Device/Source/LwIP/src/api/api_msg.c:1284-1312 | in every run, while no write goes on and the pcb is there, the offset is not 0 exactly if the last write was ended in that way |
| Netconn.LeftoverOffset | Device/Source/LwIP/src/api/api_msg.c:1305-1312 | runs, by a timeout and by an error, to a connected netconn at rest on which `do_close` and `do_delconn`, after the timeout `do_write` too, reach the assertion with an offset that is not 0 |
| Netconn.DeleteWhileConnecting | Device/Source/LwIP/src/api/api_msg.c:832-866 | deleting during a non-blocking connect can leave the caller waiting for ever if and only if `tcp_close` fails |
| NetconnApi.TcpNetconn.DoWritemore | Device/Source/LwIP/src/api/api_msg.c:1207-1333 | the method on the fields takes the specified step |
| NetconnApi.TcpNetconn.DoCloseInternal | Device/Source/LwIP/src/api/api_msg.c:746-820 | the method on the fields takes the specified step |
| NetconnApi.TcpNetconn.DoDelconn | Device/Source/LwIP/src/api/api_msg.c:831-888 | the method on the fields takes the specified step |
| NetconnApi.TcpNetconn.DoConnect | Device/Source/LwIP/src/api/api_msg.c:983-1032 | the method on the fields takes the specified step |
| NetconnApi.TcpNetconn.DoConnected | Device/Source/LwIP/src/api/api_msg.c:936-974 | the method on the fields takes the specified step |
| NetconnApi.TcpNetconn.DoWrite | Device/Source/LwIP/src/api/api_msg.c:1342-1389 | the method on the fields takes the specified step |
| NetconnApi.TcpNetconn.DoClose | Device/Source/LwIP/src/api/api_msg.c:1450-1482 | the method on the fields takes the specified step |
| NetconnApi.TcpNetconn.PollTcp | Device/Source/LwIP/src/api/api_msg.c:276-300 | the method on the fields takes the specified step |
| NetconnApi.TcpNetconn.SentTcp | Device/Source/LwIP/src/api/api_msg.c:312-337 | the method on the fields takes the specified step |
| NetconnApi.TcpNetconn.ErrTcp | Device/Source/LwIP/src/api/api_msg.c:346-404 | the method on the fields takes the specified step |
| NetconnApi.TcpNetconn.WritePartly | Device/Source/LwIP/src/api/api_lib.c:596-652 | posting a write is the step of the run |
| NetconnApi.TcpNetconn.DoListen | Device/Source/LwIP/src/api/api_msg.c:1064-1109 | the method on the fields takes the specified step |
| NetconnApi.TcpNetconn.CloseShutdown | Device/Source/LwIP/src/api/api_lib.c:662-681 | posting a close or shutdown is the step of the run |
| NetconnApi.TcpNetconn.Perform | Device/Source/LwIP/src/api/api_msg.c:276-404 | every call and callback, carried out by the methods on the fields, is the step of the run and keeps the invariant |
| Json.ParsePrinted | Device/Source/App/NuAgent/Lib/cJSON.c:355-656 | parsing the print of any tree, at any depth, formatted or not, gives the tree and leaves exactly what follows |
| Json.RoundTrip | Device/Source/App/NuAgent/Lib/cJSON.c:322-342 | `cJSON_Parse` of what `cJSON_Print` or `cJSON_PrintUnformatted` wrote is the original tree |
| Json.ParseQuoted | Device/Source/App/NuAgent/Lib/cJSON.c:191-305 | a printed string literal, escapes included, is read back and nothing more is consumed |
| Json.ParseDecimal | Device/Source/App/NuAgent/Lib/cJSON.c:95-113 | decimal digits are read back as the number |
| JsonGrammar.PrintDenotes | Device/Source/App/NuAgent/Lib/cJSON.c:369-656 | what is printed for any tree, formatted or not, is a JSON text for that tree by the grammar of RFC 8259, escapes and numbers included |
| JsonGrammar.ShortEscapeParses | Device/Source/App/NuAgent/Lib/cJSON.c:210-239 | every short escape of RFC 8259, section 7, is read as the character it stands for |
| JsonGrammar.ArrayLayout | Device/Source/App/NuAgent/Lib/cJSON.c:432-509 | how the values of an array are laid out |
| JsonGrammar.CompactLayout | Device/Source/App/NuAgent/Lib/cJSON.c:548-656 | how the members of an object are laid out without formatting |
| JsonGrammar.FormattedLayout | Device/Source/App/NuAgent/Lib/cJSON.c:548-656 | how the lines of an object are laid out and indented with formatting |
| JsonComplete.ParseComplete | Device/Source/App/NuAgent/Lib/cJSON.c:322-545 | the parser reads every JSON text of RFC 8259 for a tree it can hold as that tree, with any white space the grammar allows and strings spelled in any way |
| JsonComplete.StringParses | Device/Source/App/NuAgent/Lib/cJSON.c:191-305 | every string literal of RFC 8259 for a string without NUL, escaped in any way, is read as that string, and nothing more is consumed |
| JsonComplete.NumberParses | Device/Source/App/NuAgent/Lib/cJSON.c:95-118 | every integer of RFC 8259 is read as its value |
| JsonUtf8.Utf8Decodes | Device/Source/App/NuAgent/Lib/cJSON.c:226-236 | the bytes written for any code point are read back as it by the byte ranges of RFC 3629; those of a surrogate are no UTF-8 |
| JsonUtf8.UnitDecodes | Device/Source/App/NuAgent/Lib/cJSON.c:176-237 | four hexadecimal digits, in either case, of any code point of the basic plane stand for the bytes that decode to it |
| JsonUtf8.PairDecodes | Device/Source/App/NuAgent/Lib/cJSON.c:176-237 | two surrogates joined by another `\u` stand for the bytes that decode to their code point, for every code point behind the basic plane |
| JsonUtf8.LoneSurrogate | Device/Source/App/NuAgent/Lib/cJSON.c:215-224 | nothing stands for 0, for a second surrogate alone and for a first one that is not followed by another escape |
| JsonParse.ValueAt | Device/Source/App/NuAgent/Lib/cJSON.c:355-367 | `parse_value` as positions in the text computes the specified parser |
| JsonParse.CharsAt | Device/Source/App/NuAgent/Lib/cJSON.c:199-246 | the unescaping loop of `parse_string` computes the specified one |
| JsonParse.UnicodeAt | Device/Source/App/NuAgent/Lib/cJSON.c:215-237 | decoding the digits of one or two `\u` escapes computes the specified characters and length |
| JsonParse.PutUtf8 | Device/Source/App/NuAgent/Lib/cJSON.c:228-236 | writing the bytes of a code point from the last to the first gives its UTF-8 |
| JsonParse.ItemsAt | Device/Source/App/NuAgent/Lib/cJSON.c:404-429 | the loop of `parse_array` that links children one by one |
| JsonParse.MembersAt | Device/Source/App/NuAgent/Lib/cJSON.c:512-545 | the loop of `parse_object` that links members one by one |
| JsonParse.ParseText | Device/Source/App/NuAgent/Lib/cJSON.c:322-336 | `cJSON_ParseWithOpts` |
| JsonParse.ParsedFits | Device/Source/App/NuAgent/Lib/cJSON.c:191-199 | if every `\u` is followed by four hexadecimal digits, the unescaped string fits the room counted beforehand |
| JsonParse.PrintedFits | Device/Source/App/NuAgent/Lib/cJSON.c:191-305 | what the printer wrote is always read back within that room |
| JsonBuffer.SmearedIsLeastPower | Device/Source/App/NuAgent/Lib/cJSON.c:116 | the shifts of `pow2gt` give the least power of two not below the argument |
| JsonBuffer.SmearedIsPow2gt | Device/Source/App/NuAgent/Lib/cJSON.c:116 | up to 2^30 the shifts on 32-bit words give the number found by doubling from 1 |
| JsonBuffer.PrintBuffer.Ensure | Device/Source/App/NuAgent/Lib/cJSON.c:120-135 | there is room afterwards, what was printed is kept, and the buffer grows only when it has to |
| JsonBuffer.PrintBuffer.Update | Device/Source/App/NuAgent/Lib/cJSON.c:137-143 | the offset moves to the end of the printed text |
| JsonBuffer.PrintBuffer.PrintValue | Device/Source/App/NuAgent/Lib/cJSON.c:370-401 | printing into the growing buffer appends the specified text and a NUL, inside the buffer |
| JsonBuffer.PrintBuffer.PrintArray | Device/Source/App/NuAgent/Lib/cJSON.c:456-474 | the loop over children with `ensure` and `update` appends the text of the array |
| JsonBuffer.PrintBuffer.PrintObject | Device/Source/App/NuAgent/Lib/cJSON.c:569-607 | the loop over members appends the text of the object |
| JsonBuffer.PrintBuffered | Device/Source/App/NuAgent/Lib/cJSON.c:344-351 | whatever the starting size, the buffer holds the text and its NUL |
| JsonBuffer.Measure | Device/Source/App/NuAgent/Lib/cJSON.c:255-280 | the size counted for a string literal is its escaped length |
| JsonBuffer.PutQuoted | Device/Source/App/NuAgent/Lib/cJSON.c:258-305 | the literal is written inside the room asked for |
| JsonStrings.PrintText | Device/Source/App/NuAgent/Lib/cJSON.c:386-401 | the printer without a buffer returns the same text |
| JsonStrings.Compose | Device/Source/App/NuAgent/Lib/cJSON.c:475-507 | an array composed from its children stays inside the size added up for it |
| JsonStrings.ComposeLines | Device/Source/App/NuAgent/Lib/cJSON.c:608-654 | an object composed from its members stays inside the size added up for it |
| JsonStrings.PrintBothWays | Device/Source/App/NuAgent/Lib/cJSON.c:341-351 | both printers give the same text, and the parser gives the tree back |
| JsonMinify.MinifyPrinted | Device/Source/App/NuAgent/Lib/cJSON.c:733-748 | minifying the formatted print of any tree gives its unformatted print, whatever follows |
| JsonMinify.MinifiesToUnformatted | Device/Source/App/NuAgent/Lib/cJSON.c:341-342 | `cJSON_Minify` of `cJSON_Print` is `cJSON_PrintUnformatted` |
| JsonMinify.LineCommentGone | Device/Source/App/NuAgent/Lib/cJSON.c:742 | a comment up to the end of the line goes, with the line feed |
| JsonMinify.BlockCommentGone | Device/Source/App/NuAgent/Lib/cJSON.c:743 | a block comment goes, up to its first end |
| JsonMinify.ShortComment | Device/Source/App/NuAgent/Lib/cJSON.c:743 | the end of a block comment may share the star of its beginning |
| JsonMinify.Minify | Device/Source/App/NuAgent/Lib/cJSON.c:733-748 | in place, writing never ahead of reading, the array ends up with the minified text and its NUL and is unchanged behind the old end |
| PbufRefs.CountsExactInRuns | Device/Source/LwIP/src/core/pbuf.c:616-830 | over any sequence of calls each `ref` is the held references plus the incoming links, and positive |
| PbufRefs.AllocatedIsReachable | Device/Source/LwIP/src/core/pbuf.c:616-690 | over any sequence of calls a pbuf is allocated if and only if a held pointer leads to it |
| PbufRefs.NoDangling | Device/Source/LwIP/src/core/pbuf.c:616-830 | in every run the pbufs that are held, and those that allocated pbufs link to, are allocated |
| PbufRefs.FreeKeeps | Device/Source/LwIP/src/core/pbuf.c:616-690 | `pbuf_free` gives up one reference and keeps all counts right |
| PbufRefs.ReleasedLeads | Device/Source/LwIP/src/core/pbuf.c:640-690 | what `pbuf_free` releases is the longest leading run of the chain whose pbufs have no other reference |
| PbufRefs.FreeFrame | Device/Source/LwIP/src/core/pbuf.c:640-690 | `pbuf_free` takes exactly what it releases out of the store and changes nothing else but counts |
| PbufRefs.FreeCounts | Device/Source/LwIP/src/core/pbuf.c:640-690 | of what stays, only the pbuf at which `pbuf_free` stops is changed, and has one reference less |
| PbufRefs.FreeFresh | Device/Source/LwIP/src/core/pbuf.c:260-268 | freeing a chain under construction releases all of it and restores the store |
| PbufRefs.CatKeeps | Device/Source/LwIP/src/core/pbuf.c:743-766 | `pbuf_cat` takes over the reference to the tail; no cycle arises |
| PbufRefs.ChainOnKeeps | Device/Source/LwIP/src/core/pbuf.c:784-790 | `pbuf_chain` leaves the caller its reference to the tail |
| PbufRefs.CutKeeps | Device/Source/LwIP/src/core/pbuf.c:801-830 | cutting a link and freeing the tail keeps all counts right |
| PbufRefs.CatTotals | Device/Source/LwIP/src/core/pbuf.c:743-766 | `pbuf_cat` keeps every `tot_len` right if and only if nothing was appended or no pbuf outside the first chain links into it |
| PbufBytes.CatMeaning | Device/Source/LwIP/src/core/pbuf.c:743-766 | `pbuf_cat` of two chains makes one that carries the bytes of the first and then those of the second, and keeps right totals right |
| PbufBytes.ChainOnMeaning | Device/Source/LwIP/src/core/pbuf.c:784-790 | so does `pbuf_chain` |
| PbufBytes.CatJoins | Device/Source/LwIP/src/core/pbuf.c:743-766 | in a store with right totals, appending a pbuf that does not lead back gives one chain with the bytes of both and right totals, whatever else links into them |
| PbufStore.TotIsLength | Device/Source/LwIP/src/core/pbuf.c:743-766 | on a chain whose `tot_len` fields are right, `tot_len` is the number of bytes |
| PbufBytes.TakeBytes | Device/Source/LwIP/src/core/pbuf.c:965-995 | `pbuf_take` replaces the first bytes of the chain and nothing else, whatever the segmentation |
| PbufBytes.TakeThenCopy | Device/Source/LwIP/src/core/pbuf.c:916-995 | `pbuf_copy_partial` after `pbuf_take` returns the data |
| PbufBytes.ReallocMeaning | Device/Source/LwIP/src/core/pbuf.c:428-487 | shrinking leaves the first segments with exactly the first bytes and right totals, and keeps all counts |
| PbufBytes.HitIsOccurrence | Device/Source/LwIP/src/core/pbuf.c:1138-1156 | a position reported by `pbuf_memfind` is an occurrence |
| PbufBytes.MemfindCompleteExactly | Device/Source/LwIP/src/core/pbuf.c:1138-1156 | `pbuf_memfind` finds a pattern in every text that contains it if and only if all bytes of the pattern are equal |
| PbufBytes.MixedPatternMissed | Device/Source/LwIP/src/core/pbuf.c:1149 | for every other pattern a text in which it is missed |
| PbufOps.Pbufs.Free | Device/Source/LwIP/src/core/pbuf.c:616-690 | the loop over `next` pointers releases what is specified, counts it, and returns pool elements |
| PbufOps.Pbufs.AllocPool | Device/Source/LwIP/src/core/pbuf.c:235-304 | a failed allocation returns every element it took and leaves the store as it was; a successful one is a new chain with right totals |
| PbufOps.Pbufs.Cat | Device/Source/LwIP/src/core/pbuf.c:743-766 | the loop adds to every total of the first chain and links the last pbuf; the two chains become one with the bytes of both |
| PbufOps.Pbufs.ChainOn | Device/Source/LwIP/src/core/pbuf.c:784-790 | `pbuf_cat` and one more reference; the two chains become one with the bytes of both |
| PbufOps.Pbufs.Dechain | Device/Source/LwIP/src/core/pbuf.c:801-830 | the remainder is returned exactly if somebody else holds it |
| PbufOps.DechainMeaning | Device/Source/LwIP/src/core/pbuf.c:801-830 | the first pbuf stands alone with its own bytes; a tail that is held elsewhere keeps bytes and totals |
| PbufOps.Pbufs.Realloc | Device/Source/LwIP/src/core/pbuf.c:428-487 | the loop over the kept segments and the freeing of the tail do what is specified; enlarging does nothing |
| PbufOps.Pbufs.Take | Device/Source/LwIP/src/core/pbuf.c:965-995 | fails exactly when the chain is too short for the data, else writes the data over it; without chain or data it does nothing and reports success |
| PbufOps.Pbufs.Copy | Device/Source/LwIP/src/core/pbuf.c:850-903 | fails exactly when a chain is missing or the target is shorter, else takes the bytes of the source, however the two are segmented |
| PbufOps.Pbufs.CopyPartial | Device/Source/LwIP/src/core/pbuf.c:916-954 | returns the wanted slice of the concatenated bytes |
| PbufOps.Pbufs.GetAt | Device/Source/LwIP/src/core/pbuf.c:1075-1091 | the byte of the concatenation at an offset, 0 beyond its end |
| PbufOps.Pbufs.Memcmp | Device/Source/LwIP/src/core/pbuf.c:1102-1127 | the first difference from the concatenated bytes at positions cut to 16 bits, or that the chain is too short |
| PbufOps.MemcmpExactly | Device/Source/LwIP/src/core/pbuf.c:1113-1121 | on every chain and for every pattern that is the first difference from the concatenated bytes, if and only if offset and length add up to at most 2^16 or the offset is 0xffff |
| PbufOps.Pbufs.Memfind | Device/Source/LwIP/src/core/pbuf.c:1138-1156 | the result of the skipping search; an empty pattern at the very end is reported one position too early |
| MemHeap.RunKeeps | Device/Source/LwIP/src/core/mem.c:234-632 | over any sequence of malloc, free and trim the heap is exactly tiled, has no two adjacent unused blocks, and holds exactly the live allocations |
| MemHeap.LiveDisjoint | Device/Source/LwIP/src/core/mem.c:492-632 | live allocations never overlap each other or a header |
| MemHeap.MallocFailsExactly | Device/Source/LwIP/src/core/mem.c:492-632 | `mem_malloc` of a non-zero size fails if and only if no unused block has room |
| MemHeap.MallocCarves | Device/Source/LwIP/src/core/mem.c:492-632 | `mem_malloc` carves the memory from the beginning of the lowest unused block with room, takes less than another header and minimal block more than asked for, leaves the rest unused and all other blocks as they were |
| MemHeap.RequestsMet | Device/Source/LwIP/src/core/mem.c:492-632 | a new heap meets every sequence of requests that fits in it with its headers, one right behind the other |
| MemHeap.TrimGivesBack | Device/Source/LwIP/src/core/mem.c:367-481 | a trim gives back what lies behind the new size, all of it if unused memory follows, and leaves the other used blocks as they were; a size that is not there changes nothing |
| MemHeap.NothingLeaks | Device/Source/LwIP/src/core/mem.c:309-355 | when everything has been freed, the heap is one unused block again |
| MemHeap.LiveAligned | Device/Source/LwIP/src/core/mem.c:498-512 | every pointer given out is aligned |
| MemHeap.Heap.Malloc | Device/Source/LwIP/src/core/mem.c:492-632 | on block headers and `lfree`: first fit, splitting, and `lfree` as the lowest unused block |
| MemHeap.Heap.Free | Device/Source/LwIP/src/core/mem.c:309-355 | on block headers: marks the block unused, joins its neighbours, adjusts `lfree`; NULL and foreign pointers change nothing |
| MemHeap.Heap.Trim | Device/Source/LwIP/src/core/mem.c:367-481 | on block headers: moves or inserts the boundary behind the allocation |
| MemHeap.Heap.PlugHoles | Device/Source/LwIP/src/core/mem.c:234-265 | joins an unused block with unused neighbours on both sides |
| Tiling.ReleaseGood | Device/Source/LwIP/src/core/mem.c:234-265 | releasing a block keeps the tiling without adjacent unused blocks |
| Tiling.ReleaseUsed | Device/Source/LwIP/src/core/mem.c:309-355 | releasing takes exactly one block from the used ones |
| DmPool.RunKeeps | Device/Source/Ports/Cortex-M3/os_dmem.c:186-340 | over any sequence of allocations, of any size, and valid frees the pool is exactly tiled, has no adjacent free blocks and a roving pointer at a current header |
| DmPool.LiveDisjoint | Device/Source/Ports/Cortex-M3/os_dmem.c:186-262 | live allocations never overlap each other or a header |
| DmPool.FullExactly | Device/Source/Ports/Cortex-M3/os_dmem.c:186-262 | `OS_GetMem` reports full if and only if no free block is big enough, wherever the search starts; a request that comes to 0 is never refused |
| DmPool.GetCarves | Device/Source/Ports/Cortex-M3/os_dmem.c:186-262 | `OS_GetMem` carves the memory from the beginning of a free block, takes less than another header and minimal block more than asked for, leaves the rest free and all other blocks as they were |
| DmPool.SearchGoesOn | Device/Source/Ports/Cortex-M3/os_dmem.c:249-253 | the next search starts right behind the memory handed out if this one started there, and where this one did otherwise |
| DmPool.NothingLeaks | Device/Source/Ports/Cortex-M3/os_dmem.c:297-340 | when everything has been freed, the pool is one free block again |
| DmPool.FreeIsRelease | Device/Source/Ports/Cortex-M3/os_dmem.c:297-340 | joining with the predecessor first, as this allocator does, gives the same blocks as joining in the other order |
| DmPool.FreeAvailable | Device/Source/Ports/Cortex-M3/os_dmem.c:297-340 | `dm_available` stays the sum of free payloads when a block is freed |
| DmPool.SplitAvailable | Device/Source/Ports/Cortex-M3/os_dmem.c:222-247 | `dm_available` stays the sum of free payloads when a block is split |
| DmPool.Pool.constructor | Device/Source/Ports/Cortex-M3/os_dmem.c:69-91 | a new pool is one free block and its trailer |
| DmPool.Pool.GetMem | Device/Source/Ports/Cortex-M3/os_dmem.c:186-262 | on the circular list: next fit from the roving pointer, splitting, `dm_available` and the new search position |
| DmPool.Pool.FreeMem | Device/Source/Ports/Cortex-M3/os_dmem.c:297-340 | on the circular list: joins free neighbours and keeps the roving pointer at a header |
| DmPool.ZeroRequest | Device/Source/Ports/Cortex-M3/os_dmem.c:186-262 | a request that comes to size 0 gets the block at the search position, which is a free one if and only if that position is unused |
| DmPool.OwnMemoryExactly | Device/Source/Ports/Cortex-M3/os_dmem.c:186-262 | in every run what a request of a size gets was free and belongs to nobody, if and only if the size is not 0 or the pool has a minimum |
| DmPool.ZeroRequestHandsOutLiveMemory | Device/Source/Ports/Cortex-M3/os_dmem.c:186-262 | in every pool without a minimum a run after which requests for 0 bytes get an address behind the trailer and then memory that is in use |
| Timeouts.InsertDeadlines | Device/Source/LwIP/src/core/timers.c:266-307 | arming adds one absolute deadline and changes no other |
| Timeouts.RemoveDeadlines | Device/Source/LwIP/src/core/timers.c:321-347 | cancelling takes the first matching deadline out and changes no other |
| Timeouts.ElapseDeadlines | Device/Source/LwIP/src/core/timers.c:463-472 | waiting changes no deadline |
| Timeouts.StepRefines | Device/Source/LwIP/src/core/timers.c:266-472 | every step of the delta list is a step of a set of deadlines, of which the least, by deadline and then order of arming, runs first |
| Timeouts.FiringOrder | Device/Source/LwIP/src/core/timers.c:422-477 | in every run timeouts run in deadline order, equal deadlines first in first out, none before its time has passed |
| Timeouts.ElementsConserved | Device/Source/LwIP/src/core/timers.c:266-461 | no stored time is negative and list elements are neither lost nor made |
| TimerList.Timers.Timeout | Device/Source/LwIP/src/core/timers.c:266-307 | the loop over list elements splices the new one in at the specified place; without a free element nothing changes |
| TimerList.Timers.Untimeout | Device/Source/LwIP/src/core/timers.c:321-347 | the loop unlinks the first match, hands its time on, and returns the element |
| TimerList.Timers.Fetch | Device/Source/LwIP/src/core/timers.c:422-472 | one pass of `sys_timeouts_mbox_fetch` |
| Dhcp.ReceiveKeeps | Device/Source/App/DhcpServer/dhcp_server.c:204-437 | a message keeps the table invariant and leaves every other client entry that is not idle untouched |
| Dhcp.HoldingIsOneToOne | Device/Source/App/DhcpServer/dhcp_server.c:106-147 | in every run no client holds two addresses, no address is held by two clients, and SELECT never remains |
| Dhcp.OthersUndisturbed | Device/Source/App/DhcpServer/dhcp_server.c:204-437 | in every run a message never touches what another client negotiates or has |
| Dhcp.AnswerIsRecorded | Device/Source/App/DhcpServer/dhcp_server.c:610-655 | an offer or acknowledgement names the address the table records for the sender, held by nobody else |
| Dhcp.RequestedIsOffered | Device/Source/App/DhcpServer/dhcp_server.c:300-345 | a DISCOVER for a pool address nobody else holds is offered that address |
| Dhcp.DiscoverRefusedExactly | Device/Source/App/DhcpServer/dhcp_server.c:300-345 | a DISCOVER is refused if and only if every address is held by somebody else |
| Dhcp.RequestGrantedExactly | Device/Source/App/DhcpServer/dhcp_server.c:347-400 | a REQUEST is acknowledged if and only if it is for this server, nobody else holds the address, and the sender holds one or asks for one of the pool |
| Dhcp.AnswerLasts | Device/Source/App/DhcpServer/dhcp_server.c:610-655 | an acknowledgement binds the address that was asked for, or if that is not of the pool the one held, for the whole lease, and the server remembers the client for no other; an offer is held for the whole timeout |
| Dhcp.ReturningClient | Device/Source/App/DhcpServer/dhcp_server.c:285-345 | a client that asks for no address it can have is offered the one it holds, else one it is remembered for, else one nobody is remembered for, else any that is idle |
| Dhcp.ReleaseGivesBack | Device/Source/App/DhcpServer/dhcp_server.c:398-422 | a RELEASE or DECLINE is not answered, gives back what the sender held, remembers it if it was bound, and changes nothing else |
| Dhcp.ReleasedIsOffered | Device/Source/App/DhcpServer/dhcp_server.c:398-408 | from every new table, for any address, a run in which one client binds and releases it and another is offered it |
| Dhcp.DeleteFrees | Device/Source/App/DhcpServer/dhcp_server.c:743-776 | deletion frees the address a client is bound to and nothing else, and says what it found |
| Dhcp.StillHeldAfterNak | Device/Source/App/DhcpServer/dhcp_server.c:680-722 | when the sender of a refused message still holds an address |
| Dhcp.DiscoverForgets | Device/Source/App/DhcpServer/dhcp_server.c:274-281 | a DISCOVER of a client with an address makes the server give it up and forget whose it was, bound or not, if and only if it asks for another pool address that nobody else holds |
| Dhcp.BoundClientForgotten | Device/Source/App/DhcpServer/dhcp_server.c:274-281 | from every new table, for any two addresses, a run in which a client binds the one, asks for the other, and is forgotten for the first |
| Dhcp.OfferLasts | Device/Source/App/DhcpServer/dhcp_server.c:116-127 | an offer that is not taken up lasts exactly its timeout in seconds |
| Dhcp.LeaseLasts | Device/Source/App/DhcpServer/dhcp_server.c:128-146 | a bound client stays so exactly for its lease in seconds or until the first second in which it is not associated |
| Dhcp.PoolDistinctExactly | Device/Source/App/DhcpServer/dhcp_server.c:818-840 | when the eight addresses of the pool are different |
| Dhcp.PoolFollowsServer | Device/Source/App/DhcpServer/dhcp_server.c:818-840 | with room behind the server's address the pool is the eight addresses that follow it |
| Dhcp.PoolRepeats | Device/Source/App/DhcpServer/dhcp_server.c:838 | a server address for which the pool repeats one |
| DhcpServer.Server.constructor | Device/Source/App/DhcpServer/dhcp_server.c:796-844 | the table as it is set up |
| DhcpServer.Server.Scan | Device/Source/App/DhcpServer/dhcp_server.c:204-268 | the scan finds the first entry of each kind, the own entry and whether the address is taken |
| DhcpServer.Server.Lookup | Device/Source/App/DhcpServer/dhcp_server.c:204-437 | the lookup on the array does what is specified |
| DhcpServer.Server.SmeHandle | Device/Source/App/DhcpServer/dhcp_server.c:610-655 | the state machine, with its fall-through, does what is specified |
| DhcpServer.Server.CleanHistory | Device/Source/App/DhcpServer/dhcp_server.c:594-608 | idle entries forget the address |
| DhcpServer.Server.RecvCb | Device/Source/App/DhcpServer/dhcp_server.c:669-722 | a message on the array does what is specified and keeps the invariant |
| DhcpServer.Server.TickHandle | Device/Source/App/DhcpServer/dhcp_server.c:106-147 | a second on the array does what is specified and keeps the invariant |
| DhcpServer.Server.ClientDelete | Device/Source/App/DhcpServer/dhcp_server.c:743-776 | deletion on the array does what is specified and keeps the invariant |
| Dns.CalledOnce | Device/Source/LwIP/src/core/dns.c:634-843 | in every run the callback of a query has been called exactly once, or the query is still asked and it has not been called |
| Dns.AnsweredInTime | Device/Source/LwIP/src/core/dns.c:634-695 | a query is over, with its callback called once, when 1 + R(R-1)/2 ticks per configured server have passed |
| Dns.TickCounts | Device/Source/LwIP/src/core/dns.c:656-695 | a tick takes exactly one from the ticks left, and the query times out with the last |
| Dns.PausesSum | Device/Source/LwIP/src/core/dns.c:656-690 | the pauses between retries add up to 1 + R(R-1)/2 |
| Dns.ServersInTurn | Device/Source/LwIP/src/core/dns.c:656-690 | a query without an answer asks the configured servers in turn, each for 1 + R(R-1)/2 ticks |
| Dns.PacketEffect | Device/Source/LwIP/src/core/dns.c:763-843 | a packet ends the query of an entry that is being asked, with one call of its callback, and changes nothing else |
| Dns.AnswerKeptFor | Device/Source/LwIP/src/core/dns.c:800-808 | an answer is kept for the time to live of its packet, but at most a week, and one of 0 for 2^32 ticks |
| Dns.RefusedExactly | Device/Source/LwIP/src/core/dns.c:858-892 | a query is refused if and only if no entry is unused, the first is being asked and every completed one looks younger than now |
| Dns.OldestReusedExactly | Device/Source/LwIP/src/core/dns.c:866-892 | in all runs with n accepted queries, a query that finds no unused entry gets that of the oldest completed query, and is refused only if there is none, if and only if n < 256 |
| Dns.RunNumbered | Device/Source/LwIP/src/core/dns.c:901 | in every run each entry carries the low byte of the number of its query, and different entries belong to different queries |
| Dns.RefusedAfterWrap | Device/Source/LwIP/src/core/dns.c:876 | a run after whose wrap a query is refused though three completed, older entries could be reused |
| Dns.AnswerLasts | Device/Source/LwIP/src/core/dns.c:697-706 | an answer is kept for its time to live, and one of 0 for 2^32 ticks |
| DnsTable.DnsClient.CheckEntries | Device/Source/LwIP/src/core/dns.c:717-724 | the loop over the array is the specified tick and keeps the invariant |
| DnsTable.DnsClient.CheckEntry | Device/Source/LwIP/src/core/dns.c:634-711 | one entry of the array is checked as specified |
| DnsTable.DnsClient.Recv | Device/Source/LwIP/src/core/dns.c:763-843 | a packet does to the array what is specified |
| DnsTable.DnsClient.FindSlot | Device/Source/LwIP/src/core/dns.c:866-892 | the search for an entry with its 8-bit age finds the specified one |
| DnsTable.DnsClient.Enqueue | Device/Source/LwIP/src/core/dns.c:858-913 | queueing a name does to the array what is specified |
| Base64.RoundTrip | Device/Source/App/NuAgent/Lib/base64.c:32-152 | decoding the encoding of any bytes gives them back, through line feeds and padding |
| Base64Text.Alphabet | Device/Source/App/NuAgent/Lib/base64.c:17-18 | the table of letters is the alphabet of RFC 1341 |
| Base64Text.EncodeGroups | Device/Source/App/NuAgent/Lib/base64.c:54-80 | each group of three bytes is written as the letters of its 24 bits, six by six, the last one padded |
| Base64Text.LineFeeds | Device/Source/App/NuAgent/Lib/base64.c:60-84 | a line feed follows every 72 letters and ends the text, and there is no other |
| Base64.SymbolsOfEncoded | Device/Source/App/NuAgent/Lib/base64.c:58-63 | line feeds are skipped wherever they stand |
| Base64.TriplesOfQuads | Device/Source/App/NuAgent/Lib/base64.c:130-148 | decoding the groups and trimming the padding gives the source |
| Base64.SizeCovers | Device/Source/App/NuAgent/Lib/base64.c:39-41 | text, line feeds and NUL always fit, and fill the buffer if and only if the length is 1 modulo 3 and the last line is not full |
| Base64.EncodeBuffer | Device/Source/App/NuAgent/Lib/base64.c:32-87 | the loop writes the specified text and a NUL inside the allocated size |
| Base64.DecodeBuffer | Device/Source/App/NuAgent/Lib/base64.c:100-152 | the two loops compute the specified decoding |
| TcpPort.TcpPorts.NewPort | Device/Source/LwIP/src/core/tcp.c:645-668 | terminates, returns the next unused port behind the last one, and 0 if and only if all 16384 are in use |
| TcpPort.RoundMeetsAll | Device/Source/LwIP/src/core/tcp.c:651-653 | going round once meets every port of the range |

## Left out

- Board support, drivers, UDP, IP, ARP, TCP input and output, the mailbox and semaphore primitives: their results are parameters of the steps, or their effect is an abstract queue or counter.
- Sockets closed while they are selected on, `fd_set` copying and the first and third scan of `lwip_select`: the protocol is modelled from the moment a call enters the list until it leaves it.
- SocketLayer.Layer.ScanCb: the scan reads a socket and judges it in one step; the source judges a copy after unlocking, which no other thread can see.
- The wrap-around of the select change counter, of reference counts and of size arguments: assumed to fit.
- Netconn.StepKeeps: events for select, the mailboxes of received data and accepted connections, and core locking are not modelled; RAW and UDP netconns take only the immediate paths.
- Netconn.OneSignalPerCall: holds under the assumption that closing a pcb that is still connecting succeeds, as it does in tcp.c lines 220-226; what happens otherwise is Netconn.DeleteWhileConnecting.
- Fractions and exponents of JSON numbers, failing allocations and malformed JSON that makes the source read past its terminating NUL; the parser of the model answers such input with a failure.
- JsonBuffer.PrintBuffer.Ensure: the size is computed on unbounded numbers; that the 32-bit shifts give the same is proved up to 2^30 (JsonBuffer.SmearedIsPow2gt), beyond which sizes are assumed not to go.
- JsonMinify.Minify: string literals and block comments end, since for others the source reads past the terminating NUL.
- cJSON helpers that link, detach, replace or duplicate items.
- The other pbuf types: `pbuf_alloc` of a single RAM, ROM or REF pbuf, the trimming of a RAM pbuf by the heap, custom pbufs, `pbuf_header` and `pbuf_coalesce`.
- PbufOps.Pbufs.Copy: chains of non-empty pbufs with right totals only; the two refusals of packet queues are shown to be unreachable for them.
- `memp.c` on its own: pools are sets of free elements.
- MemHeap.RunKeeps: back links are claimed for real blocks only, since `mem.c` does not keep that of the end of the heap (lines 442, 573).
- The pool variant of `mem.c` and its free from other contexts, statistics and the heap's mutex.
- DmPool.Pool.constructor: pools with room for two headers and a minimal block; in smaller ones the trailer does not fit behind the first header, or no request can ever be met.
- The names, tasks and error codes around dynamic memory pools, and pools on alien memory.
- Timeouts.FiringOrder: times are unbounded here and assumed to fit 32 bits in the source; a timeout whose handler is NULL is taken off the list like any other.
- TimerList.Timers.Fetch: the handler runs between two passes and may arm or cancel; it is part of the run, not of the method.
- The parsing and building of DHCP packets, starting and stopping of the server, and its address being set.
- Dhcp.PoolDistinctExactly: addresses are a network part plus a host part; byte order is left out.
- The names and addresses of DNS entries, the building and parsing of packets, cached answers found by name and changes of the configured servers.
- Base64.EncodeBuffer: allocations succeed and sizes do not overflow.
- The DHCP client, ring buffers, byte swapping and name comparison: not modelled, since they would only add easy members.
