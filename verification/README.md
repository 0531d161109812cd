# Verified models of the STM32F107 TFTP and Ethernet firmware

Dafny models, with proofs, of the stateful parts of this firmware: the TFTP server, the Ethernet
descriptor rings shared with the DMA engine, the telnet line assembler, the periodic scheduler, the
GPIO, remap and I2S register drivers, and lwIP's netbuf and address-lookup layers. Code that changes
state is a class or a method over arrays and linked objects; its contract ties it to a
specification, and what the source promises is proved about that. The contracts of the main operations
also say in bytes, bits and numbers what they leave behind.

Run `dafny verify dfyconfig.toml`.

| file | models |
|---|---|
| `TftpCodec.dfy` | packet readers, in-place writers and builders |
| `TftpUpload.dfy` | write requests: callback, accounting, and the server inside a hostile network |
| `TftpDownload.dfy` | read requests: callback, labels, and what an RFC 1350 client makes of them |
| `TftpSend.dfy` | sending: the copy into a chain whose first pbuf may be too small |
| `TftpLossyDownload.dfy` | the same server and client at the two ends of a hostile network |
| `RingIndex.dfy`, `RxRing.dfy`, `TxRing.dfy` | the descriptor rings as transition systems of CPU and DMA |
| `EthRx.dfy`, `EthTx.dfy` | the driver code over descriptors, buffers and pbufs; every execution is a run of the rings |
| `Pbufs.dfy` | pbuf chains and pool allocation |
| `PoolLoss.dfy` | what chained uploads cost the pool |
| `HelloWorld.dfy` | the telnet line assembler |
| `PeriodicTimers.dfy` | the wrap-around timers |
| `Words.dfy`, `GpioInit.dfy`, `GpioRemap.dfy` | 32-bit words, pin configuration, remaps and EXTI lines |
| `I2sInit.dfy` | audio clock divider and register packing |
| `AddrInfo.dfy` | getaddrinfo and freeaddrinfo over a heap with failures |
| `NetbufBooks.dfy` | ownership of pbufs and validity of cursors over whole runs |
| `Netbufs.dfy` | netbufs, `pbuf_free`, `pbuf_cat` over linked pbufs |
| `NetbufRuns.dfy` | the same with its calls recorded: every execution is a run of the books |
| `Bytes.dfy` | bytes, truncation, concatenation |

Where the code does not do what its comments or its interface promise, the model follows the code and
the exact condition is proved:

- an upload that closes is complete if and only if no write was refused and the file is at most
  65535 * 512 bytes (`UploadEndToEnd`); a block whose write is refused is acknowledged all the same, and
  the sender may finish (`RefusedWitness`). An upload can complete only if its packets arrive in single
  pbufs, which with this configuration's 256-byte buffers means files of at most 210 bytes
  (`UploadCanComplete`, `UploadHere`);
  the packets that arrive chained are not given back, and three full blocks leave a pool in which no
  frame of more than 256 bytes is ever received again (`ThreeBlocksStarve`);
- a message longer than its first pbuf does not leave as built; in this configuration only files of at
  most 196 bytes can be downloaded (`IntactExact`, `DownloadLimit`, `DownloadHere`);
- an unexpected ACK does not resend the block, as the comment at `tftpserver.c:236-237` says; the next
  bytes go out under the old number. `DownloadExact` says when a client that receives every packet still
  gets the file, `LossyDownloadExact` when a client behind a lossy network does;
- a bad frame at the head of the receive ring is never skipped, because the handler polls a size that
  is 0 for it: every frame is taken if and only if all are good (`EveryFrameTaken`, `BadFrameBlocks`);
- an output on a full transmit ring reports success and writes into the oldest pending frame
  (`OutputExact`); the ring is a FIFO at every moment if and only if no such write changes a frame
  (`TxFifoExact`);
- the chip header gives PTP_PPS the mask of TIM2ITR1 (`stm32f10x.h:2293`); the remap constant leads the code
  to bit 30, which is what `ChipField` has;
- the nearest divider is not always the most accurate audio frequency (`FrequencyNearestExactly`,
  `SysclkNearestExactly`, `Pll3NearestExactly`);
- chaining a packet to an empty netbuf loses its pbufs (`RunAccounted`), and a failed `netbuf_alloc`
  leaves the cursor at freed memory (`CursorsExact`, `Pool.Alloc`);
- a lookup without a host name stores the loopback constant in host order, so in memory it reads
  1.0.0.127 on this little-endian part (`LoopbackReversed`, `GetAddrInfo`).

DMA activity is nondeterministic: the methods of `EthRx` and `EthTx` carry a tape saying how often the
DMA acts at each pause between CPU statements, and all contracts hold for every tape. Memory failures,
file system results, the resolver's answer, SYSCLK and the network are parameters in the same way.

## Model

| member | source | states |
|---|---|---|
| TftpUpload.UploadEndToEnd | lwip-1.3.1/port/tftpserver.c:309-374 | In every run of the server opposite a lock-step sender, over a network that loses, duplicates and reorders and a file system that grants or refuses each write, the server file is always a prefix of the sender file and as long as tot_bytes if and only if no write was refused; in runs where the server closes or the sender finishes, the two files are then equal if and only if no write was refused and the file is at most 65535 * 512 bytes; a longer file is cut exactly there, and after a refused write the file ends in front of that block (RFC 1350, sections 2 and 6) |
| TftpUpload.RefusedWitness | lwip-1.3.1/port/tftpserver.c:328-338 | Any file shorter than one block whose write is refused: the server closes, the sender finishes, and nothing is stored |
| TftpUpload.StepKeepsInv | lwip-1.3.1/port/tftpserver.c:309-374 | Every event of either party or the network, with any outcome of a write, keeps the invariant that ties block number, file, total, the sender position and every packet in flight; a refused write is what moves it to the state in which a block is missing |
| TftpUpload.RunKeepsInv | lwip-1.3.1/port/tftpserver.c:309-374 | The same over whole runs, a block missing exactly when some write was refused |
| TftpUpload.LosslessRun | lwip-1.3.1/port/tftpserver.c:309-374 | After k exchanges without loss, for any k that fits 16 bits, both parties agree on k and the connection is closed exactly after the last block |
| TftpUpload.UploadCanComplete | lwip-1.3.1/port/tftpserver.c:314-367 | When packets longer than r bytes arrive as chains, some run closes with the whole file on the server if and only if the file is at most 65535 * 512 bytes (r at least 516) or its only packet fits r bytes (smaller r) |
| TftpUpload.UploadStuck | lwip-1.3.1/port/tftpserver.c:314-317 | If even the first block arrives as a chain the server stays at block 0 in every run |
| TftpUpload.UploadHere | lwip-1.3.1/port/lwipopts.h:75 | With pool buffers of 256 bytes exactly the packets of at most 214 bytes need one buffer, which is when the chain allocated has its first length equal to its total (Pbufs.AllocPool), and exactly the files of at most 210 bytes can be uploaded |
| TftpUpload.UploadTruncates | lwip-1.3.1/port/tftpserver.c:320-338 | A file of 65535 * 512 + 1 bytes loses its last byte even on a lossless network: the concrete run where the promise fails |
| TftpUpload.UploadAccounting | lwip-1.3.1/port/tftpserver.c:320-357 | For every packet sequence without write failure: the file is the in-order payloads, the block number counts them and stays within 16 bits, tot_bytes is the file length, cleanup runs at most once, and there is exactly one ACK for each packet heard in one pbuf before closing, and the ACKs rise by at most one per packet and never fall |
| TftpUpload.WriteFailureExact | lwip-1.3.1/port/tftpserver.c:328-338 | A refused write is the only packet after which tot_bytes and file length differ; the block is acknowledged all the same, and cleanup runs twice exactly when that packet was also short |
| TftpUpload.WriteConnection.RecvCallback | lwip-1.3.1/port/tftpserver.c:309-374 | For every packet and write outcome, in bytes and numbers: an in-order packet moves the block number by one and the total by its data, which joins the file unless refused; any unchained packet is answered with exactly one ACK of the block taken last, behind one error message after a refused write; cleanup runs once for a packet under 516 bytes and once for a refused write; a chained packet changes nothing, is not answered, and is the one kind whose pbufs are not given back |
| TftpUpload.WriteConnection.constructor | lwip-1.3.1/port/tftpserver.c:403-408 | A write connection starts at block 0 with nothing written |
| TftpUpload.ProcessWrite | lwip-1.3.1/port/tftpserver.c:376-417 | The three outcomes of a write request and the packet answered in each, byte by byte: 0 4 0 0, or error 6 for a file that does not open and error 0 for a record that is not allocated |
| TftpDownload.DownloadLabels | lwip-1.3.1/port/tftpserver.c:199-256 | After c callbacks with a expected ACKs the last DATA is slice c of the file under block number 1 + a, for every packet sequence; the connection on a file of L bytes closes at callback number L / 512 + 1 whatever the packets contain, after an extra empty block when 512 divides L |
| TftpDownload.ClientFollows | lwip-1.3.1/port/tftpserver.c:199-256 | What a client that receives every DATA packet once and in order holds after each: a slice sent on an unexpected ACK is lost to it for good |
| TftpDownload.SentExact | lwip-1.3.1/port/tftpserver.c:229-252 | A client that received every message sent, once, in order and as built, holds the whole file if and only if every unexpected ACK came when no byte was left to send, and is told so if and only if every ACK before the last callback was the expected one; the source comment that an unexpected ACK resends the block does not hold |
| TftpDownload.DownloadExact | lwip-1.3.1/port/tftpserver.c:229-252 | The same for every connection that has closed, whatever packets it received |
| TftpDownload.StaleAckWitness | lwip-1.3.1/port/tftpserver.c:229-252 | A two-slice file of which one early repeated ACK loses the second slice, whatever follows |
| TftpDownload.DownloadLimit | lwip-1.3.1/port/tftpserver.c:71-93 | When the first pbuf of an outgoing message has room for r bytes, some sequence of replies completes the download for every content of the pool memory if and only if the file is shorter than 512 * 65536 bytes (r at least 516) or its only message fits r bytes (smaller r) |
| TftpDownload.MessagesFitExact | lwip-1.3.1/port/tftpserver.c:71-93 | Every message that any sequence of replies makes a connection send fits r bytes if and only if its first one does |
| TftpDownload.Unserved | lwip-1.3.1/port/tftpserver.c:84 | If the first message does not fit, pool memory that differs from it in one byte leaves the client unfinished or with a wrong file, whatever it replies |
| TftpDownload.DownloadHere | lwip-1.3.1/port/lwipopts.h:75 | In this configuration exactly the files of at most 196 bytes can be downloaded, and exactly for them does every message fit |
| TftpSend.SendMessage | lwip-1.3.1/port/tftpserver.c:71-93 | Nothing is sent exactly when the message is longer than 256 bytes for each free buffer less 56 for the headers; otherwise the chain carries a message of the right length whose first 200 bytes are those built, and the pool gets its buffers back |
| TftpSend.IntactExact | lwip-1.3.1/port/tftpserver.c:84 | A message leaves as built for every content of the other pbufs if and only if it fits the first one |
| TftpSend.SendRoom | lwip-1.3.1/src/core/pbuf.c:183-199 | The first pbuf of an outgoing message takes 200 bytes |
| TftpSend.RepliesFit | lwip-1.3.1/port/tftpserver.c:114-160 | ACK and ERROR packets always fit |
| TftpDownload.ReadConnection.constructor | lwip-1.3.1/port/tftpserver.c:289-304 | A read connection starts at block 1 and sends 0 3 0 1 and up to 512 bytes at once |
| TftpDownload.ReadConnection.FileRead | lwip-1.3.1/port/tftpserver.c:204 | The read fills 512 bytes or what is left and moves the cursor by as much |
| TftpDownload.ReadConnection.SendNextBlock | lwip-1.3.1/port/tftpserver.c:199-221 | The next 512 bytes of the file or what is left go out behind 0 3 and the current block number, even when there are none |
| TftpDownload.ReadConnection.RecvCallback | lwip-1.3.1/port/tftpserver.c:223-256 | For every received packet, in bytes and numbers: only an ACK that carries the block number moves it by one; a last read under 512 bytes closes and sends nothing; otherwise the next bytes of the file go out once, under the number just decided |
| TftpDownload.ProcessRead | lwip-1.3.1/port/tftpserver.c:258-307 | The three outcomes of a read request and the packet answered in each, byte by byte |
| TftpLossyDownload.LossyDownloadExact | lwip-1.3.1/port/tftpserver.c:223-256 | Over a network that loses, duplicates and reorders in both directions, a client that has finished holds the file if and only if the server heard ACKs 1 to L / 512 each exactly once and in order |
| TftpLossyDownload.PlayKeepsInv | lwip-1.3.1/port/tftpserver.c:223-256 | In every run the slices the client took are those its block numbers stand for, and only the last slice of the file finishes it |
| TftpLossyDownload.LostDataWitness | lwip-1.3.1/port/tftpserver.c:223-256 | A run in which one DATA packet is lost, the last ACK is repeated, and the client finishes with the second of three slices missing |
| TftpCodec.DataRoundTrip | lwip-1.3.1/port/tftputils.c:9-61 | DATA packets decode to the opcode, 16-bit block and payload they were built from, and differ when any of these differ (RFC 1350, section 5) |
| TftpCodec.OnTheWire | lwip-1.3.1/port/tftpserver.c:97-160 | The packets byte by byte: 0 3 or 0 4 and the block number with its high byte first; 0 5, the number and the text of each of the eight errors, and a NUL |
| TftpCodec.CorrectAckExact | lwip-1.3.1/port/tftputils.c:64-75 | The ACK test holds, for any packet and any int, exactly when the second byte is 4 and the next two, high byte first, are that number; so never outside 0..65535 and never for a DATA packet |
| TftpCodec.ErrorRoundTrip | lwip-1.3.1/port/tftpserver.c:97-112 | An ERROR packet carries its code and NUL-terminated text, no two error codes share a number, and none passes the ACK test |
| TftpCodec.BuildData | lwip-1.3.1/port/tftpserver.c:126-140 | The packet built in the fixed buffer is opcode 3, the block truncated to 16 bits in network order, and the payload |
| TftpCodec.BuildAck | lwip-1.3.1/port/tftpserver.c:142-160 | The four bytes of an ACK for the block truncated to 16 bits |
| TftpCodec.BuildError | lwip-1.3.1/port/tftpserver.c:97-112 | The first len bytes of the caller buffer are the ERROR packet with its NUL, and len fits the buffer |
| TftpCodec.ErrorReply | lwip-1.3.1/port/tftpserver.c:114-124 | The packet sent is the whole ERROR packet with its NUL |
| TftpCodec.SetOpcode | lwip-1.3.1/port/tftputils.c:28-33 | Writes 0 and the opcode, and no other byte |
| TftpCodec.SetErrorCode | lwip-1.3.1/port/tftputils.c:36-41 | Writes the code in network order, and no other byte |
| TftpCodec.SetErrorMsg | lwip-1.3.1/port/tftputils.c:44-47 | Writes the message and its NUL behind the header, and no other byte |
| TftpCodec.SetBlock | lwip-1.3.1/port/tftputils.c:50-55 | Writes the block truncated to 16 bits in network order, and no other byte |
| TftpCodec.SetDataMessage | lwip-1.3.1/port/tftputils.c:58-61 | Writes the payload behind the header, and no other byte |
| TftpCodec.ExtractFilename | lwip-1.3.1/port/tftputils.c:22-25 | Copies the bytes before the first NUL behind the opcode, and the NUL, and no other byte |
| RxRing.StepKeepsInv | lwip-1.3.1/port/ethernetif.c:228-259 | Every step of the CPU or the DMA keeps: waiting descriptors form one circular run from the CPU cursor, at most one held descriptor lies just before it, the rest belong to the DMA; each waiting or held descriptor still holds its frame; what was copied is a prefix of the frame |
| RxRing.RunKeepsInv | lwip-1.3.1/port/ethernetif.c:228-259 | The same over every interleaving |
| RxRing.RxFifo | lwip-1.3.1/port/ethernetif.c:228-259 | Frames completed by the DMA are, in order, those taken followed by those waiting; every fill is given back exactly once and in order, is held, or waits; every frame given back was delivered byte for byte up to its last four bytes, the CRC, unless no pbuf was granted |
| RxRing.DmaNeverOverwrites | lwip-1.3.1/port/ethernetif.c:369-419 | In every reachable state the DMA can store a frame if and only if a descriptor is neither waiting nor held; storing appends to what waits and leaves the held frame untouched, although the cursor has already moved on |
| RxRing.EveryFrameTaken | usr/stm32f10x_it.c:169-182 | In every run whose frames are taken only when the polled size is not 0, only good frames are taken; whenever the CPU is idle and that size is 0, every frame completed has been taken if and only if all of them were good |
| RxRing.BadFrameBlocks | usr/stm32f10x_it.c:169-182 | A bad frame at the head stops reception for good: in every later run of both parties, handler calls included, the polled size stays 0, the same frame stays first and nothing is taken |
| RxRing.BadFrameWitness | usr/stm32f10x_it.c:169-182 | A bad frame, then a good one the DMA completes and no run ever takes |
| RxRing.SizeExact | usr/stm32f10x_it.c:172 | The polled size is 0 exactly when nothing waits or the first waiting frame is bad |
| EthRx.RxDriver.constructor | lwip-1.3.1/port/ethernetif.c:161 | A chain of n descriptors, all the DMA's, both cursors at the first |
| EthRx.RxDriver.RxPktChainMode | lwip-1.3.1/port/ethernetif.c:369-419 | Nothing when the DMA owns the descriptor; otherwise the descriptor and a length that is, with 4 added, the one its status gives (0 for a frame with an error or in more than one piece), and the cursor is one further, or back at 0, before anything is copied |
| EthRx.RxDriver.TakeFrame | lwip-1.3.1/port/ethernetif.c:238-246 | The first waiting frame is taken and a pool chain asked for; a chain is granted exactly when the pool has enough buffers |
| EthRx.RxDriver.CopySegment | lwip-1.3.1/port/ethernetif.c:252-253 | One memcpy fills one segment with the next bytes of the frame |
| EthRx.RxDriver.CopySegments | lwip-1.3.1/port/ethernetif.c:250-254 | The copy loop fills every segment of the chain, with DMA activity before each memcpy |
| EthRx.RxDriver.CopyFrame | lwip-1.3.1/port/ethernetif.c:248-259 | After the loop the chain concatenates to exactly the frame, and the descriptor is the DMA's again |
| EthRx.RxDriver.GiveBack | lwip-1.3.1/port/ethernetif.c:258-259 | Writing OWN returns the held descriptor, no other one changes, and its frame counts as delivered |
| EthRx.RxDriver.LowLevelInput | lwip-1.3.1/port/ethernetif.c:228-272 | However the DMA interleaves: a chain is returned exactly when 256 bytes for each free buffer hold the frame; it then holds the bytes of the frame that waited first without its last four, or none when that frame was bad; the descriptor is owned by the DMA again either way, and the cursor is one further |
| EthRx.RxDriver.SizeSaysGood | usr/stm32f10x_it.c:172 | The size the handler polls (ETH_GetRxPktSize) is the length in the status of a good frame of the CPU's and 0 for any other descriptor; it is that of the transition system |
| EthRx.RxDriver.BlockedExact | usr/stm32f10x_it.c:172 | The handler is blocked exactly when the first frame waiting is bad, and then polls size 0 |
| EthRx.RxDriver.EthIrqHandler | usr/stm32f10x_it.c:169-182 | The drain loop terminates on every finite DMA activity and for any number of free buffers at each call; it takes only good frames, in order, and delivers each whole or, when its own call finds too few buffers, not at all; it stops exactly when nothing waits or the first waiting frame is bad; then every frame completed has been taken if and only if all were good; called with a bad frame in front it takes nothing and the frame stays |
| EthRx.RxDriver.InputOne | usr/netconf.c:173-177 | One turn takes exactly one good frame, delivers it as the free buffers allow, and makes progress |
| EthRx.RxDriver.FramesKept | lwip-1.3.1/port/ethernetif.c:369-419 | At every moment the frames completed are those taken followed by those waiting |
| Pbufs.AllocPool | lwip-1.3.1/src/core/pbuf.c:151-247 | With so many buffers free: a fresh chain with lengths, totals and reference counts as the code sets them exactly when they hold the length, 256 bytes each less 56, 36, 16 or 0 for the headers in the first; otherwise nothing, and every buffer is back; the first length equals the total exactly when one buffer is enough |
| Pbufs.GrantedExact | lwip-1.3.1/src/core/pbuf.c:183-247 | The loop finds enough buffers if and only if the free ones hold the length behind the headers |
| Pbufs.BuildChain | lwip-1.3.1/src/core/pbuf.c:183-247 | The allocation: linked pbufs with one reference each, filled in turn to what their buffers hold, whose totals fall by each length; as many as the length needs |
| Pbufs.TakeRest | lwip-1.3.1/src/core/pbuf.c:208-245 | The loop behind the first buffer: at every pass the chain built so far is right and what remains is what its last total leaves; it stops at the length or when the pool is empty |
| Pbufs.LensFit | lwip-1.3.1/src/core/pbuf.c:198-229 | No segment is longer than its buffer, all but the last fill theirs, and the number of segments is the least that holds the length |
| Pbufs.LensSum | lwip-1.3.1/src/core/pbuf.c:198-242 | The segments add up to the length |
| PoolLoss.Receive | lwip-1.3.1/port/tftpserver.c:314-317 | From pool to callback and back: the buffers of a chained packet for a write connection are not free afterwards, those of any other are |
| PoolLoss.PoolWhole | lwip-1.3.1/port/tftpserver.c:314-317 | After any series of frames for a write connection the pool is whole if and only if none of them was received as a chain |
| PoolLoss.Starved | lwip-1.3.1/port/tftpserver.c:314-317 | A frame the pool cannot hold now is not received after any later frames either |
| PoolLoss.ThreeBlocksStarve | lwip-1.3.1/port/lwipopts.h:72 | With ten buffers: after three full data blocks no frame of more than 256 bytes is received again, whatever comes in between |
| TxRing.StepKeepsInv | lwip-1.3.1/port/ethernetif.c:429-464 | Every step that changes no byte of a frame still to be sent keeps: DMA-owned descriptors form one circular run that ends just before the CPU cursor, and each still holds the frame queued for it |
| TxRing.RunKeepsInv | lwip-1.3.1/port/ethernetif.c:429-464 | The same over every interleaving of such steps, whoever owns the descriptor an output starts on |
| TxRing.TxFifo | lwip-1.3.1/port/ethernetif.c:202-218 | In such runs the frames handed over are, in order, those sent followed by those pending; at most n are pending, and n exactly when the descriptor at the CPU cursor is the DMA's |
| TxRing.TxFifoExact | lwip-1.3.1/port/ethernetif.c:202-218 | Over every run, outputs and DMA interleaved in any way: the frames handed over are at every moment those sent followed by those pending if and only if no write has changed a frame the DMA still had to send |
| TxRing.DamageBreaksFifo | lwip-1.3.1/port/ethernetif.c:209-213 | One such write is enough: afterwards the frames handed over are not those sent and pending |
| TxRing.DisciplinedIsUndamaged | lwip-1.3.1/port/ethernetif.c:202-218 | Outputs that start on a descriptor of the CPU's never make one |
| TxRing.FullRingWitness | lwip-1.3.1/port/ethernetif.c:202-218 | Three outputs on a ring of two: the third is sent in place of the first, though it was never queued |
| TxRing.OutputExact | lwip-1.3.1/port/ethernetif.c:202-218 | An output with no DMA step inside appends its gathered bytes to what is pending if and only if the ring is not full; on a full ring nothing is queued and the oldest pending frame has its first bytes overwritten |
| EthTx.TxDriver.constructor | lwip-1.3.1/port/ethernetif.c:159 | A chain of n descriptors, all the CPU's, both cursors at the first |
| EthTx.TxDriver.TxPktChainMode | lwip-1.3.1/port/ethernetif.c:429-464 | Fails exactly when the DMA owns the descriptor, and then changes nothing; otherwise that descriptor alone changes, to one of the DMA's with the frame's length, the frame is queued, and the cursor is one further or back at 0 |
| EthTx.TxDriver.MemCpyOut | lwip-1.3.1/port/ethernetif.c:211 | One segment is copied behind what was gathered so far, and no other byte of the buffer changes |
| EthTx.TxDriver.Gather | lwip-1.3.1/port/ethernetif.c:209-213 | The gathering loop leaves exactly the chain's bytes in the buffer and their number in l, whatever the DMA sends meanwhile |
| EthTx.TxDriver.LowLevelOutput | lwip-1.3.1/port/ethernetif.c:202-218 | Started on a descriptor of the CPU's, queues exactly the chain's bytes: the descriptor is the DMA's, says how many they are, its buffer starts with them, and the cursor is one further; otherwise queues them or nothing |
| EthTx.TxDriver.QueueIsSentAndPending | lwip-1.3.1/port/ethernetif.c:202-218 | Unless a write damaged a pending frame, what was queued is what was sent followed by what is pending |
| EthTx.TxDriver.OrderlyIsUndamaged | lwip-1.3.1/port/ethernetif.c:202-218 | When every output started on a descriptor of the CPU's, none was damaged |
| EthRoundTrip.Forward | lwip-1.3.1/port/ethernetif.c:202-259 | A good frame scattered into a chain by the input loop and gathered by the output loop is queued as the bytes the descriptor held, less the last four |
| HelloWorld.SessionIsLineReader | lwip-1.3.1/port/helloworld.c:79-116 | Over any sequence of packets the replies are those of a byte-stream line reader on the stream without the bytes behind the first line end of each packet; how the stream is cut into packets matters no further |
| HelloWorld.StreamOfKept | lwip-1.3.1/port/helloworld.c:79-116 | One packet does to the accumulated line what the byte-stream reader does with the part it keeps |
| HelloWorld.PlainStep | lwip-1.3.1/port/helloworld.c:79-116 | The specification of one packet in numbers: no byte 10 or 13 means no reply, and the first of them decides the one reply |
| HelloWorld.Connection.Serve | lwip-1.3.1/port/helloworld.c:56-131 | The callback called with one packet after another, each any chain of segments: the line held and everything written are those of the session specification |
| HelloWorld.Connection.constructor | lwip-1.3.1/port/helloworld.c:140-154 | A connection starts with an empty line, or without a record when none is allocated, and greets with the question and bytes 13 and 10 |
| HelloWorld.Connection.PutChar | lwip-1.3.1/port/helloworld.c:85-89 | A byte is stored behind the others if there are fewer than 32; exactly 13 and 10 end the line |
| HelloWorld.Connection.PutSegment | lwip-1.3.1/port/helloworld.c:83-90 | The bytes of one segment up to and including the first line end are appended, 32 bytes at most being stored |
| HelloWorld.Connection.PutChain | lwip-1.3.1/port/helloworld.c:79-91 | The same for a packet split over any chain of segments |
| HelloWorld.Connection.Terminate | lwip-1.3.1/port/helloworld.c:94-111 | The buffer becomes the first 30 bytes at most of the line followed by 13 and 10, in every case of length and terminator |
| HelloWorld.Connection.MakeRoom | lwip-1.3.1/port/helloworld.c:98-106 | The length afterwards leaves exactly two bytes behind the first 30 of the line at most |
| HelloWorld.Connection.SecondLastIsNoEnd | lwip-1.3.1/port/helloworld.c:94 | The byte before the terminator is never a CR, so the branch is always taken |
| HelloWorld.Connection.Answer | lwip-1.3.1/port/helloworld.c:92-116 | The reply is "Hello ", the first 30 bytes at most of the line, CR LF; the line is empty again |
| HelloWorld.Connection.Recv | lwip-1.3.1/port/helloworld.c:56-131 | Every outcome of the callback: argument error without a record, close on an empty packet; otherwise a reply is written if and only if the packet has a byte 10 or 13, and it is "Hello ", the first 30 bytes at most of the line held and the bytes before the first of these, 13 and 10, and the line is empty again; else the packet joins the line, of which the buffer keeps 32 bytes |
| PeriodicTimers.DueExact | usr/netconf.c:188 | The unsigned 32-bit test agrees with unbounded elapsed time exactly unless whole wraps and less than an interval have passed |
| PeriodicTimers.TimerRefines | usr/netconf.c:184-198 | While polls are at most d apart and d + interval <= 2^32, the wrapping timer fires at exactly the polls the unbounded one does |
| PeriodicTimers.TimerBoundExact | usr/netconf.c:184-198 | That bound is the best possible: refinement on all runs holds if and only if d + interval <= 2^32 |
| PeriodicTimers.MissedFiring | usr/netconf.c:184-198 | For any larger d, a run in which a firing is missed |
| PeriodicTimers.FiringRate | usr/netconf.c:184-198 | Successive firings are between interval and interval + d - 1 apart, firings times interval never exceed elapsed time, and none is lost |
| PeriodicTimers.Scheduler.PeriodicHandle | usr/netconf.c:184-198 | Each timer is re-armed with the current time and its handler called exactly when the difference modulo 2^32 has reached 250 or 5000, independently of the other |
| PeriodicTimers.Scheduler.Polls | usr/netconf.c:184-198 | The TCP and ARP handlers run, over any run of polls at most d apart with d + 5000 <= 2^32, exactly when an unbounded clock says so |
| GpioInit.Gpio.Init | Libraries/STM32F10x_StdPeriph_Driver/src/stm32f10x_gpio.c:172-257 | Bit by bit, for every prior register value: each selected pin gets the new 4-bit configuration in CRL or CRH, each other bit stays, and output bits become 1 for selected pull-up and 0 for selected pull-down pins only |
| GpioInit.BitByBit | Libraries/STM32F10x_StdPeriph_Driver/src/stm32f10x_gpio.c:172-257 | The pin map read off the register bits: bit i belongs to pin i / 4, or 8 + i / 4 |
| GpioInit.Gpio.ConfigureLow | Libraries/STM32F10x_StdPeriph_Driver/src/stm32f10x_gpio.c:194-223 | The loop over CRL refines the pin map for pins 0 to 7 |
| GpioInit.Gpio.ConfigureHigh | Libraries/STM32F10x_StdPeriph_Driver/src/stm32f10x_gpio.c:229-255 | The loop over CRH refines the pin map for pins 8 to 15 |
| GpioInit.FieldsOfSet | Libraries/STM32F10x_StdPeriph_Driver/src/stm32f10x_gpio.c:204-207 | Clear-then-or replaces one 4-bit field and leaves the other seven |
| GpioInit.Gpio.ConfigurePin | Libraries/STM32F10x_StdPeriph_Driver/src/stm32f10x_gpio.c:197-221 | One pass: a selected pin gets its field and, for a pull, its output bit; nothing else changes |
| GpioInit.CurrentMode | Libraries/STM32F10x_StdPeriph_Driver/src/stm32f10x_gpio.c:182-189 | The nibble composed from mode and speed constants is the documented one for all 24 combinations |
| GpioInit.CallsCommuteExactly | Libraries/STM32F10x_StdPeriph_Driver/src/stm32f10x_gpio.c:172-257 | Two calls may be exchanged from every state if and only if their pin masks are disjoint or they configure the pins alike |
| GpioInit.LastCallWins | Libraries/STM32F10x_StdPeriph_Driver/src/stm32f10x_gpio.c:172-257 | After any sequence of calls each pin has the configuration of its own last call |
| GpioInit.LastPullWins | Libraries/STM32F10x_StdPeriph_Driver/src/stm32f10x_gpio.c:204-221 | And each output bit is the one set by the last pull-up or pull-down call on its pin, or the initial one |
| GpioRemap.Afio.PinRemapConfig | Libraries/STM32F10x_StdPeriph_Driver/src/stm32f10x_gpio.c:530-566 | Bit by bit: a call writes the value of its remap, or zeros, to its own field of MAPR, ones to bits 24 to 27 unless it is an SWJ call, and leaves every other bit |
| GpioRemap.Afio.Clear | Libraries/STM32F10x_StdPeriph_Driver/src/stm32f10x_gpio.c:538-558 | The three ways of clearing, bit by bit, for any constant of 22 bits |
| GpioRemap.CodeMeansSlot | Libraries/STM32F10x_StdPeriph_Driver/inc/stm32f10x_gpio.h:171-202 | The packed constants of the header decode to the field and value of each of the 30 remaps |
| GpioRemap.ChipField | Libraries/CMSIS/Core/CM3/stm32f10x.h:2205-2293 | The lowest bit, the width and the enabled value of each remap's field, in numbers |
| GpioRemap.SlotsPartition | Libraries/STM32F10x_StdPeriph_Driver/inc/stm32f10x_gpio.h:171-202 | Two remaps configure the same field or disjoint fields |
| GpioRemap.LastRemapWins | Libraries/STM32F10x_StdPeriph_Driver/src/stm32f10x_gpio.c:530-566 | After any sequence of calls every field outside bits 24 to 27 holds what the last call on it wrote, or its initial value |
| GpioRemap.OtherBits | Libraries/STM32F10x_StdPeriph_Driver/src/stm32f10x_gpio.c:530-566 | The unassigned bits never change, and the SWJ field holds all ones unless the last call was an SWJ call |
| GpioRemap.Afio.EXTILineConfig | Libraries/STM32F10x_StdPeriph_Driver/src/stm32f10x_gpio.c:576-586 | Bits 4 * (pin % 4) and up of register pin / 4 become the port; every other bit of the four registers stays |
| GpioRemap.LastLineWins | Libraries/STM32F10x_StdPeriph_Driver/src/stm32f10x_gpio.c:576-586 | After any sequence of calls each line has the port of its own last call |
| I2sInit.Spi.Init | Libraries/STM32F10x_StdPeriph_Driver/src/stm32f10x_spi.c:218-362 | Whatever the registers held, bit by bit: I2SCFGR has mode, standard, format and polarity as the header numbers them, bit 11 set and bits 6 and 12 to 15 as they were; I2SPR reads as the divider (10 S / F + 5) modulo 65536 over 10 if that lies in 4..511 and as 4 otherwise, with the clock taken from SYSCLK or from PLL3 as the bits of CFGR2 say; that divider is the rounded quotient when 16 bits suffice |
| I2sInit.KeptExact | Libraries/STM32F10x_StdPeriph_Driver/src/stm32f10x_spi.c:319-332 | The 16-bit arithmetic in tenths yields floor(S / F + 1/2) if and only if floor(10 S / F) + 5 is below 65536 |
| I2sInit.RoundedIsNearest | Libraries/STM32F10x_StdPeriph_Driver/src/stm32f10x_spi.c:319-332 | No other integer divider is nearer to S / F, except one tied from below |
| I2sInit.FrequencyNearestExactly | Libraries/STM32F10x_StdPeriph_Driver/src/stm32f10x_spi.c:211-216 | The comment promises the most accurate frequency: for a real scaled clock n / m, of which the code keeps no more than the whole part, the divider gives it exactly when n / (m F) is at most the harmonic midpoint 2d(d+1) / (2d+1) |
| I2sInit.SysclkNearestExactly | Libraries/STM32F10x_StdPeriph_Driver/src/stm32f10x_spi.c:301-327 | The same on SYSCLK, with the condition on the clock before the division by the ticks per sample |
| I2sInit.Pll3NearestExactly | Libraries/STM32F10x_StdPeriph_Driver/src/stm32f10x_spi.c:275-327 | The same on PLL3, with the condition on the clock before the division of the oscillator as well |
| I2sInit.FlooredCanMiss | Libraries/STM32F10x_StdPeriph_Driver/src/stm32f10x_spi.c:316-327 | SYSCLK at 9102320 Hz and 8 kHz with master clock: the code divides by 4 though 5 is closer, only because the clock is cut to a whole number first |
| I2sInit.FrequencyCanMiss | Libraries/STM32F10x_StdPeriph_Driver/src/stm32f10x_spi.c:211-216 | PLL3 at 110 MHz and 96 kHz with master clock: the code divides by 4 though 5 is closer in frequency |
| I2sInit.OfferedRatesFit | Libraries/STM32F10x_StdPeriph_Driver/src/stm32f10x_spi.c:319-332 | No offered rate and no clock up to 1 GHz overflows the 16 bits |
| I2sInit.WrittenExact | Libraries/STM32F10x_StdPeriph_Driver/src/stm32f10x_spi.c:344-350 | The written divider is the documented one exactly unless the 16 bits overflow to something that looks like a divider |
| I2sInit.PackedParts | Libraries/STM32F10x_StdPeriph_Driver/src/stm32f10x_spi.c:353 | Prescaler, odd bit and MCLK bit are each recoverable from the packed word |
| I2sInit.SourceClock | Libraries/STM32F10x_StdPeriph_Driver/src/stm32f10x_spi.c:275-310 | The clock is SYSCLK, or with bit 17 or 18 set 25 MHz over one more than bits 4 to 7 times twice the factor that bits 12 to 15 stand for, and never exceeds 1 GHz from PLL3 |
| I2sInit.Multiplier | Libraries/STM32F10x_StdPeriph_Driver/src/stm32f10x_spi.c:281-296 | The code of every offered PLL3 multiplier yields its factor |
| I2sInit.Spi.Divide | Libraries/STM32F10x_StdPeriph_Driver/src/stm32f10x_spi.c:242-342 | Twice the prescaler plus the odd bit is 4 for the default rate and otherwise the kept divider of the clock over 256, 32 or 64 |
| I2sInit.Spi.Program | Libraries/STM32F10x_StdPeriph_Driver/src/stm32f10x_spi.c:344-353 | A reader of I2SPR finds the kept divider if it lies in 4..511 and 4 otherwise |
| I2sInit.ConfigurationReadable | Libraries/STM32F10x_StdPeriph_Driver/src/stm32f10x_spi.c:355-361 | Mode, standard, format and polarity can each be read back from I2SCFGR |
| I2sInit.ConfiguredBits | Libraries/STM32F10x_StdPeriph_Driver/inc/stm32f10x_spi.h:239-276 | Which modes, standards and formats set each bit of I2SCFGR |
| AddrInfo.GetAddrInfo | lwip-1.3.1/src/api/netdb.c:268-354 | The exact result code for every input, resolver answer and pattern of allocation failures; a failing call leaves the heap as it found it and *res NULL; a successful one owns exactly its new blocks, which describe the request: the port lies in memory with its high byte first, and the sockaddr, hints and name are as asked; the address stored is 127.0.0.1 if and only if a host name was given and the resolver answered with it |
| AddrInfo.LoopbackReversed | lwip-1.3.1/src/api/netdb.c:302-304 | The constant stored without a host name lies in memory as 1.0.0.127; the address that reads 127.0.0.1 is 0x0100007F and no other |
| AddrInfo.PortInMemory | lwip-1.3.1/src/api/netdb.c:320 | A converted port lies in memory as its high byte, its low byte |
| AddrInfo.Build | lwip-1.3.1/src/api/netdb.c:306-353 | All three allocations survive or none does |
| AddrInfo.GiveUp | lwip-1.3.1/src/api/netdb.c:346-353 | What was allocated so far is given back |
| AddrInfo.FreeAddrInfo | lwip-1.3.1/src/api/netdb.c:231-247 | On any acyclic list that owns its blocks: terminates and frees every block exactly once, in order, reading no node after it is freed; no node, address or name of the list is in use afterwards |
| AddrInfo.LookUpAndFree | lwip-1.3.1/src/api/netdb.c:231-354 | A lookup followed by a free restores the heap, for every input and failure pattern |
| AddrInfo.ServiceAccepted | lwip-1.3.1/src/api/netdb.c:286-293 | A port written in decimal is accepted as itself exactly when it lies in 1..65535 |
| AddrInfo.AtoiReads | lwip-1.3.1/src/api/netdb.c:286-293 | Blanks, at most one sign, digits and anything behind them: the number is what the digits stand for, read from the last one |
| AddrInfo.TwoDigits | lwip-1.3.1/src/api/netdb.c:289-292 | Two digits are tens and ones, and a port unless both are 0 |
| AddrInfo.AtoiRefuses | lwip-1.3.1/src/api/netdb.c:289-292 | A service that starts with none of these is refused |
| NetbufBooks.RunAccounted | lwip-1.3.1/src/api/netbuf.c:55-171 | Over any run every pbuf ever allocated has been freed or belongs to a netbuf in use or is astray; pbufs go astray exactly in runs that chain a packet to a netbuf that has none |
| NetbufBooks.LeakWitness | lwip-1.3.1/src/api/netbuf.c:163-171 | Such a run: the pbuf can never be freed |
| NetbufBooks.CursorsExact | lwip-1.3.1/src/api/netbuf.c:55-233 | At every moment of a run every cursor is null or in its own netbuf's packet if and only if no netbuf_alloc has failed on a netbuf with a cursor |
| NetbufBooks.StrandWitness | lwip-1.3.1/src/api/netbuf.c:96-113 | A run after which a cursor points at a freed pbuf |
| NetbufRuns.RecordedPool.Accounts | lwip-1.3.1/src/api/netbuf.c:55-171 | Of the objects themselves: whatever calls were made, every pbuf allocated is freed, owned or astray, and astray only by a packet chained to an empty netbuf |
| NetbufRuns.RecordedPool.CursorsNow | lwip-1.3.1/src/api/netbuf.c:55-233 | And every ptr field is null or in its own packet unless an allocation has failed on a netbuf with a cursor |
| NetbufRuns.RecordedPool.Alloc | lwip-1.3.1/src/api/netbuf.c:96-113 | An allocation on the objects is that step of the run, with the pbuf it got |
| NetbufRuns.RecordedPool.Chain | lwip-1.3.1/src/api/netbuf.c:163-171 | Chaining two netbufs is that step of the run |
| NetbufRuns.RecordedPool.Next | lwip-1.3.1/src/api/netbuf.c:207-219 | Moving the cursor is that step of the run, with the result of netbuf_next |
| NetbufBooks.OneFate | lwip-1.3.1/src/api/netbuf.c:55-171 | Being accounted for means: freed exactly once, or reachable from exactly one netbuf in use, or astray, and only one of these |
| Netbufs.Pool.PbufFree | lwip-1.3.1/src/core/pbuf.c:498-563 | Frees the maximal unshared run at the head of the chain, each pbuf once and not read after, takes one reference from the first shared pbuf, leaves the rest; returns the count modulo 256 |
| Netbufs.PbufCat | lwip-1.3.1/src/core/pbuf.c:614-636 | Two chains become one in order, the last head pbuf linked to the tail and each head total raised by the tail's, modulo 2^16, so that every total is right; nothing happens when either is missing |
| Netbufs.JoinedTotals | lwip-1.3.1/src/core/pbuf.c:621-630 | Adding the tail total to each head total is what keeps all totals right modulo 2^16 |
| Netbufs.Pool.New | lwip-1.3.1/src/api/netbuf.c:55-69 | A fresh netbuf without a packet, or nothing |
| Netbufs.Pool.Delete | lwip-1.3.1/src/api/netbuf.c:76-86 | The packet is freed and the netbuf leaves use; a NULL argument changes nothing |
| Netbufs.Pool.Drop | lwip-1.3.1/src/api/netbuf.c:101-104 | The guarded pbuf_free gives back exactly the netbuf's pbufs and disturbs no other netbuf |
| Netbufs.Pool.Alloc | lwip-1.3.1/src/api/netbuf.c:96-113 | The old packet is freed and replaced by one new segment, or by none; the cursor is valid afterwards if and only if the allocation succeeded or there was no cursor, because a failure leaves ptr at the freed packet |
| Netbufs.Pool.Free | lwip-1.3.1/src/api/netbuf.c:120-128 | The packet is freed, both pointers are NULL |
| Netbufs.Pool.Ref | lwip-1.3.1/src/api/netbuf.c:139-155 | The packet becomes one segment that is the caller's memory, with one reference, or none with the cursor reset and -1; without a netbuf, -10 |
| Netbufs.Pool.Chain | lwip-1.3.1/src/api/netbuf.c:163-171 | The head holds its segments followed by the tail's and the tail leaves use; an empty head takes nothing over and the tail's pbufs go astray |
| Netbufs.JoinedContent | lwip-1.3.1/src/api/netbuf.c:163-171 | The content after chaining is the head's content followed by the tail's, and so is the length |
| Netbufs.Pool.Data | lwip-1.3.1/src/api/netbuf.c:182-195 | The memory and length of the segment under the cursor; -2 without a cursor, -10 without a netbuf |
| Netbufs.Pool.Next | lwip-1.3.1/src/api/netbuf.c:207-219 | Moves to the next segment; -1 at the last one without moving, 1 on arriving there, 0 before |
| Netbufs.Pool.First | lwip-1.3.1/src/api/netbuf.c:228-233 | The cursor points at the first segment |
| Netbufs.Pool.ReadAll | lwip-1.3.1/src/api/netbuf.c:182-233 | First, then data and next until -1, visits every segment once and yields the whole content |

## Left out

- Pbufs.AllocPool: the pool is a number of free buffers; reclaiming segments that TCP holds out of order when it is empty is not modelled.
- TftpSend.SendMessage: what the copy does to the memory behind the first buffer is not modelled; the pbufs behind the first may hold any bytes.
- EthTx.TxDriver.LowLevelOutput: assumes the chain fits the 1520-byte buffer, which the code does not check; the result code, always success, is not returned.
- EthRx.RxDriver.LowLevelInput: requires a descriptor of the CPU's, because on one of the DMA's the code writes through a NULL descriptor; its only caller checks first.
- TftpDownload.ReadConnection.RecvCallback: the argument is the memory of the received pbuf, which is at least a header long however short the packet; the connection ends at the cleanup; the code goes on to use the freed record.
- TftpUpload.WriteConnection.RecvCallback: after a failed write the code goes on with the freed record; the record's fields are modelled as if still readable, and the cleanups are counted.
- TftpLossyDownload.PlayKeepsInv: the same bound on the file as for the next.
- TftpLossyDownload.LossyDownloadExact: messages that arrive do so as built, and files below 512 * 65536 bytes; beyond that block numbers come round again and a client may take an old slice for a new one, so that only the contents of the file decide.
- TftpCodec.ExtractFilename: requires the name and its NUL to fit the caller's array; `strcpy` has no such limit and writes past the end.
- Netbufs.Pool.Chain: requires head and tail to differ; chaining a netbuf to itself makes a cycle and then frees it.
- Netbufs.Pool.ReadAll: requires a packet; on a netbuf without one `netbuf_next` reads through a null cursor.
- AddrInfo.GetAddrInfo: `atoi` is modelled without int overflow, which C leaves undefined; a name is resolved outside the model.
- GpioRemap.Afio.Clear: constants of more than 22 bits, for which the source shifts a word by more than its width.
- GpioInit.Gpio.Init: BRR and BSRR are their effect on ODR; a 16-bit mask above 0xFF is a test of its high byte.
- The memory of a received TFTP pbuf is at least four bytes long; a packet that fills more than one pool buffer is a chained one.
- A packet whose pbuf cannot be allocated (`tftp_send_message`) is a packet the network loses.
- `process_tftp_request`, retransmission timers (never armed), and several transfers sharing the global file handles.
- Descriptor status words are their fields, good frames are 4 to 1520 bytes with CRC, and the buffer-unavailable flags that restart the DMA are not modelled.
- `tcp_write` results, `tcp_recved` window updates and lwIP's own TCP and ARP handlers.
- Header room in front of the payloads of `netbuf_alloc` and `netbuf_ref`, the memory of freed blocks other than as arbitrary values, `netbuf` address and port fields.
- The NULL out-parameter checks of `netbuf_data`.
- The SWJ field reads back as last written; on the chip it is write-only.
- DHCP and LCD blocks, the other peripheral drivers, and lwIP's message plumbing (`api_lib.c`, `netifapi.c`): single register writes and dispatch.
