# Wii U NTP client: a verified model of the synchronisation engine

This project models the core of a Wii U plugin that sets the console's
clock from NTP servers, and proves properties of that model in Dafny.

## What the model covers

- **Timestamp and packet codec** (`ntp.dfy`, `byte_order.dfy`).
  - The u32.32 NTP timestamp is kept as its 8-byte big-endian image.
  - `load`/`store` are a bijection with the host-order value.
  - The conversion to and from seconds truncates.
  - The 48-byte packet layout follows section 7.3 of RFC 5905, and the leap/version/mode byte has its bit-level setters and getters.
- **One NTP exchange** (`core.dfy`).
  - `ntp_query` sends a version-4 client request and retries `send` and `poll` only on "not enough memory", at most four attempts each.
  - It checks the stop token at the source's cancellation points.
  - It validates the reply and computes the section 8 offset and delay of RFC 5905, with the wraparound fix and the era fold.
  - The socket and the clock are an `Exchange` value: the status of each send and poll attempt, the datagram received, the clock readings.
  - The method is proved equal to a declarative `QuerySpec`.
- **One synchronisation** (`sync.dfy`). `core::run`:
  - fails first with a network error when `network_guard` cannot initialise or connect the network;
  - refuses a second concurrent run through `exec_guard`;
  - optionally updates the time-zone offset;
  - splits the server list and resolves every name into an ordered set of addresses, so duplicates collapse;
  - queries every address, skipping failures but propagating cancellation;
  - averages the corrections and tolerates or applies them.
  - Name resolution, queries and setting the clock are inputs.
- **The background task** (`background.dfy`): the `none/started/finished/canceled` state machine, `run_once`, and `stop`'s bounded wait.
- **The stoppable FIFO queue** (`async_queue.dfy`) and the **thread pool's** growth and idle-count policy (`thread_pool.dfy`), both modelled sequentially.
- **String helpers** (`utils.dfy`): `split` with its optional token cap, the quote-aware `csv_split`, `network_guard`, `exec_guard`, and the parsing of the time-zone services' answers, including `std::stoi`.
- **Formatting** (`time_utils.dfy`): `tz_offset_to_string` and the unit choice of `seconds_to_human`.
- **IPv4 addresses** (`address.dfy`): conversion from and to `sockaddr_in` in network byte order, and the defaulted lexicographic order.
- **`var_watch`** (`var_watch.dfy`) over `int`, with the C++ `int` semantics in `cpp_int.dfy`: 32-bit range, truncating division, two's complement bits.
- **`get_statistics`** (`statistics.dfy`).

Each imperative operation of the source is a method whose loop invariants
prove it against a specification function. The properties of those
functions are lemmas:
- `split` yields exactly the maximal runs of non-separators;
- `csv_split` joined back with commas gives the input;
- the set of addresses holds exactly what some lookup returned, once each;
- the run tolerates or sets the clock exactly by the mean of the measured corrections.

The `leap_flag` constants hold the leap indicator in place, in bits 7-6
(`unknown` is 3 << 6 = 192). In section 7.3 of RFC 5905, the value 3 means
that the server's clock is unsynchronized. `ntp_query` evidently means to
reject such replies, and `leap(x); leap()` is evidently meant to give `x`
back. The getter as written shifts the bits down to 0..3, so neither holds.

The exchange follows the code as written:
- `Ntp.Packet.Leap`, `Core.ValidateAsWritten`, `Core.Receive`,
  `Core.QuerySpec`, `Core.ReceiveReply` and `Core.NtpQuery` never reject a
  reply for its leap indicator.

The intended behaviour is a separate corrected definition:
- `Ntp.LeapOf`, `Ntp.Packet.LeapFlag` and `Core.Validate`.

Lemmas relate the two: `Core.ValidateAgreesExceptLeap`,
`Core.UnknownLeapAccepted` and `Core.UnknownLeapMeasured`. The difference
is recorded under Findings.

## Model

| member | source | states |
|---|---|---|
| Ntp.Timestamp.Load | source/ntp.cpp:37-42 | `load()` is a 64-bit unsigned value. |
| Ntp.Timestamp.ToSeconds | source/ntp.cpp:28-34 | The seconds value of a timestamp lies in [0, 2^32). |
| Ntp.Timestamp.Compare | source/ntp.cpp:53-58 | `<=>` is less (greater) exactly when the host-order value is smaller (larger). |
| Ntp.Store | source/ntp.cpp:45-50 | `store(v)` makes `load()` return v. |
| Ntp.FromSeconds | source/ntp.cpp:19-25 | `timestamp(s)` for 0 <= s < 2^32 stores s truncated: the stored seconds are at most s and less than 2^-32 below it. |
| Ntp.StoreLoad | source/ntp.cpp:37-50 | Storing what a timestamp loads gives the same timestamp back: the byte swap is a bijection. |
| Ntp.EqualityIsOrderEquality | include/ntp.hpp:44-47 | The defaulted `==` on the stored bytes agrees with `<=>` on the loaded values. |
| Ntp.IsSetIffNonZero | include/ntp.hpp:35-36 | `operator bool` holds exactly when the timestamp's value is not zero. |
| Ntp.DefaultIsUnset | include/ntp.hpp:23-27 | A default timestamp is zero and therefore false. |
| Ntp.SecondsRoundTrip | source/ntp.cpp:19-34 | Converting a timestamp to seconds and back gives the same timestamp. |
| Ntp.WithLeap | source/ntp.cpp:87-92 | `leap(x)` puts a leap flag in bits 7-6 and keeps the version and mode. |
| Ntp.LeapAsWritten | source/ntp.cpp:95-100 | `leap()` as written yields only 0..3. |
| Ntp.LeapOf | include/ntp.hpp:62-67 | The corrected getter always yields one of the four `leap_flag` values. |
| Ntp.WithVersion | source/ntp.cpp:103-108 | `version(v)` makes `version()` return v mod 8 and keeps the leap and mode bits. |
| Ntp.VersionOf | source/ntp.cpp:111-116 | `version()` is below 8. |
| Ntp.WithMode | source/ntp.cpp:119-124 | `mode(m)` for m < 8 makes `mode()` return m and keeps the leap and version bits. |
| Ntp.ModeOf | source/ntp.cpp:127-132 | `mode()` is below 8. |
| Ntp.LvmDeterminedByFields | include/ntp.hpp:82 | Leap, version and mode together determine the first byte. |
| Ntp.LeapAsWrittenMismatch | source/ntp.cpp:87-100 | After `leap(x)` the getter as written yields x >> 6, which equals x only for `no_warning`. |
| Ntp.ModeName | source/ntp.cpp:61-84 | `to_string(mode)` is "error" exactly for values 8 and above. |
| Ntp.ModeNamesDistinct | source/ntp.cpp:61-84 | The eight modes have eight different names. |
| Ntp.Layout | include/ntp.hpp:81-110 | The packet image is 48 bytes; lvm is byte 0 and the origin, receive and transmit timestamps sit at offsets 24, 32 and 40. |
| Ntp.LayoutOfImage | include/ntp.hpp:82-110 | Every 48-byte image is the layout of the fields read back from it. |
| Ntp.Packet.constructor | include/ntp.hpp:81-94 | A new packet has every field zero, so its image is 48 zero bytes. |
| Ntp.Packet.ReadImage | source/core.cpp:193 | Receiving 48 bytes into the packet makes its image those bytes. |
| Ntp.Packet.SetLeap | source/ntp.cpp:87-92 | `leap(x)` changes only the first byte and leaves version and mode alone; a leap flag x reads back through the corrected getter, while `leap()` as written returns x >> 6. |
| Ntp.Packet.Leap | source/ntp.cpp:95-100 | `leap()` as written returns only 0..3, never a `leap_flag` other than `no_warning`. |
| Ntp.Packet.LeapFlag | include/ntp.hpp:62-67 | The corrected getter always returns one of the four `leap_flag` values. |
| Ntp.Packet.Version | source/ntp.cpp:111-116 | `version()` of the packet is below 8. |
| Ntp.Packet.Mode | source/ntp.cpp:127-132 | `mode()` of the packet is below 8. |
| Ntp.Packet.SetVersion | source/ntp.cpp:103-108 | `version(v)` changes only the first byte; v mod 8 reads back and leap and mode stay. |
| Ntp.Packet.SetMode | source/ntp.cpp:119-124 | `mode(m)` changes only the first byte; m < 8 reads back and leap and version stay. |
| ByteOrder.DecodeEncode | source/ntp.cpp:37-50 | Reading back the big-endian image of v gives v. |
| ByteOrder.EncodeDecode | source/ntp.cpp:37-50 | Encoding the value of a big-endian image gives the image back. |
| ByteOrder.FromBigEndianInjective | include/ntp.hpp:44-45 | Two images of the same length are equal exactly when their values are. |
| ByteOrder.ZeroImage | include/ntp.hpp:35-36 | An image has value zero exactly when all its bytes are zero. |
| Core.EpochDiffValue | source/core.cpp:50-53 | The epoch difference is 3 155 673 600 seconds. |
| Core.ToNtp | source/core.cpp:56-61 | `to_ntp(t)` is t + epoch_diff truncated, with an error below 2^-32 s. |
| Core.ToUtc | source/core.cpp:64-69 | `to_utc(t)` plus epoch_diff is the timestamp's seconds value. |
| Core.NtpUtcRoundTrip | source/core.cpp:56-69 | `to_ntp(to_utc(t)) == t` for every timestamp. |
| Core.UtcNtpRoundTrip | source/core.cpp:56-69 | `to_utc(to_ntp(u))` is at most u and less than 2^-32 s earlier. |
| Core.SleepSteps | source/core.cpp:113-123 | `sleep_for(t)` takes the fewest 100 ms steps that reach t. |
| Core.SleepFor | source/core.cpp:113-123 | The sleep is canceled exactly when a stop is seen at one of its checks, at the first check that sees it; otherwise all the steps are slept. |
| Core.Unwrap | source/core.cpp:236-242 | The wraparound fix adds 2^32 exactly to a later reading that is smaller than the earlier one, leaving it within one era after it. |
| Core.UnwrapTransparent | source/core.cpp:236-242 | For true instants less than an era apart, read modulo 2^32, the fixed difference is the true difference. |
| Core.RawOffsets | source/core.cpp:239-248 | t4 + correction == t3 + latency; correction == ((t2-t1)+(t3-t4))/2; latency >= 0 exactly when the round trip outlasts the server's hold time. |
| Core.Fold | source/core.cpp:250-262 | The era fold only adds or subtracts one era, brings the correction into [-2^31, 2^31] and leaves such corrections alone. |
| Core.Offsets | source/core.cpp:231-264 | The latency is that of section 8 of RFC 5905. The correction is the section 8 correction shifted by at most one era, lies in [-2^31, 2^31] s, and is unshifted when already in that range. |
| Core.SymmetricOffsets | source/core.cpp:231-264 | For readings of a symmetric path within one era, with the clocks less than 2^31 s apart, `ntp_query` returns the true offset and the true delay. |
| Core.SymmetricPathRecovered | source/core.cpp:244-248 | With equal one-way delays, the computation returns the true clock offset and the true delay. |
| Core.FirstNonTransient | source/core.cpp:141-185 | The attempt that ends a retry loop is the first one not failing with "not enough memory", or the limit. |
| Core.FirstNonTransientUnique | source/core.cpp:141-185 | That attempt is determined by the statuses. |
| Core.SendIndex | source/core.cpp:141-162 | The send loop makes at most four attempts. |
| Core.PollIndex | source/core.cpp:165-185 | The poll loop makes at most four attempts. |
| Core.RequestImage | source/core.cpp:136-148 | The request is version 4, client mode, no leap warning, zero everywhere but the transmit timestamp t1. |
| Core.RequestPacketImage | source/core.cpp:136-148 | A packet set up as the request has that image. |
| Core.Validate | source/core.cpp:193-223 | A reply passes exactly when version is 3 or 4, the mode is server, the leap is not unknown, the origin equals t1 and t2, t3 are set; a bad version is reported first. |
| Core.ValidateAsWritten | source/core.cpp:198-223 | The checks as written never report an unknown leap indicator. |
| Core.ValidateAgreesExceptLeap | source/core.cpp:198-223 | The checks as written and the corrected checks agree on every reply with a known leap indicator. A reply rejected only for an unknown indicator passes the checks as written exactly when its origin matches t1 and t2, t3 are set. |
| Core.UnknownLeapMeasured | source/core.cpp:193-264 | The query as written returns a measurement for a reply from an unsynchronized server, one that the corrected checks reject only for its leap indicator. |
| Core.Receive | source/core.cpp:193-264 | Once the reply is readable, there is a measurement exactly when a full datagram arrived, the close succeeded and the checks as written pass. It is computed from the t1 sent and the reply's t2 and t3. Otherwise the failure is the first check that fails. |
| Core.QuerySpec | source/core.cpp:127-265 | The query is canceled exactly when a stop is requested before its last cancellation point, and unstopped it is the network's outcome. A measurement needs an accepted send and a poll that reports the socket readable. |
| Core.UnknownLeapAccepted | source/core.cpp:206-208 | A reply with leap indicator 3 passes the checks as written and fails the corrected ones. |
| Core.SendPhase | source/core.cpp:141-162 | A send loop that ends the query never ends it with a measurement. |
| Core.PollPhase | source/core.cpp:165-185 | A poll loop that ends the query never ends it with a measurement. |
| Core.PhasesDecideQuery | source/core.cpp:141-188 | The first loop that ends the query decides it; when neither does, the outcome is the unstopped one. |
| Core.AnsweredPollDecides | source/core.cpp:187-191 | After both loops, "not readable" is a timeout and a readable socket receives with the accepted send's t1. |
| Core.NtpQuery | source/core.cpp:127-265 | `ntp_query` is canceled exactly when a stop is requested before the last cancellation point the exchange reaches, and otherwise returns what the socket statuses and the reply decide; the i-th datagram sent is the request stamped with the i-th clock reading, and a measurement follows exactly one accepted send after the transient failures. |
| Core.SendStamps | source/core.cpp:147 | The t1 of attempt i is the clock reading before it as an NTP timestamp. |
| Core.NewRequest | source/core.cpp:136-138 | A fresh packet with version 4 and client mode is the request. |
| Core.SendRequest | source/core.cpp:141-162 | The send loop ends as its phase function says; on success t1 is the accepted attempt's stamp. |
| Core.StampRequest | source/core.cpp:147-150 | Writing t1 into the request makes the bytes sent the request image for t1. |
| Core.AwaitReply | source/core.cpp:165-188 | The poll loop ends as its phase function says and reports the answering poll's readability. |
| Core.ReceiveReply | source/core.cpp:193-264 | Receiving into the packet, closing, running the checks as written (with the 0..3 `leap()`) and computing give the outcome `Receive` defines. |
| Sync.UpdatedOffset | source/core.cpp:316-335 | With the update off or the request failing, the configured offset stays. |
| Sync.InsertAll | source/core.cpp:361-365 | Inserting into the set keeps it ordered and without duplicates. |
| Sync.Resolved | source/core.cpp:342-370 | The collected addresses form an ordered set. |
| Sync.Measurements | source/core.cpp:389-413 | There are at most as many corrections as addresses. |
| Sync.RunSpec | source/core.cpp:337-437 | A run fails only with "No NTP address could be used.", "No NTP server could be used!" or "Failed to set system clock!". It tolerates only a mean within the tolerance, and corrects only beyond it after a successful clock set. |
| Sync.Run | source/core.cpp:301-444 | When the network cannot be initialised or connected, the run fails with that network error before the in-progress flag is looked at, and the flag is left as it was; a run while one is in progress fails with "already in progress" and leaves the flag set; otherwise the run's outcome and offset are those of the specification, and the flag is clear again afterwards. |
| Sync.NoServerFailure | source/core.cpp:416-417 | The run fails with "No NTP server could be used!" exactly when it was not stopped, some address was found, gathering was not canceled and no query produced a measurement. |
| Sync.Synchronize | source/core.cpp:337-437 | The run after the time-zone update has the outcome `RunSpec` gives. |
| Sync.ResolveAll | source/core.cpp:344-370 | Collecting the lookups gives the resolved set. |
| Sync.InsertEach | source/core.cpp:363-364 | Inserting one lookup's addresses gives the set plus those addresses. |
| Sync.GatherCorrections | source/core.cpp:389-413 | Waiting for each query in turn gives the corrections or the cancellation `Gather` defines. |
| Sync.GatherStaysCanceled | source/core.cpp:404-405 | A cancellation while collecting ends the whole collection. |
| Sync.InsertAllMembers | source/core.cpp:346-364 | After the insertions the set holds exactly the old elements and the inserted addresses. |
| Sync.ResolvedMembers | source/core.cpp:344-370 | The set holds exactly the addresses some successful lookup returned, each once. |
| Sync.GatherIsMeasurements | source/core.cpp:389-413 | Collection is canceled exactly when a wait sees a stop or a query was canceled; otherwise it yields the measured corrections in address order, skipping failures. |
| Sync.ClockSetBeyondTolerance | source/core.cpp:416-437 | A run that tolerates or corrects saw at least one measurement; its average is their mean; it tolerates exactly when that is within the tolerance; and it corrects only after a successful clock set with no stop. |
| Sync.ResolvedEmpty | source/core.cpp:372-375 | No address is found exactly when no lookup found any. |
| Sync.NoAddressFailure | source/core.cpp:372-375 | The run fails with "No NTP address could be used." exactly when it was not stopped and no lookup found an address. |
| Sync.UnstoppedRunCompletes | source/core.cpp:337-437 | Without a stop and without canceled queries the run is never canceled. |
| Background.EndState | source/core.cpp:477-489 | The task ends canceled exactly when its sleep or the run was canceled, and finished otherwise. |
| Background.StopSleeps | source/core.cpp:514-517 | `stop` sleeps between 1 and 100 times and stops at the first check that sees the task's end, or after 100 sleeps: it never sleeps past the first check that sees the end, and it stops early only when a check saw the end. |
| Background.Runner.constructor | source/core.cpp:456-464 | The state starts as `none` with no stop source. |
| Background.Runner.Run | source/core.cpp:467-496 | `run` marks the task started with a fresh stop source. |
| Background.Runner.Finish | source/core.cpp:477-489 | The thread's last step records the end state. |
| Background.Runner.RunOnce | source/core.cpp:499-504 | `run_once` does nothing exactly when the task has finished. |
| Background.Runner.Stop | source/core.cpp:507-524 | `stop` acts only on a started task: it requests the stop, waits at most 100 sleeps and always drops the stop source. |
| Queue.AsyncQueue.constructor | include/async_queue.hpp:21-26 | A new queue is empty and not stopping. |
| Queue.AsyncQueue.Reset | include/async_queue.hpp:32-38 | `reset` clears the flag and keeps the contents. |
| Queue.AsyncQueue.Stop | include/async_queue.hpp:41-49 | `stop` sets the flag and keeps the contents. |
| Queue.AsyncQueue.IsStopping | include/async_queue.hpp:52-57 | `is_stopping` reports the flag. |
| Queue.AsyncQueue.Empty | include/async_queue.hpp:60-66 | `empty` reports whether nothing is queued. |
| Queue.AsyncQueue.Push | include/async_queue.hpp:69-76 | `push` appends at the back. |
| Queue.AsyncQueue.Pop | include/async_queue.hpp:79-90 | `pop` throws while stopping, keeping the items; with data it removes and returns the front; otherwise it waits. |
| Queue.AsyncQueue.TryPush | include/async_queue.hpp:93-102 | `try_push` fails and changes nothing when the lock is taken, and appends otherwise. |
| Queue.AsyncQueue.TryPop | include/async_queue.hpp:105-118 | `try_pop` returns nothing when the lock is taken or the queue is empty; it throws when stopping with data; otherwise it pops the front. |
| Queue.FifoOrder | include/async_queue.hpp:69-90 | Two pushes onto an empty queue pop back in push order; on a non-empty queue the old front pops first. |
| Pool.ThreadPool.constructor | source/thread_pool.cpp:32-34 | A new pool has no workers and the given cap. |
| Pool.ThreadPool.AddWorker | source/thread_pool.cpp:21-29 | At the cap `add_worker` does nothing; otherwise it adds one worker and one idle count. |
| Pool.ThreadPool.Submit | include/thread_pool.hpp:50-74 | With no workers allowed the task runs at once; otherwise a worker is added only when none is idle, and exactly one task is queued. |
| Pool.ThreadPool.StartTask | source/thread_pool.cpp:6-12 | A worker ends its loop on a stop, waits on an empty queue, or takes the front task and leaves the idle count. |
| Pool.ThreadPool.FinishTask | source/thread_pool.cpp:13-14 | A finished task is recorded and its worker is idle again. |
| Pool.ThreadPool.WorkerTurn | source/thread_pool.cpp:10-15 | A whole loop turn that runs a task gives the idle count back and records the task as done. |
| Pool.ThreadPool.Shutdown | source/thread_pool.cpp:37-45 | The destructor sets the queue's stop flag and keeps the queued tasks, so every later `pop` throws. |
| Utils.FirstNotOf | source/utils.cpp:36 | `find_first_not_of` finds the first non-separator. |
| Utils.FirstOf | source/utils.cpp:46 | `find_first_of` finds the first separator. |
| Utils.Find | source/utils.cpp:75 | `find(c, i)` finds the next occurrence of c. |
| Utils.Split | source/utils.cpp:27-52 | The loop produces what `SplitSpec` defines. |
| Utils.SplitIsMaximalRuns | source/utils.cpp:36-49 | Without a cap the tokens are exactly the non-empty pieces between separators, in order. |
| Utils.SplitTokensAreRuns | source/utils.cpp:36-48 | Without a cap every token is non-empty and holds no separator. |
| Utils.SplitEmpty | source/utils.cpp:36-37 | The result is empty exactly when the input is all separators. |
| Utils.SplitCapped | source/utils.cpp:40-44 | With a cap k there are min(k, runs) tokens; all but the last match the uncapped split; a k-th token is the rest of the input from a non-separator. |
| Utils.CsvTokens | source/utils.cpp:63-86 | `csv_split` always returns at least one token. |
| Utils.CsvScanTokens | source/utils.cpp:70-82 | The scan produces the tokens cut so far followed by the tokens from the current start. |
| Utils.CsvSplit | source/utils.cpp:63-86 | The loop produces what `CsvTokens` defines. |
| Utils.CsvJoin | source/utils.cpp:63-86 | Joining the tokens from a start with commas gives the input from there. |
| Utils.CsvSplitRoundTrip | source/utils.cpp:63-86 | Joining the tokens with commas gives the input back, so the tokens are the segments between unquoted commas, empty ones included. |
| Utils.CsvUnclosedQuote | source/utils.cpp:73-77 | An unclosed quote makes the rest of the input from the token start the last token. |
| Utils.NetworkGuard | source/utils.cpp:208-230 | No error exactly when both the network initialisation and the connection succeed; a failed initialisation reports the Initialize message (and no connection is tried); a failed connection after a successful initialisation reports the Connect message. |
| Utils.ExecGuard.constructor | source/utils.cpp:91-98 | The guard is guarded exactly when the flag was clear, and the flag is set afterwards. |
| Utils.ExecGuard.Release | source/utils.cpp:101-105 | A guarded guard clears the flag; any other leaves it. |
| Utils.Stoi | source/utils.cpp:194-195 | `stoi` yields an `int` or throws `invalid_argument`/`out_of_range`. |
| Utils.StoiTwoDigits | source/utils.cpp:192-195 | Two digits read as their decimal value. |
| Utils.Substr | source/utils.cpp:192-193 | `substr` throws past the end and otherwise clips to the string. |
| Utils.ParseUtcOffset | source/utils.cpp:186-199 | An empty offset string fails with "Invalid UTC offset string.". |
| Utils.ParseUtcOffsetWellFormed | source/utils.cpp:186-199 | "+HHMM" is 60*HH+MM minutes and "-HHMM" its negation. |
| Utils.TzServiceName | source/utils.cpp:120-133 | There is a name exactly for services 0, 1 and 2. |
| Utils.IndexOf | source/utils.cpp:177-184 | `ranges::find` gives the first matching index, or the end when there is none. |
| Utils.ParseTimezone | source/utils.cpp:136-206 | An unknown service index is a logic error. |
| Utils.SecondsServiceOffset | source/utils.cpp:152-160 | For ip-api.com and ipwho.is, "name,seconds" yields the name and the seconds truncated toward zero to whole minutes. |
| TimeUtils.Pad2 | source/time_utils.cpp:57 | `%02d` prints at least two digits that read back as n, exactly two below 100. |
| TimeUtils.OffsetFieldsExact | source/time_utils.cpp:54-56 | The sign is '-' exactly for negative offsets, minutes < 60 and hours*60 + minutes == abs(offset). |
| TimeUtils.TzOffsetToString | source/time_utils.cpp:50-59 | For every offset the text is the offset's sign, at least two digits of hours, ':' and two digits of minutes below 60. The digits read back as the size of the offset. |
| TimeUtils.TzOffsetText | source/time_utils.cpp:50-59 | Below 100 hours the text is sign, two digits, ':', two digits, and the digits read back as the offset's size. |
| TimeUtils.SecondsToHuman | source/time_utils.cpp:25-47 | '+' is shown exactly for positive durations when asked for; the amount times the unit is the duration; the unit is the one that fits. |
| TimeUtils.FitsUnitUnique | source/time_utils.cpp:30-39 | Only one unit fits a duration, so the thresholds choose it. |
| Net.FromSockaddrIn | source/net/address.cpp:20-25 | The address read from a `sockaddr_in` has the network-order fields as its big-endian images. |
| Net.FromSockaddr | source/net/address.cpp:35-43 | A size other than 16 is a logic error "address size mismatch"; otherwise it reads a `sockaddr_in`. |
| Net.Data | source/net/address.cpp:46-58 | `data()` is AF_INET, the port and ip in network order and zero padding. |
| Net.DataRoundTrip | source/net/address.cpp:20-58 | `address{a.data()} == a` for every address. |
| Net.DataInjective | source/net/address.cpp:46-58 | Different addresses have different images. |
| Net.LessIsKeyOrder | include/net/address.hpp:51 | The order is that of the number ip*2^16 + port. |
| Net.LessIsStrictTotalOrder | include/net/address.hpp:51 | The defaulted `<=>` is a strict total order. |
| Net.EquivalentIffEqual | include/net/address.hpp:50-51 | Neither address is less than the other exactly when they are equal. |
| Net.SetInsert | source/core.cpp:364 | `set::insert` keeps the set ordered, adds the address unless it is already there, and keeps everything else. |
| Net.SortedHasNoDuplicates | include/net/address.hpp:50-51 | An ordered set holds each (ip, port) pair once. |
| Watch.QuotientInRange | include/wupsxx/var_watch.hpp:179-189 | `x / a` stays an `int` once INT_MIN / -1 is excluded. |
| Watch.ShiftRight | include/wupsxx/var_watch.hpp:218-228 | `>>` keeps the sign and does not grow the size. |
| Watch.Apply | include/wupsxx/var_watch.hpp:140-267 | Every defined compound operation gives an `int`. |
| Watch.VarWatch.constructor | include/wupsxx/var_watch.hpp:19-21 | A new watch reports no change. |
| Watch.VarWatch.Changed | include/wupsxx/var_watch.hpp:24-29 | `changed()` reports the flag. |
| Watch.VarWatch.Reset | include/wupsxx/var_watch.hpp:32-37 | `reset` clears the flag and does not touch the variable. |
| Watch.VarWatch.Value | include/wupsxx/var_watch.hpp:60-75 | `value()` and `operator*` read the variable and change nothing. |
| Watch.VarWatch.Assign | include/wupsxx/var_watch.hpp:40-50 | Assignment stores the value and sets the flag exactly when the value differs, never clearing it. |
| Watch.VarWatch.PreIncrement | include/wupsxx/var_watch.hpp:90-99 | `++w` adds one and sets the flag. |
| Watch.VarWatch.PreDecrement | include/wupsxx/var_watch.hpp:102-111 | `--w` subtracts one and sets the flag. |
| Watch.VarWatch.PostIncrement | include/wupsxx/var_watch.hpp:114-123 | `w++` returns the old value, adds one and sets the flag. |
| Watch.VarWatch.PostDecrement | include/wupsxx/var_watch.hpp:126-135 | `w--` returns the old value, subtracts one and sets the flag. |
| Watch.VarWatch.Compound | include/wupsxx/var_watch.hpp:140-267 | `op=` stores `old op arg` and sets the flag exactly when that differs from the old value, never clearing it. |
| Watch.AddThenSubtract | include/wupsxx/var_watch.hpp:140-163 | `-= a` undoes `+= a`. |
| Watch.MultiplyThenDivide | include/wupsxx/var_watch.hpp:166-189 | `/= a` undoes `*= a` for a non-zero a. |
| Watch.XorTwice | include/wupsxx/var_watch.hpp:231-241 | `^= a` twice gives the value back. |
| Watch.NeutralArithmetic | include/wupsxx/var_watch.hpp:140-228 | Adding or subtracting 0, multiplying or dividing by 1 and shifting by 0 keep the value, so the flag stays. |
| Watch.NeutralBitwise | include/wupsxx/var_watch.hpp:231-267 | `\|= 0`, `^= 0` and `&= -1` keep the value. |
| CppInt.TruncDiv | source/time_utils.cpp:55 | `/` on `int` rounds the exact quotient toward zero. |
| CppInt.TruncMod | source/time_utils.cpp:56 | `%` on `int` is what the truncated quotient leaves, with the sign of the dividend. |
| CppInt.Bitwise | include/wupsxx/var_watch.hpp:231-267 | The bitwise operators on two `int`s give an `int`. |
| CppInt.Wrap | include/wupsxx/var_watch.hpp:205-215 | A left-shifted value is taken modulo 2^32 into the `int` range. |
| Stats.GetStatistics | source/clock_item.cpp:44-64 | All zero for no values; otherwise min and max are values bounding every value, and avg is the mean, lying between them. |
| Stats.MeanBetween | source/clock_item.cpp:54-61 | The mean of values between lo and hi lies between lo and hi. |

## Left out

- Threads, mutexes, condition variables, atomics and `jthread` detaching: the queue, the pool, the execution guard and the background task are modelled sequentially. A blocking `pop` returns `Blocked`, and whether `try_push`/`try_pop` get the lock is an input.
- The thread pool inside `core::run`: lookups and queries are taken to return what the network inputs say, in submission order; the pool changes only when they run.
- The console's network service calls `nn::ac::Initialize` and `nn::ac::Connect` are inputs of a run (`Network.acInitialize`, `Network.acConnect`); the `Finalize`/`Close` calls of the guards' destructors have no observable effect in the model and are left out.
- Sockets (`source/net/socket.cpp`), `getaddrinfo` (`source/net/addrinfo.cpp`), the HTTP request of `fetch_timezone`, `apply_clock_correction` and the clock (`utc::now`) are inputs: the `Exchange` of a query, the `Network` of a run, and the clock readings.
- Sync.RunSpec: each query's outcome is an input that does not see the run's stop token. The queries run on pool threads, and the model does not fix how their cancellation points interleave with the run's. A canceled query without a stop is therefore not excluded, and `Sync.UnstoppedRunCompletes` assumes that no query is canceled.
- The poll timeout value and the 100 ms / 10 ms retry sleeps of `ntp_query` are not modelled; only the cancellation points around them are.
- Notifications, logging and the `silent` flag of `run`: they only report.
- Storing the updated offset in the configuration: `Sync.Run` returns the offset instead.
- `double` arithmetic and `ldexp`: seconds are exact reals, so the model has no rounding beyond the truncation of `timestamp(dbl_seconds)`.
- `TimeUtils.SecondsToHuman`: the `%.1f` text of the amount is not modelled; the model returns the '+' flag, the amount and the unit.
- `Background.Runner.Finish`: the 5-second sleep before the run is reduced to whether it was canceled, and the run's outcome is an input.
- `Background.Runner.Stop`: the moment the thread's end becomes visible is an input (`ends`), not a real clock.
- `Ntp.Store`: `store` overwrites `stored` in place; the model returns the new timestamp value, since timestamps are copied by value everywhere in the source.
- Watch.VarWatch.Compound: the watched type is fixed to `int`; overflowing `+ - *`, division by zero, INT_MIN / -1 and shifts outside 0..31, which C++ leaves undefined, are excluded by the precondition.
- Watch.VarWatch.PreIncrement, PreDecrement, PostIncrement and PostDecrement: they require that the result stays an `int`, for the same reason.
- `operator->` of `var_watch` and the commented-out conversion operator: a pointer to the variable has no counterpart here.
- `local_clock_to_string`, `ticks_to_string` and `to_string(address)`: display formatting through OS calls.
- Configuration storage, the menu items, the notification library and the older `source/main.cpp` are outside this model.

## Findings

| source | as written | input that shows it | evidently intended | confidence | as-written member | corrected member |
|---|---|---|---|---|---|---|
| source/ntp.cpp:95-100, source/core.cpp:206-208 | `leap()` returns the leap bits shifted down to 0..3, but the `leap_flag` constants keep them in bits 7-6, so `ntp_query`'s comparison with `unknown` (192) never holds | a reply whose first byte is 0xE4 (leap 3, version 4, server mode), whose origin timestamp equals t1, and whose t2 and t3 are non-zero, is accepted | `leap()` returns `lvm & 0xC0`, so `leap(x); leap()` gives x back and replies from an unsynchronised server are rejected | high; not executed | Ntp.LeapAsWrittenMismatch, Core.UnknownLeapAccepted, Core.UnknownLeapMeasured | Ntp.LeapOf, Core.Validate |
