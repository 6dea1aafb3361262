/**
 * One NTP client/server exchange (`core::ntp_query`) and the helpers it
 * relies on: the conversions between the Wii U epoch (2000) and the NTP
 * epoch (1900), cooperative cancellation, and the offset and delay
 * arithmetic of section 8 of RFC 5905.
 *
 * The socket, the clock and the stop token are inputs: an `Exchange`
 * records what the network and the clock do during one query.
 */
module Core {
  import opened Wrappers
  import opened ByteOrder
  import opened Ntp

  // ---------------------------------------------------------------------------
  // Epochs

  const SecondsPerDay: real := 86400.0

  /** From 1900-01-01 to 2000-01-01: 100 years of 365 days plus 24 leap days. */
  const EpochDiff: real := SecondsPerDay * (100 * 365 + 24) as real

  lemma EpochDiffValue()
    ensures EpochDiff == 3155673600.0
  {
  }

  /** UTC instants (seconds since 2000) that the first NTP era can represent. */
  predicate InEra0(u: real) {
    0.0 <= u + EpochDiff < TwoTo32 as real
  }

  /** `to_ntp`: a UTC instant as an NTP timestamp, truncated to 2^-32 s. */
  function ToNtp(u: real): (t: Timestamp)
    requires InEra0(u)
    ensures 0.0 <= (u + EpochDiff) - t.ToSeconds() < 1.0 / TwoTo32 as real
  {
    FromSeconds(u + EpochDiff)
  }

  /** `to_utc`: an NTP timestamp as a UTC instant. */
  function ToUtc(t: Timestamp): (u: real)
    ensures InEra0(u)
    ensures u + EpochDiff == t.ToSeconds()
  {
    t.ToSeconds() - EpochDiff
  }

  /** Every NTP timestamp survives the trip through UTC unchanged. */
  lemma NtpUtcRoundTrip(t: Timestamp)
    ensures ToNtp(ToUtc(t)) == t
  {
    var u := ToUtc(t);
    assert u + EpochDiff == t.ToSeconds();
    assert ToNtp(u) == FromSeconds(t.ToSeconds());
    SecondsRoundTrip(t);
  }

  /** A UTC instant comes back from NTP less than 2^-32 s early, never late. */
  lemma UtcNtpRoundTrip(u: real)
    requires InEra0(u)
    ensures 0.0 <= u - ToUtc(ToNtp(u)) < 1.0 / TwoTo32 as real
  {
  }

  // ---------------------------------------------------------------------------
  // Cancellation

  /**
   * A `std::stop_token` as seen by one operation: the operation's cancellation
   * points are numbered 0, 1, 2, ...; with `StopAt(k)` the stop has been
   * requested by the time of point k, so point k and every later point see it.
   */
  datatype StopToken = NoStop | StopAt(check: nat) {
    /** `stop_requested()` at cancellation point k. */
    predicate Requested(k: nat) {
      StopAt? && check <= k
    }
  }

  /** `sleep_for` sleeps in 100 ms steps, checking the token before each. */
  const SleepStep: nat := 100

  /** The number of 100 ms steps `sleep_for(t)` takes to reach its deadline. */
  function SleepSteps(t: nat): (n: nat)
    ensures n * SleepStep >= t && (n == 0 || (n - 1) * SleepStep < t)
  {
    (t + SleepStep - 1) / SleepStep
  }

  /**
   * `sleep_for(t, token)`: loops until the deadline, checking the token before
   * each 100 ms sleep. Each step is taken to last exactly 100 ms. Returns
   * whether it was canceled and the number of cancellation points it used,
   * starting from point `first`.
   */
  method SleepFor(t: nat, tok: StopToken, first: nat) returns (canceled: bool, checks: nat)
    ensures canceled <==> SleepSteps(t) > 0 && tok.Requested(first + SleepSteps(t) - 1)
    ensures canceled ==> 0 < checks <= SleepSteps(t) && tok.Requested(first + checks - 1)
    ensures canceled && checks > 1 ==> !tok.Requested(first + checks - 2)
    ensures !canceled ==> checks == SleepSteps(t)
  {
    var elapsed := 0;
    checks := 0;
    canceled := false;
    while elapsed < t
      invariant checks * SleepStep == elapsed
      invariant checks <= SleepSteps(t)
      invariant elapsed < t ==> checks < SleepSteps(t)
      invariant checks > 0 ==> !tok.Requested(first + checks - 1)
      decreases t - elapsed
    {
      if tok.Requested(first + checks) {
        canceled := true;
        checks := checks + 1;
        return;
      }
      checks := checks + 1;
      elapsed := elapsed + SleepStep;
    }
  }

  // ---------------------------------------------------------------------------
  // Offset and delay arithmetic

  /** 2^32 seconds, one NTP era (the source calls it `half_era`). */
  const HalfEra: real := 4294967296.0
  /** 2^31 seconds, about 68 years (`quarter_era`). */
  const QuarterEra: real := 2147483648.0

  /** Seconds values of NTP timestamps: [0, 2^32). */
  predicate InEra(d: real) {
    0.0 <= d < HalfEra
  }

  /**
   * The wraparound fix: a later reading that is numerically smaller than the
   * earlier one crossed the end of an era, so one era is added to it.
   */
  function Unwrap(earlier: real, later: real): (r: real)
    requires InEra(earlier) && InEra(later)
    ensures earlier <= r < earlier + HalfEra
    ensures r == later || r == later + HalfEra
  {
    if later < earlier then later + HalfEra else later
  }

  /**
   * The fix is transparent: if the true instants a and b (a <= b < a + 2^32)
   * were read modulo one era, the unwrapped difference is b - a.
   */
  lemma UnwrapTransparent(da: real, db: real, ka: int, kb: int)
    requires InEra(da) && InEra(db)
    requires var a := da + ka as real * HalfEra;
             var b := db + kb as real * HalfEra;
             a <= b < a + HalfEra
    ensures Unwrap(da, db) - da == (db + kb as real * HalfEra) - (da + ka as real * HalfEra)
  {
    var k := kb - ka;
    assert (db + kb as real * HalfEra) - (da + ka as real * HalfEra) == db - da + k as real * HalfEra;
    if k >= 2 {
      assert false;
    } else if k < 0 {
      assert false;
    }
  }

  /** A measured correction and one-way latency, in seconds. */
  datatype Measurement = Measurement(correction: real, latency: real)

  /**
   * The section 8 computation before the era fold: the round trip minus the
   * server's hold time, half of it as latency, and the correction that makes
   * the local arrival time meet the server's send time plus the latency.
   */
  function RawOffsets(d1: real, d2: real, d3: real, d4: real): (m: Measurement)
    requires InEra(d1) && InEra(d2) && InEra(d3) && InEra(d4)
    ensures Unwrap(d1, d4) + m.correction == Unwrap(d2, d3) + m.latency
    ensures m.correction == ((d2 - d1) + (Unwrap(d2, d3) - Unwrap(d1, d4))) / 2.0
    ensures m.latency >= 0.0 <==> Unwrap(d1, d4) - d1 >= Unwrap(d2, d3) - d2
    ensures -(HalfEra + QuarterEra) < m.correction < HalfEra + QuarterEra
  {
    var d4w := Unwrap(d1, d4);
    var d3w := Unwrap(d2, d3);
    var roundtrip := (d4w - d1) - (d3w - d2);
    var latency := roundtrip / 2.0;
    var correction := d3w + latency - d4w;
    Measurement(correction, latency)
  }

  /**
   * The era fold: a correction of more than 2^31 s either way means one side
   * is already in the next era, so one era is taken off or added.
   */
  function Fold(c: real): (r: real)
    ensures -(HalfEra + QuarterEra) < c < HalfEra + QuarterEra ==> -QuarterEra <= r <= QuarterEra
    ensures r == c || r == c - HalfEra || r == c + HalfEra
    ensures -QuarterEra <= c <= QuarterEra ==> r == c
  {
    var c1 := if c > QuarterEra then c - HalfEra else c;
    if c1 < -QuarterEra then c1 + HalfEra else c1
  }

  /** The correction and latency `ntp_query` returns for t1..t4. */
  function Offsets(t1: Timestamp, t2: Timestamp, t3: Timestamp, t4: Timestamp): (m: Measurement)
    ensures -QuarterEra <= m.correction <= QuarterEra
    ensures var raw := RawOffsets(t1.ToSeconds(), t2.ToSeconds(), t3.ToSeconds(), t4.ToSeconds());
            m.latency == raw.latency &&
            (m.correction == raw.correction || m.correction == raw.correction - HalfEra ||
             m.correction == raw.correction + HalfEra) &&
            (-QuarterEra <= raw.correction <= QuarterEra ==> m.correction == raw.correction)
  {
    var raw := RawOffsets(t1.ToSeconds(), t2.ToSeconds(), t3.ToSeconds(), t4.ToSeconds());
    Measurement(Fold(raw.correction), raw.latency)
  }

  /**
   * With symmetric one-way delays and no wraparound, the computation recovers
   * the true clock offset and the true one-way delay.
   */
  lemma SymmetricPathRecovered(d1: real, delay: real, hold: real, offset: real)
    requires delay >= 0.0 && hold >= 0.0
    requires var d2 := d1 + delay + offset;
             var d3 := d2 + hold;
             var d4 := d1 + 2.0 * delay + hold;
             InEra(d1) && InEra(d2) && InEra(d3) && InEra(d4)
    ensures RawOffsets(d1, d1 + delay + offset, d1 + delay + offset + hold, d1 + 2.0 * delay + hold)
            == Measurement(offset, delay)
  {
  }

  /**
   * What `ntp_query` returns for such an exchange: when the four timestamps
   * are the readings of a symmetric path within one era, and the clocks are
   * less than 2^31 s apart, the result is the true offset and delay.
   */
  lemma SymmetricOffsets(t1: Timestamp, t2: Timestamp, t3: Timestamp, t4: Timestamp,
                         delay: real, hold: real, offset: real)
    requires delay >= 0.0 && hold >= 0.0 && -QuarterEra <= offset <= QuarterEra
    requires t2.ToSeconds() == t1.ToSeconds() + delay + offset
    requires t3.ToSeconds() == t2.ToSeconds() + hold
    requires t4.ToSeconds() == t1.ToSeconds() + 2.0 * delay + hold
    ensures Offsets(t1, t2, t3, t4) == Measurement(offset, delay)
  {
    SymmetricPathRecovered(t1.ToSeconds(), delay, hold, offset);
  }

  // ---------------------------------------------------------------------------
  // One exchange

  /** The error codes the query distinguishes: only "not enough memory" is retried. */
  datatype Errc = NotEnoughMemory | OtherErrc(code: int)

  /** The result of a non-throwing socket call (`std::expected<T, net::error>`). */
  datatype IoStatus<T> = Done(value: T) | IoError(errc: Errc)

  predicate IsTransient<T>(st: IoStatus<T>) {
    st.IoError? && st.errc == NotEnoughMemory
  }

  /** The first n attempts all failed with "not enough memory". */
  predicate AllTransient<T>(s: seq<IoStatus<T>>, n: nat) {
    n <= |s| && forall i :: 0 <= i < n ==> IsTransient(s[i])
  }

  /** The reasons `ntp_query` throws a `runtime_error` or a socket error. */
  datatype QueryError =
    | SocketError(errc: Errc)                       // rethrown socket error
    | SendRetriesExhausted                          // "No resources for send(), too many retries!"
    | PollRetriesExhausted                          // "No resources for poll(), too many retries!"
    | Timeout                                       // "Timeout reached!"
    | InvalidResponse                               // "Invalid NTP response!"
    | UnsupportedVersion(version: nat)              // "Unsupported NTP version: "
    | InvalidMode(mode: byte)                       // "Invalid NTP packet mode: "
    | UnknownLeap                                   // "Unknown value for leap flag."
    | ResponseMismatch(sent: Timestamp, received: Timestamp) // "NTP response mismatch"
    | InvalidTimestamps                             // "NTP response has invalid timestamps."

  /** What `ntp_query` returns or throws; `Canceled` is `canceled_error`. */
  datatype QueryOutcome = Measured(m: Measurement) | Failed(error: QueryError) | Canceled

  const MaxSendAttempts: nat := 4
  const MaxPollAttempts: nat := 4

  /**
   * Everything the network and the clock do during one query: whether the
   * socket could be created and connected, the status of each send and poll
   * attempt (true: readable), the datagram received, whether closing failed,
   * the UTC time read before each send attempt and the time read on arrival.
   */
  datatype Exchange = Exchange(
    setup: Option<Errc>,
    sends: seq<IoStatus<nat>>,
    polls: seq<IoStatus<bool>>,
    reply: IoStatus<seq<byte>>,
    close: Option<Errc>,
    sendClock: seq<real>,
    arrivalClock: real)

  /** Each retry loop can consult up to four outcomes, and the clock stays in era 0. */
  predicate WellFormed(ex: Exchange) {
    |ex.sends| >= MaxSendAttempts && |ex.polls| >= MaxPollAttempts &&
    |ex.sendClock| >= MaxSendAttempts &&
    (forall i :: 0 <= i < MaxSendAttempts ==> InEra0(ex.sendClock[i])) &&
    InEra0(ex.arrivalClock)
  }

  /** The index of the first status from `from` on that is not "not enough memory", or `limit`. */
  function FirstNonTransient<T>(s: seq<IoStatus<T>>, from: nat, limit: nat): (j: nat)
    requires from <= limit <= |s|
    ensures from <= j <= limit
    ensures forall i :: from <= i < j ==> IsTransient(s[i])
    ensures j < limit ==> !IsTransient(s[j])
    decreases limit - from
  {
    if from == limit then limit
    else if IsTransient(s[from]) then FirstNonTransient(s, from + 1, limit)
    else from
  }

  /** The properties of `FirstNonTransient` determine it. */
  lemma FirstNonTransientUnique<T>(s: seq<IoStatus<T>>, limit: nat, j: nat)
    requires j <= limit <= |s|
    requires AllTransient(s, j)
    requires j < limit ==> !IsTransient(s[j])
    ensures FirstNonTransient(s, 0, limit) == j
  {
  }

  /** The send attempt that ended the send loop (4 if all four ran out of memory). */
  function SendIndex(ex: Exchange): (j: nat)
    requires WellFormed(ex)
    ensures j <= MaxSendAttempts
  {
    FirstNonTransient(ex.sends, 0, MaxSendAttempts)
  }

  /** The poll attempt that ended the poll loop (4 if all four ran out of memory). */
  function PollIndex(ex: Exchange): (p: nat)
    requires WellFormed(ex)
    ensures p <= MaxPollAttempts
  {
    FirstNonTransient(ex.polls, 0, MaxPollAttempts)
  }

  /**
   * Cancellation points used by a retry loop that ended at attempt j: one
   * before each attempt and one before each retry sleep.
   */
  function LoopChecks(j: nat, max: nat): (n: nat)
    requires 0 < max && j <= max
  {
    if j == max then 2 * (max - 1) + 1 else 2 * j + 1
  }

  /** The request: version 4, client mode, zeros except the transmit timestamp t1. */
  function RequestImage(t1: Timestamp): (img: seq<byte>)
    ensures |img| == PacketSize
    ensures VersionOf(img[0]) == 4 && ModeOf(img[0]) == Client && LeapOf(img[0]) == NoWarning
    ensures TimestampAt(img, TransmitOffset) == t1
    ensures forall i :: 1 <= i < TransmitOffset ==> img[i] == 0
  {
    var lvm := WithMode(WithVersion(0, 4), Client);
    var img := [lvm] + seq(TransmitOffset - 1, _ => 0) + t1.stored;
    assert img[TransmitOffset..TransmitOffset + 8] == t1.stored;
    img
  }

  /**
   * The response checks, in the order the source makes them: version 3 or 4,
   * server mode, a known leap indicator, the origin timestamp equal to the t1
   * that was sent, and non-zero receive and transmit timestamps.
   */
  function Validate(img: seq<byte>, t1: Timestamp): (r: Option<QueryError>)
    requires |img| == PacketSize
    ensures r.None? <==>
      (3 <= VersionOf(img[0]) <= 4 && ModeOf(img[0]) == Server && LeapOf(img[0]) != LeapUnknown &&
       TimestampAt(img, OriginOffset) == t1 &&
       TimestampAt(img, ReceiveOffset).IsSet() && TimestampAt(img, TransmitOffset).IsSet())
    ensures r == Some(UnsupportedVersion(VersionOf(img[0]))) <==> !(3 <= VersionOf(img[0]) <= 4)
  {
    var lvm := img[0];
    var v := VersionOf(lvm);
    if v < 3 || v > 4 then Some(UnsupportedVersion(v))
    else if ModeOf(lvm) != Server then Some(InvalidMode(ModeOf(lvm)))
    else if LeapOf(lvm) == LeapUnknown then Some(UnknownLeap)
    else if t1 != TimestampAt(img, OriginOffset) then Some(ResponseMismatch(t1, TimestampAt(img, OriginOffset)))
    else if !TimestampAt(img, ReceiveOffset).IsSet() || !TimestampAt(img, TransmitOffset).IsSet() then
      Some(InvalidTimestamps)
    else None
  }

  /**
   * The checks as the source writes them: the leap test compares the 0..3
   * value of `leap()` with `unknown` (192), so it never rejects anything.
   */
  function ValidateAsWritten(img: seq<byte>, t1: Timestamp): (r: Option<QueryError>)
    requires |img| == PacketSize
    ensures r != Some(UnknownLeap)
  {
    var lvm := img[0];
    var v := VersionOf(lvm);
    if v < 3 || v > 4 then Some(UnsupportedVersion(v))
    else if ModeOf(lvm) != Server then Some(InvalidMode(ModeOf(lvm)))
    else if LeapAsWritten(lvm) == LeapUnknown then Some(UnknownLeap)
    else if t1 != TimestampAt(img, OriginOffset) then Some(ResponseMismatch(t1, TimestampAt(img, OriginOffset)))
    else if !TimestampAt(img, ReceiveOffset).IsSet() || !TimestampAt(img, TransmitOffset).IsSet() then
      Some(InvalidTimestamps)
    else None
  }

  /**
   * A reply from an unsynchronized server (leap indicator 3, version 4,
   * server mode) with a matching origin and set timestamps: the checks as
   * written accept it, the intended checks reject it.
   */
  lemma UnknownLeapAccepted(t1: Timestamp, t2: Timestamp, t3: Timestamp)
    requires t2.IsSet() && t3.IsSet()
    ensures var img := [0xE4 as byte] + seq(OriginOffset - 1, _ => 0) + t1.stored + t2.stored + t3.stored;
            |img| == PacketSize &&
            ValidateAsWritten(img, t1) == None &&
            Validate(img, t1) == Some(UnknownLeap)
  {
    var img := [0xE4 as byte] + seq(OriginOffset - 1, _ => 0) + t1.stored + t2.stored + t3.stored;
    assert TimestampAt(img, OriginOffset) == t1;
    assert TimestampAt(img, ReceiveOffset) == t2;
    assert TimestampAt(img, TransmitOffset) == t3;
  }

  /**
   * The checks as written agree with the intended ones on every reply whose
   * leap indicator is known; a reply the intended checks reject only for its
   * unknown leap indicator passes the checks as written whenever its origin
   * and timestamps do.
   */
  lemma ValidateAgreesExceptLeap(img: seq<byte>, t1: Timestamp)
    requires |img| == PacketSize
    ensures LeapOf(img[0]) != LeapUnknown ==> ValidateAsWritten(img, t1) == Validate(img, t1)
    ensures Validate(img, t1) == Some(UnknownLeap) ==>
              LeapOf(img[0]) == LeapUnknown &&
              (ValidateAsWritten(img, t1).None? <==>
                 TimestampAt(img, OriginOffset) == t1 &&
                 TimestampAt(img, ReceiveOffset).IsSet() && TimestampAt(img, TransmitOffset).IsSet())
  {
    assert LeapAsWritten(img[0]) != LeapUnknown;
  }

  /**
   * What happens once the reply is readable: receive, close, check the reply
   * as the source writes the checks, compute. A measurement comes exactly
   * from a full datagram, a clean close and a reply that passes the checks,
   * and it is computed from the t1 that was sent and the reply's t2 and t3.
   */
  function Receive(ex: Exchange, t1: Timestamp, t4: Timestamp): (r: QueryOutcome)
    ensures r != Canceled
    ensures r.Measured? <==>
              ex.reply.Done? && |ex.reply.value| >= PacketSize && ex.close.None? &&
              ValidateAsWritten(ex.reply.value[..PacketSize], t1).None?
    ensures r.Measured? ==>
              var img := ex.reply.value[..PacketSize];
              r.m == Offsets(t1, TimestampAt(img, ReceiveOffset), TimestampAt(img, TransmitOffset), t4)
    ensures ex.reply.Done? && |ex.reply.value| >= PacketSize && ex.close.None? && r.Failed? ==>
              ValidateAsWritten(ex.reply.value[..PacketSize], t1) == Some(r.error)
  {
    match ex.reply
    case IoError(e) => Failed(SocketError(e))
    case Done(datagram) =>
      if |datagram| < PacketSize then Failed(InvalidResponse)
      else if ex.close.Some? then Failed(SocketError(ex.close.value))
      else
        var img := datagram[..PacketSize];
        match ValidateAsWritten(img, t1)
        case Some(err) => Failed(err)
        case None =>
          Measured(Offsets(t1, TimestampAt(img, ReceiveOffset), TimestampAt(img, TransmitOffset), t4))
  }

  /**
   * The query as written measures a reply from an unsynchronized server: a
   * reply the intended checks reject only for its unknown leap indicator.
   */
  lemma UnknownLeapMeasured(ex: Exchange, t1: Timestamp, t4: Timestamp)
    requires ex.reply.Done? && |ex.reply.value| >= PacketSize && ex.close.None?
    requires var img := ex.reply.value[..PacketSize];
             Validate(img, t1) == Some(UnknownLeap) && TimestampAt(img, OriginOffset) == t1 &&
             TimestampAt(img, ReceiveOffset).IsSet() && TimestampAt(img, TransmitOffset).IsSet()
    ensures Receive(ex, t1, t4).Measured?
  {
    ValidateAgreesExceptLeap(ex.reply.value[..PacketSize], t1);
  }

  /** The outcome of the exchange when no stop is requested. */
  function Unstopped(ex: Exchange): (r: QueryOutcome)
    requires WellFormed(ex)
    ensures r != Canceled
  {
    if ex.setup.Some? then Failed(SocketError(ex.setup.value))
    else
      var j := SendIndex(ex);
      if j == MaxSendAttempts then Failed(SendRetriesExhausted)
      else if ex.sends[j].IoError? then Failed(SocketError(ex.sends[j].errc))
      else
        var p := PollIndex(ex);
        if p == MaxPollAttempts then Failed(PollRetriesExhausted)
        else if ex.polls[p].IoError? then Failed(SocketError(ex.polls[p].errc))
        else if !ex.polls[p].value then Failed(Timeout)
        else Receive(ex, ToNtp(ex.sendClock[j]), ToNtp(ex.arrivalClock))
  }

  /** The number of cancellation points the exchange reaches when no stop is requested. */
  function TotalChecks(ex: Exchange): (n: nat)
    requires WellFormed(ex)
  {
    if ex.setup.Some? then 0
    else
      var j := SendIndex(ex);
      var sendChecks := LoopChecks(j, MaxSendAttempts);
      if j == MaxSendAttempts || ex.sends[j].IoError? then sendChecks
      else sendChecks + LoopChecks(PollIndex(ex), MaxPollAttempts)
  }

  /**
   * The outcome of `ntp_query`: canceled exactly when the stop arrives before
   * the last cancellation point the exchange would reach, otherwise what the
   * network and the server's reply decide.
   */
  function QuerySpec(tok: StopToken, ex: Exchange): (r: QueryOutcome)
    requires WellFormed(ex)
    ensures r.Canceled? <==> tok.StopAt? && tok.check < TotalChecks(ex)
    ensures tok.NoStop? ==> r == Unstopped(ex)
    ensures r.Measured? ==>
              ex.setup.None? && SendIndex(ex) < MaxSendAttempts && ex.sends[SendIndex(ex)].Done? &&
              PollIndex(ex) < MaxPollAttempts && ex.polls[PollIndex(ex)] == Done(true)
  {
    if tok.StopAt? && tok.check < TotalChecks(ex) then Canceled else Unstopped(ex)
  }

  /**
   * How the send loop ends: with the query's outcome, or (`None`) with the
   * send at `SendIndex(ex)` accepted.
   */
  function SendPhase(tok: StopToken, ex: Exchange): (r: Option<QueryOutcome>)
    requires WellFormed(ex)
    ensures r.Some? ==> !r.value.Measured?
  {
    var j := SendIndex(ex);
    if tok.StopAt? && tok.check < LoopChecks(j, MaxSendAttempts) then Some(Canceled)
    else if j == MaxSendAttempts then Some(Failed(SendRetriesExhausted))
    else if ex.sends[j].IoError? then Some(Failed(SocketError(ex.sends[j].errc)))
    else None
  }

  /**
   * How the poll loop ends, after an accepted send: with the query's outcome,
   * or (`None`) with the poll at `PollIndex(ex)` answering.
   */
  function PollPhase(tok: StopToken, ex: Exchange): (r: Option<QueryOutcome>)
    requires WellFormed(ex) && SendPhase(tok, ex).None?
    ensures r.Some? ==> !r.value.Measured?
  {
    var base := LoopChecks(SendIndex(ex), MaxSendAttempts);
    var p := PollIndex(ex);
    if tok.StopAt? && tok.check < base + LoopChecks(p, MaxPollAttempts) then Some(Canceled)
    else if p == MaxPollAttempts then Some(Failed(PollRetriesExhausted))
    else if ex.polls[p].IoError? then Some(Failed(SocketError(ex.polls[p].errc)))
    else None
  }

  /**
   * The two loops, run one after the other, produce the query's outcome: the
   * first one that stops decides it, and when neither stops no stop request
   * arrives in time and the reply decides it.
   */
  lemma PhasesDecideQuery(tok: StopToken, ex: Exchange)
    requires WellFormed(ex) && ex.setup.None?
    ensures SendPhase(tok, ex).Some? ==> QuerySpec(tok, ex) == SendPhase(tok, ex).value
    ensures SendPhase(tok, ex).None? && PollPhase(tok, ex).Some? ==> QuerySpec(tok, ex) == PollPhase(tok, ex).value
    ensures SendPhase(tok, ex).None? && PollPhase(tok, ex).None? ==> QuerySpec(tok, ex) == Unstopped(ex)
  {
    var j := SendIndex(ex);
    if j < MaxSendAttempts && ex.sends[j].Done? {
      assert TotalChecks(ex) == LoopChecks(j, MaxSendAttempts) + LoopChecks(PollIndex(ex), MaxPollAttempts);
    } else {
      assert TotalChecks(ex) == LoopChecks(j, MaxSendAttempts);
    }
  }

  /**
   * Once both loops have ended without deciding the query, the poll's answer
   * decides: no data is a timeout, otherwise the reply is received with the
   * t1 of the accepted send.
   */
  lemma AnsweredPollDecides(tok: StopToken, ex: Exchange)
    requires WellFormed(ex) && ex.setup.None?
    requires SendPhase(tok, ex).None? && PollPhase(tok, ex).None?
    ensures ex.polls[PollIndex(ex)].Done?
    ensures QuerySpec(tok, ex) ==
              if ex.polls[PollIndex(ex)].value then Receive(ex, ToNtp(ex.sendClock[SendIndex(ex)]), ToNtp(ex.arrivalClock))
              else Failed(Timeout)
  {
    PhasesDecideQuery(tok, ex);
  }

  /** The packet `ntp_query` sends: version 4, client mode, every other field zero but t1. */
  predicate IsRequest(p: Packet)
    reads p`lvm, p`stratum, p`pollExp, p`precisionExp, p`rootDelay, p`rootDispersion,
          p`referenceId, p`referenceTime, p`originTime, p`receiveTime
  {
    p.lvm == WithMode(WithVersion(0, 4), Client) &&
    p.stratum == 0 && p.pollExp == 0 && p.precisionExp == 0 &&
    p.rootDelay == ZeroBytes4 && p.rootDispersion == ZeroBytes4 && p.referenceId == ZeroBytes4 &&
    p.referenceTime == DefaultTimestamp && p.originTime == DefaultTimestamp &&
    p.receiveTime == DefaultTimestamp
  }

  lemma RequestPacketImage(p: Packet)
    requires IsRequest(p)
    ensures p.Image() == RequestImage(p.transmitTime)
  {
    var img := p.Image();
    var req := RequestImage(p.transmitTime);
    assert img[TransmitOffset..] == req[TransmitOffset..];
    assert img[..TransmitOffset] == req[..TransmitOffset];
    assert img == img[..TransmitOffset] + img[TransmitOffset..];
    assert req == req[..TransmitOffset] + req[TransmitOffset..];
  }

  /**
   * `ntp_query`: sends a version-4 client request (retrying only on "not
   * enough memory", at most four times, re-reading t1 before each attempt),
   * polls for the reply (retrying the same way), receives, validates and
   * computes the correction and latency. Also returns the requests handed to
   * `send`, one per attempt.
   */
  method NtpQuery(tok: StopToken, ex: Exchange) returns (outcome: QueryOutcome, sent: seq<seq<byte>>)
    requires WellFormed(ex)
    ensures outcome == QuerySpec(tok, ex)
    ensures SentRequests(SendStamps(ex), sent)
    ensures outcome.Measured? ==> |sent| == SendIndex(ex) + 1
  {
    sent := [];
    if ex.setup.Some? {
      outcome := Failed(SocketError(ex.setup.value));
      return;
    }
    var packet := NewRequest();
    var early, t1;
    early, t1, sent := SendRequest(tok, ex, SendStamps(ex), packet);
    if early.Some? {
      outcome := early.value;
      assert outcome == QuerySpec(tok, ex) by { PhasesDecideQuery(tok, ex); }
      return;
    }
    assert t1 == ToNtp(ex.sendClock[SendIndex(ex)]);
    var readable;
    early, readable := AwaitReply(tok, ex);
    if early.Some? {
      outcome := early.value;
      assert outcome == QuerySpec(tok, ex) by { PhasesDecideQuery(tok, ex); }
      return;
    }
    AnsweredPollDecides(tok, ex);
    if !readable {
      outcome := Failed(Timeout);
      return;
    }
    // Measure the arrival time as soon as possible.
    var t4 := ToNtp(ex.arrivalClock);
    outcome := ReceiveReply(ex, packet, t1, t4);
  }

  /** The t1 each send attempt would read: the clock reading before it, as an NTP timestamp. */
  function SendStamps(ex: Exchange): (ts: seq<Timestamp>)
    requires WellFormed(ex)
    ensures |ts| == MaxSendAttempts
    ensures forall i :: 0 <= i < MaxSendAttempts ==> ts[i] == ToNtp(ex.sendClock[i])
  {
    [ToNtp(ex.sendClock[0]), ToNtp(ex.sendClock[1]), ToNtp(ex.sendClock[2]), ToNtp(ex.sendClock[3])]
  }

  /** A fresh packet set up as a version-4 client request. */
  method NewRequest() returns (packet: Packet)
    ensures fresh(packet) && IsRequest(packet)
  {
    packet := new Packet();
    packet.SetVersion(4);
    packet.SetMode(Client);
  }

  /** `sent` holds one request per send attempt, each stamped with the t1 read before it. */
  predicate SentRequests(stamps: seq<Timestamp>, sent: seq<seq<byte>>) {
    |sent| <= |stamps| &&
    forall i :: 0 <= i < |sent| ==> sent[i] == RequestImage(stamps[i])
  }

  /**
   * The send loop of `ntp_query`: checks for a stop, reads t1 into the
   * request and sends it; on "not enough memory" checks for a stop again,
   * sleeps and retries, up to four attempts in all.
   */
  method SendRequest(tok: StopToken, ex: Exchange, stamps: seq<Timestamp>, packet: Packet)
    returns (early: Option<QueryOutcome>, t1: Timestamp, sent: seq<seq<byte>>)
    requires WellFormed(ex) && |stamps| == MaxSendAttempts && IsRequest(packet)
    modifies packet`transmitTime
    ensures early == SendPhase(tok, ex)
    ensures early.None? ==> t1 == stamps[SendIndex(ex)] && |sent| == SendIndex(ex) + 1
    ensures SentRequests(stamps, sent)
  {
    sent, t1 := [], DefaultTimestamp;
    var attempts := 0;
    while true
      invariant 0 <= attempts < MaxSendAttempts
      invariant AllTransient(ex.sends, attempts)
      invariant attempts > 0 ==> !tok.Requested(2 * attempts - 1)
      invariant |sent| == attempts
      invariant SentRequests(stamps, sent)
      invariant IsRequest(packet)
      decreases MaxSendAttempts - attempts
    {
      // cancellation point: before sending
      if tok.Requested(2 * attempts) {
        early := Some(Canceled);
        return;
      }
      t1 := stamps[attempts];
      var request := StampRequest(packet, t1);
      sent := sent + [request];

      var status := ex.sends[attempts];
      if !IsTransient(status) {
        FirstNonTransientUnique(ex.sends, MaxSendAttempts, attempts);
        early := if status.IoError? then Some(Failed(SocketError(status.errc))) else None;
        return;
      }
      attempts := attempts + 1;
      if attempts == MaxSendAttempts {
        FirstNonTransientUnique(ex.sends, MaxSendAttempts, attempts);
        early := Some(Failed(SendRetriesExhausted));
        return;
      }
      // cancellation point: before sleeping
      if tok.Requested(2 * attempts - 1) {
        early := Some(Canceled);
        return;
      }
    }
  }

  /** Stores t1 as the request's transmit timestamp; returns the bytes `send` is given. */
  method StampRequest(packet: Packet, t1: Timestamp) returns (request: seq<byte>)
    requires IsRequest(packet)
    modifies packet`transmitTime
    ensures IsRequest(packet) && packet.transmitTime == t1
    ensures request == packet.Image() == RequestImage(t1)
  {
    packet.transmitTime := t1;
    RequestPacketImage(packet);
    request := packet.Image();
  }

  /**
   * The poll loop of `ntp_query`, after an accepted send: checks for a stop
   * and polls with the timeout; on "not enough memory" checks for a stop
   * again, sleeps and retries, up to four attempts in all. Returns whether
   * the reply became readable.
   */
  method AwaitReply(tok: StopToken, ex: Exchange) returns (early: Option<QueryOutcome>, readable: bool)
    requires WellFormed(ex) && SendPhase(tok, ex).None?
    ensures early == PollPhase(tok, ex)
    ensures early.None? ==> ex.polls[PollIndex(ex)] == Done(readable)
  {
    readable := false;
    var base := LoopChecks(SendIndex(ex), MaxSendAttempts);
    var attempts := 0;
    while true
      invariant 0 <= attempts < MaxPollAttempts
      invariant AllTransient(ex.polls, attempts)
      invariant !tok.Requested(base + 2 * attempts - 1)
      decreases MaxPollAttempts - attempts
    {
      // cancellation point: before polling
      if tok.Requested(base + 2 * attempts) {
        early := Some(Canceled);
        return;
      }
      var status := ex.polls[attempts];
      if !IsTransient(status) {
        FirstNonTransientUnique(ex.polls, MaxPollAttempts, attempts);
        if status.IoError? {
          early := Some(Failed(SocketError(status.errc)));
        } else {
          early, readable := None, status.value;
        }
        return;
      }
      attempts := attempts + 1;
      if attempts == MaxPollAttempts {
        FirstNonTransientUnique(ex.polls, MaxPollAttempts, attempts);
        early := Some(Failed(PollRetriesExhausted));
        return;
      }
      // cancellation point: before sleeping
      if tok.Requested(base + 2 * attempts - 1) {
        early := Some(Canceled);
        return;
      }
    }
  }

  /**
   * The rest of `ntp_query` once the reply is readable: receive into the
   * packet, close the socket, check the reply and compute the offsets.
   */
  method ReceiveReply(ex: Exchange, packet: Packet, t1: Timestamp, t4: Timestamp) returns (outcome: QueryOutcome)
    modifies packet
    ensures outcome == Receive(ex, t1, t4)
  {
    if ex.reply.IoError? {
      outcome := Failed(SocketError(ex.reply.errc));
      return;
    }
    var datagram := ex.reply.value;
    if |datagram| < PacketSize {
      outcome := Failed(InvalidResponse);
      return;
    }
    packet.ReadImage(datagram[..PacketSize]);

    // close it early
    if ex.close.Some? {
      outcome := Failed(SocketError(ex.close.value));
      return;
    }

    var v := packet.Version();
    if v < 3 || v > 4 {
      outcome := Failed(UnsupportedVersion(v));
      return;
    }
    var m := packet.Mode();
    if m != Server {
      outcome := Failed(InvalidMode(m));
      return;
    }
    if packet.Leap() == LeapUnknown {
      outcome := Failed(UnknownLeap);
      return;
    }
    var t1Received := packet.originTime;
    if t1 != t1Received {
      outcome := Failed(ResponseMismatch(t1, t1Received));
      return;
    }
    // when the request arrived at the server, and when the reply left it
    var t2 := packet.receiveTime;
    var t3 := packet.transmitTime;
    if !t2.IsSet() || !t3.IsSet() {
      outcome := Failed(InvalidTimestamps);
      return;
    }
    outcome := Measured(Offsets(t1, t2, t3, t4));
  }
}
