/**
 * `core::run`: one synchronisation. It refuses to run twice at once,
 * optionally updates the time-zone offset, splits the configured server
 * list, resolves every name into a set of addresses (so an address reached
 * through several names is queried once), queries every address, averages
 * the corrections obtained and either tolerates the drift or applies the
 * correction to the clock.
 *
 * The network is an input: the time-zone service's reply, what each name
 * resolves to, what the NTP query of each address gives, and whether
 * setting the clock succeeds. The thread pool only changes when the
 * lookups and the queries run, not what they give, so it does not appear.
 * `run`'s cancellation points are numbered in the order it reaches them:
 * 0 after the time-zone update, 1 after the lookups are submitted, 2 and 3
 * before and after the queries are submitted, 4 + i before waiting for the
 * i-th query, and 4 + n (for n addresses) before the clock is set.
 */
module Sync {
  import opened Wrappers
  import Utils
  import Net
  import Core
  import Stats
  import TimeUtils

  /** The characters that separate the names in the server setting. */
  const ServerSeparators: string := " \t,;"

  const AlreadyRunning: string := "Skipping NTP task: operation already in progress."
  const NoAddress: string := "No NTP address could be used."
  const NoServer: string := "No NTP server could be used!"
  const ClockNotSet: string := "Failed to set system clock!"

  /** The settings `run` reads. */
  datatype Config = Config(server: string, autoTz: bool, tzService: int, utcOffset: int, tolerance: real)

  /**
   * What the outside world does during one run: whether `nn::ac::Initialize()`
   * and `nn::ac::Connect()` succeed, the time-zone service's answer, the name
   * lookups, the queries and whether setting the clock succeeds.
   */
  datatype Network = Network(
    acInitialize: bool,
    acConnect: bool,
    tzResponse: Result<string, Utils.Error>,
    resolve: string -> Result<seq<Net.Address>, Utils.Error>,
    query: Net.Address -> Core.QueryOutcome,
    clockSet: bool)

  /** How `run` ends: returning after tolerating or applying the correction, throwing, or canceled. */
  datatype RunOutcome =
    | Tolerated(avg: real)
    | Corrected(avg: real)
    | RunFailed(error: Utils.Error)
    | RunCanceled

  // ---------------------------------------------------------------------------
  // The time-zone update

  /**
   * The offset after the optional update: the one the service reports, or
   * the configured one when the update is off or fails (a failure is only
   * reported).
   */
  function UpdatedOffset(cfg: Config, net: Network): (offset: int)
    ensures !cfg.autoTz || net.tzResponse.Failure? ==> offset == cfg.utcOffset
  {
    if !cfg.autoTz then cfg.utcOffset
    else match net.tzResponse
      case Failure(_) => cfg.utcOffset
      case Success(body) =>
        match Utils.ParseTimezone(cfg.tzService, body)
        case Success((_, o)) => o
        case Failure(_) => cfg.utcOffset
  }

  // ---------------------------------------------------------------------------
  // Resolving the names

  /** The addresses one lookup contributes: none when it failed. */
  function Found(r: Result<seq<Net.Address>, Utils.Error>): seq<Net.Address> {
    if r.Success? then r.value else []
  }

  /** `set::insert` of each of xs in turn. */
  function InsertAll(acc: seq<Net.Address>, xs: seq<Net.Address>): (r: seq<Net.Address>)
    requires Net.StrictlySorted(acc)
    ensures Net.StrictlySorted(r)
  {
    if |xs| == 0 then acc else Net.SetInsert(InsertAll(acc, xs[..|xs| - 1]), xs[|xs| - 1])
  }

  /** The set of addresses after the results of the lookups of `names` are collected in order. */
  function Resolved(names: seq<string>, resolve: string -> Result<seq<Net.Address>, Utils.Error>): (r: seq<Net.Address>)
    ensures Net.StrictlySorted(r)
  {
    if |names| == 0 then []
    else InsertAll(Resolved(names[..|names| - 1], resolve), Found(resolve(names[|names| - 1])))
  }

  // ---------------------------------------------------------------------------
  // Collecting the corrections

  /**
   * The corrections from the first n addresses, or `None` when the run is
   * canceled while collecting them: by a stop seen before waiting for a
   * query, or by a query that was itself canceled. Failed queries are
   * skipped.
   */
  function Gather(tok: Core.StopToken, addrs: seq<Net.Address>, query: Net.Address -> Core.QueryOutcome, n: nat): Option<seq<real>>
    requires n <= |addrs|
  {
    if n == 0 then Some([])
    else match Gather(tok, addrs, query, n - 1)
      case None => None
      case Some(cs) =>
        if tok.Requested(4 + n - 1) then None
        else match query(addrs[n - 1])
          case Canceled => None
          case Measured(m) => Some(cs + [m.correction])
          case Failed(_) => Some(cs)
  }

  /** The corrections of the measured queries among the first n addresses, in order. */
  function Measurements(addrs: seq<Net.Address>, query: Net.Address -> Core.QueryOutcome, n: nat): (cs: seq<real>)
    requires n <= |addrs|
    ensures |cs| <= n
  {
    if n == 0 then []
    else
      var o := query(addrs[n - 1]);
      Measurements(addrs, query, n - 1) + (if o.Measured? then [o.m.correction] else [])
  }

  /** Whether collecting the first n results is cut short by a cancellation. */
  predicate CanceledWhileGathering(tok: Core.StopToken, addrs: seq<Net.Address>, query: Net.Address -> Core.QueryOutcome, n: nat)
    requires n <= |addrs|
  {
    exists i :: 0 <= i < n && CancelsAt(tok, addrs, query, i)
  }

  /** The wait for the i-th query sees a stop, or that query was canceled. */
  predicate CancelsAt(tok: Core.StopToken, addrs: seq<Net.Address>, query: Net.Address -> Core.QueryOutcome, i: nat)
    requires i < |addrs|
  {
    tok.Requested(4 + i) || query(addrs[i]).Canceled?
  }

  // ---------------------------------------------------------------------------
  // The whole run

  /** What `run` does once it holds the execution guard. */
  function RunSpec(cfg: Config, net: Network, tok: Core.StopToken): (r: RunOutcome)
    ensures r.RunFailed? ==>
              r.error in {Utils.RuntimeError(NoAddress), Utils.RuntimeError(NoServer), Utils.RuntimeError(ClockNotSet)}
    ensures r.Tolerated? ==> TimeUtils.RealAbs(r.avg) <= cfg.tolerance
    ensures r.Corrected? ==> TimeUtils.RealAbs(r.avg) > cfg.tolerance && net.clockSet
  {
    if tok.Requested(0) then RunCanceled
    else
      var addrs := Resolved(Utils.SplitSpec(cfg.server, ServerSeparators, 0), net.resolve);
      if tok.Requested(1) then RunCanceled
      else if |addrs| == 0 then RunFailed(Utils.RuntimeError(NoAddress))
      else if tok.Requested(2) || tok.Requested(3) then RunCanceled
      else match Gather(tok, addrs, net.query, |addrs|)
        case None => RunCanceled
        case Some(cs) =>
          if |cs| == 0 then RunFailed(Utils.RuntimeError(NoServer))
          else
            var avg := Stats.Mean(cs);
            if TimeUtils.RealAbs(avg) <= cfg.tolerance then Tolerated(avg)
            else if tok.Requested(4 + |addrs|) then RunCanceled
            else if !net.clockSet then RunFailed(Utils.RuntimeError(ClockNotSet))
            else Corrected(avg)
  }

  /**
   * `run(token, silent)`: without the network the run fails before it looks
   * at the flag; a second run while one is in progress fails and leaves the
   * flag set; otherwise the run holds the flag until it ends and then clears
   * it. Returns the outcome and the time-zone offset in effect afterwards.
   */
  method Run(executing: Utils.AtomicBool, cfg: Config, net: Network, tok: Core.StopToken)
    returns (outcome: RunOutcome, offset: int)
    modifies executing
    ensures executing.value == old(executing.value)
    ensures var netError := Utils.NetworkGuard(net.acInitialize, net.acConnect);
            netError.Some? ==> outcome == RunFailed(netError.value) && offset == cfg.utcOffset
    ensures Utils.NetworkGuard(net.acInitialize, net.acConnect).None? && old(executing.value) ==>
              outcome == RunFailed(Utils.RuntimeError(AlreadyRunning)) && offset == cfg.utcOffset
    ensures Utils.NetworkGuard(net.acInitialize, net.acConnect).None? && !old(executing.value) ==>
              outcome == RunSpec(cfg, net, tok) && offset == UpdatedOffset(cfg, net)
  {
    var netError := Utils.NetworkGuard(net.acInitialize, net.acConnect);
    if netError.Some? {
      outcome := RunFailed(netError.value);
      offset := cfg.utcOffset;
      return;
    }
    var guard := new Utils.ExecGuard(executing);
    if !guard.guarded {
      outcome := RunFailed(Utils.RuntimeError(AlreadyRunning));
      offset := cfg.utcOffset;
      guard.Release();
      return;
    }
    offset := UpdatedOffset(cfg, net);
    outcome := Synchronize(cfg, net, tok);
    guard.Release();
  }

  /** The body of `run` after the time-zone update, up to setting the clock. */
  method Synchronize(cfg: Config, net: Network, tok: Core.StopToken) returns (outcome: RunOutcome)
    ensures outcome == RunSpec(cfg, net, tok)
  {
    if tok.Requested(0) {
      return RunCanceled;
    }
    var servers := Utils.Split(cfg.server, ServerSeparators, 0);
    var addrs := ResolveAll(servers, net.resolve);
    if tok.Requested(1) {
      return RunCanceled;
    }
    if |addrs| == 0 {
      return RunFailed(Utils.RuntimeError(NoAddress));
    }
    if tok.Requested(2) {
      return RunCanceled;
    }
    if tok.Requested(3) {
      return RunCanceled;
    }
    var corrections := GatherCorrections(tok, addrs, net.query);
    if corrections.None? {
      return RunCanceled;
    }
    var cs := corrections.value;
    if |cs| == 0 {
      return RunFailed(Utils.RuntimeError(NoServer));
    }
    var avg := Stats.Mean(cs);
    if TimeUtils.RealAbs(avg) <= cfg.tolerance {
      return Tolerated(avg);
    }
    if tok.Requested(4 + |addrs|) {
      return RunCanceled;
    }
    if !net.clockSet {
      return RunFailed(Utils.RuntimeError(ClockNotSet));
    }
    outcome := Corrected(avg);
  }

  /** Inserts every address each name resolves to into the set, skipping failed lookups. */
  method ResolveAll(names: seq<string>, resolve: string -> Result<seq<Net.Address>, Utils.Error>)
    returns (addrs: seq<Net.Address>)
    ensures addrs == Resolved(names, resolve)
  {
    addrs := [];
    var i := 0;
    while i < |names|
      invariant 0 <= i <= |names|
      invariant addrs == Resolved(names[..i], resolve)
    {
      addrs := InsertEach(addrs, Found(resolve(names[i])));
      assert names[..i + 1][..i] == names[..i];
      i := i + 1;
    }
    assert names[..i] == names;
  }

  /** `addresses.insert(info.addr)` for each result of one lookup. */
  method InsertEach(before: seq<Net.Address>, infos: seq<Net.Address>) returns (addrs: seq<Net.Address>)
    requires Net.StrictlySorted(before)
    ensures addrs == InsertAll(before, infos)
  {
    addrs := before;
    var j := 0;
    while j < |infos|
      invariant 0 <= j <= |infos|
      invariant addrs == InsertAll(before, infos[..j])
    {
      assert infos[..j + 1][..j] == infos[..j];
      addrs := Net.SetInsert(addrs, infos[j]);
      j := j + 1;
    }
    assert infos[..j] == infos;
  }

  /** Waits for each query in turn, keeping the corrections of those that measured one. */
  method GatherCorrections(tok: Core.StopToken, addrs: seq<Net.Address>, query: Net.Address -> Core.QueryOutcome)
    returns (corrections: Option<seq<real>>)
    ensures corrections == Gather(tok, addrs, query, |addrs|)
  {
    var cs: seq<real> := [];
    var i := 0;
    while i < |addrs|
      invariant 0 <= i <= |addrs|
      invariant Gather(tok, addrs, query, i) == Some(cs)
    {
      if tok.Requested(4 + i) {
        GatherStaysCanceled(tok, addrs, query, i + 1, |addrs|);
        return None;
      }
      match query(addrs[i]) {
        case Canceled =>
          GatherStaysCanceled(tok, addrs, query, i + 1, |addrs|);
          return None;
        case Measured(m) =>
          cs := cs + [m.correction];
        case Failed(_) =>
      }
      i := i + 1;
    }
    corrections := Some(cs);
  }

  /** Once collecting is canceled, it stays canceled for the later addresses. */
  lemma {:induction false} GatherStaysCanceled(tok: Core.StopToken, addrs: seq<Net.Address>, query: Net.Address -> Core.QueryOutcome, m: nat, n: nat)
    requires m <= n <= |addrs|
    requires Gather(tok, addrs, query, m).None?
    ensures Gather(tok, addrs, query, n).None?
    decreases n - m
  {
    if m < n {
      GatherStaysCanceled(tok, addrs, query, m + 1, n);
    }
  }

  // ---------------------------------------------------------------------------
  // Properties

  lemma {:induction false} InsertAllMembers(acc: seq<Net.Address>, xs: seq<Net.Address>)
    requires Net.StrictlySorted(acc)
    ensures forall x :: x in InsertAll(acc, xs) <==> x in acc || x in xs
  {
    if |xs| > 0 {
      var init := xs[..|xs| - 1];
      InsertAllMembers(acc, init);
      assert xs == init + [xs[|xs| - 1]];
    }
  }

  /** Some successful lookup of one of `names` returned x. */
  predicate FoundBy(names: seq<string>, resolve: string -> Result<seq<Net.Address>, Utils.Error>, x: Net.Address) {
    exists i :: 0 <= i < |names| && x in Found(resolve(names[i]))
  }

  lemma FoundBySnoc(names: seq<string>, resolve: string -> Result<seq<Net.Address>, Utils.Error>, x: Net.Address)
    requires |names| > 0
    ensures FoundBy(names, resolve, x) <==>
              FoundBy(names[..|names| - 1], resolve, x) || x in Found(resolve(names[|names| - 1]))
  {
    var init := names[..|names| - 1];
    if FoundBy(names, resolve, x) {
      var i :| 0 <= i < |names| && x in Found(resolve(names[i]));
      if i < |init| {
        assert init[i] == names[i];
      }
    }
    if FoundBy(init, resolve, x) {
      var i :| 0 <= i < |init| && x in Found(resolve(init[i]));
      assert names[i] == init[i];
    }
  }

  /**
   * The set holds exactly the addresses some successful lookup returned, in
   * increasing order and each once: an address two names resolve to is
   * queried once.
   */
  lemma {:induction false} ResolvedMembers(names: seq<string>, resolve: string -> Result<seq<Net.Address>, Utils.Error>)
    ensures forall x :: x in Resolved(names, resolve) <==> FoundBy(names, resolve, x)
    ensures var r := Resolved(names, resolve);
            forall i, j :: 0 <= i < |r| && 0 <= j < |r| && r[i] == r[j] ==> i == j
  {
    Net.SortedHasNoDuplicates(Resolved(names, resolve));
    if |names| > 0 {
      var init := names[..|names| - 1];
      var last := Found(resolve(names[|names| - 1]));
      ResolvedMembers(init, resolve);
      InsertAllMembers(Resolved(init, resolve), last);
      forall x
        ensures x in Resolved(names, resolve) <==> FoundBy(names, resolve, x)
      {
        FoundBySnoc(names, resolve, x);
      }
    }
  }

  /**
   * Collecting is canceled exactly when a stop is seen before some wait or a
   * query was canceled; otherwise it yields the corrections of the measured
   * queries, in address order, and failed queries are skipped.
   */
  lemma {:induction false} GatherIsMeasurements(tok: Core.StopToken, addrs: seq<Net.Address>, query: Net.Address -> Core.QueryOutcome, n: nat)
    requires n <= |addrs|
    ensures Gather(tok, addrs, query, n).None? <==> CanceledWhileGathering(tok, addrs, query, n)
    ensures Gather(tok, addrs, query, n).Some? ==> Gather(tok, addrs, query, n).value == Measurements(addrs, query, n)
  {
    if n > 0 {
      GatherIsMeasurements(tok, addrs, query, n - 1);
      if CanceledWhileGathering(tok, addrs, query, n - 1) {
        var i :| 0 <= i < n - 1 && CancelsAt(tok, addrs, query, i);
        assert 0 <= i < n && CancelsAt(tok, addrs, query, i);
      } else if CancelsAt(tok, addrs, query, n - 1) {
        assert 0 <= n - 1 < n && CancelsAt(tok, addrs, query, n - 1);
      } else {
        forall i | 0 <= i < n
          ensures !CancelsAt(tok, addrs, query, i)
        {
          if i < n - 1 {
            assert !(0 <= i < n - 1 && CancelsAt(tok, addrs, query, i));
          }
        }
      }
    }
  }

  /**
   * The clock is only set when the average correction exceeds the tolerance,
   * no stop has been seen and at least one server answered; the average is
   * the mean of the measured corrections.
   */
  lemma ClockSetBeyondTolerance(cfg: Config, net: Network, tok: Core.StopToken)
    ensures var r := RunSpec(cfg, net, tok);
            var addrs := Resolved(Utils.SplitSpec(cfg.server, ServerSeparators, 0), net.resolve);
            var cs := Measurements(addrs, net.query, |addrs|);
            (r.Tolerated? || r.Corrected?) ==>
              |cs| > 0 && r.avg == Stats.Mean(cs) &&
              !CanceledWhileGathering(tok, addrs, net.query, |addrs|) &&
              (r.Tolerated? <==> TimeUtils.RealAbs(r.avg) <= cfg.tolerance) &&
              (r.Corrected? ==> net.clockSet && !tok.Requested(4 + |addrs|))
  {
    var addrs := Resolved(Utils.SplitSpec(cfg.server, ServerSeparators, 0), net.resolve);
    GatherIsMeasurements(tok, addrs, net.query, |addrs|);
  }

  /** No address is found exactly when no lookup found any. */
  lemma ResolvedEmpty(names: seq<string>, resolve: string -> Result<seq<Net.Address>, Utils.Error>)
    ensures |Resolved(names, resolve)| == 0 <==> forall i :: 0 <= i < |names| ==> Found(resolve(names[i])) == []
  {
    var addrs := Resolved(names, resolve);
    ResolvedMembers(names, resolve);
    if |addrs| > 0 {
      assert FoundBy(names, resolve, addrs[0]);
      var i :| 0 <= i < |names| && addrs[0] in Found(resolve(names[i]));
    } else {
      forall i | 0 <= i < |names|
        ensures Found(resolve(names[i])) == []
      {
        if Found(resolve(names[i])) != [] {
          assert FoundBy(names, resolve, Found(resolve(names[i]))[0]);
        }
      }
    }
  }

  /** The run fails for want of an address exactly when, uncanceled, no lookup found any. */
  lemma NoAddressFailure(cfg: Config, net: Network, tok: Core.StopToken)
    ensures var names := Utils.SplitSpec(cfg.server, ServerSeparators, 0);
            RunSpec(cfg, net, tok) == RunFailed(Utils.RuntimeError(NoAddress)) <==>
              !tok.Requested(1) && forall i :: 0 <= i < |names| ==> Found(net.resolve(names[i])) == []
  {
    var names := Utils.SplitSpec(cfg.server, ServerSeparators, 0);
    ResolvedEmpty(names, net.resolve);
  }

  /** With no stop requested and no query canceled, the run is never canceled. */
  /**
   * The run fails with "No NTP server could be used!" exactly when it was not
   * stopped before the queries, some address was found, the collection was
   * not canceled, and no query produced a measurement.
   */
  lemma NoServerFailure(cfg: Config, net: Network, tok: Core.StopToken)
    ensures var addrs := Resolved(Utils.SplitSpec(cfg.server, ServerSeparators, 0), net.resolve);
            RunSpec(cfg, net, tok) == RunFailed(Utils.RuntimeError(NoServer)) <==>
              !tok.Requested(3) && |addrs| > 0 &&
              !CanceledWhileGathering(tok, addrs, net.query, |addrs|) &&
              |Measurements(addrs, net.query, |addrs|)| == 0
  {
    var addrs := Resolved(Utils.SplitSpec(cfg.server, ServerSeparators, 0), net.resolve);
    GatherIsMeasurements(tok, addrs, net.query, |addrs|);
  }

  lemma UnstoppedRunCompletes(cfg: Config, net: Network)
    requires forall a :: !net.query(a).Canceled?
    ensures RunSpec(cfg, net, Core.NoStop) != RunCanceled
  {
    var addrs := Resolved(Utils.SplitSpec(cfg.server, ServerSeparators, 0), net.resolve);
    GatherIsMeasurements(Core.NoStop, addrs, net.query, |addrs|);
    assert forall i :: 0 <= i < |addrs| ==> !CancelsAt(Core.NoStop, addrs, net.query, i);
  }
}
