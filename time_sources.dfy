/**
 * Source selection and the one-shot sync of ntp.go: `queryNetworkTime` tries
 * NTP servers (from DHCP, or the defaults when DHCP gave a nil list), then two
 * HTTP `Date` endpoints, and returns the first time obtained; `SyncSystemTime`
 * hands that time to the clock-set command.
 *
 * The NTP client, the HTTP request and the `date -s` command are oracles: a
 * total function from a source to the time it would report (or `None` for
 * an error), and a function from a time to whether setting the clock works.
 */
module TimeSources {
  import opened Wrappers

  /** A point in time as the oracles report it (abstract ticks). */
  type Time = int

  /** Per-query timeout given to every NTP and HTTP query, in milliseconds. */
  const SyncTimeoutMs: int := 2_000

  const DefaultNtpServers: seq<string> := ["time.cloudflare.com", "time.apple.com"]
  const HttpUrls: seq<string> := ["http://apple.com", "http://cloudflare.com"]

  datatype Source = NtpServer(address: string) | HttpEndpoint(url: string)

  /**
   * What `getNTPServersFromDHCPInfo` returned: the list (`None` for a nil
   * slice, which differs from an empty one) and whether it also returned an error.
   */
  datatype DhcpAnswer = DhcpAnswer(servers: Option<seq<string>>, failed: bool)

  type QueryOracle = Source -> Option<Time>

  /** The oracles one sync attempt consults. */
  datatype SyncEnv = SyncEnv(dhcp: DhcpAnswer, query: QueryOracle, setClock: Time -> bool)

  datatype SyncError = QueryFailed | ClockSetFailed

  /** What one `SyncSystemTime` call did: the time given to `setSystemTime`, if it was called, and its error. */
  datatype SyncReport = SyncReport(clockSetTo: Option<Time>, err: Option<SyncError>)

  /** The outcome of trying sources in order: the time found and every source queried. */
  datatype Probe = Probe(time: Option<Time>, tried: seq<Source>)

  function NtpSources(servers: seq<string>): (r: seq<Source>)
    ensures |r| == |servers|
    ensures forall i :: 0 <= i < |r| ==> r[i] == NtpServer(servers[i])
  {
    if servers == [] then [] else [NtpServer(servers[0])] + NtpSources(servers[1..])
  }

  function HttpSources(): seq<Source>
  {
    [HttpEndpoint(HttpUrls[0]), HttpEndpoint(HttpUrls[1])]
  }

  /** The NTP servers that will be queried: the DHCP list unless it is nil; the DHCP error alone changes nothing. */
  function NtpServerList(dhcp: DhcpAnswer): seq<string>
  {
    match dhcp.servers
    case None => DefaultNtpServers
    case Some(servers) => servers
  }

  /** Every source `queryNetworkTime` may query, in the order it queries them. */
  function Candidates(dhcp: DhcpAnswer): seq<Source>
  {
    NtpSources(NtpServerList(dhcp)) + HttpSources()
  }

  /** Query `sources` left to right and stop at the first one that answers. */
  function FirstAnswer(sources: seq<Source>, query: QueryOracle): Probe
  {
    if sources == [] then Probe(None, [])
    else if query(sources[0]).Some? then Probe(query(sources[0]), [sources[0]])
    else
      var rest := FirstAnswer(sources[1..], query);
      Probe(rest.time, [sources[0]] + rest.tried)
  }

  /** Defaults are used, in order, exactly when DHCP gave a nil list; otherwise DHCP's list is used as is, error or not. */
  lemma DefaultsExactlyWhenNil(dhcp: DhcpAnswer)
    ensures dhcp.servers.None? ==> NtpServerList(dhcp) == ["time.cloudflare.com", "time.apple.com"]
    ensures dhcp.servers.Some? ==> NtpServerList(dhcp) == dhcp.servers.value
    ensures dhcp.servers == Some([]) ==> Candidates(dhcp) == [HttpEndpoint("http://apple.com"), HttpEndpoint("http://cloudflare.com")]
  {
  }

  /** The candidate list is never empty, and every NTP source comes before the two HTTP endpoints. */
  lemma CandidatesOrdered(dhcp: DhcpAnswer)
    ensures var c := Candidates(dhcp); var n := |NtpServerList(dhcp)|;
      && |c| == n + 2 >= 2
      && (forall i :: 0 <= i < n ==> c[i] == NtpServer(NtpServerList(dhcp)[i]))
      && c[n] == HttpEndpoint("http://apple.com")
      && c[n + 1] == HttpEndpoint("http://cloudflare.com")
  {
  }

  /** When the sources before `k` all fail and source `k` answers, that answer wins and nothing after `k` is queried. */
  lemma {:induction false} FirstAnswerAt(sources: seq<Source>, query: QueryOracle, k: nat)
    requires k < |sources|
    requires forall j :: 0 <= j < k ==> query(sources[j]).None?
    requires query(sources[k]).Some?
    ensures FirstAnswer(sources, query) == Probe(query(sources[k]), sources[..k + 1])
  {
    if k > 0 {
      FirstAnswerAt(sources[1..], query, k - 1);
      assert [sources[0]] + sources[1..][..k] == sources[..k + 1];
    }
  }

  /** When every source fails, every one of them is queried and no time is returned. */
  lemma {:induction false} FirstAnswerNone(sources: seq<Source>, query: QueryOracle)
    requires forall j :: 0 <= j < |sources| ==> query(sources[j]).None?
    ensures FirstAnswer(sources, query) == Probe(None, sources)
  {
    if sources != [] {
      FirstAnswerNone(sources[1..], query);
      assert [sources[0]] + sources[1..] == sources;
    }
  }

  /**
   * The queried sources are a prefix of the candidates; all but the last
   * failed; a time is returned exactly when some source answers, and then it
   * is the last queried source's answer. No time means every source failed.
   */
  lemma {:induction false} FirstAnswerSound(sources: seq<Source>, query: QueryOracle)
    ensures var p := FirstAnswer(sources, query);
      && |p.tried| <= |sources| && p.tried == sources[..|p.tried|]
      && (forall j :: 0 <= j < |p.tried| - 1 ==> query(p.tried[j]).None?)
      && (p.time.Some? <==> exists j :: 0 <= j < |sources| && query(sources[j]).Some?)
      && (p.time.Some? ==> p.tried != [] && query(p.tried[|p.tried| - 1]) == p.time)
      && (p.time.None? ==> p.tried == sources)
  {
    if sources != [] && query(sources[0]).None? {
      FirstAnswerSound(sources[1..], query);
      var p := FirstAnswer(sources, query);
      var q := FirstAnswer(sources[1..], query);
      assert p.tried == [sources[0]] + q.tried;
      if p.time.Some? {
        var j :| 0 <= j < |sources[1..]| && query(sources[1..][j]).Some?;
        assert query(sources[j + 1]).Some?;
      }
      if exists j :: 0 <= j < |sources| && query(sources[j]).Some? {
        var j :| 0 <= j < |sources| && query(sources[j]).Some?;
        assert j > 0 && query(sources[1..][j - 1]).Some?;
      }
    }
  }

  /**
   * `queryNetworkTime`: the servers loop then the URLs loop, each returning at
   * the first success. `tried` lists the queries issued, in order.
   */
  method QueryNetworkTime(dhcp: DhcpAnswer, query: QueryOracle) returns (now: Option<Time>, tried: seq<Source>)
    ensures Probe(now, tried) == FirstAnswer(Candidates(dhcp), query)
  {
    var servers := dhcp.servers.GetOr(DefaultNtpServers);
    ghost var cands := Candidates(dhcp);
    assert servers == NtpServerList(dhcp);
    CandidatesOrdered(dhcp);
    tried := [];
    var i := 0;
    while i < |servers|
      invariant 0 <= i <= |servers|
      invariant tried == cands[..i]
      invariant forall j :: 0 <= j < i ==> query(cands[j]).None?
    {
      var source := NtpServer(servers[i]);
      var answer := query(source);
      assert cands[..i + 1] == cands[..i] + [source];
      tried := tried + [source];
      if answer.Some? {
        FirstAnswerAt(cands, query, i);
        return answer, tried;
      }
      i := i + 1;
    }
    var k := 0;
    while k < |HttpUrls|
      invariant 0 <= k <= |HttpUrls|
      invariant tried == cands[..|servers| + k]
      invariant forall j :: 0 <= j < |servers| + k ==> query(cands[j]).None?
    {
      var source := HttpEndpoint(HttpUrls[k]);
      var answer := query(source);
      assert source == cands[|servers| + k];
      assert cands[..|servers| + k + 1] == cands[..|servers| + k] + [source];
      tried := tried + [source];
      if answer.Some? {
        FirstAnswerAt(cands, query, |servers| + k);
        return answer, tried;
      }
      k := k + 1;
    }
    assert tried == cands;
    FirstAnswerNone(cands, query);
    return None, tried;
  }

  /** What one `SyncSystemTime` call reports, given its oracles. */
  function Sync(env: SyncEnv): SyncReport
  {
    match FirstAnswer(Candidates(env.dhcp), env.query).time
    case None => SyncReport(None, Some(QueryFailed))
    case Some(t) =>
      if env.setClock(t) then SyncReport(Some(t), None)
      else SyncReport(Some(t), Some(ClockSetFailed))
  }

  /**
   * The clock is set only with a time some source reported, and never when
   * the query failed; the query fails exactly when every candidate fails; a
   * failing clock set is reported as such (no further source is tried); the
   * sync succeeds exactly when both the query and the clock set succeed.
   */
  lemma SyncOutcomes(env: SyncEnv)
    ensures var r := Sync(env); var found := FirstAnswer(Candidates(env.dhcp), env.query).time;
      && r.clockSetTo == found
      && (r.err == Some(QueryFailed) <==> forall c :: c in Candidates(env.dhcp) ==> env.query(c).None?)
      && (r.err == Some(ClockSetFailed) <==> found.Some? && !env.setClock(found.value))
      && (r.err.None? <==> found.Some? && env.setClock(found.value))
  {
    FirstAnswerSound(Candidates(env.dhcp), env.query);
  }

  /** `SyncSystemTime`: query, and set the clock only when a time was obtained. */
  method SyncSystemTime(env: SyncEnv) returns (report: SyncReport, tried: seq<Source>)
    ensures report == Sync(env)
    ensures Probe(report.clockSetTo, tried) == FirstAnswer(Candidates(env.dhcp), env.query)
  {
    var now;
    now, tried := QueryNetworkTime(env.dhcp, env.query);
    if now.None? {
      return SyncReport(None, Some(QueryFailed)), tried;
    }
    var ok := env.setClock(now.value);
    if !ok {
      return SyncReport(now, Some(ClockSetFailed)), tried;
    }
    return SyncReport(now, None), tried;
  }
}
