/** `generate_message_stats`: the window, the teams and their target
    channels, one scan per channel in order, the additive merge, and the
    sorted table. The clock reading, the team listing, the channel listings
    and every channel's message listing are inputs. */
module Pipeline {
  import opened Results
  import opened Tally
  import opened Window
  import opened Listing
  import opened ChannelScan
  import opened ScanProperties
  import opened Teams
  import opened Reporting

  /** The key a channel's credits go under: its team name and channel name
      joined by " - ". */
  function KeyOf(c: ChannelRef): string {
    ChannelKey(c.teamName, c.channelName)
  }

  /** The channels' tallies, scanned one after another; the first failing
      channel ends the run. */
  function ScanAll(chs: seq<ChannelRef>, listingOf: ChannelRef -> seq<Response>, cutoff: int): (r: Result<seq<Matrix>>)
    ensures r.Ok? <==> forall i :: 0 <= i < |chs| ==> ScanChannel(listingOf(chs[i]), KeyOf(chs[i]), cutoff).Ok?
    ensures r.Ok? ==> |r.value| == |chs| && forall i :: 0 <= i < |chs| ==>
      r.value[i] == ScanChannel(listingOf(chs[i]), KeyOf(chs[i]), cutoff).value
    ensures r.Err? ==> ListingFailure(r.error)
  {
    if chs == [] then Ok([])
    else
      var n := |chs| - 1;
      var init := ScanAll(chs[..n], listingOf, cutoff);
      var last := ScanChannel(listingOf(chs[n]), KeyOf(chs[n]), cutoff);
      assert forall i :: 0 <= i < n ==> chs[..n][i] == chs[i];
      if init.Err? then
        assert exists i :: 0 <= i < n && !ScanChannel(listingOf(chs[..n][i]), KeyOf(chs[..n][i]), cutoff).Ok?;
        Err(init.error)
      else if last.Err? then
        assert !ScanChannel(listingOf(chs[n]), KeyOf(chs[n]), cutoff).Ok?;
        Err(last.error)
      else Ok(init.value + [last.value])
  }

  /** The matrix of sender and channel-key counts the run builds, before the
      table. */
  function Collect(teamPages: seq<TeamPage>, targets: seq<string>,
                   channelsOf: string -> Option<seq<ChannelRecord>>,
                   listingOf: ChannelRef -> seq<Response>, now: nat): (r: Result<Matrix>)
    ensures r.Err? ==> r.error == DateOutOfRange || r.error == MissingKey || ListingFailure(r.error)
    ensures Day(now) < 7 ==> r == Err(DateOutOfRange)
  {
    var window :- ReportingWindow(now);
    var chs :- TargetChannels(GetTeams(teamPages), targets, channelsOf);
    var tallies :- ScanAll(chs, listingOf, window.start);
    Ok(MergeAll(tallies))
  }

  /** The whole run, up to the table handed to `to_csv`. */
  method GenerateStats(teamPages: seq<TeamPage>, targets: seq<string>,
                       channelsOf: string -> Option<seq<ChannelRecord>>,
                       listingOf: ChannelRef -> seq<Response>, now: nat) returns (r: Result<seq<Row>>)
    ensures var c := Collect(teamPages, targets, channelsOf, listingOf, now);
      (c.Err? ==> r == Err(c.error))
      && (c.Ok? && c.value == map[] ==> r == Err(NoTotalColumn))
      && (c.Ok? && c.value != map[] ==> r.Ok? && Table(c.value, r.value) && Descending(r.value))
  {
    var c := Collect(teamPages, targets, channelsOf, listingOf, now);
    if c.Err? {
      return Err(c.error);
    }
    r := Report(c.value);
  }

  // ----- what the run counts

  /** How many credited messages of sender `s` fall under key `k`, over the
      channels in order. */
  function CreditedBy(chs: seq<ChannelRef>, listingOf: ChannelRef -> seq<Response>,
                      cutoff: int, s: string, k: string): nat
  {
    if chs == [] then 0
    else
      var n := |chs| - 1;
      CreditedBy(chs[..n], listingOf, cutoff, s, k)
        + (if KeyOf(chs[n]) == k then SentBy(Credited(listingOf(chs[n]), cutoff), s) else 0)
  }

  /** How many messages the channels credit altogether. */
  function CreditedCount(chs: seq<ChannelRef>, listingOf: ChannelRef -> seq<Response>, cutoff: int): nat {
    if chs == [] then 0
    else
      var n := |chs| - 1;
      CreditedCount(chs[..n], listingOf, cutoff) + |Credited(listingOf(chs[n]), cutoff)|
  }

  predicate AllClean(chs: seq<ChannelRef>, listingOf: ChannelRef -> seq<Response>) {
    forall i :: 0 <= i < |chs| ==> CleanRoots(listingOf(chs[i]))
  }

  /** A tally under one key has nothing under any other. */
  lemma OtherKey(m: Matrix, key: string, s: string, k: string)
    requires OnlyKey(m, key) && k != key
    ensures Count(m, s, k) == 0
  {
    if s in m {
      assert k !in m[s];
    }
  }

  lemma {:induction false} TalliesCells(chs: seq<ChannelRef>, listingOf: ChannelRef -> seq<Response>,
                                        cutoff: int, s: string, k: string)
    requires ScanAll(chs, listingOf, cutoff).Ok?
    ensures CellSum(ScanAll(chs, listingOf, cutoff).value, s, k) == CreditedBy(chs, listingOf, cutoff, s, k)
  {
    if chs != [] {
      var n := |chs| - 1;
      assert forall i :: 0 <= i < n ==> chs[..n][i] == chs[i];
      TalliesCells(chs[..n], listingOf, cutoff, s, k);
      var ts := ScanAll(chs, listingOf, cutoff).value;
      assert ts[..n] == ScanAll(chs[..n], listingOf, cutoff).value;
      var c := chs[n];
      ScanCounts(listingOf(c), KeyOf(c), cutoff);
      if KeyOf(c) != k {
        OtherKey(ts[n], KeyOf(c), s, k);
      }
    }
  }

  lemma {:induction false} TalliesGrand(chs: seq<ChannelRef>, listingOf: ChannelRef -> seq<Response>, cutoff: int)
    requires ScanAll(chs, listingOf, cutoff).Ok?
    ensures GrandSum(ScanAll(chs, listingOf, cutoff).value) == CreditedCount(chs, listingOf, cutoff)
  {
    if chs != [] {
      var n := |chs| - 1;
      assert forall i :: 0 <= i < n ==> chs[..n][i] == chs[i];
      TalliesGrand(chs[..n], listingOf, cutoff);
      var ts := ScanAll(chs, listingOf, cutoff).value;
      assert ts[..n] == ScanAll(chs[..n], listingOf, cutoff).value;
      ScanCounts(listingOf(chs[n]), KeyOf(chs[n]), cutoff);
    }
  }

  /** When a run gets as far as its matrix, that matrix holds, for every
      sender and channel key, the number of that sender's messages credited
      under that key (the sum over every channel with that key), and its
      grand total is the number of credited messages. */
  lemma CollectCounts(teamPages: seq<TeamPage>, targets: seq<string>,
                      channelsOf: string -> Option<seq<ChannelRecord>>,
                      listingOf: ChannelRef -> seq<Response>, now: nat)
    requires Collect(teamPages, targets, channelsOf, listingOf, now).Ok?
    ensures var r := Collect(teamPages, targets, channelsOf, listingOf, now);
      var chs := TargetChannels(GetTeams(teamPages), targets, channelsOf);
      var window := ReportingWindow(now);
      window.Ok? && chs.Ok?
      && (forall s, k :: Count(r.value, s, k) == CreditedBy(chs.value, listingOf, window.value.start, s, k))
      && Grand(r.value) == CreditedCount(chs.value, listingOf, window.value.start)
  {
    var chs := TargetChannels(GetTeams(teamPages), targets, channelsOf).value;
    var cutoff := ReportingWindow(now).value.start;
    TalliesGrand(chs, listingOf, cutoff);
    var ts := ScanAll(chs, listingOf, cutoff).value;
    MergeGrand(ts);
    forall s, k ensures Count(MergeAll(ts), s, k) == CreditedBy(chs, listingOf, cutoff, s, k) {
      TalliesCells(chs, listingOf, cutoff, s, k);
      MergeCells(ts, s, k);
    }
  }

  /** A valid window, complete team and channel records and clean message
      listings are enough for a run to get as far as its matrix. */
  lemma CollectSucceeds(teamPages: seq<TeamPage>, targets: seq<string>,
                        channelsOf: string -> Option<seq<ChannelRecord>>,
                        listingOf: ChannelRef -> seq<Response>, now: nat)
    requires Day(now) >= 7
    requires TargetChannels(GetTeams(teamPages), targets, channelsOf).Ok?
    requires AllClean(TargetChannels(GetTeams(teamPages), targets, channelsOf).value, listingOf)
    ensures Collect(teamPages, targets, channelsOf, listingOf, now).Ok?
  {
    var chs := TargetChannels(GetTeams(teamPages), targets, channelsOf).value;
    var cutoff := ReportingWindow(now).value.start;
    forall i | 0 <= i < |chs| ensures ScanChannel(listingOf(chs[i]), KeyOf(chs[i]), cutoff).Ok? {
      ScanSucceeds(listingOf(chs[i]), KeyOf(chs[i]), cutoff);
    }
  }
}
