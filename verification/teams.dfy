/** `get_teams` and `get_target_channels`: the paged list of teams, and the
    channels of the teams whose names match a target once spaces are
    removed. Each server answer is its decoded JSON body; an absent `value`
    list is `None`. */
module Teams {
  import opened Results
  import opened Listing

  /** A team record: `displayName` and `id`, either possibly absent. */
  datatype Team = Team(displayName: Option<string>, id: Option<string>)

  /** One page of the groups listing. */
  datatype TeamPage = TeamPage(value: Option<seq<Team>>, nextLink: Option<string>)

  /** A channel record of `/teams/{id}/channels`. */
  datatype ChannelRecord = ChannelRecord(id: Option<string>, displayName: Option<string>)

  /** One entry of `channels_to_check`. */
  datatype ChannelRef = ChannelRef(teamId: string, channelId: string, channelName: string, teamName: string)

  /** The list a page holds; a page without a `value` list holds none. */
  function Values<T>(value: Option<seq<T>>): seq<T> {
    if value.Some? then value.value else []
  }

  /** `get_teams`: the teams of every page up to the first one without a
      next link. A throttled or failed answer has neither `value` nor a
      link, so it ends the listing with the teams gathered so far. */
  function GetTeams(pages: seq<TeamPage>): (r: seq<Team>)
    ensures forall t :: t in r ==> exists i :: 0 <= i < |pages| && t in Values(pages[i].value)
  {
    if pages == [] then []
    else
      var later := if HasNext(pages[0].nextLink) then GetTeams(pages[1..]) else [];
      assert forall t :: t in later ==> exists i :: 0 <= i < |pages| && t in Values(pages[i].value) by {
        forall t | t in later ensures exists i :: 0 <= i < |pages| && t in Values(pages[i].value) {
          var i :| 0 <= i < |pages[1..]| && t in Values(pages[1..][i].value);
          assert pages[1..][i] == pages[i + 1];
        }
      }
      Values(pages[0].value) + later
  }

  /** A team's name; a team without one has the empty name. */
  function TeamName(t: Team): string {
    if t.displayName.Some? then t.displayName.value else ""
  }

  /** `name.replace(' ', '')`: every ASCII space removed, nothing else. */
  function StripSpaces(s: string): (r: string)
    ensures ' ' !in r
    ensures |r| <= |s|
    ensures ' ' !in s ==> r == s
  {
    if s == [] then []
    else (if s[0] == ' ' then [] else [s[0]]) + StripSpaces(s[1..])
  }

  /** The team's space-free name equals some target's space-free name. */
  predicate Selected(t: Team, targets: seq<string>) {
    exists i :: 0 <= i < |targets| && StripSpaces(targets[i]) == StripSpaces(TeamName(t))
  }

  /** The target names with their spaces removed, in order. */
  function Normalized(targets: seq<string>): (r: seq<string>)
    ensures |r| == |targets|
    ensures forall i :: 0 <= i < |r| ==> r[i] == StripSpaces(targets[i])
  {
    if targets == [] then [] else [StripSpaces(targets[0])] + Normalized(targets[1..])
  }

  /** The membership test the source performs, on the normalised list. */
  function IsTarget(t: Team, targets: seq<string>): (b: bool)
    ensures b <==> Selected(t, targets)
  {
    var n := Normalized(targets);
    var name := StripSpaces(TeamName(t));
    assert name in n ==> exists i :: 0 <= i < |n| && n[i] == name;
    name in n
  }

  /** The entries of one team's channels, in the server's order. */
  function ChannelRefs(teamId: string, teamName: string, chs: seq<ChannelRecord>): (r: Result<seq<ChannelRef>>)
    ensures r.Ok? <==> forall j :: 0 <= j < |chs| ==> chs[j].id.Some? && chs[j].displayName.Some?
    ensures r.Err? ==> r.error == MissingKey
    ensures r.Ok? ==> |r.value| == |chs| && forall j :: 0 <= j < |chs| ==>
      r.value[j] == ChannelRef(teamId, chs[j].id.value, chs[j].displayName.value, teamName)
  {
    if chs == [] then Ok([])
    else if chs[0].id.None? || chs[0].displayName.None? then Err(MissingKey)
    else
      var rest :- ChannelRefs(teamId, teamName, chs[1..]);
      Ok([ChannelRef(teamId, chs[0].id.value, chs[0].displayName.value, teamName)] + rest)
  }

  /** One team's contribution: nothing unless selected; then `team['id']`
      and the first page of its channels. */
  function TeamChannels(t: Team, targets: seq<string>,
                        channelsOf: string -> Option<seq<ChannelRecord>>): Result<seq<ChannelRef>>
  {
    if !IsTarget(t, targets) then Ok([])
    else if t.id.None? then Err(MissingKey)
    else ChannelRefs(t.id.value, TeamName(t), Values(channelsOf(t.id.value)))
  }

  /** `get_target_channels(teams, headers, target_names)`, with the channel
      listing of a team id given as `channelsOf`. */
  function TargetChannels(teams: seq<Team>, targets: seq<string>,
                          channelsOf: string -> Option<seq<ChannelRecord>>): (r: Result<seq<ChannelRef>>)
    ensures r.Err? ==> r.error == MissingKey
  {
    if teams == [] then Ok([])
    else
      var first :- TeamChannels(teams[0], targets, channelsOf);
      var rest :- TargetChannels(teams[1..], targets, channelsOf);
      Ok(first + rest)
  }

  // ----- properties

  lemma {:induction false} StripAppend(a: string, b: string)
    ensures StripSpaces(a + b) == StripSpaces(a) + StripSpaces(b)
  {
    if a == [] {
      assert a + b == b;
    } else {
      assert (a + b)[0] == a[0] && (a + b)[1..] == a[1..] + b;
      StripAppend(a[1..], b);
    }
  }

  /** Removing spaces twice is removing them once. */
  lemma StripIdempotent(s: string)
    ensures StripSpaces(StripSpaces(s)) == StripSpaces(s)
  {
  }

  /** Removing spaces keeps every other character, as many times as it
      occurs; with `StripAppend`, their order is kept too. */
  lemma {:induction false} StripKeepsOthers(s: string)
    ensures multiset(StripSpaces(s)) == multiset(s)[' ' := 0]
  {
    if s != [] {
      StripKeepsOthers(s[1..]);
      var head := if s[0] == ' ' then [] else [s[0]];
      assert StripSpaces(s) == head + StripSpaces(s[1..]);
      assert s == [s[0]] + s[1..];
      assert multiset(s) == multiset([s[0]]) + multiset(s[1..]);
      assert multiset(StripSpaces(s)) == multiset(head) + multiset(StripSpaces(s[1..]));
      assert multiset(head) == multiset([s[0]])[' ' := 0];
    }
  }

  /** The teams are the pages' lists, in order, up to the page that has no
      next link. */
  lemma {:induction false} TeamsOfPages(linked: seq<TeamPage>, last: TeamPage, rest: seq<TeamPage>)
    requires forall i :: 0 <= i < |linked| ==> HasNext(linked[i].nextLink)
    requires !HasNext(last.nextLink)
    ensures GetTeams(linked + [last] + rest) == GetTeams(linked) + Values(last.value)
  {
    if linked == [] {
      assert linked + [last] + rest == [last] + rest;
      assert ([last] + rest)[0] == last;
    } else {
      var x := linked + [last] + rest;
      assert x[0] == linked[0] && x[1..] == linked[1..] + [last] + rest;
      TeamsOfPages(linked[1..], last, rest);
      assert Values(linked[0].value) + (GetTeams(linked[1..]) + Values(last.value))
          == (Values(linked[0].value) + GetTeams(linked[1..])) + Values(last.value);
    }
  }

  /** The listing of several teams is the listings of each, in order. */
  lemma {:induction false} TargetsAppend(a: seq<Team>, b: seq<Team>, targets: seq<string>,
                                         channelsOf: string -> Option<seq<ChannelRecord>>)
    requires TargetChannels(a, targets, channelsOf).Ok?
    ensures TargetChannels(b, targets, channelsOf).Err? ==>
      TargetChannels(a + b, targets, channelsOf) == TargetChannels(b, targets, channelsOf)
    ensures TargetChannels(b, targets, channelsOf).Ok? ==>
      TargetChannels(a + b, targets, channelsOf)
        == Ok(TargetChannels(a, targets, channelsOf).value + TargetChannels(b, targets, channelsOf).value)
  {
    if a == [] {
      assert a + b == b;
      var rb := TargetChannels(b, targets, channelsOf);
      if rb.Ok? {
        assert [] + rb.value == rb.value;
      }
    } else {
      var x := a + b;
      assert x[0] == a[0] && x[1..] == a[1..] + b;
      var first := TeamChannels(a[0], targets, channelsOf);
      assert first.Ok?;
      TargetsAppend(a[1..], b, targets, channelsOf);
      var ra := TargetChannels(a[1..], targets, channelsOf).value;
      assert TargetChannels(a, targets, channelsOf).value == first.value + ra;
      var rb := TargetChannels(b, targets, channelsOf);
      var rest := TargetChannels(a[1..] + b, targets, channelsOf);
      assert TargetChannels(x, targets, channelsOf) == if rest.Err? then rest else Ok(first.value + rest.value);
      if rb.Ok? {
        Associative(first.value, ra, rb.value);
      }
    }
  }

  lemma Associative<T>(a: seq<T>, b: seq<T>, c: seq<T>)
    ensures a + (b + c) == (a + b) + c
  {
  }

  /** Every listed channel belongs to a selected team: its team id is that
      team's id and its team name that team's name. */
  lemma {:induction false} TargetsFromSelected(teams: seq<Team>, targets: seq<string>,
                                               channelsOf: string -> Option<seq<ChannelRecord>>, c: ChannelRef)
    requires TargetChannels(teams, targets, channelsOf).Ok?
    requires c in TargetChannels(teams, targets, channelsOf).value
    ensures exists i :: (0 <= i < |teams| && Selected(teams[i], targets)
      && teams[i].id == Some(c.teamId) && TeamName(teams[i]) == c.teamName)
  {
    assert teams != [];
    var first := TeamChannels(teams[0], targets, channelsOf);
    var rest := TargetChannels(teams[1..], targets, channelsOf);
    assert first.Ok? && rest.Ok?;
    assert TargetChannels(teams, targets, channelsOf).value == first.value + rest.value;
    if c in first.value {
      TeamChannelsFrom(teams[0], targets, channelsOf, c);
      assert 0 < |teams| && Selected(teams[0], targets);
    } else {
      assert c in rest.value;
      TargetsFromSelected(teams[1..], targets, channelsOf, c);
      var i :| 0 <= i < |teams[1..]| && Selected(teams[1..][i], targets)
        && teams[1..][i].id == Some(c.teamId) && TeamName(teams[1..][i]) == c.teamName;
      assert teams[1..][i] == teams[i + 1];
      assert 0 <= i + 1 < |teams| && Selected(teams[i + 1], targets);
    }
  }

  /** Every channel one team contributes carries that team's id and name. */
  lemma TeamChannelsFrom(t: Team, targets: seq<string>,
                         channelsOf: string -> Option<seq<ChannelRecord>>, c: ChannelRef)
    requires TeamChannels(t, targets, channelsOf).Ok?
    requires c in TeamChannels(t, targets, channelsOf).value
    ensures Selected(t, targets) && t.id == Some(c.teamId) && TeamName(t) == c.teamName
  {
    var refs := TeamChannels(t, targets, channelsOf).value;
    var j :| 0 <= j < |refs| && refs[j] == c;
  }

  /** A team whose name matches no target is never looked up. */
  lemma UnselectedIgnored(t: Team, targets: seq<string>, channelsOf: string -> Option<seq<ChannelRecord>>)
    requires !Selected(t, targets)
    ensures TeamChannels(t, targets, channelsOf) == Ok([])
  {
  }

  /** One team fails exactly when it is selected and incomplete. */
  lemma TeamFails(t: Team, targets: seq<string>, channelsOf: string -> Option<seq<ChannelRecord>>)
    ensures TeamChannels(t, targets, channelsOf).Err? <==> Selected(t, targets) && !Complete(t, channelsOf)
  {
  }

  /** The listing fails exactly when a selected team has no id, or a channel
      of a selected team lacks its id or its name. */
  lemma {:induction false} TargetsFail(teams: seq<Team>, targets: seq<string>,
                                       channelsOf: string -> Option<seq<ChannelRecord>>)
    ensures TargetChannels(teams, targets, channelsOf).Err? <==> exists i :: 0 <= i < |teams| && Failing(teams[i], targets, channelsOf)
  {
    if teams != [] {
      TargetsFail(teams[1..], targets, channelsOf);
      TeamFails(teams[0], targets, channelsOf);
      if exists i :: 0 <= i < |teams| && Failing(teams[i], targets, channelsOf) {
        var i :| 0 <= i < |teams| && Failing(teams[i], targets, channelsOf);
        if i > 0 {
          assert teams[1..][i - 1] == teams[i];
        }
      }
      if exists i :: 0 <= i < |teams[1..]| && Failing(teams[1..][i], targets, channelsOf) {
        var i :| 0 <= i < |teams[1..]| && Failing(teams[1..][i], targets, channelsOf);
        assert teams[1..][i] == teams[i + 1];
      }
    }
  }

  /** A selected team that is not complete. */
  predicate Failing(t: Team, targets: seq<string>, channelsOf: string -> Option<seq<ChannelRecord>>) {
    Selected(t, targets) && !Complete(t, channelsOf)
  }

  /** The team has an id and every channel listed for it has an id and a
      name. */
  predicate Complete(t: Team, channelsOf: string -> Option<seq<ChannelRecord>>) {
    t.id.Some? &&
    var chs := Values(channelsOf(t.id.value));
    forall j :: 0 <= j < |chs| ==> chs[j].id.Some? && chs[j].displayName.Some?
  }
}
