/** One channel's scan (`get_channel_messages` with its inner
    `fetch_replies`): root pages in order, each in-range root credited and
    followed into its reply pages, the first root older than the cutoff ending
    the whole channel and the first reply older than the cutoff ending only
    that thread. Every credit goes to the one key `"{team} - {channel}"`. */
module ChannelScan {
  import opened Results
  import opened Timestamps
  import opened Senders
  import opened Listing
  import opened Tally

  /** The column a channel's credits go under. */
  function ChannelKey(teamName: string, channelName: string): string {
    teamName + " - " + channelName
  }

  /** Two different channels can share a column: a team named "A - B" with a
      channel "C", and a team "A" with a channel "B - C". */
  lemma SharedKey()
    ensures ChannelKey("A - B", "C") == ChannelKey("A", "B - C")
  {
  }

  /** A page scan's tally and whether it met an out-of-range message. */
  datatype Step = Step(tally: Matrix, stop: bool)

  /** Credits only ever add: no cell of `acc` goes down. */
  ghost predicate Grows(acc: Matrix, r: Matrix) {
    forall s, k :: Count(acc, s, k) <= Count(r, s, k)
  }

  ghost predicate PageFailure(f: Failure) {
    f == MissingTimestamp || f == BadTimestamp
  }

  ghost predicate ListingFailure(f: Failure) {
    PageFailure(f) || f == BadRetryAfter || f == NegativeRetryAfter || f == SleepOverflow
  }

  /** The loop over one page of replies; `stop` is the `return` of
      `fetch_replies` on the first reply older than the cutoff. */
  function ReplyPage(msgs: seq<Message>, key: string, cutoff: int, acc: Matrix): (r: Result<Step>)
    ensures r.Ok? ==> Grows(acc, r.value.tally)
    ensures r.Ok? && OnlyKey(acc, key) ==> OnlyKey(r.value.tally, key)
    ensures r.Err? ==> PageFailure(r.error)
  {
    if msgs == [] then Ok(Step(acc, false))
    else
      var t :- ParseCreated(msgs[0].created);
      if Instant(t) < cutoff then Ok(Step(acc, true))
      else ReplyPage(msgs[1..], key, cutoff, Credit(acc, Sender(msgs[0].from), key))
  }

  /** `fetch_replies`: the reply pages of one message. A 429 answer sleeps and
      asks again for the same page; the loop ends on an out-of-range reply or
      when a page has no next link. */
  function Replies(rs: seq<Response>, key: string, cutoff: int, acc: Matrix): (r: Result<Matrix>)
    ensures r.Ok? ==> Grows(acc, r.value)
    ensures r.Ok? && OnlyKey(acc, key) ==> OnlyKey(r.value, key)
    ensures r.Err? ==> ListingFailure(r.error)
  {
    if rs == [] then Ok(acc)
    else match rs[0]
      case Throttled(header) =>
        var wait :- RetryAfter(header);
        Replies(rs[1..], key, cutoff, acc)
      case Body(msgs, next) =>
        var step :- ReplyPage(msgs, key, cutoff, acc);
        if step.stop || !HasNext(next) then Ok(step.tally)
        else Replies(rs[1..], key, cutoff, step.tally)
  }

  /** The loop over one page of root messages: an in-range root is credited,
      then its replies are scanned when it has an id; `stop` is the
      `return sender_stats` on the first root older than the cutoff. */
  function RootPage(msgs: seq<Message>, key: string, cutoff: int, acc: Matrix): (r: Result<Step>)
    ensures r.Ok? ==> Grows(acc, r.value.tally)
    ensures r.Ok? && OnlyKey(acc, key) ==> OnlyKey(r.value.tally, key)
    ensures r.Err? ==> ListingFailure(r.error)
  {
    if msgs == [] then Ok(Step(acc, false))
    else
      var m := msgs[0];
      var t :- ParseCreated(m.created);
      if Instant(t) < cutoff then Ok(Step(acc, true))
      else
        var credited := Credit(acc, Sender(m.from), key);
        var threaded :- if HasId(m) then Replies(m.replies, key, cutoff, credited) else Ok(credited);
        RootPage(msgs[1..], key, cutoff, threaded)
  }

  /** The loop over the channel's root pages. */
  function Roots(rs: seq<Response>, key: string, cutoff: int, acc: Matrix): (r: Result<Matrix>)
    ensures r.Ok? ==> Grows(acc, r.value)
    ensures r.Ok? && OnlyKey(acc, key) ==> OnlyKey(r.value, key)
    ensures r.Err? ==> ListingFailure(r.error)
  {
    if rs == [] then Ok(acc)
    else match rs[0]
      case Throttled(header) =>
        var wait :- RetryAfter(header);
        Roots(rs[1..], key, cutoff, acc)
      case Body(msgs, next) =>
        var step :- RootPage(msgs, key, cutoff, acc);
        if step.stop || !HasNext(next) then Ok(step.tally)
        else Roots(rs[1..], key, cutoff, step.tally)
  }

  /** `get_channel_messages(channel, headers, cutoff)` on the channel's listing. */
  function ScanChannel(rs: seq<Response>, key: string, cutoff: int): (r: Result<Matrix>)
    ensures r.Ok? ==> OnlyKey(r.value, key)
    ensures r.Err? ==> ListingFailure(r.error)
  {
    Roots(rs, key, cutoff, map[])
  }
}
