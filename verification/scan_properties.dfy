/** What a channel scan credits, stated without the loops: the channel's
    messages read as one newest-first stream, credited up to the first one
    older than the cutoff, each credited root followed by the same prefix of
    its own reply stream. Also the early exits and the 429 answers. */
module ScanProperties {
  import opened Results
  import opened Timestamps
  import opened Senders
  import opened Listing
  import opened Tally
  import opened ChannelScan

  // ----- the reference

  /** The message parses and is not older than the cutoff. */
  predicate InRange(m: Message, cutoff: int) {
    ParseCreated(m.created).Ok? && Instant(ParseCreated(m.created).value) >= cutoff
  }

  /** The messages of the pages a listing loop fetches, in order: 429 answers
      are skipped, and the page without a next link is the last one. */
  function Stream(rs: seq<Response>): seq<Message> {
    if rs == [] then []
    else match rs[0]
      case Throttled(_) => Stream(rs[1..])
      case Body(msgs, next) => msgs + (if HasNext(next) then Stream(rs[1..]) else [])
  }

  /** The in-range test as a value, so that the sequence facts below hold
      for any test. */
  function Kept(cutoff: int): Message -> bool {
    m => InRange(m, cutoff)
  }

  /** The longest prefix of messages that pass `keep`. */
  function Prefix(ms: seq<Message>, keep: Message -> bool): (r: seq<Message>)
    ensures |r| <= |ms|
  {
    if ms == [] || !keep(ms[0]) then []
    else [ms[0]] + Prefix(ms[1..], keep)
  }

  /** A credited root and its credited replies. */
  function Thread(m: Message, keep: Message -> bool): seq<Message> {
    [m] + (if HasId(m) then Prefix(Stream(m.replies), keep) else [])
  }

  function Threads(roots: seq<Message>, keep: Message -> bool): seq<Message> {
    if roots == [] then [] else Thread(roots[0], keep) + Threads(roots[1..], keep)
  }

  /** Every message a channel scan credits, in the order it credits them. */
  function Credited(rs: seq<Response>, cutoff: int): seq<Message> {
    Threads(Prefix(Stream(rs), Kept(cutoff)), Kept(cutoff))
  }

  /** Crediting a sequence of messages one by one. */
  function CreditAll(acc: Matrix, ms: seq<Message>, key: string): Matrix
    decreases ms
  {
    if ms == [] then acc else CreditAll(Credit(acc, Sender(ms[0].from), key), ms[1..], key)
  }

  /** How many of `ms` are credited to `s`. */
  function SentBy(ms: seq<Message>, s: string): nat {
    if ms == [] then 0 else (if Sender(ms[0].from) == s then 1 else 0) + SentBy(ms[1..], s)
  }

  predicate AllParse(msgs: seq<Message>) {
    forall i :: 0 <= i < |msgs| ==> ParseCreated(msgs[i].created).Ok?
  }

  /** Every Retry-After header valid and every timestamp well-formed, in a
      reply listing. */
  predicate CleanReplies(rs: seq<Response>) {
    forall i :: 0 <= i < |rs| ==>
      match rs[i]
      case Throttled(h) => RetryAfter(h).Ok?
      case Body(msgs, _) => AllParse(msgs)
  }

  /** The same for a root listing and the reply listings of all its roots. */
  predicate CleanRoots(rs: seq<Response>) {
    forall i :: 0 <= i < |rs| ==>
      match rs[i]
      case Throttled(h) => RetryAfter(h).Ok?
      case Body(msgs, _) =>
        AllParse(msgs) && forall j :: 0 <= j < |msgs| ==> CleanReplies(msgs[j].replies)
  }

  // ----- sequence facts

  /** A prefix that stops inside `a` does not see what follows `a`. */
  lemma {:induction false} PrefixStops(a: seq<Message>, b: seq<Message>, keep: Message -> bool)
    requires |Prefix(a, keep)| < |a|
    ensures Prefix(a + b, keep) == Prefix(a, keep)
  {
    assert (a + b)[0] == a[0];
    if keep(a[0]) {
      assert (a + b)[1..] == a[1..] + b;
      PrefixStops(a[1..], b, keep);
    }
  }

  /** A prefix that covers all of `a` carries on into `b`. */
  lemma {:induction false} PrefixRuns(a: seq<Message>, b: seq<Message>, keep: Message -> bool)
    requires |Prefix(a, keep)| == |a|
    ensures Prefix(a + b, keep) == a + Prefix(b, keep)
  {
    if a == [] {
      assert a + b == b;
    } else {
      assert (a + b)[0] == a[0] && (a + b)[1..] == a[1..] + b;
      PrefixRuns(a[1..], b, keep);
      assert a == [a[0]] + a[1..];
    }
  }

  lemma {:induction false} PrefixWhole(a: seq<Message>, keep: Message -> bool)
    requires |Prefix(a, keep)| == |a|
    ensures Prefix(a, keep) == a
  {
    PrefixRuns(a, [], keep);
    assert a + [] == a;
  }

  lemma {:induction false} ThreadsAppend(a: seq<Message>, b: seq<Message>, keep: Message -> bool)
    ensures Threads(a + b, keep) == Threads(a, keep) + Threads(b, keep)
  {
    if a == [] {
      assert a + b == b;
    } else {
      assert (a + b)[0] == a[0] && (a + b)[1..] == a[1..] + b;
      ThreadsAppend(a[1..], b, keep);
    }
  }

  lemma {:induction false} CreditAllAppend(acc: Matrix, a: seq<Message>, b: seq<Message>, key: string)
    ensures CreditAll(acc, a + b, key) == CreditAll(CreditAll(acc, a, key), b, key)
    decreases a
  {
    if a == [] {
      assert a + b == b;
    } else {
      assert (a + b)[0] == a[0] && (a + b)[1..] == a[1..] + b;
      CreditAllAppend(Credit(acc, Sender(a[0].from), key), a[1..], b, key);
    }
  }

  // ----- the loops compute the reference

  /** A reply page that the loop gets through credits its in-range prefix
      one by one and stops exactly when that prefix is not the whole page. */
  lemma {:induction false} ReplyPageCredits(msgs: seq<Message>, key: string, cutoff: int, acc: Matrix)
    requires ReplyPage(msgs, key, cutoff, acc).Ok?
    ensures var p := Prefix(msgs, Kept(cutoff));
      ReplyPage(msgs, key, cutoff, acc) == Ok(Step(CreditAll(acc, p, key), |p| < |msgs|))
  {
    if msgs != [] {
      assert ParseCreated(msgs[0].created).Ok?;
      if InRange(msgs[0], cutoff) {
        ReplyPageCredits(msgs[1..], key, cutoff, Credit(acc, Sender(msgs[0].from), key));
      }
    }
  }

  /** A reply listing the loop gets through credits exactly the in-range
      prefix of the stream of pages it fetches. */
  lemma {:induction false} RepliesCredit(rs: seq<Response>, key: string, cutoff: int, acc: Matrix)
    requires Replies(rs, key, cutoff, acc).Ok?
    ensures Replies(rs, key, cutoff, acc) == Ok(CreditAll(acc, Prefix(Stream(rs), Kept(cutoff)), key))
  {
    if rs != [] {
      match rs[0]
      case Throttled(h) =>
        RepliesCredit(rs[1..], key, cutoff, acc);
      case Body(msgs, next) =>
        ReplyPageCredits(msgs, key, cutoff, acc);
        var keep := Kept(cutoff);
        var tail := if HasNext(next) then Stream(rs[1..]) else [];
        if |Prefix(msgs, keep)| < |msgs| {
          PrefixStops(msgs, tail, keep);
        } else {
          PrefixRuns(msgs, tail, keep);
          PrefixWhole(msgs, keep);
          CreditAllAppend(acc, msgs, Prefix(tail, keep), key);
          if HasNext(next) {
            RepliesCredit(rs[1..], key, cutoff, CreditAll(acc, msgs, key));
          }
        }
    }
  }

  /** Crediting a root's thread is crediting the root, then its replies. */
  lemma ThreadCredits(acc: Matrix, m: Message, keep: Message -> bool, key: string)
    ensures CreditAll(acc, Thread(m, keep), key)
         == CreditAll(Credit(acc, Sender(m.from), key),
                      if HasId(m) then Prefix(Stream(m.replies), keep) else [], key)
  {
    var replies := if HasId(m) then Prefix(Stream(m.replies), keep) else [];
    assert ([m] + replies)[0] == m && ([m] + replies)[1..] == replies;
  }

  /** A root page the loop gets through credits each in-range root and then,
      when it has an id, the in-range prefix of its reply stream, up to the
      first out-of-range root. */
  lemma {:induction false} RootPageCredits(msgs: seq<Message>, key: string, cutoff: int, acc: Matrix)
    requires RootPage(msgs, key, cutoff, acc).Ok?
    ensures var keep := Kept(cutoff); var p := Prefix(msgs, keep);
      RootPage(msgs, key, cutoff, acc) == Ok(Step(CreditAll(acc, Threads(p, keep), key), |p| < |msgs|))
  {
    if msgs != [] {
      var m := msgs[0];
      var keep := Kept(cutoff);
      assert ParseCreated(m.created).Ok?;
      if InRange(m, cutoff) {
        var credited := Credit(acc, Sender(m.from), key);
        if HasId(m) {
          RepliesCredit(m.replies, key, cutoff, credited);
        }
        ThreadCredits(acc, m, keep, key);
        var threaded := CreditAll(acc, Thread(m, keep), key);
        RootPageCredits(msgs[1..], key, cutoff, threaded);
        var rest := Prefix(msgs[1..], keep);
        assert Prefix(msgs, keep) == [m] + rest;
        assert Threads([m] + rest, keep) == Thread(m, keep) + Threads(rest, keep) by {
          assert ([m] + rest)[0] == m && ([m] + rest)[1..] == rest;
        }
        CreditAllAppend(acc, Thread(m, keep), Threads(rest, keep), key);
      }
    }
  }

  /** A channel listing the loop gets through credits exactly `Credited`:
      the in-range prefix of the root stream, each root followed by the
      in-range prefix of its reply stream when it has an id. */
  lemma {:induction false} RootsCredit(rs: seq<Response>, key: string, cutoff: int, acc: Matrix)
    requires Roots(rs, key, cutoff, acc).Ok?
    ensures Roots(rs, key, cutoff, acc) == Ok(CreditAll(acc, Credited(rs, cutoff), key))
  {
    if rs != [] {
      match rs[0]
      case Throttled(h) =>
        RootsCredit(rs[1..], key, cutoff, acc);
      case Body(msgs, next) =>
        RootPageCredits(msgs, key, cutoff, acc);
        var keep := Kept(cutoff);
        var tail := if HasNext(next) then Stream(rs[1..]) else [];
        if |Prefix(msgs, keep)| < |msgs| {
          PrefixStops(msgs, tail, keep);
        } else {
          PrefixRuns(msgs, tail, keep);
          PrefixWhole(msgs, keep);
          ThreadsAppend(msgs, Prefix(tail, keep), keep);
          CreditAllAppend(acc, Threads(msgs, keep), Threads(Prefix(tail, keep), keep), key);
          if HasNext(next) {
            RootsCredit(rs[1..], key, cutoff, CreditAll(acc, Threads(msgs, keep), key));
          }
        }
    }
  }

  // ----- when the loops get through

  /** Well-formed timestamps are enough for a reply page to succeed. */
  lemma {:induction false} ReplyPageSucceeds(msgs: seq<Message>, key: string, cutoff: int, acc: Matrix)
    requires AllParse(msgs)
    ensures ReplyPage(msgs, key, cutoff, acc).Ok?
  {
    if msgs != [] {
      assert ParseCreated(msgs[0].created).Ok?;
      assert AllParse(msgs[1..]) by {
        forall i | 0 <= i < |msgs[1..]| ensures msgs[1..][i] == msgs[i + 1] { }
      }
      ReplyPageSucceeds(msgs[1..], key, cutoff, Credit(acc, Sender(msgs[0].from), key));
    }
  }

  /** A clean reply listing, one whose every Retry-After header is usable and
      every timestamp well-formed, is one the loop gets through. */
  lemma {:induction false} RepliesSucceed(rs: seq<Response>, key: string, cutoff: int, acc: Matrix)
    requires CleanReplies(rs)
    ensures Replies(rs, key, cutoff, acc).Ok?
  {
    if rs != [] {
      assert CleanReplies(rs[1..]) by {
        forall i | 0 <= i < |rs[1..]| ensures rs[1..][i] == rs[i + 1] { }
      }
      match rs[0]
      case Throttled(h) =>
        assert RetryAfter(h).Ok? by { assert rs[0] == Throttled(h); }
        RepliesSucceed(rs[1..], key, cutoff, acc);
      case Body(msgs, next) =>
        assert AllParse(msgs) by { assert rs[0] == Body(msgs, next); }
        ReplyPageSucceeds(msgs, key, cutoff, acc);
        var step := ReplyPage(msgs, key, cutoff, acc).value;
        RepliesSucceed(rs[1..], key, cutoff, step.tally);
    }
  }

  predicate RepliesClean(msgs: seq<Message>) {
    forall j :: 0 <= j < |msgs| ==> CleanReplies(msgs[j].replies)
  }

  lemma {:induction false} RootPageSucceeds(msgs: seq<Message>, key: string, cutoff: int, acc: Matrix)
    requires AllParse(msgs) && RepliesClean(msgs)
    ensures RootPage(msgs, key, cutoff, acc).Ok?
  {
    if msgs != [] {
      var m := msgs[0];
      assert ParseCreated(m.created).Ok? && CleanReplies(m.replies);
      assert AllParse(msgs[1..]) && RepliesClean(msgs[1..]) by {
        forall i | 0 <= i < |msgs[1..]| ensures msgs[1..][i] == msgs[i + 1] { }
      }
      var credited := Credit(acc, Sender(m.from), key);
      RepliesSucceed(m.replies, key, cutoff, credited);
      var threaded := if HasId(m) then Replies(m.replies, key, cutoff, credited).value else credited;
      RootPageSucceeds(msgs[1..], key, cutoff, threaded);
    }
  }

  /** A clean channel listing, whose reply listings are clean as well, is one
      the loop gets through. */
  lemma {:induction false} RootsSucceed(rs: seq<Response>, key: string, cutoff: int, acc: Matrix)
    requires CleanRoots(rs)
    ensures Roots(rs, key, cutoff, acc).Ok?
  {
    if rs != [] {
      assert CleanRoots(rs[1..]) by {
        forall i | 0 <= i < |rs[1..]| ensures rs[1..][i] == rs[i + 1] { }
      }
      match rs[0]
      case Throttled(h) =>
        assert RetryAfter(h).Ok? by { assert rs[0] == Throttled(h); }
        RootsSucceed(rs[1..], key, cutoff, acc);
      case Body(msgs, next) =>
        assert AllParse(msgs) && RepliesClean(msgs) by { assert rs[0] == Body(msgs, next); }
        RootPageSucceeds(msgs, key, cutoff, acc);
        var step := RootPage(msgs, key, cutoff, acc).value;
        RootsSucceed(rs[1..], key, cutoff, step.tally);
    }
  }

  /** The characterisation of `Prefix`: a prefix of `ms`, every element kept,
      and the element right after it (if any) not kept. */
  lemma {:induction false} PrefixIsLongest(ms: seq<Message>, keep: Message -> bool)
    ensures var r := Prefix(ms, keep);
      r == ms[..|r|]
      && (forall i :: 0 <= i < |r| ==> keep(r[i]))
      && (|r| < |ms| ==> !keep(ms[|r|]))
  {
    if ms != [] && keep(ms[0]) {
      PrefixIsLongest(ms[1..], keep);
      var rest := Prefix(ms[1..], keep);
      assert Prefix(ms, keep) == [ms[0]] + rest;
      assert ms[..|rest| + 1] == [ms[0]] + ms[1..][..|rest|];
    }
  }

  // ----- what the credits add up to

  lemma {:induction false} CreditAllGrand(acc: Matrix, ms: seq<Message>, key: string)
    ensures Grand(CreditAll(acc, ms, key)) == Grand(acc) + |ms|
    decreases ms
  {
    if ms != [] {
      GrandCredit(acc, Sender(ms[0].from), key);
      CreditAllGrand(Credit(acc, Sender(ms[0].from), key), ms[1..], key);
    }
  }

  lemma {:induction false} CreditAllCount(acc: Matrix, ms: seq<Message>, key: string, s: string, k: string)
    ensures Count(CreditAll(acc, ms, key), s, k)
         == Count(acc, s, k) + (if k == key then SentBy(ms, s) else 0)
    decreases ms
  {
    if ms != [] {
      CreditAllCount(Credit(acc, Sender(ms[0].from), key), ms[1..], key, s, k);
    }
  }

  /** When a channel's scan succeeds, its grand total is the number of
      credited messages, and each sender's cell under the channel key counts
      that sender's credited messages. */
  lemma ScanCounts(rs: seq<Response>, key: string, cutoff: int)
    requires ScanChannel(rs, key, cutoff).Ok?
    ensures Grand(ScanChannel(rs, key, cutoff).value) == |Credited(rs, cutoff)|
    ensures forall s :: Count(ScanChannel(rs, key, cutoff).value, s, key) == SentBy(Credited(rs, cutoff), s)
  {
    var ms := Credited(rs, cutoff);
    RootsCredit(rs, key, cutoff, map[]);
    CreditAllGrand(map[], ms, key);
    assert Grand(map[]) == 0 by { assert Totals(map[]) == map[]; }
    forall s ensures Count(ScanChannel(rs, key, cutoff).value, s, key) == SentBy(ms, s) {
      CreditAllCount(map[], ms, key, s, key);
    }
  }

  /** A clean channel listing is scanned without failure. */
  lemma ScanSucceeds(rs: seq<Response>, key: string, cutoff: int)
    requires CleanRoots(rs)
    ensures ScanChannel(rs, key, cutoff).Ok?
  {
    RootsSucceed(rs, key, cutoff, map[]);
  }

  // ----- early exits

  /** The first root older than the cutoff ends the page: nothing after it is
      read, and the page reports the stop. */
  lemma RootPageExit(a: seq<Message>, m: Message, b: seq<Message>,
                                        key: string, cutoff: int, acc: Matrix)
    requires ParseCreated(m.created).Ok? && !InRange(m, cutoff)
    ensures RootPage(a + [m] + b, key, cutoff, acc) == RootPage(a + [m], key, cutoff, acc)
    ensures RootPage(a + [m], key, cutoff, acc).Ok? ==> RootPage(a + [m], key, cutoff, acc).value.stop
  {
    RootPageCut(a, m, b, key, cutoff, acc);
    RootPageStops(a, m, key, cutoff, acc);
  }

  lemma {:induction false} RootPageCut(a: seq<Message>, m: Message, b: seq<Message>,
                                     key: string, cutoff: int, acc: Matrix)
    requires ParseCreated(m.created).Ok? && !InRange(m, cutoff)
    ensures RootPage(a + [m] + b, key, cutoff, acc) == RootPage(a + [m], key, cutoff, acc)
  {
    if a == [] {
      assert a + [m] + b == [m] + b && a + [m] == [m] + [];
      RootPageAt(m, b, key, cutoff, acc);
      RootPageAt(m, [], key, cutoff, acc);
    } else {
      var u, w := a + [m] + b, a + [m];
      TailOfCons(a, [m]);
      TailOfCons(w, b);
      var credited := Credit(acc, Sender(a[0].from), key);
      var threaded := if HasId(a[0]) then Replies(a[0].replies, key, cutoff, credited) else Ok(credited);
      if threaded.Ok? {
        RootPageCut(a[1..], m, b, key, cutoff, threaded.value);
      }
      RootPageHead(a[0], u[1..], w[1..], key, cutoff, acc);
    }
  }

  lemma TailOfCons<T>(a: seq<T>, c: seq<T>)
    requires a != []
    ensures (a + c)[0] == a[0] && (a + c)[1..] == a[1..] + c
    ensures a + c == [a[0]] + (a + c)[1..]
  {
  }

  /** Two pages with the same first root agree when their rests agree on the
      tally that root leaves. */
  lemma RootPageHead(x: Message, u: seq<Message>, w: seq<Message>, key: string, cutoff: int, acc: Matrix)
    requires
      var credited := Credit(acc, Sender(x.from), key);
      var threaded := if HasId(x) then Replies(x.replies, key, cutoff, credited) else Ok(credited);
      threaded.Ok? ==> RootPage(u, key, cutoff, threaded.value) == RootPage(w, key, cutoff, threaded.value)
    ensures RootPage([x] + u, key, cutoff, acc) == RootPage([x] + w, key, cutoff, acc)
  {
    assert ([x] + u)[0] == x && ([x] + u)[1..] == u;
    assert ([x] + w)[0] == x && ([x] + w)[1..] == w;
  }

  lemma {:induction false} RootPageStops(a: seq<Message>, m: Message,
                                       key: string, cutoff: int, acc: Matrix)
    requires ParseCreated(m.created).Ok? && !InRange(m, cutoff)
    ensures RootPage(a + [m], key, cutoff, acc).Ok? ==> RootPage(a + [m], key, cutoff, acc).value.stop
  {
    if a == [] {
      assert a + [m] == [m] + [];
      RootPageAt(m, [], key, cutoff, acc);
    } else {
      var w := a + [m];
      assert w[0] == a[0] && w[1..] == a[1..] + [m];
      var t := ParseCreated(a[0].created);
      if t.Ok? && Instant(t.value) >= cutoff {
        var credited := Credit(acc, Sender(a[0].from), key);
        var threaded := if HasId(a[0]) then Replies(a[0].replies, key, cutoff, credited) else Ok(credited);
        if threaded.Ok? {
          RootPageStops(a[1..], m, key, cutoff, threaded.value);
        }
      }
    }
  }

  lemma RootPageAt(m: Message, b: seq<Message>, key: string, cutoff: int, acc: Matrix)
    requires ParseCreated(m.created).Ok? && !InRange(m, cutoff)
    ensures RootPage([m] + b, key, cutoff, acc) == Ok(Step(acc, true))
  {
    assert ([m] + b)[0] == m;
  }

  /** The same for one page of replies. */
  lemma ReplyPageExit(a: seq<Message>, m: Message, b: seq<Message>,
                                        key: string, cutoff: int, acc: Matrix)
    requires ParseCreated(m.created).Ok? && !InRange(m, cutoff)
    ensures ReplyPage(a + [m] + b, key, cutoff, acc) == ReplyPage(a + [m], key, cutoff, acc)
    ensures ReplyPage(a + [m], key, cutoff, acc).Ok? ==> ReplyPage(a + [m], key, cutoff, acc).value.stop
  {
    ReplyPageCut(a, m, b, key, cutoff, acc);
    ReplyPageStops(a, m, key, cutoff, acc);
  }

  lemma {:induction false} ReplyPageCut(a: seq<Message>, m: Message, b: seq<Message>,
                                      key: string, cutoff: int, acc: Matrix)
    requires ParseCreated(m.created).Ok? && !InRange(m, cutoff)
    ensures ReplyPage(a + [m] + b, key, cutoff, acc) == ReplyPage(a + [m], key, cutoff, acc)
  {
    if a == [] {
      assert a + [m] + b == [m] + b && a + [m] == [m] + [];
      ReplyPageAt(m, b, key, cutoff, acc);
      ReplyPageAt(m, [], key, cutoff, acc);
    } else {
      var u, w := a + [m] + b, a + [m];
      TailOfCons(a, [m]);
      TailOfCons(w, b);
      ReplyPageCut(a[1..], m, b, key, cutoff, Credit(acc, Sender(a[0].from), key));
      ReplyPageHead(a[0], u[1..], w[1..], key, cutoff, acc);
    }
  }

  /** Two reply pages with the same first reply agree when their rests agree. */
  lemma ReplyPageHead(x: Message, u: seq<Message>, w: seq<Message>, key: string, cutoff: int, acc: Matrix)
    requires ReplyPage(u, key, cutoff, Credit(acc, Sender(x.from), key))
          == ReplyPage(w, key, cutoff, Credit(acc, Sender(x.from), key))
    ensures ReplyPage([x] + u, key, cutoff, acc) == ReplyPage([x] + w, key, cutoff, acc)
  {
    assert ([x] + u)[0] == x && ([x] + u)[1..] == u;
    assert ([x] + w)[0] == x && ([x] + w)[1..] == w;
  }

  lemma {:induction false} ReplyPageStops(a: seq<Message>, m: Message,
                                       key: string, cutoff: int, acc: Matrix)
    requires ParseCreated(m.created).Ok? && !InRange(m, cutoff)
    ensures ReplyPage(a + [m], key, cutoff, acc).Ok? ==> ReplyPage(a + [m], key, cutoff, acc).value.stop
  {
    if a == [] {
      assert a + [m] == [m] + [];
      ReplyPageAt(m, [], key, cutoff, acc);
    } else {
      var w := a + [m];
      assert w[0] == a[0] && w[1..] == a[1..] + [m];
      var t := ParseCreated(a[0].created);
      if t.Ok? && Instant(t.value) >= cutoff {
        ReplyPageStops(a[1..], m, key, cutoff, Credit(acc, Sender(a[0].from), key));
      }
    }
  }

  lemma ReplyPageAt(m: Message, b: seq<Message>, key: string, cutoff: int, acc: Matrix)
    requires ParseCreated(m.created).Ok? && !InRange(m, cutoff)
    ensures ReplyPage([m] + b, key, cutoff, acc) == Ok(Step(acc, true))
  {
    assert ([m] + b)[0] == m;
  }

  /** A root older than the cutoff ends the whole channel: the rest of its
      page, its next link and every later answer are never looked at. */
  lemma {:induction false} RootsExit(p: seq<Response>, a: seq<Message>, m: Message, b: seq<Message>,
                                     next: Option<string>, rest: seq<Response>,
                                     key: string, cutoff: int, acc: Matrix)
    requires ParseCreated(m.created).Ok? && !InRange(m, cutoff)
    ensures Roots(p + [Body(a + [m] + b, next)] + rest, key, cutoff, acc)
         == Roots(p + [Body(a + [m], None)], key, cutoff, acc)
  {
    var body := Body(a + [m] + b, next);
    var y := [Body(a + [m], None)];
    if p == [] {
      assert p + [body] + rest == [body] + rest && p + y == y;
      RootPageExit(a, m, b, key, cutoff, acc);
    } else {
      TailOfCons(p, [body]);
      TailOfCons(p + [body], rest);
      TailOfCons(p, y);
      match p[0]
      case Throttled(h) =>
        RootsExit(p[1..], a, m, b, next, rest, key, cutoff, acc);
      case Body(msgs, n) =>
        var step := RootPage(msgs, key, cutoff, acc);
        if step.Ok? && !step.value.stop && HasNext(n) {
          RootsExit(p[1..], a, m, b, next, rest, key, cutoff, step.value.tally);
        }
    }
  }

  /** A reply older than the cutoff ends that reply listing. */
  lemma {:induction false} RepliesExit(p: seq<Response>, a: seq<Message>, m: Message, b: seq<Message>,
                                       next: Option<string>, rest: seq<Response>,
                                       key: string, cutoff: int, acc: Matrix)
    requires ParseCreated(m.created).Ok? && !InRange(m, cutoff)
    ensures Replies(p + [Body(a + [m] + b, next)] + rest, key, cutoff, acc)
         == Replies(p + [Body(a + [m], None)], key, cutoff, acc)
  {
    var body := Body(a + [m] + b, next);
    var y := [Body(a + [m], None)];
    if p == [] {
      assert p + [body] + rest == [body] + rest && p + y == y;
      ReplyPageExit(a, m, b, key, cutoff, acc);
    } else {
      TailOfCons(p, [body]);
      TailOfCons(p + [body], rest);
      TailOfCons(p, y);
      match p[0]
      case Throttled(h) =>
        RepliesExit(p[1..], a, m, b, next, rest, key, cutoff, acc);
      case Body(msgs, n) =>
        var step := ReplyPage(msgs, key, cutoff, acc);
        if step.Ok? && !step.value.stop && HasNext(n) {
          RepliesExit(p[1..], a, m, b, next, rest, key, cutoff, step.value.tally);
        }
    }
  }

  // ----- 429 answers

  /** A 429 answer with a usable Retry-After header changes nothing: the
      same page is asked for again. */
  lemma {:induction false} RootsRetry(p: seq<Response>, h: Option<string>, rest: seq<Response>,
                                      key: string, cutoff: int, acc: Matrix)
    requires RetryAfter(h).Ok?
    ensures Roots(p + [Throttled(h)] + rest, key, cutoff, acc) == Roots(p + rest, key, cutoff, acc)
  {
    if p == [] {
      TailOfCons([Throttled(h)], rest);
      assert p + [Throttled(h)] + rest == [Throttled(h)] + rest && p + rest == rest;
    } else {
      TailOfCons(p, [Throttled(h)]);
      TailOfCons(p + [Throttled(h)], rest);
      TailOfCons(p, rest);
      match p[0]
      case Throttled(h0) =>
        RootsRetry(p[1..], h, rest, key, cutoff, acc);
      case Body(msgs, n) =>
        var step := RootPage(msgs, key, cutoff, acc);
        if step.Ok? && !step.value.stop && HasNext(n) {
          RootsRetry(p[1..], h, rest, key, cutoff, step.value.tally);
        }
    }
  }

  /** A 429 answer whose Retry-After header `int()` rejects, or that is
      negative, ends the scan with that error once the loop reaches it. */
  lemma RootsRetryFails(h: Option<string>, rest: seq<Response>, key: string, cutoff: int, acc: Matrix)
    requires RetryAfter(h).Err?
    ensures Roots([Throttled(h)] + rest, key, cutoff, acc) == Err(RetryAfter(h).error)
  {
  }

  /** The same for a reply listing. */
  lemma {:induction false} RepliesRetry(p: seq<Response>, h: Option<string>, rest: seq<Response>,
                                        key: string, cutoff: int, acc: Matrix)
    requires RetryAfter(h).Ok?
    ensures Replies(p + [Throttled(h)] + rest, key, cutoff, acc) == Replies(p + rest, key, cutoff, acc)
  {
    if p == [] {
      TailOfCons([Throttled(h)], rest);
      assert p + [Throttled(h)] + rest == [Throttled(h)] + rest && p + rest == rest;
    } else {
      TailOfCons(p, [Throttled(h)]);
      TailOfCons(p + [Throttled(h)], rest);
      TailOfCons(p, rest);
      match p[0]
      case Throttled(h0) =>
        RepliesRetry(p[1..], h, rest, key, cutoff, acc);
      case Body(msgs, n) =>
        var step := ReplyPage(msgs, key, cutoff, acc);
        if step.Ok? && !step.value.stop && HasNext(n) {
          RepliesRetry(p[1..], h, rest, key, cutoff, step.value.tally);
        }
    }
  }
}
