/** The listing API as the script sees it, with the network taken out: a
    listing is the finite sequence of responses the successive requests
    receive. A response is either a throttling answer (status 429) or a JSON
    body holding a `value` list and an optional `@odata.nextLink`. */
module Listing {
  import opened Results
  import opened Digits
  import opened Senders

  /** One message record. `replies` is what the server answers, request by
      request, for this message's replies URL; the script only requests it
      for a root message with a non-empty `id`. */
  datatype Message = Message(created: Option<string>, from: From,
                             id: Option<string>, replies: seq<Response>)

  /** A body without `value` is the empty list; a 429 answer is never parsed. */
  datatype Response =
    | Throttled(retryAfter: Option<string>)
    | Body(value: seq<Message>, nextLink: Option<string>)

  /** `while url:` goes on only for a present, non-empty link. */
  predicate HasNext(link: Option<string>) {
    link.Some? && link.value != ""
  }

  /** The message has an id worth following: present and not empty. */
  predicate HasId(m: Message) {
    m.id.Some? && m.id.value != ""
  }

  // ----- the Retry-After header: int(headers.get("Retry-After", 1))

  /** The ASCII characters `str.isspace()` accepts. */
  predicate IsSpace(c: char) {
    c == ' ' || '\t' <= c <= '\r' || '\U{1c}' <= c <= '\U{1f}'
  }

  function TrimLeft(s: string): (r: string)
    ensures r == [] || !IsSpace(r[0])
    ensures |r| <= |s| && r == s[|s| - |r|..]
  {
    if s != [] && IsSpace(s[0]) then TrimLeft(s[1..]) else s
  }

  function TrimRight(s: string): (r: string)
    ensures r == [] || !IsSpace(r[|r| - 1])
    ensures |r| <= |s| && r == s[..|r|]
  {
    if s != [] && IsSpace(s[|s| - 1]) then TrimRight(s[..|s| - 1]) else s
  }

  /** The most digits `int()` converts from a string (Python 3.11 and later,
      by default); leading zeros count toward it. */
  const MaxIntDigits: nat := 4300

  /** `int(s)` on a string: surrounding white space, an optional sign and at
      least one and at most `MaxIntDigits` decimal digits; `None` stands for
      the ValueError. */
  function ParseInt(s: string): (r: Option<int>)
    ensures s != [] && AllDigits(s) && |s| <= MaxIntDigits ==> r == Some(ValueOf(s))
    ensures AllDigits(s) && |s| > MaxIntDigits ==> r.None?
    ensures s == [] ==> r.None?
  {
    var t := TrimRight(TrimLeft(s));
    assert s != [] && AllDigits(s) ==> t == s by {
      if s != [] && AllDigits(s) {
        assert IsDigit(s[0]) && IsDigit(s[|s| - 1]);
        TrimUnspaced(s);
      }
    }
    Signed(t)
  }

  /** The stripped text: an optional sign, then the digits. */
  function Signed(t: string): Option<int> {
    var negative := t != [] && t[0] == '-';
    var body := if t != [] && (t[0] == '-' || t[0] == '+') then t[1..] else t;
    if body != [] && AllDigits(body) && |body| <= MaxIntDigits then
      var n: int := ValueOf(body);
      Some(if negative then -n else n)
    else None
  }

  /** The largest number of whole seconds `time.sleep` accepts: it converts
      its argument to a signed 64-bit count of nanoseconds, so both bounds are
      `(2^63 - 1) / 10^9` rounded toward zero. */
  const MaxSleep: nat := 9_223_372_036

  /** The seconds slept on a 429 answer: 1 when the header is absent; a header
      `int()` rejects (not a number, or too many digits) raises ValueError, a duration beyond the sleep's clock raises
      OverflowError, and a negative one within it raises ValueError. */
  function RetryAfter(header: Option<string>): (r: Result<nat>)
    ensures header.None? ==> r == Ok(1)
    ensures r.Ok? ==> r.value <= MaxSleep
    ensures r.Err? ==> r.error == BadRetryAfter || r.error == NegativeRetryAfter || r.error == SleepOverflow
  {
    match header
    case None => Ok(1)
    case Some(v) =>
      match ParseInt(v)
      case None => Err(BadRetryAfter)
      case Some(n) =>
        if n < -(MaxSleep as int) || n > MaxSleep then Err(SleepOverflow)
        else if n < 0 then Err(NegativeRetryAfter)
        else Ok(n)
  }

  lemma TrimUnspaced(s: string)
    requires s != [] && !IsSpace(s[0]) && !IsSpace(s[|s| - 1])
    ensures TrimRight(TrimLeft(s)) == s
  {
  }

  /** A header of `w` decimal digits (zero-padded) is slept for exactly that
      many seconds, up to the sleep's limit, beyond which the sleep raises;
      more than `MaxIntDigits` digits, leading zeros included, and `int()`
      raises first. */
  lemma RetryAfterDigits(n: nat, w: nat)
    requires 1 <= w && n < Pow10(w)
    ensures w <= MaxIntDigits && n <= MaxSleep ==> RetryAfter(Some(Pad(n, w))) == Ok(n)
    ensures w <= MaxIntDigits && n > MaxSleep ==> RetryAfter(Some(Pad(n, w))) == Err(SleepOverflow)
    ensures w > MaxIntDigits ==> RetryAfter(Some(Pad(n, w))) == Err(BadRetryAfter)
  {
    var d := Pad(n, w);
    assert |d| == w && d != [] && AllDigits(d);
    if w <= MaxIntDigits {
      ValueOfPad(n, w);
      assert ParseInt(d) == Some(n);
    } else {
      assert ParseInt(d).None?;
    }
  }

  /** A negative header makes the sleep raise: ValueError within its range,
      OverflowError beyond it; more than `MaxIntDigits` digits, and `int()`
      raises ValueError first. */
  lemma RetryAfterNegative(n: nat, w: nat)
    requires 1 <= w && 0 < n < Pow10(w)
    ensures w <= MaxIntDigits && n <= MaxSleep ==> RetryAfter(Some("-" + Pad(n, w))) == Err(NegativeRetryAfter)
    ensures w <= MaxIntDigits && n > MaxSleep ==> RetryAfter(Some("-" + Pad(n, w))) == Err(SleepOverflow)
    ensures w > MaxIntDigits ==> RetryAfter(Some("-" + Pad(n, w))) == Err(BadRetryAfter)
  {
    var d := Pad(n, w);
    ValueOfPad(n, w);
    var s := "-" + d;
    assert IsDigit(d[|d| - 1]) && s[0] == '-' && s[|s| - 1] == d[|d| - 1];
    ParseUnspaced(s);
    SignedNegative(d);
  }

  /** Text with nothing to strip is read by the sign-and-digits rule alone. */
  lemma ParseUnspaced(s: string)
    requires s != [] && !IsSpace(s[0]) && !IsSpace(s[|s| - 1])
    ensures ParseInt(s) == Signed(s)
  {
    TrimUnspaced(s);
  }

  lemma SignedNegative(d: string)
    requires d != [] && AllDigits(d)
    ensures |d| <= MaxIntDigits ==> Signed("-" + d) == Some(-(ValueOf(d) as int))
    ensures |d| > MaxIntDigits ==> Signed("-" + d).None?
  {
    assert ("-" + d)[0] == '-' && ("-" + d)[1..] == d;
  }
}
