/** The redirect loop: the same request, rebuilt for each address in a bounded chain. */
module Redirects {
  import opened Outcomes
  import opened CommandLine
  import opened HttpRequest

  const MAX_REDIRECTS := 10

  datatype Location = Absent | Unreadable | Target(text: string)

  datatype Reply = Lost | Reply(status: nat, location: Location)

  /** URL operations, the multipart boundary chosen for each request, and a server that may answer
      every request as it likes. */
  datatype World = World(
    parse: string -> Option<string>,
    join: (string, string) -> Option<string>,
    toUri: string -> Option<string>,
    boundary: nat -> string,
    answer: (nat, Message) -> Reply)

  datatype Outcome =
    | Handled(reply: Reply)
    | TooManyRedirects
    | MissingLocation
    | UnreadableLocation
    | InvalidUrl
    | NotBuilt(error: BuildError)
    | NotSent

  predicate IsRedirection(status: nat) {
    300 <= status < 400
  }

  /** The left fold of `join` over the Location values. */
  function Follow(w: World, start: string, locations: seq<string>): Option<string> {
    if locations == [] then Some(start)
    else
      match Follow(w, start, locations[..|locations| - 1])
      case None => None
      case Some(url) => w.join(url, locations[|locations| - 1])
  }

  function LocationText(r: Reply): string {
    if r.Reply? && r.location.Target? then r.location.text else ""
  }

  function Locations(w: World, sent: seq<Message>): seq<string> {
    seq(|sent|, i requires 0 <= i < |sent| => LocationText(w.answer(i, sent[i])))
  }

  /** Where the chain stands after these requests. */
  function Address(w: World, start: string, sent: seq<Message>): Option<string> {
    Follow(w, start, Locations(w, sent))
  }

  /** The k-th answer redirects to an address that exists. */
  predicate IsFollowed(w: World, start: string, sent: seq<Message>, k: nat)
    requires k < |sent|
  {
    var r := w.answer(k, sent[k]);
    r.Reply? && IsRedirection(r.status) && r.location.Target? && Address(w, start, sent[..k + 1]).Some?
  }

  /** The request for the chain's next address. */
  function NextRequest(c: Cli, env: Environment, w: World, start: string, sent: seq<Message>)
    : Result<Message, Outcome>
  {
    match Address(w, start, sent)
    case None => Err(InvalidUrl)
    case Some(url) =>
      match w.toUri(url)
      case None => Err(InvalidUrl)
      case Some(uri) =>
        match RequestFor(c, env, w.boundary(|sent|), uri)
        case Err(e) => Err(NotBuilt(e))
        case Ok(m) => Ok(m)
  }

  /** Each request was built for the address its predecessors lead to, and every answer but the
      last was followed. */
  ghost predicate IsChain(c: Cli, env: Environment, w: World, start: string, sent: seq<Message>) {
    && |sent| <= MAX_REDIRECTS
    && (forall k | 0 <= k < |sent| :: NextRequest(c, env, w, start, sent[..k]) == Ok(sent[k]))
    && (forall k | 0 <= k < |sent| - 1 :: IsFollowed(w, start, sent, k))
  }

  /** What ends a chain: its last answer, or the impossibility of a next request. */
  function Verdict(c: Cli, env: Environment, w: World, start: string, sent: seq<Message>): Outcome {
    if sent != [] && !IsFollowed(w, start, sent, |sent| - 1) then
      var r := w.answer(|sent| - 1, sent[|sent| - 1]);
      if r.Lost? then NotSent
      else if !IsRedirection(r.status) then Handled(r)
      else
        match r.location
        case Absent => MissingLocation
        case Unreadable => UnreadableLocation
        case Target(_) => InvalidUrl
    else if |sent| == MAX_REDIRECTS then TooManyRedirects
    else
      match NextRequest(c, env, w, start, sent)
      case Err(e) => e
      case Ok(_) => NotSent
  }

  /** Whether a chain goes on after these requests. */
  predicate GoesOn(c: Cli, env: Environment, w: World, start: string, sent: seq<Message>) {
    && |sent| < MAX_REDIRECTS
    && (sent != [] ==> IsFollowed(w, start, sent, |sent| - 1))
    && NextRequest(c, env, w, start, sent).Ok?
  }

  lemma AddressSnoc(w: World, start: string, sent: seq<Message>, m: Message)
    ensures Address(w, start, sent + [m]) ==
            match Address(w, start, sent)
            case None => None
            case Some(url) => w.join(url, LocationText(w.answer(|sent|, m)))
  {
    var all := Locations(w, sent + [m]);
    assert all[..|all| - 1] == Locations(w, sent);
  }

  /** The outcome and the requests of one call. */
  ghost predicate IsExchange(c: Cli, env: Environment, w: World, outcome: Outcome, sent: seq<Message>) {
    if c.url.None? || w.parse(c.url.value).None? then outcome == InvalidUrl && sent == []
    else
      var start := w.parse(c.url.value).value;
      && IsChain(c, env, w, start, sent)
      && !GoesOn(c, env, w, start, sent)
      && outcome == Verdict(c, env, w, start, sent)
  }

  lemma ChainSnoc(c: Cli, env: Environment, w: World, start: string, sent: seq<Message>, m: Message)
    requires IsChain(c, env, w, start, sent) && GoesOn(c, env, w, start, sent)
    requires NextRequest(c, env, w, start, sent) == Ok(m)
    ensures IsChain(c, env, w, start, sent + [m])
  {
    hide NextRequest, IsFollowed;
    var more := sent + [m];
    forall k | 0 <= k < |more|
      ensures NextRequest(c, env, w, start, more[..k]) == Ok(more[k])
    {
      assert more[..k] == sent[..k];
      assert k == |sent| ==> sent[..k] == sent;
    }
    forall k | 0 <= k < |more| - 1
      ensures IsFollowed(w, start, more, k)
    {
      FollowedInPrefix(w, start, sent, more, k);
    }
  }

  lemma FollowedInPrefix(w: World, start: string, sent: seq<Message>, more: seq<Message>, k: nat)
    requires sent <= more && k < |sent|
    ensures IsFollowed(w, start, sent, k) <==> IsFollowed(w, start, more, k)
  {
    assert sent[..k + 1] == more[..k + 1];
  }

  lemma LastFollowed(w: World, start: string, sent: seq<Message>, m: Message, url: string)
    requires Address(w, start, sent) == Some(url)
    ensures IsFollowed(w, start, sent + [m], |sent|) <==>
            var r := w.answer(|sent|, m);
            r.Reply? && IsRedirection(r.status) && r.location.Target? && w.join(url, r.location.text).Some?
    ensures w.answer(|sent|, m).Reply? && w.answer(|sent|, m).location.Target? ==>
            Address(w, start, sent + [m]) == w.join(url, w.answer(|sent|, m).location.text)
  {
    AddressSnoc(w, start, sent, m);
    assert (sent + [m])[..|sent| + 1] == sent + [m];
  }

  method RequestWithRedirects(c: Cli, env: Environment, w: World) returns (outcome: Outcome, sent: seq<Message>)
    ensures IsExchange(c, env, w, outcome, sent)
  {
    hide Follow, RequestFor;
    sent := [];
    if c.url.None? {
      return InvalidUrl, sent;
    }
    var parsed := w.parse(c.url.value);
    if parsed.None? {
      return InvalidUrl, sent;
    }
    ghost var start := parsed.value;
    var currentUrl := parsed.value;
    AddressAtStart(w, start);
    for i := 0 to MAX_REDIRECTS
      invariant |sent| == i
      invariant IsChain(c, env, w, start, sent)
      invariant sent != [] ==> IsFollowed(w, start, sent, i - 1)
      invariant Address(w, start, sent) == Some(currentUrl)
    {
      var uri := w.toUri(currentUrl);
      if uri.None? {
        return InvalidUrl, sent;
      }
      var built := BuildRequest(c, env, w.boundary(i), uri.value);
      if built.Err? {
        return NotBuilt(built.error), sent;
      }
      var request := built.value;
      ChainSnoc(c, env, w, start, sent, request);
      LastFollowed(w, start, sent, request, currentUrl);
      sent := sent + [request];
      var res := w.answer(i, request);
      if res.Lost? {
        return NotSent, sent;
      }
      if IsRedirection(res.status) {
        match res.location {
          case Absent => return MissingLocation, sent;
          case Unreadable => return UnreadableLocation, sent;
          case Target(text) =>
            var next := w.join(currentUrl, text);
            if next.None? {
              return InvalidUrl, sent;
            }
            currentUrl := next.value;
        }
      } else {
        return Handled(res), sent;
      }
    }
    outcome := TooManyRedirects;
  }

  lemma AddressAtStart(w: World, start: string)
    ensures Address(w, start, []) == Some(start)
  {
  }

  // ---------- What the loop guarantees against every server ----------

  /** The answer handed on is the first that is not a redirection, after redirections only; the
      limit is hit exactly when ten answers in a row redirect to usable addresses. */
  lemma VerdictExactly(c: Cli, env: Environment, w: World, start: string, sent: seq<Message>)
    requires IsChain(c, env, w, start, sent) && !GoesOn(c, env, w, start, sent)
    ensures var outcome := Verdict(c, env, w, start, sent);
            var n := |sent|;
            && (outcome.Handled? <==>
                n > 0 && w.answer(n - 1, sent[n - 1]).Reply? && !IsRedirection(w.answer(n - 1, sent[n - 1]).status))
            && (outcome.Handled? ==> outcome.reply == w.answer(n - 1, sent[n - 1]))
            && (outcome == TooManyRedirects <==> n == 10 && forall k | 0 <= k < 10 :: IsFollowed(w, start, sent, k))
    ensures forall k | 0 <= k < |sent| - 1 :: w.answer(k, sent[k]).Reply? && IsRedirection(w.answer(k, sent[k]).status)
  {
    hide Follow, RequestFor;
    forall k | 0 <= k < |sent| - 1
      ensures w.answer(k, sent[k]).Reply? && IsRedirection(w.answer(k, sent[k]).status)
    {
      assert IsFollowed(w, start, sent, k);
    }
  }

  lemma ChainLink(c: Cli, env: Environment, w: World, start: string, sent: seq<Message>, k: nat)
    requires IsChain(c, env, w, start, sent) && k < |sent|
    ensures Address(w, start, sent[..k]).Some? && w.toUri(Address(w, start, sent[..k]).value).Some?
    ensures RequestFor(c, env, w.boundary(k), w.toUri(Address(w, start, sent[..k]).value).value) == Ok(sent[k])
    ensures IsFollowed(w, start, sent, k) <==>
            var r := w.answer(k, sent[k]);
            && r.Reply? && 300 <= r.status < 400 && r.location.Target?
            && w.join(Address(w, start, sent[..k]).value, r.location.text).Some?
    ensures IsFollowed(w, start, sent, k) ==>
            Address(w, start, sent[..k + 1]) ==
            w.join(Address(w, start, sent[..k]).value, w.answer(k, sent[k]).location.text)
  {
    hide Address, RequestFor;
    assert NextRequest(c, env, w, start, sent[..k]) == Ok(sent[k]);
    assert |sent[..k]| == k;
    assert sent[..k + 1] == sent[..k] + [sent[k]];
    AddressSnoc(w, start, sent[..k], sent[k]);
  }

  /** One call, step by step: the addresses start at the parsed URL, and each next one is joined from
      the last and the Location of a 3xx answer; each request is built for its address, at most ten
      are sent, and the call ends at the first answer that leads nowhere, at an address for which no
      request can be built, or after ten. */
  lemma ExchangeExactly(c: Cli, env: Environment, w: World, outcome: Outcome, sent: seq<Message>)
    returns (urls: seq<string>)
    requires IsExchange(c, env, w, outcome, sent)
    ensures c.url.None? || w.parse(c.url.value).None? ==> sent == [] && outcome == InvalidUrl
    ensures c.url.Some? && w.parse(c.url.value).Some? ==>
              var n := |sent|;
              && n <= 10 && (|urls| == n + 1 || |urls| == n > 0) && urls[0] == w.parse(c.url.value).value
              && (forall k | 0 <= k < n ::
                    && w.toUri(urls[k]).Some?
                    && RequestFor(c, env, w.boundary(k), w.toUri(urls[k]).value) == Ok(sent[k]))
              && (forall k | 0 <= k < |urls| - 1 ::
                    && w.answer(k, sent[k]).Reply? && 300 <= w.answer(k, sent[k]).status < 400
                    && w.answer(k, sent[k]).location.Target?
                    && w.join(urls[k], w.answer(k, sent[k]).location.text) == Some(urls[k + 1]))
              && (|urls| == n + 1 ==>
                    if n == 10 then outcome == TooManyRedirects
                    else if w.toUri(urls[n]).None? then outcome == InvalidUrl
                    else
                      var next := RequestFor(c, env, w.boundary(n), w.toUri(urls[n]).value);
                      next.Err? && outcome == NotBuilt(next.error))
              && (|urls| == n ==>
                    var r := w.answer(n - 1, sent[n - 1]);
                    if r.Lost? then outcome == NotSent
                    else if r.status < 300 || r.status >= 400 then outcome == Handled(r)
                    else if r.location.Absent? then outcome == MissingLocation
                    else if r.location.Unreadable? then outcome == UnreadableLocation
                    else w.join(urls[n - 1], r.location.text).None? && outcome == InvalidUrl)
  {
    hide IsChain, GoesOn, Verdict, AreAddresses, RequestFor;
    urls := [];
    if c.url.Some? && w.parse(c.url.value).Some? {
      var start := w.parse(c.url.value).value;
      urls := AddressesOf(c, env, w, start, sent);
      ChainEnd(c, env, w, start, sent, urls);
    }
  }

  /** The addresses of a chain, and the one after it if its last answer was followed. */
  ghost predicate AreAddresses(w: World, start: string, sent: seq<Message>, urls: seq<string>) {
    && |urls| == |sent| + (if sent == [] || IsFollowed(w, start, sent, |sent| - 1) then 1 else 0)
    && forall k | 0 <= k < |urls| :: Address(w, start, sent[..k]) == Some(urls[k])
  }

  lemma AddressesOf(c: Cli, env: Environment, w: World, start: string, sent: seq<Message>)
    returns (urls: seq<string>)
    requires IsChain(c, env, w, start, sent)
    ensures AreAddresses(w, start, sent, urls)
    ensures |urls| == |sent| + 1 || |urls| == |sent| > 0
    ensures urls[0] == start
    ensures forall k | 0 <= k < |sent| ::
              && w.toUri(urls[k]).Some?
              && RequestFor(c, env, w.boundary(k), w.toUri(urls[k]).value) == Ok(sent[k])
    ensures forall k | 0 <= k < |urls| - 1 ::
              && w.answer(k, sent[k]).Reply? && 300 <= w.answer(k, sent[k]).status < 400
              && w.answer(k, sent[k]).location.Target?
              && w.join(urls[k], w.answer(k, sent[k]).location.text) == Some(urls[k + 1])
  {
    hide Address, RequestFor, NextRequest, IsFollowed;
    AddressAtStart(w, start);
    var n := |sent| + (if sent == [] || IsFollowed(w, start, sent, |sent| - 1) then 1 else 0);
    forall k | 0 <= k < n
      ensures Address(w, start, sent[..k]).Some?
    {
      if k < |sent| {
        ChainLink(c, env, w, start, sent, k);
      } else if k > 0 {
        ChainLink(c, env, w, start, sent, k - 1);
      }
    }
    urls := seq(n, k requires 0 <= k < n => Address(w, start, sent[..k]).value);
    forall k | 0 <= k < |sent|
      ensures w.toUri(urls[k]).Some?
      ensures RequestFor(c, env, w.boundary(k), w.toUri(urls[k]).value) == Ok(sent[k])
    {
      ChainLink(c, env, w, start, sent, k);
    }
    forall k | 0 <= k < n - 1
      ensures w.answer(k, sent[k]).Reply? && 300 <= w.answer(k, sent[k]).status < 400
      ensures w.answer(k, sent[k]).location.Target?
      ensures w.join(urls[k], w.answer(k, sent[k]).location.text) == Some(urls[k + 1])
    {
      assert IsFollowed(w, start, sent, k);
      ChainLink(c, env, w, start, sent, k);
    }
  }

  lemma ChainEnd(c: Cli, env: Environment, w: World, start: string, sent: seq<Message>, urls: seq<string>)
    requires IsChain(c, env, w, start, sent) && !GoesOn(c, env, w, start, sent)
    requires AreAddresses(w, start, sent, urls)
    ensures var n, outcome := |sent|, Verdict(c, env, w, start, sent);
            && n <= 10
            && (|urls| == n + 1 ==>
                  if n == 10 then outcome == TooManyRedirects
                  else if w.toUri(urls[n]).None? then outcome == InvalidUrl
                  else
                    var next := RequestFor(c, env, w.boundary(n), w.toUri(urls[n]).value);
                    next.Err? && outcome == NotBuilt(next.error))
            && (|urls| == n ==>
                  n > 0 &&
                  var r := w.answer(n - 1, sent[n - 1]);
                  if r.Lost? then outcome == NotSent
                  else if r.status < 300 || r.status >= 400 then outcome == Handled(r)
                  else if r.location.Absent? then outcome == MissingLocation
                  else if r.location.Unreadable? then outcome == UnreadableLocation
                  else w.join(urls[n - 1], r.location.text).None? && outcome == InvalidUrl)
  {
    hide Address, RequestFor, IsFollowed;
    var n := |sent|;
    if n > 0 {
      ChainLink(c, env, w, start, sent, n - 1);
    }
    assert sent[..n] == sent;
  }

  /** The k-th request goes to the fold of `join` over the locations answered before it. */
  lemma RequestedAddresses(c: Cli, env: Environment, w: World, start: string, sent: seq<Message>, k: nat)
    requires IsChain(c, env, w, start, sent) && k < |sent|
    ensures Follow(w, start, Locations(w, sent[..k])).Some?
    ensures w.toUri(Follow(w, start, Locations(w, sent[..k])).value) == Some(sent[k].uri)
  {
    hide Follow, Locations, IsFollowed;
    var m := NextRequest(c, env, w, start, sent[..k]);
    assert m == Ok(sent[k]);
  }

  /** There is only one way a call can go. */
  lemma ExchangeIsUnique(c: Cli, env: Environment, w: World, start: string, a: seq<Message>, b: seq<Message>)
    requires IsChain(c, env, w, start, a) && !GoesOn(c, env, w, start, a)
    requires IsChain(c, env, w, start, b) && !GoesOn(c, env, w, start, b)
    ensures a == b
  {
    hide NextRequest, IsFollowed;
    var n := if |a| <= |b| then |a| else |b|;
    ChainsAgree(c, env, w, start, a, b, n);
    if |a| < |b| {
      ChainContinues(c, env, w, start, a, b);
    } else if |b| < |a| {
      ChainContinues(c, env, w, start, b, a);
    }
  }

  lemma {:induction false} ChainsAgree(
      c: Cli, env: Environment, w: World, start: string, a: seq<Message>, b: seq<Message>, n: nat)
    requires IsChain(c, env, w, start, a) && IsChain(c, env, w, start, b) && n <= |a| && n <= |b|
    ensures a[..n] == b[..n]
  {
    hide NextRequest, IsFollowed;
    if n > 0 {
      ChainsAgree(c, env, w, start, a, b, n - 1);
      assert a[..n] == a[..n - 1] + [a[n - 1]] && b[..n] == b[..n - 1] + [b[n - 1]];
    }
  }

  lemma ChainContinues(c: Cli, env: Environment, w: World, start: string, a: seq<Message>, b: seq<Message>)
    requires IsChain(c, env, w, start, b) && a < b
    ensures GoesOn(c, env, w, start, a)
  {
    hide NextRequest, IsFollowed;
    var n := |a|;
    assert b[..n] == a;
    if a != [] {
      assert a <= b;
      FollowedInPrefix(w, start, a, b, n - 1);
    }
  }

  /** All requests of a chain are the same but for the address and the boundary of the form parts,
      if there are any. */
  lemma RedirectsPreserveTheRequest(
      c: Cli, env: Environment, w: World, start: string, sent: seq<Message>, j: nat, k: nat)
    requires IsChain(c, env, w, start, sent)
    requires j < |sent| && k < |sent|
    ensures sent[k] == Rebound(sent[j], env, w.boundary(k), sent[k].uri)
    ensures c.forms == [] ==> sent[k] == sent[j].(uri := sent[k].uri)
  {
    RequestedAddresses(c, env, w, start, sent, j);
    RequestedAddresses(c, env, w, start, sent, k);
    BuiltFor(c, env, w, start, sent, j);
    BuiltFor(c, env, w, start, sent, k);
    OnlyTheAddressChanges(c, env, w.boundary(j), w.boundary(k), sent[j].uri, sent[k].uri);
  }

  lemma BuiltFor(c: Cli, env: Environment, w: World, start: string, sent: seq<Message>, k: nat)
    requires IsChain(c, env, w, start, sent) && k < |sent|
    ensures RequestFor(c, env, w.boundary(k), sent[k].uri) == Ok(sent[k])
  {
    hide Address, IsFollowed, RequestFor;
    assert NextRequest(c, env, w, start, sent[..k]) == Ok(sent[k]);
    assert |sent[..k]| == k;
    BuiltForItsAddress(c, env, w.boundary(k), w.toUri(Address(w, start, sent[..k]).value).value);
  }
}
