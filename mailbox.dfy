/** The disposable-inbox workflow of generator.py: `generate_temp_email`
    (provisioning with three attempts and exponential backoff) and
    `check_inbox` (bounded polling with a fixed interval).

    The mail service is not modelled as a client: each operation takes the
    replies the service gives, attempt by attempt, as a function from the
    attempt index. `re.search` is the parameter `find(pattern, text)`.
    `time.sleep` appends its duration to a ghost log that each method returns. */
module Mailbox {
  import opened Common

  // ---------------------------------------------------------------------------
  // generate_temp_email
  // ---------------------------------------------------------------------------

  const Retries: nat := 3

  /** `string.ascii_lowercase + string.digits`, the alphabet of mailbox names. */
  const MailboxNameChars: string := "abcdefghijklmnopqrstuvwxyz0123456789"

  /** What one provisioning attempt meets.
      DomainsFailed: GET /domains raised a RequestException (network error or
      non-2xx status).
      Domains: the domain list arrived; `domainDraw` and `nameDraws` are the
      attempt's random choices of domain and of the ten name characters;
      `created` says whether both POSTs (create account, get token) succeeded;
      `token` is the 'token' field of the token reply, None when it is absent. */
  datatype ProvisionReply =
    | DomainsFailed
    | Domains(domains: seq<string>, domainDraw: nat, nameDraws: seq<nat>, created: bool, token: Option<string>)

  /** An attempt that ends in `except requests.RequestException` and is retried. */
  predicate Retryable(r: ProvisionReply) {
    r.DomainsFailed? || (r.domains != [] && !r.created)
  }

  /** An attempt that returns a mailbox. */
  predicate Created(r: ProvisionReply) {
    r.Domains? && r.domains != [] && r.created
  }

  /** The address an attempt registers: ten random name characters, '@', a
      domain of the list. */
  function MailboxAddress(r: ProvisionReply): (e: string)
    requires r.Domains? && r.domains != []
  {
    RandomString(MailboxNameChars, r.nameDraws, 10) + "@" + Pick(r.domains, r.domainDraw)
  }

  ghost predicate IsMailboxAddress(e: string, domains: seq<string>) {
    exists name: string, k: nat :: OverAlphabet(name, MailboxNameChars, 10) && k < |domains|
      && e == name + "@" + domains[k]
  }

  /** The outcome of a provisioning run: what it returns and how many attempts
      it made. */
  datatype ProvisionRun = ProvisionRun(email: Option<string>, token: Option<string>, attempts: nat)

  /** The run from attempt `attempt` on. */
  function ProvisionFrom(replies: nat -> ProvisionReply, attempt: nat): (r: ProvisionRun)
    requires attempt < Retries
    decreases Retries - attempt
    ensures attempt < r.attempts <= Retries
    ensures forall i :: attempt <= i < r.attempts - 1 ==> Retryable(replies(i))
    ensures r.attempts < Retries ==> !Retryable(replies(r.attempts - 1))
    ensures r.email.Some? <==> Created(replies(r.attempts - 1))
    ensures r.email.None? ==> r.token.None?
    ensures r.email.Some? ==>
              r.token == replies(r.attempts - 1).token
              && IsMailboxAddress(r.email.value, replies(r.attempts - 1).domains)
    ensures (forall i :: attempt <= i < Retries ==> Retryable(replies(i))) ==>
              r == ProvisionRun(None, None, Retries)
  {
    var reply := replies(attempt);
    if Retryable(reply) then
      if attempt + 1 < Retries then ProvisionFrom(replies, attempt + 1)
      else ProvisionRun(None, None, attempt + 1)
    else if reply.domains == [] then ProvisionRun(None, None, attempt + 1)
    else
      var name := RandomString(MailboxNameChars, reply.nameDraws, 10);
      var k := Below(reply.domainDraw, |reply.domains|);
      assert MailboxAddress(reply) == name + "@" + reply.domains[k];
      ProvisionRun(Some(MailboxAddress(reply)), reply.token, attempt + 1)
  }

  function Pow2(k: nat): (p: nat)
    ensures p >= 1
  {
    if k == 0 then 1 else 2 * Pow2(k - 1)
  }

  /** The sleeps after the first k failed attempts: 2^0, 2^1, ... */
  function Backoff(k: nat): (s: seq<nat>)
    ensures |s| == k
  {
    seq(k, i requires 0 <= i < k => Pow2(i))
  }

  lemma BackoffStep(k: nat)
    ensures Backoff(k + 1) == Backoff(k) + [Pow2(k)]
  {
  }

  /** What one attempt decides about the run from that attempt on. */
  lemma ProvisionStep(replies: nat -> ProvisionReply, attempt: nat)
    requires attempt < Retries
    ensures var reply := replies(attempt);
            && (Retryable(reply) && attempt + 1 < Retries ==>
                  ProvisionFrom(replies, attempt) == ProvisionFrom(replies, attempt + 1))
            && (Retryable(reply) && attempt + 1 == Retries ==>
                  ProvisionFrom(replies, attempt) == ProvisionRun(None, None, Retries))
            && (reply.Domains? && reply.domains == [] ==>
                  ProvisionFrom(replies, attempt) == ProvisionRun(None, None, attempt + 1))
            && (Created(reply) ==>
                  ProvisionFrom(replies, attempt) == ProvisionRun(Some(MailboxAddress(reply)), reply.token, attempt + 1))
  {
  }

  /** generate_temp_email. Returns the address and token of the first attempt
      that creates a mailbox; (None, None) after an empty domain list or after
      three failed attempts. `attempts` counts the attempts made and `sleeps`
      logs the backoff sleeps. */
  method GenerateTempEmail(replies: nat -> ProvisionReply)
    returns (email: Option<string>, token: Option<string>, ghost attempts: nat, ghost sleeps: seq<nat>)
    ensures ProvisionRun(email, token, attempts) == ProvisionFrom(replies, 0)
    ensures sleeps == Backoff(attempts - 1)
  {
    email, token := None, None;
    attempts, sleeps := 0, [];
    var retries := Retries;
    for attempt := 0 to retries
      invariant attempts == attempt
      invariant sleeps == Backoff(if attempt < retries then attempt else retries - 1)
      invariant attempt < retries ==> ProvisionFrom(replies, 0) == ProvisionFrom(replies, attempt)
      invariant attempt == retries ==> ProvisionFrom(replies, 0) == ProvisionRun(None, None, retries)
      invariant email.None? && token.None?
    {
      attempts := attempts + 1;
      var reply := replies(attempt);
      ProvisionStep(replies, attempt);
      match reply {
        case DomainsFailed =>
        case Domains(domains, domainDraw, nameDraws, created, replyToken) =>
          if domains == [] {
            // "No domains available": stop without a further attempt or sleep.
            break;
          }
          if created {
            email, token := Some(MailboxAddress(reply)), replyToken;
            return;
          }
      }
      if attempt < retries - 1 {
        BackoffStep(attempt);
        sleeps := sleeps + [Pow2(attempt)];
      }
    }
  }

  /** All three attempts failing gives the sentinel (None, None) after the
      sleeps 1 and 2. */
  lemma ProvisionExhausted(replies: nat -> ProvisionReply)
    requires forall i :: 0 <= i < Retries ==> Retryable(replies(i))
    ensures ProvisionFrom(replies, 0) == ProvisionRun(None, None, 3)
    ensures Backoff(ProvisionFrom(replies, 0).attempts - 1) == [1, 2]
  {
    assert Pow2(1) == 2;
  }

  /** An empty domain list at the first attempt ends the run at once. */
  lemma ProvisionNoDomains(replies: nat -> ProvisionReply)
    requires replies(0).Domains? && replies(0).domains == []
    ensures ProvisionFrom(replies, 0) == ProvisionRun(None, None, 1)
    ensures Backoff(ProvisionFrom(replies, 0).attempts - 1) == []
  {
  }

  /** The first attempt that creates a mailbox decides the run, after
      retryable failures at every earlier attempt: its address, and its token
      exactly as replied, so a reply without 'token' gives an address with a
      None token. */
  lemma {:induction false} ProvisionCreatedAt(replies: nat -> ProvisionReply, from: nat, created: nat)
    requires from <= created < Retries
    requires forall i :: from <= i < created ==> Retryable(replies(i))
    requires Created(replies(created))
    ensures ProvisionFrom(replies, from)
         == ProvisionRun(Some(MailboxAddress(replies(created))), replies(created).token, created + 1)
    decreases created - from
  {
    ProvisionStep(replies, from);
    if from < created {
      ProvisionCreatedAt(replies, from + 1, created);
    }
  }

  // ---------------------------------------------------------------------------
  // check_inbox
  // ---------------------------------------------------------------------------

  /** The fetch of one message body: failed (RequestException), or its 'text'. */
  datatype Fetch = FetchFailed | Fetched(text: string)

  /** One polling round: listing the messages failed, or the listed messages
      with the fetch of each, in list order. */
  datatype Round = ListFailed | Listed(messages: seq<Fetch>)

  datatype Hit = Code(code: string) | Link(link: string)

  /** `re.search(pattern, text)` abstracted: the matched text, if any. */
  type Finder = (string, string) -> Option<string>

  /** What one message body yields: the code pattern is tried first, the link
      pattern only when it finds nothing. */
  function MessageHit(find: Finder, codePattern: string, linkPattern: string, text: string): (r: Option<Hit>)
    ensures r.None? <==> find(codePattern, text).None? && find(linkPattern, text).None?
    ensures r.Some? && r.value.Code? ==> find(codePattern, text) == Some(r.value.code)
    ensures r.Some? && r.value.Link? ==> find(codePattern, text).None? && find(linkPattern, text) == Some(r.value.link)
  {
    match find(codePattern, text)
    case Some(c) => Some(Code(c))
    case None =>
      match find(linkPattern, text)
      case Some(l) => Some(Link(l))
      case None => None
  }

  /** A message that was fetched and matched neither pattern. */
  predicate Quiet(find: Finder, codePattern: string, linkPattern: string, m: Fetch) {
    m.Fetched? && MessageHit(find, codePattern, linkPattern, m.text).None?
  }

  /** The hit of a round's messages scanned in order; a failed fetch abandons
      the rest of the round. */
  function ScanMessages(find: Finder, codePattern: string, linkPattern: string, msgs: seq<Fetch>): Option<Hit>
    decreases |msgs|
  {
    if msgs == [] then None
    else match msgs[0]
      case FetchFailed => None
      case Fetched(text) =>
        var h := MessageHit(find, codePattern, linkPattern, text);
        if h.Some? then h else ScanMessages(find, codePattern, linkPattern, msgs[1..])
  }

  function RoundHit(find: Finder, codePattern: string, linkPattern: string, r: Round): Option<Hit> {
    match r
    case ListFailed => None
    case Listed(msgs) => ScanMessages(find, codePattern, linkPattern, msgs)
  }

  /** A round's hit is the hit of its first message that matches, provided
      every message before it was fetched and matched nothing. */
  lemma {:induction false} ScanMessagesFirstHit(find: Finder, codePattern: string, linkPattern: string,
                                                msgs: seq<Fetch>, h: Hit)
    ensures ScanMessages(find, codePattern, linkPattern, msgs) == Some(h) <==>
            exists j :: 0 <= j < |msgs| && msgs[j].Fetched?
              && MessageHit(find, codePattern, linkPattern, msgs[j].text) == Some(h)
              && forall i :: 0 <= i < j ==> Quiet(find, codePattern, linkPattern, msgs[i])
    decreases |msgs|
  {
    if msgs != [] && msgs[0].Fetched? && MessageHit(find, codePattern, linkPattern, msgs[0].text).None? {
      ScanMessagesFirstHit(find, codePattern, linkPattern, msgs[1..], h);
      if ScanMessages(find, codePattern, linkPattern, msgs) == Some(h) {
        var j :| 0 <= j < |msgs[1..]| && msgs[1..][j].Fetched?
          && MessageHit(find, codePattern, linkPattern, msgs[1..][j].text) == Some(h)
          && forall i :: 0 <= i < j ==> Quiet(find, codePattern, linkPattern, msgs[1..][i]);
        assert msgs[j + 1] == msgs[1..][j];
        assert forall i :: 0 <= i < j + 1 ==> Quiet(find, codePattern, linkPattern, msgs[i]) by {
          forall i | 0 <= i < j + 1
            ensures Quiet(find, codePattern, linkPattern, msgs[i])
          {
            if i > 0 {
              assert msgs[i] == msgs[1..][i - 1];
            }
          }
        }
      }
    }
  }

  /** The outcome of a polling run: what it returns and how many rounds it
      polled. */
  datatype PollRun = PollRun(code: Option<string>, link: Option<string>, rounds: nat)

  predicate Found(r: PollRun) {
    r.code.Some? || r.link.Some?
  }

  function HitOf(r: PollRun): Hit
    requires Found(r)
  {
    if r.code.Some? then Code(r.code.value) else Link(r.link.value)
  }

  /** The run from round `k` on, for `pollAttempts` rounds in all. */
  function PollFrom(rounds: nat -> Round, find: Finder, codePattern: string, linkPattern: string,
                    pollAttempts: int, k: nat): (r: PollRun)
    decreases if pollAttempts > k then pollAttempts - k else 0
    ensures r.code.Some? ==> r.link.None?
    ensures !Found(r) ==>
              r.rounds == (if pollAttempts > k then pollAttempts else k)
              && forall i :: k <= i < pollAttempts ==> RoundHit(find, codePattern, linkPattern, rounds(i)).None?
    ensures Found(r) ==>
              k < r.rounds <= pollAttempts
              && (forall i :: k <= i < r.rounds - 1 ==> RoundHit(find, codePattern, linkPattern, rounds(i)).None?)
              && RoundHit(find, codePattern, linkPattern, rounds(r.rounds - 1)) == Some(HitOf(r))
  {
    if pollAttempts <= k then PollRun(None, None, k)
    else match RoundHit(find, codePattern, linkPattern, rounds(k))
      case Some(Code(c)) => PollRun(Some(c), None, k + 1)
      case Some(Link(l)) => PollRun(None, Some(l), k + 1)
      case None => PollFrom(rounds, find, codePattern, linkPattern, pollAttempts, k + 1)
  }

  /** `n` sleeps of `interval` seconds. */
  function Sleeps(interval: real, n: nat): (s: seq<real>)
    ensures |s| == n
  {
    seq(n, i requires 0 <= i < n => interval)
  }

  lemma SleepsStep(interval: real, n: nat)
    ensures Sleeps(interval, n + 1) == Sleeps(interval, n) + [interval]
  {
  }

  /** What one round decides about the run from that round on. */
  lemma PollStep(rounds: nat -> Round, find: Finder, codePattern: string, linkPattern: string,
                 pollAttempts: int, k: nat)
    requires k < pollAttempts
    ensures var hit := RoundHit(find, codePattern, linkPattern, rounds(k));
            var run := PollFrom(rounds, find, codePattern, linkPattern, pollAttempts, k);
            && (hit.None? ==> run == PollFrom(rounds, find, codePattern, linkPattern, pollAttempts, k + 1))
            && (hit.Some? && hit.value.Code? ==> run == PollRun(Some(hit.value.code), None, k + 1))
            && (hit.Some? && hit.value.Link? ==> run == PollRun(None, Some(hit.value.link), k + 1))
  {
  }

  /** The inner loop of check_inbox over one round's messages, in list
      order: the first hit, or nothing when a fetch fails first or no
      message matches. */
  method ScanRound(find: Finder, codePattern: string, linkPattern: string, msgs: seq<Fetch>)
    returns (hit: Option<Hit>)
    ensures hit == ScanMessages(find, codePattern, linkPattern, msgs)
  {
    hit := None;
    var j := 0;
    while j < |msgs|
      invariant 0 <= j <= |msgs|
      invariant ScanMessages(find, codePattern, linkPattern, msgs)
             == ScanMessages(find, codePattern, linkPattern, msgs[j..])
    {
      assert msgs[j..][1..] == msgs[j + 1..];
      match msgs[j] {
        case FetchFailed =>
          // The RequestException abandons the rest of the round.
          return;
        case Fetched(text) =>
          var codeMatch := find(codePattern, text);
          if codeMatch.Some? {
            hit := Some(Code(codeMatch.value));
            return;
          }
          var linkMatch := find(linkPattern, text);
          if linkMatch.Some? {
            hit := Some(Link(linkMatch.value));
            return;
          }
      }
      j := j + 1;
    }
  }

  /** check_inbox(token, code_pattern, link_pattern, poll_attempts, poll_interval):
      the first hit of the first round that has one, as (code, None) or
      (None, link); (None, None) when no round has one. `polled` counts the
      rounds made; `sleeps` logs one sleep after every round without a hit,
      the last round included. */
  method CheckInbox(rounds: nat -> Round, find: Finder, codePattern: string, linkPattern: string,
                    pollAttempts: int, pollInterval: real)
    returns (code: Option<string>, link: Option<string>, ghost polled: nat, ghost sleeps: seq<real>)
    ensures PollRun(code, link, polled) == PollFrom(rounds, find, codePattern, linkPattern, pollAttempts, 0)
    ensures sleeps == Sleeps(pollInterval, if code.None? && link.None? then polled else polled - 1)
  {
    code, link := None, None;
    polled, sleeps := 0, [];
    var attempt := 0;
    while attempt < pollAttempts
      invariant polled == attempt
      invariant pollAttempts > 0 ==> attempt <= pollAttempts
      invariant sleeps == Sleeps(pollInterval, attempt)
      invariant PollFrom(rounds, find, codePattern, linkPattern, pollAttempts, 0)
             == PollFrom(rounds, find, codePattern, linkPattern, pollAttempts, attempt)
      invariant code.None? && link.None?
      decreases pollAttempts - attempt
    {
      polled := polled + 1;
      var round := rounds(attempt);
      PollStep(rounds, find, codePattern, linkPattern, pollAttempts, attempt);
      if round.Listed? {
        var hit := ScanRound(find, codePattern, linkPattern, round.messages);
        match hit {
          case Some(Code(c)) =>
            code := Some(c);
            return;
          case Some(Link(l)) =>
            link := Some(l);
            return;
          case None =>
        }
      }
      SleepsStep(pollInterval, attempt);
      sleeps := sleeps + [pollInterval];
      attempt := attempt + 1;
    }
  }

  /** A message holding both a code and a link yields the code. */
  lemma CodeBeforeLink(rounds: nat -> Round, find: Finder, codePattern: string, linkPattern: string,
                       pollAttempts: int, text: string)
    requires pollAttempts >= 1
    requires rounds(0) == Listed([Fetched(text)])
    requires find(codePattern, text).Some? && find(linkPattern, text).Some?
    ensures PollFrom(rounds, find, codePattern, linkPattern, pollAttempts, 0)
         == PollRun(find(codePattern, text), None, 1)
  {
  }

  /** A link is returned only from a message in which the code pattern found
      nothing, and every message before it in its round was fetched and
      matched neither pattern. */
  lemma LinkOnlyWithoutCode(rounds: nat -> Round, find: Finder, codePattern: string, linkPattern: string,
                            pollAttempts: int)
    requires PollFrom(rounds, find, codePattern, linkPattern, pollAttempts, 0).link.Some?
    ensures var r := PollFrom(rounds, find, codePattern, linkPattern, pollAttempts, 0);
            var msgs := rounds(r.rounds - 1).messages;
            rounds(r.rounds - 1).Listed?
            && exists j :: 0 <= j < |msgs| && msgs[j].Fetched?
                 && find(codePattern, msgs[j].text).None?
                 && find(linkPattern, msgs[j].text) == r.link
                 && forall i :: 0 <= i < j ==> Quiet(find, codePattern, linkPattern, msgs[i])
  {
    var r := PollFrom(rounds, find, codePattern, linkPattern, pollAttempts, 0);
    var round := rounds(r.rounds - 1);
    assert RoundHit(find, codePattern, linkPattern, round) == Some(Link(r.link.value));
    ScanMessagesFirstHit(find, codePattern, linkPattern, round.messages, Link(r.link.value));
  }
}
