/**
 The Gemini probe of `agent_usage.rs` and the one access token it remembers between probes.
 What the network answers is an input: the k-th request of each kind gets the k-th answer.
 */
module Gemini {
  import opened Prelude

  const GEMINI_EXPIRY_MARGIN_SECS: int := 60
  const BACKOFF_SECS: int := 900

  datatype Creds = Creds(access: string, refresh: Option<string>, expiryMs: Option<int>)

  datatype GeminiRefreshed = GeminiRefreshed(refresh: string, access: string, expiresAt: int)

  /** A token endpoint answer that was accepted: the lifetime is kept only when it is positive. */
  datatype Minted = Minted(access: string, expiresIn: Option<int>)

  /** `Answer` carries the status, whether the body parsed, and the clock when a 429 arrived. */
  datatype PostAnswer = NoAnswer | Answer(status: int, parses: bool, receivedAt: int)

  datatype Network = Network(mint: nat -> Option<Minted>, post: nat -> PostAnswer)

  datatype Request = MintWith(refresh: string) | QuotaWith(access: string) | AssistWith(access: string)

  datatype Outcome =
    | NoLogin | LoginInvalid | Unreachable | Usage | BadShape | Denied
    | RateLimited(until: int) | OtherStatus(status: int)

  predicate Sendable(access: string) {
    '"' !in access && '\n' !in access
  }

  predicate Expired(creds: Creds, now: int) {
    creds.expiryMs.Some? && creds.expiryMs.value <= now * 1000
  }

  function RememberedToken(slot: Option<GeminiRefreshed>, refresh: string, now: int): Option<string> {
    if slot.None? || slot.value.refresh != refresh || now >= slot.value.expiresAt - GEMINI_EXPIRY_MARGIN_SECS then None
    else Some(slot.value.access)
  }

  function FromSlot(slot: Option<GeminiRefreshed>, creds: Creds, now: int): Option<string> {
    if creds.refresh.Some? then RememberedToken(slot, creds.refresh.value, now) else None
  }

  /**
   The token that needs no refresh: the login file's own until the millisecond it expires; then the
   one in the slot, for the login it was minted from and while more than a minute of its life is left.
   */
  ghost function AtHand(slot: Option<GeminiRefreshed>, creds: Creds, now: int): Option<string> {
    if creds.expiryMs.None? || now * 1000 < creds.expiryMs.value then Some(creds.access)
    else
      match slot
      case Some(GeminiRefreshed(refresh, access, expiresAt)) =>
        if creds.refresh == Some(refresh) && now + 60 < expiresAt then Some(access) else None
      case None => None
  }

  /** A token that could break out of curl's config is never sent. */
  ghost function QuotaRequest(access: string): seq<Request> {
    if '"' in access || '\n' in access then [] else [QuotaWith(access)]
  }

  /** A refresh with the login's own token, and a quota request with what it mints. */
  ghost function AfterRefresh(creds: Creds, net: Network): seq<Request> {
    match creds.refresh
    case None => []
    case Some(refresh) =>
      var minted := net.mint(0);
      [MintWith(refresh)] + if minted.Some? then QuotaRequest(minted.value.access) else []
  }

  /**
   What is sent from a first token on: one quota request, a refresh after a 401 unless there just
   was one, the assist request.
   */
  ghost function FromToken(creds: Creds, justRefreshed: bool, net: Network, token: string): seq<Request> {
    var first, answer := QuotaRequest(token), net.post(0);
    first + if first == [] || answer.NoAnswer? then []
            else if answer.status == 401 && !justRefreshed then AfterRefresh(creds, net)
            else if answer.status == 401 || answer.status == 403 then [AssistWith(token)]
            else []
  }

  /**
   Every request of a probe, in order: with a token at hand no refresh but after a 401, without one
   a refresh first.
   */
  ghost function AllRequests(creds: Creds, held: Option<string>, net: Network): seq<Request> {
    if held.Some? then FromToken(creds, false, net, held.value)
    else if creds.refresh.None? then []
    else [MintWith(creds.refresh.value)]
         + if net.mint(0).Some? then FromToken(creds, true, net, net.mint(0).value.access) else []
  }

  /** One token the refresh endpoint handed out, for which login, when, and for how long. */
  datatype Receipt = Receipt(refresh: string, access: string, at: int, lifetime: Option<int>)

  /**
   A token this probe may send: the login file's while it has not expired; one minted in this
   probe (`minted`); or, for an expired file, one minted in an earlier probe (`earlier`) from the
   same refresh token and more than the margin away from the end of its lifetime.
   */
  ghost predicate MaySend(creds: Creds, now: int, earlier: seq<Receipt>, minted: seq<Receipt>, access: string) {
    || (access == creds.access && (creds.expiryMs.None? || now * 1000 < creds.expiryMs.value))
    || (exists r <- minted :: r.access == access && creds.refresh == Some(r.refresh) && r.at == now)
    || (creds.expiryMs.Some? && creds.expiryMs.value <= now * 1000 && exists r <- earlier ::
          && r.access == access && creds.refresh == Some(r.refresh)
          && r.lifetime.Some? && now < r.at + r.lifetime.value - 60)
  }

  /** At most one refresh, with this login's own token; a second quota request only after it. */
  ghost predicate Orderly(creds: Creds, calls: seq<Request>) {
    && (forall k | 0 <= k < |calls| && calls[k].MintWith? :: creds.refresh == Some(calls[k].refresh))
    && (forall j, k | 0 <= j < |calls| && 0 <= k < |calls| && calls[j].MintWith? && calls[k].MintWith? :: j == k)
    && (forall j, k | 0 <= j < k < |calls| && calls[j].QuotaWith? && calls[k].QuotaWith? ::
          j + 2 == k && calls[j + 1].MintWith?)
  }

  /** How many quota requests were sent. */
  function Quotas(calls: seq<Request>): nat {
    if calls == [] then 0 else (if calls[0].QuotaWith? then 1 else 0) + Quotas(calls[1..])
  }

  lemma {:induction false} QuotasOver(a: seq<Request>, b: seq<Request>)
    ensures Quotas(a + b) == Quotas(a) + Quotas(b)
    decreases |a|
  {
    if a == [] {
      assert a + b == b;
    } else {
      assert (a + b)[1..] == a[1..] + b;
      QuotasOver(a[1..], b);
    }
  }

  lemma NoQuotas()
    ensures Quotas([]) == 0
  {
  }

  lemma QuotasOfOne(r: Request)
    ensures Quotas([r]) == if r.QuotaWith? then 1 else 0
  {
    assert [r][1..] == [];
  }

  /** The park and the report the last quota answer calls for. */
  ghost predicate Heeds(answer: PostAnswer, outcome: Outcome, park: Option<int>) {
    && (park.Some? <==> answer.Answer? && answer.status == 429)
    && (park.Some? ==> park.value == answer.receivedAt + 900 && outcome == RateLimited(park.value))
    && (outcome.Usage? || outcome.BadShape? <==> answer.Answer? && answer.status == 200)
    && (answer.Answer? && answer.status == 200 ==> outcome == if answer.parses then Usage else BadShape)
  }

  lemma SendMore(creds: Creds, now: int, earlier: seq<Receipt>, minted: seq<Receipt>, more: seq<Receipt>,
                 access: string)
    requires MaySend(creds, now, earlier, minted, access) && minted <= more
    ensures MaySend(creds, now, earlier, more, access)
  {
    assert forall r <- minted :: r in more;
  }

  lemma SendMinted(creds: Creds, now: int, earlier: seq<Receipt>, minted: seq<Receipt>, k: nat)
    requires k < |minted| && creds.refresh == Some(minted[k].refresh) && minted[k].at == now
    ensures MaySend(creds, now, earlier, minted, minted[k].access)
  {
    assert minted[k] in minted;
  }

  /**
   Requests in order, every token sent one that may be. An assist request comes last, with the token
   of the quota request just before it.
   */
  ghost predicate Proper(creds: Creds, now: int, earlier: seq<Receipt>, minted: seq<Receipt>, calls: seq<Request>) {
    && Orderly(creds, calls)
    && (forall k | 0 <= k < |calls| && calls[k].QuotaWith? ::
          Sendable(calls[k].access) && MaySend(creds, now, earlier, minted, calls[k].access))
    && (forall k | 0 <= k < |calls| && calls[k].AssistWith? ::
          k > 0 && k == |calls| - 1 && calls[k - 1] == QuotaWith(calls[k].access))
  }

  /** What a probe sends is proper when its first token may be sent and so may the one a retry mints. */
  lemma ProperFrom(creds: Creds, now: int, earlier: seq<Receipt>, minted: seq<Receipt>, justRefreshed: bool,
                   net: Network, token: string)
    requires MaySend(creds, now, earlier, minted, token)
    requires var sent := FromToken(creds, justRefreshed, net, token);
             |sent| == 3 ==> sent[2].QuotaWith? && MaySend(creds, now, earlier, minted, sent[2].access)
    requires justRefreshed ==> creds.refresh.Some?
    ensures var asked := if justRefreshed then [MintWith(creds.refresh.value)] else [];
            Proper(creds, now, earlier, minted, asked + FromToken(creds, justRefreshed, net, token))
  {
    hide MaySend;
    var asked := if justRefreshed then [MintWith(creds.refresh.value)] else [];
    var sent := FromToken(creds, justRefreshed, net, token);
    assert |sent| == 3 ==> !justRefreshed && sent[1].MintWith?;
    if sent == [] {
      assert asked + sent == asked;
    } else {
      assert (asked + sent)[|asked|] == QuotaWith(token);
    }
  }

  lemma OnlyRefresh(creds: Creds, now: int, earlier: seq<Receipt>, minted: seq<Receipt>, calls: seq<Request>)
    requires calls == [] || (creds.refresh.Some? && calls == [MintWith(creds.refresh.value)])
    ensures Proper(creds, now, earlier, minted, calls)
  {
  }

  class Tokens {
    var slot: Option<GeminiRefreshed>
    ghost var receipts: seq<Receipt>  // every token minted so far

    /** What is remembered is the last token minted, for the login it was minted from. */
    ghost predicate Valid()
      reads this
    {
      slot.Some? ==>
        && receipts != []
        && var r := receipts[|receipts| - 1];
           r.refresh == slot.value.refresh && r.access == slot.value.access
             && r.lifetime == Some(slot.value.expiresAt - r.at)
    }

    constructor ()
      ensures Valid() && slot == None && receipts == []
    {
      slot, receipts := None, [];
    }

    method Refresh(refresh: Option<string>, now: int, answer: Option<Minted>)
      returns (token: Option<string>, calls: seq<Request>)
      requires Valid()
      modifies this
      ensures Valid()
      ensures calls == (if refresh.Some? then [MintWith(refresh.value)] else []) && Quotas(calls) == 0
      ensures token.Some? <==> refresh.Some? && answer.Some?
      ensures token.None? ==> slot == None && receipts == old(receipts)
      ensures token.Some? ==>
                && token.value == answer.value.access
                && receipts == old(receipts) + [Receipt(refresh.value, token.value, now, answer.value.expiresIn)]
                && slot == if answer.value.expiresIn.Some? then
                             Some(GeminiRefreshed(refresh.value, token.value, now + answer.value.expiresIn.value))
                               else None
    {
      if refresh.None? {
        slot := None;
        return None, [];
      }
      calls := [MintWith(refresh.value)];
      if answer.None? {
        slot := None;
        return None, calls;
      }
      receipts := receipts + [Receipt(refresh.value, answer.value.access, now, answer.value.expiresIn)];
      slot := match answer.value.expiresIn
        case Some(secs) => Some(GeminiRefreshed(refresh.value, answer.value.access, now + secs))
        case None => None;
      token := Some(answer.value.access);
    }

    method Post(access: string, answer: PostAnswer) returns (got: PostAnswer, calls: seq<Request>)
      ensures got == if Sendable(access) then answer else NoAnswer
      ensures calls == if Sendable(access) then [QuotaWith(access)] else []
      ensures Quotas(calls) == |calls|
    {
      if '"' in access || '\n' in access {
        return NoAnswer, [];
      }
      return answer, [QuotaWith(access)];
    }

    /** The token the first quota request carries. */
    method Choose(creds: Creds, now: int, answer: Option<Minted>)
      returns (token: Option<string>, justRefreshed: bool, calls: seq<Request>)
      requires Valid()
      modifies this
      ensures Valid() && old(receipts) <= receipts
      ensures token.Some? ==> MaySend(creds, now, old(receipts), receipts[|old(receipts)|..], token.value)
      ensures calls == if justRefreshed && creds.refresh.Some? then [MintWith(creds.refresh.value)] else []
      ensures token.None? ==> justRefreshed && slot == None
      ensures justRefreshed ==> token == if creds.refresh.Some? && answer.Some? then Some(answer.value.access) else None
      ensures Quotas(calls) == 0
      ensures var held := AtHand(old(slot), creds, now);
              if held.Some? then token == held && !justRefreshed && slot == old(slot) else justRefreshed
    {
      if !Expired(creds, now) {
        return Some(creds.access), false, [];
      }
      var remembered := FromSlot(slot, creds, now);
      if remembered.Some? {
        assert receipts[|receipts| - 1] in receipts;
        return remembered, false, [];
      }
      token, calls := Refresh(creds.refresh, now, answer);
      justRefreshed := true;
      if token.Some? {
        assert receipts[|old(receipts)|] in receipts[|old(receipts)|..];
      }
    }

    /** One probe. Every token it sends is one it may send, and its requests are orderly. */
    method Probe(login: Option<Creds>, now: int, net: Network)
      returns (outcome: Outcome, park: Option<int>, calls: seq<Request>)
      requires Valid()
      modifies this
      ensures Valid() && old(receipts) <= receipts
      ensures login.None? ==> outcome == NoLogin && calls == [] && slot == old(slot)
      ensures login.Some? ==> Proper(login.value, now, old(receipts), receipts[|old(receipts)|..], calls)
      ensures login.Some? ==>
                var held := AtHand(old(slot), login.value, now);
                && calls == AllRequests(login.value, held, net)
                && (held.Some? ==> slot == old(slot) || (net.post(0).Answer? && net.post(0).status == 401))
                && (held.None? && login.value.refresh.None? ==> slot == None)
      ensures Quotas(calls) <= 2 && (park.Some? <==> outcome.RateLimited?)
      ensures if Quotas(calls) == 0 then park.None? && !outcome.Usage? && !outcome.BadShape? && !outcome.Denied?
              else Heeds(net.post(Quotas(calls) - 1), outcome, park)
      ensures outcome.Denied? <==> calls != [] && calls[|calls| - 1].AssistWith?
      ensures Quotas(calls) == 1 && net.post(0).Answer? && net.post(0).status !in {200, 401, 403, 429} ==>
                outcome == OtherStatus(net.post(0).status)
    {
      hide MaySend, Expired, FromSlot, Proper, Quotas, AtHand, FromToken, Heeds;
      NoQuotas();
      park := None;
      if login.None? {
        return NoLogin, None, [];
      }
      var creds := login.value;
      var token, justRefreshed;
      token, justRefreshed, calls := Choose(creds, now, net.mint(0));
      ghost var minted := receipts[|old(receipts)|..];
      if token.None? {
        OnlyRefresh(creds, now, old(receipts), minted, calls);
        return LoginInvalid, None, calls;
      }
      var sent;
      outcome, park, sent := Ask(creds, now, net, token.value, justRefreshed);
      ghost var remint := receipts[|old(receipts)|..];
      assert minted <= remint;
      SendMore(creds, now, old(receipts), minted, remint, token.value);
      if |sent| == 3 {
        SendMinted(creds, now, old(receipts), remint, |remint| - 1);
      }
      ProperFrom(creds, now, old(receipts), remint, justRefreshed, net, token.value);
      QuotasOver(calls, sent);
      assert [] + sent == sent;
      calls := calls + sent;
    }

    /** From the first token on. */
    method Ask(creds: Creds, now: int, net: Network, token: string, justRefreshed: bool)
      returns (outcome: Outcome, park: Option<int>, calls: seq<Request>)
      requires Valid()
      modifies this
      ensures Valid() && old(receipts) <= receipts
      ensures calls == FromToken(creds, justRefreshed, net, token)
      ensures |calls| == 3 ==>
                && creds.refresh.Some? && calls[2].QuotaWith? && |receipts| == |old(receipts)| + 1
                && var r := receipts[|old(receipts)|];
                   r.refresh == creds.refresh.value && r.access == calls[2].access && r.at == now
      ensures slot == old(slot) || (net.post(0).Answer? && net.post(0).status == 401)
      ensures Quotas(calls) <= 2 && (park.Some? <==> outcome.RateLimited?)
      ensures if Quotas(calls) == 0 then calls == [] && park.None? && outcome.Unreachable?
              else Heeds(net.post(Quotas(calls) - 1), outcome, park)
      ensures outcome.Denied? <==> calls != [] && calls[|calls| - 1].AssistWith?
      ensures Quotas(calls) == 1 && net.post(0).Answer? && net.post(0).status !in {200, 401, 403, 429} ==>
                outcome == OtherStatus(net.post(0).status)
    {
      hide Quotas;
      park := None;
      var got, sent := Post(token, net.post(0));
      calls := sent;
      assert sent + [] == sent;
      if got.NoAnswer? {
        outcome := Unreachable;
      } else if got.status == 200 {
        outcome := if got.parses then Usage else BadShape;
      } else if got.status == 401 && !justRefreshed {
        outcome, park, sent := Retry(creds, now, net);
        QuotasOver(calls, sent);
        calls := calls + sent;
      } else if got.status == 401 || got.status == 403 {
        QuotasOver(calls, [AssistWith(token)]);
        QuotasOfOne(AssistWith(token));
        outcome, calls := Denied, calls + [AssistWith(token)];
      } else if got.status == 429 {
        outcome, park := RateLimited(got.receivedAt + BACKOFF_SECS), Some(got.receivedAt + BACKOFF_SECS);
      } else {
        outcome := OtherStatus(got.status);
      }
    }

    /** The single refresh-and-retry for a token that only looked current. */
    method Retry(creds: Creds, now: int, net: Network)
      returns (outcome: Outcome, park: Option<int>, calls: seq<Request>)
      requires Valid()
      modifies this
      ensures Valid() && old(receipts) <= receipts
      ensures calls == [] ||
              (creds.refresh.Some? && calls[0] == MintWith(creds.refresh.value) &&
               (|calls| == 1 || (&& |calls| == 2 && calls[1].QuotaWith? && Sendable(calls[1].access)
                                 && |receipts| == |old(receipts)| + 1
                                 && var r := receipts[|old(receipts)|];
                                    r.refresh == creds.refresh.value && r.access == calls[1].access && r.at == now)))
      ensures calls == AfterRefresh(creds, net)
      ensures outcome.LoginInvalid? || outcome.Usage? || outcome.BadShape? || outcome.RateLimited?
      ensures park.Some? <==> outcome.RateLimited?
      ensures Quotas(calls) <= 1
      ensures if Quotas(calls) == 0 then park.None? && outcome.LoginInvalid? else Heeds(net.post(1), outcome, park)
    {
      var token, asked := Refresh(creds.refresh, now, net.mint(0));
      calls, park := asked, None;
      if token.None? {
        return LoginInvalid, None, calls;
      }
      var got, sent := Post(token.value, net.post(1));
      QuotasOver(calls, sent);
      calls := calls + sent;
      if got.Answer? && got.status == 200 {
        outcome := if got.parses then Usage else BadShape;
      } else if got.Answer? && got.status == 429 {
        outcome, park := RateLimited(got.receivedAt + BACKOFF_SECS), Some(got.receivedAt + BACKOFF_SECS);
      } else {
        outcome := LoginInvalid;
      }
    }
  }
}
