/** The single-use tokens that stand for streaming requests: at most 1000 in
    flight, each good for one minute and for one use. */
module Tokens {

  import opened Options
  import opened Bytes
  import opened Base64

  datatype StreamVerb = Exec | Attach | PortForward

  datatype StreamParams = StreamParams(
    container: Option<string>, sandbox: Option<string>, cmd: seq<string>, tty: bool, stdin: bool,
    ports: seq<int>, dialTarget: Option<string>, netnsPath: Option<string>)

  type Token = seq<byte>

  datatype Entry = Entry(verb: StreamVerb, params: StreamParams, mintedAt: nat)

  /** Time is in nanoseconds. */
  const TTL: nat := 60_000_000_000
  const MAX_INFLIGHT: nat := 1000
  const ATTEMPTS: nat := 8

  /** `now.duration_since(then)`, which is zero for a later instant. */
  function Since(now: nat, then_: nat): nat { if now < then_ then 0 else now - then_ }

  predicate Young(e: Entry, now: nat) { Since(now, e.mintedAt) < TTL }

  /** The entries a sweep keeps. */
  function Live(inner: map<Token, Entry>, now: nat): map<Token, Entry> {
    map t | t in inner && Young(inner[t], now) :: inner[t]
  }

  /** One read of the random source: six bytes, or a failure. */
  type Draw = d: Option<seq<byte>> | d.Some? ==> |d.value| == 6 witness None

  function TokenOf(bytes: seq<byte>): Token { Encoded(true, false, bytes) }

  /** Which draws lead to which token: the first that names no live entry, and
      none once the source fails. */
  predicate Picks(taken: map<Token, Entry>, draws: seq<Draw>, k: nat) {
    && k < |draws| && draws[k].Some? && TokenOf(draws[k].value) !in taken
    && forall j :: 0 <= j < k ==> draws[j].Some? && TokenOf(draws[j].value) in taken
  }

  /** A token is eight URL-safe characters. */
  lemma {:induction false} TokenIsEightChars(bytes: seq<byte>, i: nat)
    requires |bytes| == 6 && i < 8
    ensures |TokenOf(bytes)| == 8 && UrlSafe(TokenOf(bytes)[i])
  {
    EncodedLength(true, false, bytes);
    UrlEncodingIsSafe(bytes, i);
  }

  /** Different random bytes give different tokens. */
  lemma {:induction false} TokensAreDistinct(a: seq<byte>, b: seq<byte>)
    requires TokenOf(a) == TokenOf(b)
    ensures a == b
  {
    EncodingIsInjective(true, false, a, b);
  }

  // ---------------------------------------------------------------------
  // Histories
  // ---------------------------------------------------------------------

  datatype Event =
    | Minted(token: Token, verb: StreamVerb, params: StreamParams, now: nat)
    | Refused(now: nat)
    | Taken(token: Token, verb: StreamVerb, params: StreamParams, now: nat)
    | Missed(token: Token, now: nat)

  function Advance(before: map<Token, Entry>, e: Event): map<Token, Entry> {
    match e
    case Minted(t, verb, params, now) => Live(before, now)[t := Entry(verb, params, now)]
    case Refused(now) => Live(before, now)
    case Taken(t, _, _, _) => before - {t}
    case Missed(t, _) => before - {t}
  }

  /** The registry's contents after a history. */
  function Replay(es: seq<Event>): map<Token, Entry> {
    if es == [] then map[] else Advance(Replay(es[..|es| - 1]), es[|es| - 1])
  }

  /** Whether the registry, holding these entries, may do this. */
  predicate Legal(before: map<Token, Entry>, e: Event) {
    match e
    case Minted(t, _, _, now) => |Live(before, now)| < MAX_INFLIGHT && t !in Live(before, now)
    case Refused(_) => true
    case Taken(t, verb, params, now) =>
      t in before && Young(before[t], now) && before[t].verb == verb && before[t].params == params
    case Missed(t, now) => t in before ==> !Young(before[t], now)
  }

  predicate IsHistory(es: seq<Event>) {
    es == [] ||
    (var front, last := es[..|es| - 1], es[|es| - 1];
      && IsHistory(front) && Legal(Replay(front), last)
      && (front != [] ==> front[|front| - 1].now <= last.now))
  }

  // ---------------------------------------------------------------------
  // The registry
  // ---------------------------------------------------------------------

  class TokenRegistry {
    var inner: map<Token, Entry>
    ghost var history: seq<Event>

    constructor ()
      ensures Valid() && history == []
    {
      inner := map[];
      history := [];
    }

    ghost predicate Valid()
      reads this
    {
      IsHistory(history) && inner == Replay(history)
    }

    ghost predicate NotBefore(now: nat)
      reads this
    {
      history != [] ==> history[|history| - 1].now <= now
    }

    /** `mint`. The clock does not go back, and the random source is read at
        most eight times. */
    method Mint(verb: StreamVerb, params: StreamParams, draws: seq<Draw>, now: nat) returns (r: Option<Token>)
      requires Valid() && NotBefore(now) && |draws| == 8
      modifies this
      ensures Valid()
      ensures var live := Live(old(inner), now);
        match r
        case Some(t) =>
          && |live| < 1000 && t !in live && inner == live[t := Entry(verb, params, now)]
          && (exists k: nat :: Picks(live, draws, k) && t == TokenOf(draws[k].value))
          && history == old(history) + [Minted(t, verb, params, now)]
        case None =>
          && (|live| >= 1000 || !exists k: nat :: Picks(live, draws, k))
          && inner == live && history == old(history) + [Refused(now)]
    {
      inner := Live(inner, now);
      if |inner| >= MAX_INFLIGHT {
        Record(old(inner), Refused(now));
        return None;
      }
      r := Pick(inner, draws);
      if r.Some? {
        inner := inner[r.value := Entry(verb, params, now)];
        Record(old(inner), Minted(r.value, verb, params, now));
      } else {
        Record(old(inner), Refused(now));
      }
    }

    /** `consume`. */
    method Consume(token: Token, now: nat) returns (r: Option<(StreamVerb, StreamParams)>)
      requires Valid() && NotBefore(now)
      modifies this
      ensures Valid()
      ensures inner == old(inner) - {token}
      ensures if token in old(inner) && Young(old(inner)[token], now)
        then var e := old(inner)[token];
          r == Some((e.verb, e.params)) && history == old(history) + [Taken(token, e.verb, e.params, now)]
        else r == None && history == old(history) + [Missed(token, now)]
    {
      if token !in inner {
        assert inner - {token} == inner;
        Record(inner, Missed(token, now));
        return None;
      }
      var e := inner[token];
      inner := inner - {token};
      if !Young(e, now) {
        Record(old(inner), Missed(token, now));
        return None;
      }
      Record(old(inner), Taken(token, e.verb, e.params, now));
      return Some((e.verb, e.params));
    }

    ghost method Record(before: map<Token, Entry>, e: Event)
      requires IsHistory(history) && before == Replay(history) && Legal(before, e) && inner == Advance(before, e)
      requires NotBefore(e.now)
      modifies this`history
      ensures history == old(history) + [e] && Valid()
    {
      assert (history + [e])[..|history|] == history;
      history := history + [e];
    }
  }

  /** The loop of `mint`: up to eight draws, until one is new. */
  method Pick(taken: map<Token, Entry>, draws: seq<Draw>) returns (r: Option<Token>)
    requires |draws| == 8
    ensures match r
      case Some(t) => t !in taken && exists k: nat :: Picks(taken, draws, k) && t == TokenOf(draws[k].value)
      case None => !exists k: nat :: Picks(taken, draws, k)
  {
    for i := 0 to ATTEMPTS
      invariant forall j :: 0 <= j < i ==> draws[j].Some? && TokenOf(draws[j].value) in taken
    {
      if draws[i].None? {
        NothingPicked(taken, draws, i);
        return None;
      }
      var tok := TokenOf(draws[i].value);
      if tok !in taken {
        assert Picks(taken, draws, i);
        return Some(tok);
      }
    }
    return None;
  }

  lemma NothingPicked(taken: map<Token, Entry>, draws: seq<Draw>, i: nat)
    requires i < |draws| && draws[i].None?
    requires forall j :: 0 <= j < i ==> draws[j].Some? && TokenOf(draws[j].value) in taken
    ensures !exists k: nat :: Picks(taken, draws, k)
  {
  }
}
