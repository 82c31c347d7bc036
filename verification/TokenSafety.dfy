/** What holds of the token registry over every history of mints and uses. */
module TokenSafety {

  import opened Options
  import opened Tokens

  lemma {:induction false} PrefixIsHistory(es: seq<Event>, i: nat)
    requires IsHistory(es) && i <= |es|
    ensures IsHistory(es[..i])
    decreases |es|
  {
    if i < |es| {
      PrefixIsHistory(es[..|es| - 1], i);
      assert es[..|es| - 1][..i] == es[..i];
    } else {
      assert es[..i] == es;
    }
  }

  /** A history ends with an event that was legal where it happened. */
  lemma {:induction false} EventWasLegal(es: seq<Event>, i: nat)
    requires IsHistory(es) && i < |es|
    ensures IsHistory(es[..i]) && Legal(Replay(es[..i]), es[i])
  {
    PrefixIsHistory(es, i);
    PrefixIsHistory(es, i + 1);
    assert es[..i + 1][..i] == es[..i] && es[..i + 1][i] == es[i];
  }

  lemma {:induction false} ClockGoesForward(es: seq<Event>, i: nat, j: nat)
    requires IsHistory(es) && i <= j < |es|
    ensures es[i].now <= es[j].now
    decreases |es|
  {
    var front := es[..|es| - 1];
    if j < |front| {
      ClockGoesForward(front, i, j);
    } else if i < j {
      ClockGoesForward(front, i, j - 1);
    }
  }

  // ---------------------------------------------------------------------
  // The cap
  // ---------------------------------------------------------------------

  lemma {:induction false} SubsetIsSmaller<T>(a: set<T>, b: set<T>)
    requires a <= b
    ensures |a| <= |b|
  {
    assert b == a + (b - a);
  }

  lemma MapSizes<V>(m: map<Token, V>, n: map<Token, V>)
    requires m.Keys <= n.Keys
    ensures |m| <= |n|
  {
    SubsetIsSmaller(m.Keys, n.Keys);
    assert |m| == |m.Keys| && |n| == |n.Keys|;
  }

  lemma {:induction false} NeverOverCap(es: seq<Event>)
    requires IsHistory(es)
    ensures |Replay(es)| <= 1000
  {
    if es != [] {
      var front, last := es[..|es| - 1], es[|es| - 1];
      NeverOverCap(front);
      match last
      case Minted(t, verb, params, now) =>
        var live := Live(Replay(front), now);
        assert live[t := Entry(verb, params, now)].Keys == live.Keys + {t};
        assert |live.Keys + {t}| == |live.Keys| + 1;
      case _ => MapSizes(Replay(es), Replay(front));
    }
  }

  /** A mint leaves no expired entry behind, whether it succeeds or refuses. */
  lemma {:induction false} MintSweeps(es: seq<Event>, t: Token)
    requires IsHistory(es) && es != [] && (es[|es| - 1].Minted? || es[|es| - 1].Refused?)
    requires t in Replay(es)
    ensures es[|es| - 1].now < Replay(es)[t].mintedAt + 60_000_000_000
  {
  }

  // ---------------------------------------------------------------------
  // One use per mint
  // ---------------------------------------------------------------------

  predicate Touches(e: Event, t: Token) { !e.Refused? && e.token == t }

  /** Event j minted what is in force for the token after the whole history. */
  predicate MintInForce(es: seq<Event>, j: nat, t: Token, e: Entry) {
    && j < |es| && es[j] == Minted(t, e.verb, e.params, e.mintedAt)
    && forall k :: j < k < |es| ==> !Touches(es[k], t)
  }

  lemma {:induction false} EntryHasMint(es: seq<Event>, t: Token) returns (j: nat)
    requires IsHistory(es) && t in Replay(es)
    ensures MintInForce(es, j, t, Replay(es)[t])
  {
    var front, last := es[..|es| - 1], es[|es| - 1];
    if last.Minted? && last.token == t {
      j := |es| - 1;
    } else {
      j := EntryHasMint(front, t);
    }
  }

  /** Event i used the token that event j minted. */
  predicate Uses(es: seq<Event>, j: nat, i: nat) {
    && j < i < |es| && es[i].Taken?
    && es[j] == Minted(es[i].token, es[i].verb, es[i].params, es[j].now)
    && es[j].now <= es[i].now < es[j].now + 60_000_000_000
    && forall k :: j < k < i ==> !Touches(es[k], es[i].token)
  }

  /** Every successful use is of an earlier mint of that very token, returns
      that mint's verb and parameters, and comes within its minute. */
  lemma {:induction false} UseHasMint(es: seq<Event>, i: nat) returns (j: nat)
    requires IsHistory(es) && i < |es| && es[i].Taken?
    ensures Uses(es, j, i)
  {
    EventWasLegal(es, i);
    j := EntryHasMint(es[..i], es[i].token);
    ClockGoesForward(es, j, i);
    MintStaysInForce(es, j, i, es[i].token, Replay(es[..i])[es[i].token]);
  }

  lemma MintStaysInForce(es: seq<Event>, j: nat, i: nat, t: Token, e: Entry)
    requires i <= |es| && MintInForce(es[..i], j, t, e)
    ensures j < i && es[j] == Minted(t, e.verb, e.params, e.mintedAt)
    ensures forall k :: j < k < i ==> !Touches(es[k], t)
  {
    assert forall k :: 0 <= k < i ==> es[..i][k] == es[k];
  }

  /** No mint is used twice. */
  lemma {:induction false} MintIsUsedOnce(es: seq<Event>, j: nat, a: nat, b: nat)
    requires Uses(es, j, a) && Uses(es, j, b)
    ensures a == b
  {
    if a < b {
      assert Touches(es[a], es[b].token);
    } else if b < a {
      assert Touches(es[b], es[a].token);
    }
  }

  /** Two uses of one token have a mint of it between them. */
  lemma {:induction false} UsesAreSeparated(es: seq<Event>, a: nat, b: nat) returns (j: nat)
    requires IsHistory(es) && a < b < |es| && es[a].Taken? && es[b].Taken? && es[a].token == es[b].token
    ensures a < j < b && es[j].Minted? && es[j].token == es[b].token
  {
    j := UseHasMint(es, b);
    MintIsAfter(es, j, a, b);
  }

  lemma MintIsAfter(es: seq<Event>, j: nat, a: nat, b: nat)
    requires Uses(es, j, b) && a < b && es[a].Taken? && es[a].token == es[b].token
    ensures a < j
  {
    assert Touches(es[a], es[b].token);
  }

  /** A live token is not lost: until it is used or expires, using it works. */
  lemma {:induction false} LiveTokenWorks(es: seq<Event>, j: nat, t: Token, now: nat)
    requires IsHistory(es) && j < |es| && es[j].Minted? && es[j].token == t
    requires forall k :: j < k < |es| ==> !Touches(es[k], t)
    requires es[|es| - 1].now <= now < es[j].now + 60_000_000_000
    ensures Legal(Replay(es), Taken(t, es[j].verb, es[j].params, now))
    ensures t in Replay(es) && Replay(es)[t] == Entry(es[j].verb, es[j].params, es[j].now)
    decreases |es|
  {
    var front, last := es[..|es| - 1], es[|es| - 1];
    if j < |front| {
      ClockGoesForward(es, |front| - 1, |front|);
      LiveTokenWorks(front, j, t, last.now);
    }
  }

  /** An entry is good for sixty seconds from its mint, at any reading of the
      clock. */
  lemma {:induction false} YoungExactly(e: Entry, now: nat)
    ensures Young(e, now) <==> now < e.mintedAt + 60_000_000_000
  {
  }
}
