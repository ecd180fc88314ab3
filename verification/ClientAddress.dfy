/** Which address a request is taken to come from. */
module ClientAddresses {
  import opened Models
  import Text

  /** The configured proxies: none at all, or a test on candidate addresses. */
  datatype Proxies = Proxies(configured: bool, trusted: string -> bool)

  function Stripped(pieces: seq<string>): seq<string> {
    if pieces == [] then []
    else
      var hop := Text.Strip(pieces[0]);
      (if hop != "" then [hop] else []) + Stripped(pieces[1..])
  }

  /** The hops named in an X-Forwarded-For header, blanks dropped. */
  function Hops(forwarded: string): seq<string> {
    Stripped(Text.Split(forwarded, ','))
  }

  /** The last hop that is not a known proxy. */
  function LastUntrusted(hops: seq<string>, trusted: string -> bool): Option<string> {
    if hops == [] then None
    else if !trusted(hops[|hops| - 1]) then Some(hops[|hops| - 1])
    else LastUntrusted(hops[..|hops| - 1], trusted)
  }

  /** Hop `i` is no proxy, and every hop to its right is one. */
  predicate LastHopOut(hops: seq<string>, trusted: string -> bool, i: int) {
    0 <= i < |hops| && !trusted(hops[i]) && forall j | i < j < |hops| :: trusted(hops[j])
  }

  /** Each hop is a piece of the header between commas, without the blanks around it, and none is
      empty; a header of blanks has none. */
  lemma {:induction false} HopsArePieces(pieces: seq<string>, hop: string)
    ensures hop in Stripped(pieces) <==> hop != "" && exists i :: 0 <= i < |pieces| && Text.Strip(pieces[i]) == hop
    decreases |pieces|
  {
    hide Text.Strip;
    if pieces != [] {
      HopsArePieces(pieces[1..], hop);
      if hop in Stripped(pieces[1..]) {
        var i :| 0 <= i < |pieces[1..]| && Text.Strip(pieces[1..][i]) == hop;
        assert Text.Strip(pieces[i + 1]) == hop;
      }
      if i :| 0 <= i < |pieces| && Text.Strip(pieces[i]) == hop {
        assert i > 0 ==> Text.Strip(pieces[1..][i - 1]) == hop;
      }
    }
  }

  function Resolved(peer: Option<string>, forwarded: string, proxies: Proxies): Option<string> {
    if peer.None? || !proxies.configured || !proxies.trusted(peer.value) then peer
    else match LastUntrusted(Hops(forwarded), proxies.trusted)
      case Some(hop) => Some(hop)
      case None => peer
  }

  method NonBlankHops(forwarded: string) returns (hops: seq<string>)
    ensures hops == Hops(forwarded)
  {
    hide Text.Split, Text.Strip;
    var pieces := Text.Split(forwarded, ',');
    hops := [];
    for i := 0 to |pieces|
      invariant hops + Stripped(pieces[i..]) == Hops(forwarded)
    {
      var hop := Text.Strip(pieces[i]);
      assert pieces[i..][1..] == pieces[i + 1..];
      if hop != "" {
        hops := hops + [hop];
      }
    }
  }

  method ResolveClientIp(peer: Option<string>, forwarded: string, proxies: Proxies) returns (address: Option<string>)
    ensures address == Resolved(peer, forwarded, proxies)
    ensures peer.None? || !proxies.configured || !proxies.trusted(peer.value) ==> address == peer
    ensures peer.Some? && proxies.configured && proxies.trusted(peer.value) ==>
      || (exists i :: LastHopOut(Hops(forwarded), proxies.trusted, i) && address == Some(Hops(forwarded)[i]))
      || ((forall hop | hop in Hops(forwarded) :: proxies.trusted(hop)) && address == peer)
  {
    if peer.None? || !proxies.configured || !proxies.trusted(peer.value) {
      return peer;
    }
    var hops := NonBlankHops(forwarded);
    hide Hops;
    var n := |hops|;
    assert hops[..n] == hops;
    while n > 0
      invariant 0 <= n <= |hops|
      invariant forall j | n <= j < |hops| :: proxies.trusted(hops[j])
      invariant LastUntrusted(hops[..n], proxies.trusted) == LastUntrusted(hops, proxies.trusted)
    {
      assert hops[..n][..n - 1] == hops[..n - 1];
      if !proxies.trusted(hops[n - 1]) {
        assert LastHopOut(hops, proxies.trusted, n - 1);
        return Some(hops[n - 1]);
      }
      n := n - 1;
    }
    return peer;
  }

  lemma {:induction false} StrippedJoin(a: seq<string>, b: seq<string>)
    ensures Stripped(a + b) == Stripped(a) + Stripped(b)
    decreases |a|
  {
    if a == [] {
      assert a + b == b;
    } else {
      assert (a + b)[1..] == a[1..] + b;
      StrippedJoin(a[1..], b);
    }
  }

  lemma {:induction false} LastUntrustedIgnoresPrefix(a: seq<string>, b: seq<string>, trusted: string -> bool)
    requires exists hop | hop in b :: !trusted(hop)
    ensures LastUntrusted(a + b, trusted) == LastUntrusted(b, trusted)
    decreases |b|
  {
    var last := b[|b| - 1];
    assert (a + b)[|a + b| - 1] == last;
    if trusted(last) {
      var init := b[..|b| - 1];
      assert (a + b)[..|a + b| - 1] == a + init;
      assert b == init + [last];
      LastUntrustedIgnoresPrefix(a, init, trusted);
    }
  }

  lemma {:induction false} LastUntrustedIsOne(hops: seq<string>, trusted: string -> bool)
    ensures match LastUntrusted(hops, trusted)
            case Some(hop) => hop in hops && !trusted(hop)
            case None => forall hop | hop in hops :: trusted(hop)
    decreases |hops|
  {
    if hops != [] && trusted(hops[|hops| - 1]) {
      assert hops == hops[..|hops| - 1] + [hops[|hops| - 1]];
      LastUntrustedIsOne(hops[..|hops| - 1], trusted);
    }
  }

  /** Whatever a caller puts in front of the chain its proxies report changes nothing, as
      long as that chain names one address that is not a proxy. */
  lemma ForgedPrefixIgnored(peer: Option<string>, prefix: string, chain: string, proxies: Proxies)
    requires exists hop | hop in Hops(chain) :: !proxies.trusted(hop)
    ensures Resolved(peer, prefix + [','] + chain, proxies) == Resolved(peer, chain, proxies)
  {
    Text.SplitJoin(prefix, ',', chain);
    StrippedJoin(Text.Split(prefix, ','), Text.Split(chain, ','));
    LastUntrustedIgnoresPrefix(Hops(prefix), Hops(chain), proxies.trusted);
  }

  /** The condition is needed: behind proxies only, the prefix decides. */
  lemma AllProxyChainDefersToPrefix(peer: string, prefix: string, chain: string, proxies: Proxies)
    requires proxies.configured && proxies.trusted(peer)
    requires forall hop | hop in Hops(chain) :: proxies.trusted(hop)
    ensures Resolved(Some(peer), prefix + [','] + chain, proxies) == Resolved(Some(peer), prefix, proxies)
  {
    Text.SplitJoin(prefix, ',', chain);
    StrippedJoin(Text.Split(prefix, ','), Text.Split(chain, ','));
    TrustedSuffixSkipped(Hops(prefix), Hops(chain), proxies.trusted);
  }

  lemma {:induction false} TrustedSuffixSkipped(a: seq<string>, b: seq<string>, trusted: string -> bool)
    requires forall hop | hop in b :: trusted(hop)
    ensures LastUntrusted(a + b, trusted) == LastUntrusted(a, trusted)
    decreases |b|
  {
    if b == [] {
      assert a + b == a;
    } else {
      var init := b[..|b| - 1];
      assert (a + b)[|a + b| - 1] == b[|b| - 1] && b[|b| - 1] in b;
      assert (a + b)[..|a + b| - 1] == a + init;
      TrustedSuffixSkipped(a, init, trusted);
    }
  }
}
